/** The client's persistent state in `localStorage` (assets/app.js): the vault of past runs under
    `pb_vault_v1` (newest first, at most ten), the unlock token under `pb_token` with its expiry in
    milliseconds under `pb_token_exp`, and the text the coach button builds from the newest five runs. */
module ClientStore {
  import opened JsText
  import opened JsValues

  const VaultKey := "pb_vault_v1"
  const TokenKey := "pb_token"
  const TokenExpKey := "pb_token_exp"

  /** `house.promptMaxChars`, `house.coachMaxChars` and the fixed clip of a saved reply. */
  const PromptMaxChars := 5000
  const CoachMaxChars := 8000
  const ReplyMaxChars := 4000

  /** The vault keeps this many runs. */
  const VaultCapacity := 10

  /** `JSON.stringify` on the arrays and objects the client stores; total, so it is a parameter. */
  type JsonWriter = JsValue -> string

  /** `localStorage.getItem(key) || ""`. */
  function Lookup(entries: map<string, string>, key: string): string
  {
    if key in entries then entries[key] else ""
  }

  /** `write(v)` is text that `parse` reads back as `v`. */
  predicate Writes(write: JsonWriter, parse: JsonParser, v: JsValue)
  {
    write(v) != "" && parse(write(v)) == Some(v)
  }

  // ---------------------------------------------------------------- the vault, as a function of the store

  /** `loadVault()`: the stored array, or `[]` when the key is missing or empty, the text does not parse,
      or it parses to something other than an array. */
  function VaultOf(entries: map<string, string>, parse: JsonParser): (v: seq<JsValue>)
  {
    var raw := Lookup(entries, VaultKey);
    if raw == "" then []
    else match parse(raw)
      case Some(Arr(es)) => es
      case _ => []
  }

  /** The store after `saveVault(arr)`: the first ten entries, written as JSON. */
  function VaultSaved(entries: map<string, string>, arr: seq<JsValue>, write: JsonWriter): (r: map<string, string>)
    ensures VaultKey in r && r[VaultKey] == write(Arr(Take(arr, VaultCapacity)))
    ensures forall k :: k != VaultKey ==> (k in r <==> k in entries) && Lookup(r, k) == Lookup(entries, k)
  {
    entries[VaultKey := write(Arr(Take(arr, VaultCapacity)))]
  }

  /** `item.aiReply = reply` on a vault entry: an object gets the property; assigning to a primitive is
      ignored (the script is not strict), and the property set on an array is one `JSON.stringify` drops. */
  function WithReply(item: JsValue, reply: string): (r: JsValue)
    ensures item.Obj? ==>
      r.Obj? && Get(r, "aiReply") == Str(reply) && forall k :: k != "aiReply" ==> Get(r, k) == Get(item, k)
    ensures !item.Obj? ==> r == item
  {
    if item.Obj? then Obj(item.props["aiReply" := Str(reply)]) else item
  }

  /** The store after the vault's "Save reply" button for entry `idx`, whose textarea holds `reply`:
      nothing when there is no such entry or it is falsy; otherwise the entry with the trimmed reply,
      saved back with the rest of the vault. */
  function ReplySaved(entries: map<string, string>, idx: int, reply: string, parse: JsonParser, write: JsonWriter): map<string, string>
  {
    var v := VaultOf(entries, parse);
    if idx < 0 || idx >= |v| || !Truthy(v[idx]) then entries
    else VaultSaved(entries, v[idx := WithReply(v[idx], Trim(reply))], write)
  }

  // ---------------------------------------------------------------- the token, as a function of the store

  /** `Number(localStorage.getItem("pb_token_exp") || "0")`; None is NaN. */
  function ExpiryOf(entries: map<string, string>): Option<int>
  {
    var raw := Lookup(entries, TokenExpKey);
    StringToNumber(if raw == "" then "0" else raw)
  }

  /** `exp && Date.now() > exp`: a non-zero, non-NaN expiry that lies before `now`. */
  predicate Expired(entries: map<string, string>, now: int)
  {
    var exp := ExpiryOf(entries);
    exp.Some? && exp.value != 0 && now > exp.value
  }

  /** `getToken()` at time `now`: the store afterwards and the token it returns. An expired token is
      removed together with its expiry. */
  function TokenRead(entries: map<string, string>, now: int): (map<string, string>, string)
  {
    var t := Trim(Lookup(entries, TokenKey));
    if t == "" then (entries, "")
    else if Expired(entries, now) then (entries - {TokenKey, TokenExpKey}, "")
    else (entries, t)
  }

  /** `setToken(token, expiresAtISO)`, `parseDate` standing for `Date.parse` (None is NaN). The expiry
      is written only when it is non-zero and not NaN; otherwise an earlier expiry stays in the store. */
  function TokenSet(entries: map<string, string>, token: string, expiresAt: string, parseDate: string -> Option<int>): map<string, string>
  {
    var withToken := entries[TokenKey := token];
    var expMs := if expiresAt != "" then parseDate(expiresAt) else Some(0);
    if expMs.Some? && expMs.value != 0 then withToken[TokenExpKey := IntToString(expMs.value)] else withToken
  }

  /** `clearToken()`. */
  function TokenCleared(entries: map<string, string>): (r: map<string, string>)
    ensures forall k :: k in r <==> k in entries && k != TokenKey && k != TokenExpKey
    ensures forall k :: k in r ==> r[k] == entries[k]
  {
    entries - {TokenKey, TokenExpKey}
  }

  // ---------------------------------------------------------------- the store itself

  /** The browser's `localStorage` for this origin, reduced to the keys this code uses. Writes are
      assumed to succeed (the quota errors the source swallows are not modelled). */
  class LocalStorage {
    var entries: map<string, string>

    constructor ()
      ensures entries == map[]
    {
      entries := map[];
    }

    /** `loadVault()`. */
    method LoadVault(parse: JsonParser) returns (v: seq<JsValue>)
      ensures v == VaultOf(entries, parse)
    {
      var raw := Lookup(entries, VaultKey);
      v := [];
      if raw != "" {
        var arr := parse(raw);
        if arr.Some? && arr.value.Arr? {
          v := arr.value.elems;
        }
      }
    }

    /** `saveVault(arr)`. */
    method SaveVault(arr: seq<JsValue>, write: JsonWriter)
      modifies this
      ensures entries == VaultSaved(old(entries), arr, write)
    {
      entries := entries[VaultKey := write(Arr(Take(arr, VaultCapacity)))];
    }

    /** `addVaultItem(item)`: load, put the item in front, save. */
    method AddVaultItem(item: JsValue, parse: JsonParser, write: JsonWriter)
      modifies this
      ensures entries == VaultSaved(old(entries), [item] + VaultOf(old(entries), parse), write)
    {
      var v := LoadVault(parse);
      v := [item] + v;
      SaveVault(v, write);
    }

    /** The "Save reply" button of vault entry `idx`. */
    method SaveReply(idx: int, reply: string, parse: JsonParser, write: JsonWriter)
      modifies this
      ensures entries == ReplySaved(old(entries), idx, reply, parse, write)
    {
      var v := LoadVault(parse);
      if idx < 0 || idx >= |v| || !Truthy(v[idx]) {
        return;
      }
      var item := WithReply(v[idx], Trim(reply));
      v := v[idx := item];
      SaveVault(v, write);
    }

    /** `getToken()` at time `now`. */
    method GetToken(now: int) returns (t: string)
      modifies this
      ensures (entries, t) == TokenRead(old(entries), now)
    {
      t := Trim(Lookup(entries, TokenKey));
      var raw := Lookup(entries, TokenExpKey);
      var exp := StringToNumber(if raw == "" then "0" else raw);
      if t == "" {
        return "";
      }
      if exp.Some? && exp.value != 0 && now > exp.value {
        entries := entries - {TokenKey, TokenExpKey};
        return "";
      }
    }

    /** `setToken(token, expiresAtISO)`. */
    method SetToken(token: string, expiresAt: string, parseDate: string -> Option<int>)
      modifies this
      ensures entries == TokenSet(old(entries), token, expiresAt, parseDate)
    {
      entries := entries[TokenKey := token];
      var expMs := if expiresAt != "" then parseDate(expiresAt) else Some(0);
      if expMs.Some? && expMs.value != 0 {
        entries := entries[TokenExpKey := IntToString(expMs.value)];
      }
    }

    /** `clearToken()`. */
    method ClearToken()
      modifies this
      ensures entries == TokenCleared(old(entries))
    {
      entries := entries - {TokenKey, TokenExpKey};
    }
  }

  // ---------------------------------------------------------------- vault properties

  /** Nothing comes out of a missing, unreadable or non-array vault; a stored array comes out as it is. */
  lemma LoadVaultFallsBack(entries: map<string, string>, parse: JsonParser)
    ensures VaultOf(entries, parse) != [] ==>
      VaultKey in entries && parse(entries[VaultKey]).Some? && parse(entries[VaultKey]).value.Arr?
    ensures (VaultKey in entries && entries[VaultKey] != "" && parse(entries[VaultKey]).Some?
      && parse(entries[VaultKey]).value.Arr?) ==> VaultOf(entries, parse) == parse(entries[VaultKey]).value.elems
  {
  }

  /** `arr.slice(0, 10)` after `unshift(item)` is the item followed by the first nine old entries. */
  lemma TakeAfterUnshift(item: JsValue, v: seq<JsValue>)
    ensures Take([item] + v, VaultCapacity) == [item] + Take(v, VaultCapacity - 1)
  {
    if |v| >= VaultCapacity - 1 {
      assert ([item] + v)[..VaultCapacity] == [item] + v[..VaultCapacity - 1];
    }
  }

  /** With a writer that `JSON.parse` reads back, the saved vault loads as its first ten entries. */
  lemma SaveThenLoad(entries: map<string, string>, arr: seq<JsValue>, parse: JsonParser, write: JsonWriter)
    requires Writes(write, parse, Arr(Take(arr, VaultCapacity)))
    ensures VaultOf(VaultSaved(entries, arr, write), parse) == Take(arr, VaultCapacity)
    ensures |VaultOf(VaultSaved(entries, arr, write), parse)| <= VaultCapacity
  {
  }

  /** Adding a run puts it first and keeps the nine newest older runs in their order. */
  lemma AddThenLoad(entries: map<string, string>, item: JsValue, parse: JsonParser, write: JsonWriter)
    requires Writes(write, parse, Arr(Take([item] + VaultOf(entries, parse), VaultCapacity)))
    ensures var after := VaultSaved(entries, [item] + VaultOf(entries, parse), write);
      VaultOf(after, parse) == [item] + Take(VaultOf(entries, parse), VaultCapacity - 1)
  {
    var v := VaultOf(entries, parse);
    SaveThenLoad(entries, [item] + v, parse, write);
    TakeAfterUnshift(item, v);
  }

  /** Saving a reply for a missing or falsy entry writes nothing. For an object entry among the first
      ten, the reloaded entry carries the trimmed reply and every other property as before, and the
      other entries are unchanged. */
  lemma SaveReplyThenLoad(entries: map<string, string>, idx: int, reply: string, parse: JsonParser, write: JsonWriter)
    ensures var v := VaultOf(entries, parse);
      idx < 0 || idx >= |v| || !Truthy(v[idx]) ==> ReplySaved(entries, idx, reply, parse, write) == entries
    ensures var v := VaultOf(entries, parse);
      (0 <= idx < |v| && idx < VaultCapacity && v[idx].Obj?
      && Writes(write, parse, Arr(Take(v[idx := WithReply(v[idx], Trim(reply))], VaultCapacity)))) ==>
        var w := VaultOf(ReplySaved(entries, idx, reply, parse, write), parse);
        |w| == (if |v| < VaultCapacity then |v| else VaultCapacity)
        && Get(w[idx], "aiReply") == Str(Trim(reply))
        && (forall k :: k != "aiReply" ==> Get(w[idx], k) == Get(v[idx], k))
        && (forall j :: 0 <= j < |w| && j != idx ==> w[j] == v[j])
  {
    var v := VaultOf(entries, parse);
    if 0 <= idx < |v| && idx < VaultCapacity && v[idx].Obj? {
      var u := v[idx := WithReply(v[idx], Trim(reply))];
      if Writes(write, parse, Arr(Take(u, VaultCapacity))) {
        SaveThenLoad(entries, u, parse, write);
      }
    }
  }

  // ---------------------------------------------------------------- token properties

  /** What `getToken` returns: `""` when nothing is stored or the stored token has expired (and only
      then), otherwise the trimmed token with the store untouched; an expired token is removed with its
      expiry and nothing else. */
  lemma GetTokenOutcomes(entries: map<string, string>, now: int)
    ensures var (after, t) := TokenRead(entries, now);
      (t == "" <==> Trim(Lookup(entries, TokenKey)) == "" || Expired(entries, now))
      && (t != "" ==> t == Trim(Lookup(entries, TokenKey)) && after == entries)
      && (Trim(Lookup(entries, TokenKey)) != "" && Expired(entries, now) ==> after == TokenCleared(entries))
      && (Trim(Lookup(entries, TokenKey)) == "" ==> after == entries)
  {
  }

  /** Reading the token a second time at the same moment gives the same answer and changes nothing more. */
  lemma GetTokenTwice(entries: map<string, string>, now: int)
    ensures var (after, t) := TokenRead(entries, now);
      TokenRead(after, now) == (after, t)
  {
    var t := Trim(Lookup(entries, TokenKey));
    if t != "" && Expired(entries, now) {
      assert TokenKey !in entries - {TokenKey, TokenExpKey};
    }
  }

  /** A token stored with a non-zero expiry is read back trimmed until that moment, and is dropped
      (with its expiry) once the clock is past it. */
  lemma SetThenGet(entries: map<string, string>, token: string, expiresAt: string, parseDate: string -> Option<int>, now: int)
    requires Trim(token) != "" && expiresAt != ""
    requires parseDate(expiresAt).Some? && parseDate(expiresAt).value != 0
    ensures var stored := TokenSet(entries, token, expiresAt, parseDate);
      TokenRead(stored, now) ==
        if now > parseDate(expiresAt).value then (TokenCleared(stored), "") else (stored, Trim(token))
  {
    StoredExpiry(entries, token, expiresAt, parseDate);
    var stored := TokenSet(entries, token, expiresAt, parseDate);
    assert Lookup(stored, TokenKey) == token;
  }

  /** The expiry `setToken` writes reads back as the number `Date.parse` gave. */
  lemma StoredExpiry(entries: map<string, string>, token: string, expiresAt: string, parseDate: string -> Option<int>)
    requires expiresAt != "" && parseDate(expiresAt).Some? && parseDate(expiresAt).value != 0
    ensures ExpiryOf(TokenSet(entries, token, expiresAt, parseDate)) == parseDate(expiresAt)
  {
    var n := parseDate(expiresAt).value;
    var stored := TokenSet(entries, token, expiresAt, parseDate);
    assert Lookup(stored, TokenExpKey) == IntToString(n);
    NumberOfIntToString(n);
    assert IntToString(n) != "" by { assert |NatToString(if n < 0 then -n else n)| > 0; }
  }

  /** Without an expiry, `setToken` leaves whatever expiry an earlier token left behind, so a fresh
      token is dropped at once when that old expiry has passed. */
  lemma SetWithoutExpiryKeepsOldExpiry(entries: map<string, string>, token: string, parseDate: string -> Option<int>, now: int)
    requires Trim(token) != ""
    ensures var stored := TokenSet(entries, token, "", parseDate);
      Lookup(stored, TokenExpKey) == Lookup(entries, TokenExpKey)
      && (Expired(entries, now) <==> TokenRead(stored, now).1 == "")
  {
    var stored := TokenSet(entries, token, "", parseDate);
    assert ExpiryOf(stored) == ExpiryOf(entries);
  }

  /** After `clearToken` no token is read, whatever the time. */
  lemma ClearThenGet(entries: map<string, string>, now: int)
    ensures TokenRead(TokenCleared(entries), now) == (TokenCleared(entries), "")
  {
    assert TokenKey !in TokenCleared(entries);
  }

  // ---------------------------------------------------------------- the coach request

  /** One entry of `items`: the run's prompt and reply as strings, clipped. */
  datatype CoachItem = CoachItem(prompt: string, aiReply: string)

  /** What pressing "Coach me" does before any request: stop for a missing token, throw on a
      `null` entry among the newest five (reading `.prompt` of it), stop when the vault is empty, or
      send `{ text, items }`. */
  datatype CoachStart = Locked | Thrown | NoSavedRuns | Ready(items: seq<CoachItem>, text: string)

  /** `String(x || "")`. */
  function FieldText(x: JsValue, key: string): string
  {
    JsString(Or(Get(x, key), Str("")))
  }

  /** `x.prompt` and `x.aiReply` sliced to their limits, counted in UTF-16 code units. */
  function ItemOf(x: JsValue): (it: CoachItem)
    ensures Utf16Length(it.prompt) <= PromptMaxChars && Utf16Length(it.aiReply) <= ReplyMaxChars
    ensures it.prompt <= FieldText(x, "prompt") && it.aiReply <= FieldText(x, "aiReply")
    ensures Utf16Length(FieldText(x, "prompt")) <= PromptMaxChars ==> it.prompt == FieldText(x, "prompt")
    ensures Utf16Length(FieldText(x, "aiReply")) <= ReplyMaxChars ==> it.aiReply == FieldText(x, "aiReply")
  {
    CoachItem(Utf16Take(FieldText(x, "prompt"), PromptMaxChars), Utf16Take(FieldText(x, "aiReply"), ReplyMaxChars))
  }

  function Items(xs: seq<JsValue>): (r: seq<CoachItem>)
    ensures |r| == |xs| && forall k :: 0 <= k < |xs| ==> r[k] == ItemOf(xs[k])
  {
    if xs == [] then [] else [ItemOf(xs[0])] + Items(xs[1..])
  }

  /** Section `n`: the prompt under `#n PROMPT`, then the trimmed reply under `#n OTHER_AI_REPLY` when
      there is one. */
  function Section(n: nat, it: CoachItem): string
  {
    var r := Trim(it.aiReply);
    "#" + NatToString(n) + " PROMPT\n" + it.prompt + "\n"
      + (if r != "" then "\n#" + NatToString(n) + " OTHER_AI_REPLY\n" + r + "\n" else "")
  }

  /** The sections of `items`, numbered from `first`. */
  function Sections(items: seq<CoachItem>, first: nat): (r: seq<string>)
    ensures |r| == |items|
  {
    if items == [] then [] else [Section(first, items[0])] + Sections(items[1..], first + 1)
  }

  /** Item `k` becomes section `first + k`: the numbering follows the vault order. */
  lemma {:induction false} SectionsNumbered(items: seq<CoachItem>, first: nat, k: nat)
    requires k < |items|
    ensures Sections(items, first)[k] == Section(first + k, items[k])
    decreases k
  {
    if k > 0 {
      SectionsNumbered(items[1..], first + 1, k - 1);
    }
  }

  /** `combined`: the sections numbered from 1, separated by blank lines. */
  function Combined(items: seq<CoachItem>): string
  {
    JoinWith(Sections(items, 1), "\n\n")
  }

  predicate Nullish(x: JsValue)
  {
    x.Null? || x.Undefined?
  }

  predicate HasNullish(xs: seq<JsValue>)
  {
    exists k :: 0 <= k < |xs| && Nullish(xs[k])
  }

  /** The coach button's preparation, given what `getToken()` returned and the loaded vault. */
  function CoachInput(token: string, vault: seq<JsValue>): (r: CoachStart)
    ensures r.Locked? <==> token == ""
    ensures r.Thrown? <==> token != "" && HasNullish(Take(vault, 5))
    ensures r.NoSavedRuns? <==> token != "" && vault == []
  {
    if token == "" then Locked
    else
      var newest := Take(vault, 5);
      if HasNullish(newest) then Thrown
      else
        var items := Items(newest);
        if items == [] then NoSavedRuns
        else Ready(items, Utf16Take(Combined(items), CoachMaxChars))
  }

  /** What is sent: one to five items, the newest runs in vault order, each clipped to its limits. */
  lemma CoachItemsBounds(token: string, vault: seq<JsValue>)
    requires CoachInput(token, vault).Ready?
    ensures var r := CoachInput(token, vault);
      1 <= |r.items| <= 5 && |r.items| == |Take(vault, 5)|
      && (forall k :: 0 <= k < |r.items| ==>
            r.items[k] == ItemOf(vault[k])
            && Utf16Length(r.items[k].prompt) <= PromptMaxChars && Utf16Length(r.items[k].aiReply) <= ReplyMaxChars)
  {
    var newest := Take(vault, 5);
    assert CoachInput(token, vault).items == Items(newest);
    assert forall k :: 0 <= k < |newest| ==> newest[k] == vault[k];
  }

  /** The text sent is the start of the combined sections, at most 8000 UTF-16 code units long: all
      of them when they fit, otherwise 8000 units, or 7999 when the 8000th unit would split a
      surrogate pair. */
  lemma CoachTextBounds(token: string, vault: seq<JsValue>)
    requires CoachInput(token, vault).Ready?
    ensures var r := CoachInput(token, vault);
      var c := Combined(r.items);
      r.text <= c && Utf16Length(r.text) <= CoachMaxChars
      && (Utf16Length(c) <= CoachMaxChars ==> r.text == c)
      && (Utf16Length(c) > CoachMaxChars ==> Utf16Length(r.text) >= CoachMaxChars - 1)
  {
    var r := CoachInput(token, vault);
    var c := Combined(r.items);
    assert r.text == Utf16Take(c, CoachMaxChars);
  }

  /** `xs.join(sep)` begins with the first element. */
  lemma {:induction false} JoinWithStartsWithFirst(xs: seq<string>, sep: string)
    requires xs != []
    ensures |xs[0]| <= |JoinWith(xs, sep)| && JoinWith(xs, sep)[..|xs[0]|] == xs[0]
    decreases |xs|
  {
    if |xs| > 1 {
      var init := xs[..|xs| - 1];
      JoinWithStartsWithFirst(init, sep);
      assert init[0] == xs[0];
      var j := JoinWith(init, sep);
      assert JoinWith(xs, sep) == j + sep + xs[|xs| - 1];
      assert (j + sep + xs[|xs| - 1])[..|xs[0]|] == j[..|xs[0]|];
    }
  }

  /** Section `n` opens with its header and the prompt. */
  lemma SectionOpens(n: nat, it: CoachItem)
    ensures var head := "#" + NatToString(n) + " PROMPT\n" + it.prompt;
      |head| <= |Section(n, it)| && Section(n, it)[..|head|] == head
  {
    var head := "#" + NatToString(n) + " PROMPT\n" + it.prompt;
    var r := Trim(it.aiReply);
    var rest := "\n" + (if r != "" then "\n#" + NatToString(n) + " OTHER_AI_REPLY\n" + r + "\n" else "");
    assert Section(n, it) == head + rest;
    assert (head + rest)[..|head|] == head;
  }

  /** A prefix of a prefix is a prefix. */
  lemma PrefixOfPrefix(a: string, b: string, h: string)
    requires |b| <= |a| && a[..|b|] == b
    requires |h| <= |b| && b[..|h|] == h
    ensures |h| <= |a| && a[..|h|] == h
  {
    assert a[..|h|] == a[..|b|][..|h|];
  }

  /** The combined text opens with section 1. */
  lemma CombinedOpens(items: seq<CoachItem>)
    requires items != []
    ensures var head := "#1 PROMPT\n" + items[0].prompt;
      |head| <= |Combined(items)| && Combined(items)[..|head|] == head
  {
    var sections := Sections(items, 1);
    var first := sections[0];
    SectionOpens(1, items[0]);
    assert NatToString(1) == "1";
    JoinWithStartsWithFirst(sections, "\n\n");
    PrefixOfPrefix(JoinWith(sections, "\n\n"), first, "#1 PROMPT\n" + items[0].prompt);
  }

  /** The header of section 1 and a clipped prompt take at most 5010 code units. */
  lemma HeadFits(prompt: string)
    requires Utf16Length(prompt) <= PromptMaxChars
    ensures Utf16Length("#1 PROMPT\n" + prompt) <= CoachMaxChars
  {
    var header := "#1 PROMPT\n";
    assert Utf16Length(header) == |header| by {
      Utf16LengthOfBmp(header);
    }
    Utf16LengthAppend(header, prompt);
  }

  /** Clipping the combined text to 8000 code units keeps section 1's header and prompt. */
  lemma ClipKeepsFirstPrompt(items: seq<CoachItem>)
    requires items != [] && Utf16Length(items[0].prompt) <= PromptMaxChars
    ensures "#1 PROMPT\n" + items[0].prompt <= Utf16Take(Combined(items), CoachMaxChars)
  {
    CombinedOpens(items);
    HeadFits(items[0].prompt);
    Utf16TakeKeepsPrefix("#1 PROMPT\n" + items[0].prompt, Combined(items), CoachMaxChars);
  }

  /** The newest run's prompt, under the header of section 1, always survives the clip whole:
      a prompt is at most 5000 code units, its header 10, and the text keeps 8000. */
  lemma CoachTextOpensWithNewest(token: string, vault: seq<JsValue>)
    requires CoachInput(token, vault).Ready?
    ensures var r := CoachInput(token, vault);
      r.items[0] == ItemOf(vault[0]) && "#1 PROMPT\n" + ItemOf(vault[0]).prompt <= r.text
  {
    var r := CoachInput(token, vault);
    CoachItemsBounds(token, vault);
    assert r.text == Utf16Take(Combined(r.items), CoachMaxChars);
    ClipKeepsFirstPrompt(r.items);
  }

  /** After a run is added, the coach request is built from it first. */
  lemma AddedRunIsCoachedFirst(entries: map<string, string>, item: JsValue, parse: JsonParser, write: JsonWriter, token: string)
    requires token != "" && !Nullish(item)
    requires Writes(write, parse, Arr(Take([item] + VaultOf(entries, parse), VaultCapacity)))
    requires forall k :: 0 <= k < |VaultOf(entries, parse)| && k < 4 ==> !Nullish(VaultOf(entries, parse)[k])
    ensures var r := CoachInput(token, VaultOf(VaultSaved(entries, [item] + VaultOf(entries, parse), write), parse));
      r.Ready? && r.items[0] == ItemOf(item)
  {
    var before := VaultOf(entries, parse);
    AddThenLoad(entries, item, parse, write);
    var v := VaultOf(VaultSaved(entries, [item] + before, write), parse);
    assert v == [item] + Take(before, VaultCapacity - 1);
    forall k | 0 <= k < |v| && k < 5 ensures !Nullish(v[k]) {
      if k > 0 {
        assert v[k] == before[k - 1];
      }
    }
    assert Take(v, 5)[0] == item;
  }
}
