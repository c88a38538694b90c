/** The client's payload normalisers (assets/app.js): `normalizePromptCheckPayload` at top level, which
    the Buddy page uses, and `normalizeCoachPayload`, both at top level and as declared inside
    `initVault`, where it shadows the top-level one for the coaching flow; plus `cleanList`, which
    trims the coach lists for display.

    Objects are `JsValue`s; `JSON.parse` is the parameter `parse`, and the `parseJsonFromText` each
    normaliser calls is the parameter `read`, which `ReaderOf` fixes for each declaration. */
module ClientNormalize {
  import opened JsText
  import opened JsValues
  import opened ClientExtract

  // ---------------------------------------------------------------- the reader in scope

  /** Which declaration: the top-level one reads text with the plain reader and unwraps a `result`
      object; the one inside `initVault` reads with the repairing reader and does not unwrap. */
  datatype Variant = TopLevel | VaultInner

  /** A `parseJsonFromText`: text to the value it reads, `null` when it reads nothing. */
  type TextReader = string -> JsValue

  /** The `parseJsonFromText` in scope for each variant. */
  function ReaderOf(variant: Variant, parse: JsonParser): (read: TextReader)
    ensures variant.TopLevel? ==> forall txt :: read(txt) == ParseJsonFromText(txt, parse)
    ensures variant.VaultInner? ==> forall txt :: read(txt) == ParseJsonRepairing(txt, parse)
  {
    match variant
    case TopLevel => (txt: string) => ParseJsonFromText(txt, parse)
    case VaultInner => (txt: string) => ParseJsonRepairing(txt, parse)
  }

  // ---------------------------------------------------------------- normalizePromptCheckPayload

  /** `unwrap(x)`: a `result` object inside an object replaces it. */
  function Unwrap(x: JsValue): (r: JsValue)
    ensures r == x || r == Get(x, "result")
    ensures IsObjectLike(Get(x, "result")) ==> r == Get(x, "result")
  {
    if IsObjectLike(x) && IsObjectLike(Get(x, "result")) then Get(x, "result") else x
  }

  /** `.filter(Boolean)` over strings. */
  function NonEmpty(xs: seq<string>): (r: seq<string>)
    ensures |r| <= |xs|
    ensures forall k :: 0 <= k < |r| ==> r[k] != ""
  {
    if xs == [] then []
    else if xs[0] == "" then NonEmpty(xs[1..])
    else [xs[0]] + NonEmpty(xs[1..])
  }

  /** The filter keeps exactly the non-empty strings. */
  lemma {:induction false} NonEmptyKeeps(xs: seq<string>)
    ensures forall w :: w in NonEmpty(xs) <==> w in xs && w != ""
    decreases |xs|
  {
    if xs != [] {
      NonEmptyKeeps(xs[1..]);
      assert xs == [xs[0]] + xs[1..];
    }
  }

  /** `toList(v)`: an array becomes the strings of its elements with the empty ones dropped (they are
      not trimmed); a string with something besides whitespace becomes its trimmed self; anything
      else the empty list. */
  function ToList(v: JsValue): (r: seq<string>)
    ensures forall k :: 0 <= k < |r| ==> r[k] != ""
    ensures !v.Arr? && !v.Str? ==> r == []
  {
    match v
    case Arr(es) => NonEmpty(ElementStrings(es))
    case Str(s) => if Trim(s) != "" then [Trim(s)] else []
    case _ => []
  }

  /** An array gives the string of every element whose string is not empty, and nothing else. */
  lemma ToListOfArray(es: seq<JsValue>)
    ensures forall k :: 0 <= k < |es| && JsString(es[k]) != "" ==> JsString(es[k]) in ToList(Arr(es))
    ensures forall w :: w in ToList(Arr(es)) ==> exists k :: 0 <= k < |es| && w == JsString(es[k])
  {
    var ss := ElementStrings(es);
    NonEmptyKeeps(ss);
    forall k | 0 <= k < |es| && JsString(es[k]) != ""
      ensures JsString(es[k]) in ToList(Arr(es))
    {
      assert ss[k] in ss;
    }
    forall w | w in ToList(Arr(es))
      ensures exists k :: 0 <= k < |es| && w == JsString(es[k])
    {
      var i :| 0 <= i < |ss| && ss[i] == w;
      assert w == JsString(es[i]);
    }
  }

  /** A string gives its trimmed self when that is not empty, and nothing when it is all whitespace. */
  lemma ToListOfString(s: string)
    ensures ToList(Str(s)) == [] <==> AllSpace(s)
    ensures ToList(Str(s)) != [] ==> ToList(Str(s)) == [Trim(s)] && Trimmed(Trim(s))
  {
    TrimEmptyIffAllSpace(s);
  }

  /** A list of non-empty strings comes back from `toList` unchanged. */
  lemma {:induction false} ToListOfStrings(ws: seq<string>)
    requires forall k :: 0 <= k < |ws| ==> ws[k] != ""
    ensures ToList(Arr(Strs(ws))) == ws
  {
    ElementStringsOfStrs(ws);
    NonEmptyOfEntries(ws);
  }

  lemma {:induction false} NonEmptyOfEntries(ws: seq<string>)
    requires forall k :: 0 <= k < |ws| ==> ws[k] != ""
    ensures NonEmpty(ws) == ws
    decreases |ws|
  {
    if ws != [] {
      NonEmptyOfEntries(ws[1..]);
    }
  }

  /** The four fields the Buddy page shows. */
  datatype Review = Review(diagnosis: seq<string>, missing: seq<string>, improvements: seq<string>, golden: string)

  /** What every normalised review looks like: list entries are non-empty, the golden prompt trimmed. */
  predicate WellFormed(r: Review)
  {
    (forall k :: 0 <= k < |r.diagnosis| ==> r.diagnosis[k] != "")
    && (forall k :: 0 <= k < |r.missing| ==> r.missing[k] != "")
    && (forall k :: 0 <= k < |r.improvements| ==> r.improvements[k] != "")
    && Trimmed(r.golden)
  }

  /** The returned object, read from `obj` once it is settled: each field takes the first truthy
      of its synonyms. */
  function ReviewFields(obj: JsValue): (r: Review)
    ensures WellFormed(r)
    ensures !obj.Obj? ==> r == Review([], [], [], "")
  {
    Review(
      ToList(Or(Or(Get(obj, "diagnosis"), Get(obj, "mistakes")), Get(obj, "notes"))),
      ToList(Get(obj, "missing")),
      ToList(Or(Or(Get(obj, "improvements"), Get(obj, "fixes")), Get(obj, "suggestions"))),
      Trim(JsString(Or(Or(Or(Get(obj, "golden"), Get(obj, "goldenPrompt")), Get(obj, "prompt")), Str("")))))
  }

  /** The object `normalizePromptCheckPayload` reads its fields from: unwrap a `result` object; read
      a string with `parseJsonFromText`, keeping it as the golden prompt when that gives nothing;
      then anything that is not an object counts as `{}`. */
  function PromptCheckSource(maybe: JsValue, read: TextReader): (obj: JsValue)
    ensures IsObjectLike(obj)
    ensures maybe.Obj? && IsObjectLike(Get(maybe, "result")) ==> obj == Get(maybe, "result")
    ensures maybe.Str? && !Truthy(read(maybe.s)) ==> obj == Obj(map["golden" := maybe])
    ensures !IsObjectLike(maybe) && !maybe.Str? ==> obj == Obj(map[])
  {
    var unwrapped := Unwrap(maybe);
    var read := if unwrapped.Str? then Or(read(unwrapped.s), Obj(map["golden" := unwrapped]))
                else unwrapped;
    if IsObjectLike(read) then read else Obj(map[])
  }

  /** `normalizePromptCheckPayload(maybe)` (top level). */
  function NormalizePromptCheck(maybe: JsValue, read: TextReader): (r: Review)
    ensures WellFormed(r)
    ensures !IsObjectLike(maybe) && !maybe.Str? ==> r == Review([], [], [], "")
  {
    ReviewFields(PromptCheckSource(maybe, read))
  }

  /** A string that does not parse (or parses to a falsy value) becomes the trimmed golden prompt,
      with every list empty. */
  lemma UnparsedTextIsGolden(s: string, read: TextReader)
    requires !Truthy(read(s))
    ensures NormalizePromptCheck(Str(s), read) == Review([], [], [], Trim(s))
  {
    ReviewOfGoldenOnly(s);
  }

  lemma ReviewOfGoldenOnly(g: string)
    ensures ReviewFields(Obj(map["golden" := Str(g)])) == Review([], [], [], Trim(g))
  {
    var obj := Obj(map["golden" := Str(g)]);
    assert Get(obj, "diagnosis") == Get(obj, "mistakes") == Get(obj, "notes") == Undefined;
    assert Get(obj, "missing") == Undefined;
    assert Get(obj, "improvements") == Get(obj, "fixes") == Get(obj, "suggestions") == Undefined;
    assert JsString(Or(Or(Or(Get(obj, "golden"), Get(obj, "goldenPrompt")), Get(obj, "prompt")), Str(""))) == g;
  }

  /** A `result` object is read in place of its wrapper, whatever else the wrapper holds. */
  lemma ResultIsUnwrapped(maybe: JsValue, read: TextReader)
    requires maybe.Obj? && IsObjectLike(Get(maybe, "result"))
    ensures NormalizePromptCheck(maybe, read) == ReviewFields(Get(maybe, "result"))
    ensures NormalizePromptCheck(maybe, read) == NormalizePromptCheck(Obj(map["result" := Get(maybe, "result")]), read)
  {
  }

  /** An object without a `result` object is read as it is. */
  lemma SourceOfObject(props: map<string, JsValue>, read: TextReader)
    requires "result" !in props || !IsObjectLike(props["result"])
    ensures PromptCheckSource(Obj(props), read) == Obj(props)
  {
  }

  /** `mistakes` and `notes` stand for `diagnosis`: an object whose only key is one of them reads
      the same as one with the primary name. */
  lemma DiagnosisSynonyms(syn: string, v: JsValue, read: TextReader)
    requires syn == "mistakes" || syn == "notes"
    ensures NormalizePromptCheck(Obj(map[syn := v]), read) == NormalizePromptCheck(Obj(map["diagnosis" := v]), read)
  {
    SourceOfObject(map[syn := v], read);
    SourceOfObject(map["diagnosis" := v], read);
    DiagnosisOnly(syn, v);
    DiagnosisOnly("diagnosis", v);
  }

  /** An object with one key, a name of the diagnosis list, reads as that list alone. */
  lemma DiagnosisOnly(name: string, v: JsValue)
    requires name == "diagnosis" || name == "mistakes" || name == "notes"
    ensures ReviewFields(Obj(map[name := v])) == Review(ToList(v), [], [], "")
  {
    var a := Obj(map[name := v]);
    assert ToList(Or(Or(Get(a, "diagnosis"), Get(a, "mistakes")), Get(a, "notes"))) == ToList(v);
    assert Get(a, "missing") == Undefined;
    assert Get(a, "improvements") == Get(a, "fixes") == Get(a, "suggestions") == Undefined;
    assert Get(a, "golden") == Get(a, "goldenPrompt") == Get(a, "prompt") == Undefined;
    assert JsString(Str("")) == "";
  }

  /** `fixes` and `suggestions` stand for `improvements`. */
  lemma ImprovementsSynonyms(syn: string, v: JsValue, read: TextReader)
    requires syn == "fixes" || syn == "suggestions"
    ensures NormalizePromptCheck(Obj(map[syn := v]), read) == NormalizePromptCheck(Obj(map["improvements" := v]), read)
  {
    SourceOfObject(map[syn := v], read);
    SourceOfObject(map["improvements" := v], read);
    var a, b := Obj(map[syn := v]), Obj(map["improvements" := v]);
    assert ToList(Or(Or(Get(a, "improvements"), Get(a, "fixes")), Get(a, "suggestions"))) == ToList(v);
    assert ToList(Or(Or(Get(b, "improvements"), Get(b, "fixes")), Get(b, "suggestions"))) == ToList(v);
    assert Get(a, "missing") == Get(b, "missing") == Undefined;
    assert Get(a, "diagnosis") == Get(a, "mistakes") == Get(a, "notes") == Undefined;
    assert Get(b, "diagnosis") == Get(b, "mistakes") == Get(b, "notes") == Undefined;
    assert Get(a, "golden") == Get(a, "goldenPrompt") == Get(a, "prompt") == Undefined;
    assert Get(b, "golden") == Get(b, "goldenPrompt") == Get(b, "prompt") == Undefined;
  }

  /** `goldenPrompt` and `prompt` stand for `golden`. */
  lemma GoldenSynonyms(syn: string, v: JsValue, read: TextReader)
    requires syn == "goldenPrompt" || syn == "prompt"
    ensures NormalizePromptCheck(Obj(map[syn := v]), read) == NormalizePromptCheck(Obj(map["golden" := v]), read)
  {
    SourceOfObject(map[syn := v], read);
    SourceOfObject(map["golden" := v], read);
    var a, b := Obj(map[syn := v]), Obj(map["golden" := v]);
    assert Or(Or(Or(Get(a, "golden"), Get(a, "goldenPrompt")), Get(a, "prompt")), Str("")) == Or(v, Str(""));
    assert Or(Or(Or(Get(b, "golden"), Get(b, "goldenPrompt")), Get(b, "prompt")), Str("")) == Or(v, Str(""));
    assert Get(a, "missing") == Get(b, "missing") == Undefined;
    assert Get(a, "diagnosis") == Get(a, "mistakes") == Get(a, "notes") == Undefined;
    assert Get(b, "diagnosis") == Get(b, "mistakes") == Get(b, "notes") == Undefined;
    assert Get(a, "improvements") == Get(a, "fixes") == Get(a, "suggestions") == Undefined;
    assert Get(b, "improvements") == Get(b, "fixes") == Get(b, "suggestions") == Undefined;
  }

  /** The primary name wins over its synonyms whenever its value is truthy. */
  lemma PrimaryWins(obj: JsValue)
    requires obj.Obj?
    ensures Truthy(Get(obj, "diagnosis")) ==> ReviewFields(obj).diagnosis == ToList(Get(obj, "diagnosis"))
    ensures Truthy(Get(obj, "improvements")) ==> ReviewFields(obj).improvements == ToList(Get(obj, "improvements"))
    ensures Get(obj, "golden").Str? && Get(obj, "golden").s != "" ==> ReviewFields(obj).golden == Trim(Get(obj, "golden").s)
  {
  }

  /** The normalised review as the object the page stores and later passes back in. */
  function ReviewJson(r: Review): (v: JsValue)
    ensures v.Obj? && v.props.Keys == {"diagnosis", "missing", "improvements", "golden"}
  {
    Obj(map["diagnosis" := Arr(Strs(r.diagnosis)), "missing" := Arr(Strs(r.missing)),
            "improvements" := Arr(Strs(r.improvements)), "golden" := Str(r.golden)])
  }

  /** `renderResult` normalises what the run handler already normalised: a second pass changes
      nothing. */
  lemma NormalizeIdempotent(r: Review, read: TextReader)
    requires WellFormed(r)
    ensures NormalizePromptCheck(ReviewJson(r), read) == r
  {
    SourceOfObject(ReviewJson(r).props, read);
    ReviewFieldsOfJson(r);
  }

  lemma ReviewFieldsOfJson(r: Review)
    requires WellFormed(r)
    ensures ReviewFields(ReviewJson(r)) == r
  {
    JsonLists(r);
    JsonGolden(r);
  }

  lemma JsonLists(r: Review)
    requires WellFormed(r)
    ensures ReviewFields(ReviewJson(r)).diagnosis == r.diagnosis
    ensures ReviewFields(ReviewJson(r)).missing == r.missing
    ensures ReviewFields(ReviewJson(r)).improvements == r.improvements
  {
    var v := ReviewJson(r);
    assert Get(v, "diagnosis") == Arr(Strs(r.diagnosis));
    assert Get(v, "missing") == Arr(Strs(r.missing));
    assert Get(v, "improvements") == Arr(Strs(r.improvements));
    ToListOfStrings(r.diagnosis);
    ToListOfStrings(r.missing);
    ToListOfStrings(r.improvements);
  }

  lemma JsonGolden(r: Review)
    requires Trimmed(r.golden)
    ensures ReviewFields(ReviewJson(r)).golden == r.golden
  {
    var v := ReviewJson(r);
    assert Get(v, "golden") == Str(r.golden);
    assert Get(v, "goldenPrompt") == Undefined && Get(v, "prompt") == Undefined;
    assert Or(Or(Or(Get(v, "golden"), Get(v, "goldenPrompt")), Get(v, "prompt")), Str("")) == Str(r.golden);
    JsStringOfStr(r.golden);
    TrimOfTrimmed(r.golden);
  }

  lemma NormalizeTwice(maybe: JsValue, read: TextReader)
    ensures NormalizePromptCheck(ReviewJson(NormalizePromptCheck(maybe, read)), read) == NormalizePromptCheck(maybe, read)
  {
    NormalizeIdempotent(NormalizePromptCheck(maybe, read), read);
  }

  // ---------------------------------------------------------------- normalizeCoachPayload

  /** The coach result as the modal shows it. */
  datatype CoachView = CoachView(mistakes: seq<JsValue>, fixes: seq<JsValue>, metaPrompt: string)

  /** The fields read from a settled object. */
  function CoachFields(obj: JsValue): (r: CoachView)
    ensures Trimmed(r.metaPrompt)
    ensures Get(obj, "mistakes").Arr? ==> r.mistakes == Get(obj, "mistakes").elems
    ensures !Get(obj, "mistakes").Arr? ==> r.mistakes == []
    ensures Get(obj, "fixes").Arr? ==> r.fixes == Get(obj, "fixes").elems
    ensures !Get(obj, "fixes").Arr? ==> r.fixes == []
    ensures Truthy(Get(obj, "metaPrompt")) ==> r.metaPrompt == Trim(JsString(Get(obj, "metaPrompt")))
    ensures !Truthy(Get(obj, "metaPrompt")) && Truthy(Get(obj, "meta")) ==> r.metaPrompt == Trim(JsString(Get(obj, "meta")))
    ensures !Truthy(Get(obj, "metaPrompt")) && !Truthy(Get(obj, "meta")) && Truthy(Get(obj, "raw"))
            ==> r.metaPrompt == Trim(JsString(Get(obj, "raw")))
    ensures !Truthy(Get(obj, "metaPrompt")) && !Truthy(Get(obj, "meta")) && !Truthy(Get(obj, "raw")) ==> r.metaPrompt == ""
  {
    CoachView(ArrayOrEmpty(Get(obj, "mistakes")), ArrayOrEmpty(Get(obj, "fixes")),
              Trim(JsString(Or(Or(Or(Get(obj, "metaPrompt"), Get(obj, "meta")), Get(obj, "raw")), Str("")))))
  }

  /** When either list is missing and `metaPrompt` is text holding an object, that object's fields
      are spread over the outer ones. */
  function MergeMetaPrompt(obj: JsValue, read: TextReader, variant: Variant): (r: JsValue)
    ensures r == obj || (r.Obj? && Get(obj, "metaPrompt").Str? && IsObjectLike(read(Get(obj, "metaPrompt").s)))
  {
    if (!Get(obj, "mistakes").Arr? || !Get(obj, "fixes").Arr?) && Get(obj, "metaPrompt").Str? then
      var parsed := read(Get(obj, "metaPrompt").s);
      if IsObjectLike(parsed) then Spread(obj, parsed) else obj
    else obj
  }

  /** What `normalizeCoachPayload` holds after its first step: a string is read as JSON, and kept as
      the meta-prompt when that gives nothing. */
  function CoachObject(maybe: JsValue, read: TextReader, variant: Variant): (obj: JsValue)
    ensures !maybe.Str? ==> obj == maybe
    ensures maybe.Str? && !Truthy(read(maybe.s)) ==> obj == Obj(map["metaPrompt" := maybe])
    ensures maybe.Str? && Truthy(read(maybe.s)) ==> obj == read(maybe.s)
  {
    if maybe.Str? then Or(read(maybe.s), Obj(map["metaPrompt" := maybe])) else maybe
  }

  /** The top-level declaration replaces an object by its `result` object; the inner one does not. */
  function Settle(obj: JsValue, variant: Variant): (r: JsValue)
    ensures variant.VaultInner? || !IsObjectLike(Get(obj, "result")) ==> r == obj
    ensures variant.TopLevel? && IsObjectLike(Get(obj, "result")) ==> r == Get(obj, "result")
  {
    if variant.TopLevel? && IsObjectLike(Get(obj, "result")) then Get(obj, "result") else obj
  }

  /** `normalizeCoachPayload(maybe)`. */
  function NormalizeCoach(maybe: JsValue, read: TextReader, variant: Variant): (r: CoachView)
    ensures IsObjectLike(maybe) ==> Trimmed(r.metaPrompt)
    ensures !IsObjectLike(maybe) && !maybe.Str? ==> r == CoachView([], [], JsString(Or(maybe, Str(""))))
  {
    var obj := CoachObject(maybe, read, variant);
    if IsObjectLike(obj) then CoachFields(MergeMetaPrompt(Settle(obj, variant), read, variant))
    else CoachView([], [], JsString(Or(maybe, Str(""))))
  }

  /** A text that does not parse to anything truthy becomes the meta-prompt, trimmed, with no lists. */
  lemma UnparsedTextIsMetaPrompt(s: string, read: TextReader, variant: Variant)
    requires !Truthy(read(s))
    ensures NormalizeCoach(Str(s), read, variant) == CoachView([], [], Trim(s))
  {
    MetaPromptObject(s, read, variant);
    CoachFieldsOfMetaPrompt(s);
  }

  lemma MetaPromptObject(s: string, read: TextReader, variant: Variant)
    requires !Truthy(read(s))
    ensures var obj := Obj(map["metaPrompt" := Str(s)]);
            && CoachObject(Str(s), read, variant) == obj
            && Settle(obj, variant) == obj
            && MergeMetaPrompt(obj, read, variant) == obj
  {
  }

  lemma CoachFieldsOfMetaPrompt(s: string)
    ensures CoachFields(Obj(map["metaPrompt" := Str(s)])) == CoachView([], [], Trim(s))
  {
    var obj := Obj(map["metaPrompt" := Str(s)]);
    assert Get(obj, "mistakes") == Get(obj, "fixes") == Undefined;
    assert JsString(Or(Or(Or(Get(obj, "metaPrompt"), Get(obj, "meta")), Get(obj, "raw")), Str(""))) == s;
  }

  /** Both lists present as arrays: they are returned as they are, and `metaPrompt` is never parsed,
      so the reader plays no part. */
  lemma ArraysAreKept(obj: JsValue, read: TextReader, other: TextReader, variant: Variant)
    requires obj.Obj? && Get(obj, "mistakes").Arr? && Get(obj, "fixes").Arr?
    requires variant.TopLevel? ==> !IsObjectLike(Get(obj, "result"))
    ensures NormalizeCoach(obj, read, variant).mistakes == Get(obj, "mistakes").elems
    ensures NormalizeCoach(obj, read, variant).fixes == Get(obj, "fixes").elems
    ensures NormalizeCoach(obj, read, variant) == NormalizeCoach(obj, other, variant)
  {
  }

  /** A list missing and a `metaPrompt` that reads as an object: the parsed fields override the outer
      ones, and the outer ones stay where the parsed object is silent. */
  lemma MetaPromptFieldsOverride(obj: JsValue, read: TextReader, variant: Variant)
    requires obj.Obj? && (!Get(obj, "mistakes").Arr? || !Get(obj, "fixes").Arr?) && Get(obj, "metaPrompt").Str?
    requires variant.TopLevel? ==> !IsObjectLike(Get(obj, "result"))
    requires read(Get(obj, "metaPrompt").s).Obj?
    ensures var p := read(Get(obj, "metaPrompt").s).props;
            var r := NormalizeCoach(obj, read, variant);
            && ("mistakes" in p ==> r.mistakes == ArrayOrEmpty(p["mistakes"]))
            && ("mistakes" !in p ==> r.mistakes == ArrayOrEmpty(Get(obj, "mistakes")))
            && ("mistakes" !in p && !Get(obj, "mistakes").Arr? ==> r.mistakes == [])
            && ("fixes" in p ==> r.fixes == ArrayOrEmpty(p["fixes"]))
            && ("fixes" !in p ==> r.fixes == ArrayOrEmpty(Get(obj, "fixes")))
            && ("fixes" !in p && !Get(obj, "fixes").Arr? ==> r.fixes == [])
            && ("metaPrompt" in p && Truthy(p["metaPrompt"]) ==> r.metaPrompt == Trim(JsString(p["metaPrompt"])))
  {
    var parsed := read(Get(obj, "metaPrompt").s);
    assert Settle(obj, variant) == obj;
    assert MergeMetaPrompt(obj, read, variant) == Spread(obj, parsed);
    assert NormalizeCoach(obj, read, variant) == CoachFields(Spread(obj, parsed));
  }

  /** With both lists present as arrays, `metaPrompt` is the first truthy of `metaPrompt`, `meta` and
      `raw`, trimmed, and "" when none is. */
  lemma CoachMetaPromptChain(obj: JsValue, read: TextReader, variant: Variant)
    requires obj.Obj? && Get(obj, "mistakes").Arr? && Get(obj, "fixes").Arr?
    requires variant.TopLevel? ==> !IsObjectLike(Get(obj, "result"))
    ensures var r := NormalizeCoach(obj, read, variant);
            && (Get(obj, "metaPrompt").Str? && Get(obj, "metaPrompt").s != [] ==> r.metaPrompt == Trim(Get(obj, "metaPrompt").s))
            && (!Truthy(Get(obj, "metaPrompt")) && Get(obj, "meta").Str? && Get(obj, "meta").s != []
                ==> r.metaPrompt == Trim(Get(obj, "meta").s))
            && (!Truthy(Get(obj, "metaPrompt")) && !Truthy(Get(obj, "meta")) && Get(obj, "raw").Str? && Get(obj, "raw").s != []
                ==> r.metaPrompt == Trim(Get(obj, "raw").s))
            && (!Truthy(Get(obj, "metaPrompt")) && !Truthy(Get(obj, "meta")) && !Truthy(Get(obj, "raw")) ==> r.metaPrompt == "")
  {
    assert Settle(obj, variant) == obj;
    assert MergeMetaPrompt(obj, read, variant) == obj;
  }

  /** The top-level declaration reads a `result` object in place of its wrapper. */
  lemma TopLevelUnwrapsResult(obj: JsValue, read: TextReader)
    requires obj.Obj? && IsObjectLike(Get(obj, "result"))
    requires Get(Get(obj, "result"), "mistakes").Arr? && Get(Get(obj, "result"), "fixes").Arr?
    ensures NormalizeCoach(obj, read, TopLevel).mistakes == Get(Get(obj, "result"), "mistakes").elems
    ensures NormalizeCoach(obj, read, TopLevel).fixes == Get(Get(obj, "result"), "fixes").elems
  {
  }

  // ---------------------------------------------------------------- the coach response (initVault)

  /** `normalizeCoachPayload(parseJsonFromText(txt) || txt)` on the response text, with the
      declarations inside `initVault`. */
  function CoachResponse(txt: string, parse: JsonParser): (r: CoachView)
  {
    NormalizeCoach(Or(ParseJsonRepairing(txt, parse), Str(txt)), ReaderOf(VaultInner, parse), VaultInner)
  }

  /** A reply that is not JSON shows as the meta-prompt, trimmed, with both lists empty. */
  lemma CoachResponseOfText(txt: string, parse: JsonParser)
    requires !Truthy(ParseJsonRepairing(txt, parse))
    ensures CoachResponse(txt, parse) == CoachView([], [], Trim(txt))
  {
    UnparsedTextIsMetaPrompt(txt, ReaderOf(VaultInner, parse), VaultInner);
  }

  /** A reply that is a JSON object with both lists is shown with exactly those lists. */
  lemma CoachResponseOfObject(txt: string, parse: JsonParser)
    requires ParseJsonRepairing(txt, parse).Obj?
    requires Get(ParseJsonRepairing(txt, parse), "mistakes").Arr? && Get(ParseJsonRepairing(txt, parse), "fixes").Arr?
    ensures CoachResponse(txt, parse).mistakes == Get(ParseJsonRepairing(txt, parse), "mistakes").elems
    ensures CoachResponse(txt, parse).fixes == Get(ParseJsonRepairing(txt, parse), "fixes").elems
    ensures var obj := ParseJsonRepairing(txt, parse);
            var m := CoachResponse(txt, parse).metaPrompt;
            && (Get(obj, "metaPrompt").Str? && Get(obj, "metaPrompt").s != [] ==> m == Trim(Get(obj, "metaPrompt").s))
            && (!Truthy(Get(obj, "metaPrompt")) && Get(obj, "meta").Str? && Get(obj, "meta").s != []
                ==> m == Trim(Get(obj, "meta").s))
            && (!Truthy(Get(obj, "metaPrompt")) && !Truthy(Get(obj, "meta")) && Get(obj, "raw").Str? && Get(obj, "raw").s != []
                ==> m == Trim(Get(obj, "raw").s))
            && (!Truthy(Get(obj, "metaPrompt")) && !Truthy(Get(obj, "meta")) && !Truthy(Get(obj, "raw")) ==> m == "")
  {
    var obj := ParseJsonRepairing(txt, parse);
    var read := ReaderOf(VaultInner, parse);
    assert Or(obj, Str(txt)) == obj;
    ArraysAreKept(obj, read, read, VaultInner);
    CoachMetaPromptChain(obj, read, VaultInner);
  }

  /** `String(x ?? '')` of each element: null and undefined give "". */
  function DisplayStrings(es: seq<JsValue>): (r: seq<string>)
    ensures |r| == |es| && forall k :: 0 <= k < |es| ==> r[k] == ElementString(es[k])
  {
    if es == [] then [] else [ElementString(es[0])] + DisplayStrings(es[1..])
  }

  /** `cleanList(arr)`: the first three entries that are not blank once trimmed, trimmed. */
  function CleanList(es: seq<JsValue>): (r: seq<string>)
    ensures |r| <= 3
    ensures forall k :: 0 <= k < |r| ==> r[k] != "" && Trimmed(r[k])
    ensures |r| <= |TrimNonEmpty(DisplayStrings(es))| && r == TrimNonEmpty(DisplayStrings(es))[..|r|]
    ensures |r| < 3 ==> r == TrimNonEmpty(DisplayStrings(es))
  {
    Take(TrimNonEmpty(DisplayStrings(es)), 3)
  }

  /** Up to three clean strings are shown as they are. */
  lemma CleanListOfClean(ws: seq<string>)
    requires |ws| <= 3 && forall k :: 0 <= k < |ws| ==> ws[k] != "" && Trimmed(ws[k])
    ensures CleanList(Strs(ws)) == ws
  {
    var ds := DisplayStrings(Strs(ws));
    assert ds == ws by {
      forall k | 0 <= k < |ws| ensures ds[k] == ws[k] {
        JsStringOfStr(ws[k]);
      }
    }
    TrimNonEmptyOfEntries(ws);
  }
}
