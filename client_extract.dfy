/** The client's tolerant reader of model output (assets/app.js): `parseJsonFromText` at top level,
    and the repairing `parseJsonFromText` declared inside `initVault`, which the coaching flow uses.

    Both trim the text, strip one opening fence `/^```(?:json)?\s*` + "/i" and one closing fence
    `/```\s*$/i`, try `JSON.parse` on the whole text, and otherwise on the greedy match of
    `/\{[\s\S]*\}/`: from the first "{" to the last "}". Neither looks at quotes or nesting.
    `JSON.parse` is the parameter `parse`; a `null` result and a thrown error are both `Null` here,
    which is what the callers see (`parseJsonFromText(..) || fallback`). */
module ClientExtract {
  import opened JsText
  import opened JsValues

  // ---------------------------------------------------------------- fences

  predicate StartsWithFence(s: string)
  {
    |s| >= 3 && s[..3] == "```"
  }

  /** `.replace(/^```(?:json)?\s*` + `/i, "")`: a leading fence, an optional "json" in any ASCII case,
      and the whitespace after them. */
  function StripOpenFence(s: string): (r: string)
    ensures !StartsWithFence(s) ==> r == s
    ensures StartsWithFence(s) ==> |r| <= |s| - 3 && r == s[|s| - |r|..] && (r == [] || !IsJsSpace(r[0]))
  {
    if StartsWithFence(s) then
      var a := s[3..];
      var b := if |a| >= 4 && AsciiLowerAll(a[..4]) == "json" then a[4..] else a;
      var r := b[LeadCount(b)..];
      assert r == s[|s| - |r|..];
      r
    else s
  }

  /** `.replace(/```\s*$/i, "")`: a fence followed only by whitespace up to the end. The match, when
      there is one, must end the text's non-whitespace part. */
  function StripCloseFence(s: string): (r: string)
    ensures |r| <= |s| && r == s[..|r|]
    ensures r != s <==> EndIndex(s) >= 3 && s[EndIndex(s) - 3..EndIndex(s)] == "```"
    ensures r != s ==> |r| == EndIndex(s) - 3
  {
    var e := EndIndex(s);
    if e >= 3 && s[e - 3..e] == "```" then s[..e - 3] else s
  }

  /** The fence-free text both readers parse. */
  function StripFences(s: string): string
  {
    StripCloseFence(StripOpenFence(s))
  }

  /** Text that neither starts nor ends with a backtick, and does not end in whitespace, has no
      fence to strip. */
  lemma StripFencesOfPlain(t: string)
    requires t != [] && t[0] != '`' && t[|t| - 1] != '`' && !IsJsSpace(t[|t| - 1])
    ensures StripFences(t) == t
  {
    assert !StartsWithFence(t) by {
      if |t| >= 3 {
        assert t[..3][0] == t[0];
      }
    }
    assert StripOpenFence(t) == t;
    assert EndIndex(t) == |t|;
    if |t| >= 3 {
      assert t[|t| - 3..|t|][2] == t[|t| - 1];
    }
  }

  /** A JSON text inside a "```json" fence, each marker on its own line, loses the fences and the
      line break after the opening one; the line break before the closing fence stays. */
  lemma StripFencesOfFenced(t: string)
    requires t != [] && !IsJsSpace(t[0])
    ensures StripFences("```json\n" + t + "\n```") == t + "\n"
  {
    var s := "```json\n" + t + "\n```";
    var a := s[3..];
    assert a == "json\n" + t + "\n```";
    assert a[..4] == "json";
    var b := a[4..];
    assert b == "\n" + t + "\n```";
    assert LeadCount(b) == 1 by {
      assert IsJsSpace(b[0]);
      assert LeadCount(b[1..]) == 0 by { assert b[1..][0] == t[0]; }
    }
    assert StripOpenFence(s) == t + "\n```";
    var u := t + "\n```";
    assert EndIndex(u) == |u| by { assert u[|u| - 1] == '`'; }
    assert u[|u| - 3..] == "```";
    assert u[..|u| - 3] == t + "\n";
  }

  // ---------------------------------------------------------------- the greedy brace span

  /** The index of the first `c` in `s`, or -1. */
  function IndexOf(s: string, c: char): (i: int)
    ensures -1 <= i < |s|
    ensures i >= 0 ==> s[i] == c
    ensures forall k :: 0 <= k < |s| && (i == -1 || k < i) ==> s[k] != c
  {
    if s == [] then -1
    else if s[0] == c then 0
    else
      var k := IndexOf(s[1..], c);
      if k == -1 then -1 else k + 1
  }

  /** The index of the last `c` in `s`, or -1. */
  function LastIndexOf(s: string, c: char): (j: int)
    ensures -1 <= j < |s|
    ensures j >= 0 ==> s[j] == c
    ensures forall k :: j < k < |s| ==> s[k] != c
  {
    if s == [] then -1
    else if s[|s| - 1] == c then |s| - 1
    else LastIndexOf(s[..|s| - 1], c)
  }

  /** The match of `/\{[\s\S]*\}/` as a pair of inclusive indices: the leftmost "{" that has a "}"
      after it, extended to the last "}". */
  function GreedySpan(s: string): (r: Option<(nat, nat)>)
    ensures r.Some? ==> r.value.0 < r.value.1 < |s| && s[r.value.0] == '{' && s[r.value.1] == '}'
    ensures r.Some? ==> (forall k :: 0 <= k < r.value.0 ==> s[k] != '{') && (forall k :: r.value.1 < k < |s| ==> s[k] != '}')
    ensures r.None? <==> forall i, j :: 0 <= i < j < |s| && s[i] == '{' ==> s[j] != '}'
  {
    var i := IndexOf(s, '{');
    var j := LastIndexOf(s, '}');
    if i >= 0 && j > i then Some((i, j)) else None
  }

  /** The matched text. */
  function SpanText(s: string, span: (nat, nat)): (m: string)
    requires span.0 < span.1 < |s|
    ensures |m| >= 2 && m[0] == s[span.0] && m[|m| - 1] == s[span.1]
  {
    s[span.0..span.1 + 1]
  }

  /** An object written between two pieces of prose without braces is exactly the span. */
  lemma SpanOfWrappedObject(pre: string, obj: string, post: string)
    requires '{' !in pre && '}' !in post
    requires |obj| >= 2 && obj[0] == '{' && obj[|obj| - 1] == '}'
    ensures GreedySpan(pre + obj + post) == Some((|pre|, |pre| + |obj| - 1))
    ensures SpanText(pre + obj + post, (|pre|, |pre| + |obj| - 1)) == obj
  {
    var s := pre + obj + post;
    var a, b := |pre|, |pre| + |obj| - 1;
    assert s[a] == '{' && s[b] == '}';
    assert forall k :: 0 <= k < a ==> s[k] == pre[k];
    assert forall k :: b < k < |s| ==> s[k] == post[k - a - |obj|];
    assert s[a..b + 1] == obj;
  }

  // ---------------------------------------------------------------- the plain reader (top level)

  /** `parseJsonFromText(txt)` at top level. */
  function ParseJsonFromText(txt: string, parse: JsonParser): (r: JsValue)
    ensures txt == "" ==> r == Null
    ensures txt != "" && parse(StripFences(Trim(txt))).Some? ==> r == parse(StripFences(Trim(txt))).value
    ensures txt != "" && parse(StripFences(Trim(txt))).None? && GreedySpan(StripFences(Trim(txt))).None? ==> r == Null
  {
    if txt == "" then Null
    else
      var noFence := StripFences(Trim(txt));
      match parse(noFence)
      case Some(v) => v
      case None =>
        match GreedySpan(noFence)
        case None => Null
        case Some(span) =>
          match parse(SpanText(noFence, span))
          case Some(v) => v
          case None => Null
  }

  /** Text made of one JSON document and nothing else is read as that document. */
  lemma ReadsCleanJson(t: string, v: JsValue, parse: JsonParser)
    requires t != [] && Trimmed(t) && t[0] != '`' && t[|t| - 1] != '`'
    requires parse(t) == Some(v)
    ensures ParseJsonFromText(t, parse) == v
  {
    TrimOfTrimmed(t);
    StripFencesOfPlain(t);
  }

  /** Fencing a JSON text as "```json\n" + t + "\n```" does not change what is read, provided
      `JSON.parse` ignores a final line break (as JSON's grammar does). */
  lemma FencedReadsLikeBare(t: string, parse: JsonParser)
    requires t != [] && Trimmed(t) && t[0] != '`' && t[|t| - 1] != '`'
    requires parse(t + "\n") == parse(t)
    ensures ParseJsonFromText("```json\n" + t + "\n```", parse) == ParseJsonFromText(t, parse)
  {
    var s := "```json\n" + t + "\n```";
    assert Trimmed(s) by { assert s[0] == '`' && s[|s| - 1] == '`'; }
    TrimOfTrimmed(s);
    TrimOfTrimmed(t);
    StripFencesOfFenced(t);
    StripFencesOfPlain(t);
    SameBraces(t);
  }

  /** A final line break moves no brace. */
  lemma SameBraces(t: string)
    ensures GreedySpan(t + "\n") == GreedySpan(t)
    ensures GreedySpan(t).Some? ==> SpanText(t + "\n", GreedySpan(t).value) == SpanText(t, GreedySpan(t).value)
  {
    var u := t + "\n";
    assert forall k :: 0 <= k < |t| ==> u[k] == t[k];
    assert u[|t|] == '\n';
    assert IndexOf(u, '{') == IndexOf(t, '{');
    assert LastIndexOf(u, '}') == LastIndexOf(t, '}');
  }

  /** Prose around a JSON object (no braces in the prose): when the whole text does not parse, the
      object does. */
  lemma ReadsObjectInProse(pre: string, obj: string, post: string, v: JsValue, parse: JsonParser)
    requires pre != [] && post != [] && pre[0] != '`' && !IsJsSpace(pre[0])
    requires post[|post| - 1] != '`' && !IsJsSpace(post[|post| - 1])
    requires '{' !in pre && '}' !in post
    requires |obj| >= 2 && obj[0] == '{' && obj[|obj| - 1] == '}'
    requires parse(pre + obj + post).None? && parse(obj) == Some(v)
    ensures ParseJsonFromText(pre + obj + post, parse) == v
  {
    var s := pre + obj + post;
    assert s[0] == pre[0] && s[|s| - 1] == post[|post| - 1];
    TrimOfTrimmed(s);
    StripFencesOfPlain(s);
    SpanOfWrappedObject(pre, obj, post);
  }

  // ---------------------------------------------------------------- the repairing reader (initVault)

  /** Where the whitespace after a leading comma ends. */
  function AfterCommaRun(s: string): (k: nat)
    requires s != []
    ensures 1 <= k <= |s|
  {
    1 + LeadCount(s[1..])
  }

  /** `s` starts with a match of `/,\s*([}\]])/`. */
  predicate TrailingCommaAt(s: string)
  {
    s != [] && s[0] == ',' && AfterCommaRun(s) < |s| && s[AfterCommaRun(s)] in "}]"
  }

  /** `.replace(/,\s*([}\]])/g, "$1")`: a comma followed by whitespace and a closing brace or
      bracket is replaced by that brace or bracket; the scan resumes after it. */
  function RemoveTrailingCommas(s: string): (r: string)
    ensures |r| <= |s|
    decreases |s|
  {
    if s == [] then []
    else if TrailingCommaAt(s) then
      var k := AfterCommaRun(s);
      [s[k]] + RemoveTrailingCommas(s[k + 1..])
    else [s[0]] + RemoveTrailingCommas(s[1..])
  }

  /** The characters that carry structure: all but commas and whitespace. */
  function Significant(s: string): (r: string)
  {
    if s == [] then []
    else (if s[0] == ',' || IsJsSpace(s[0]) then [] else [s[0]]) + Significant(s[1..])
  }

  lemma {:induction false} SignificantAppend(a: string, b: string)
    ensures Significant(a + b) == Significant(a) + Significant(b)
    decreases |a|
  {
    if a != [] {
      assert (a + b)[1..] == a[1..] + b;
      SignificantAppend(a[1..], b);
    } else {
      assert a + b == b;
    }
  }

  lemma SignificantCons(c: char, t: string)
    ensures Significant([c] + t) == (if c == ',' || IsJsSpace(c) then [] else [c]) + Significant(t)
  {
    assert ([c] + t)[1..] == t;
  }

  /** The match of a trailing comma has one significant character: the closing one. */
  lemma SignificantOfTrailingComma(s: string)
    requires TrailingCommaAt(s)
    ensures Significant(s) == [s[AfterCommaRun(s)]] + Significant(s[AfterCommaRun(s) + 1..])
  {
    var k := AfterCommaRun(s);
    var w := s[..k];
    assert s == w + ([s[k]] + s[k + 1..]);
    SignificantAppend(w, [s[k]] + s[k + 1..]);
    forall i | 1 <= i < k
      ensures IsJsSpace(w[i])
    {
      assert w[i] == s[1..][i - 1];
    }
    NothingSignificant(w);
    SignificantCons(s[k], s[k + 1..]);
  }

  /** The repair deletes only commas and whitespace: every other character survives, in order. */
  lemma {:induction false} RemoveTrailingCommasKeepsStructure(s: string)
    ensures Significant(RemoveTrailingCommas(s)) == Significant(s)
    decreases |s|
  {
    if s != [] {
      if TrailingCommaAt(s) {
        RemoveTrailingCommasKeepsStructure(s[AfterCommaRun(s) + 1..]);
        KeepsStructureAtComma(s);
      } else {
        RemoveTrailingCommasKeepsStructure(s[1..]);
        KeepsStructureElsewhere(s);
      }
    }
  }

  /** One step of the repair at a trailing comma. */
  lemma KeepsStructureAtComma(s: string)
    requires TrailingCommaAt(s)
    requires Significant(RemoveTrailingCommas(s[AfterCommaRun(s) + 1..])) == Significant(s[AfterCommaRun(s) + 1..])
    ensures Significant(RemoveTrailingCommas(s)) == Significant(s)
  {
    var k := AfterCommaRun(s);
    assert RemoveTrailingCommas(s) == [s[k]] + RemoveTrailingCommas(s[k + 1..]);
    SignificantCons(s[k], RemoveTrailingCommas(s[k + 1..]));
    SignificantOfTrailingComma(s);
  }

  /** One step of the repair anywhere else. */
  lemma KeepsStructureElsewhere(s: string)
    requires s != [] && !TrailingCommaAt(s)
    requires Significant(RemoveTrailingCommas(s[1..])) == Significant(s[1..])
    ensures Significant(RemoveTrailingCommas(s)) == Significant(s)
  {
    assert RemoveTrailingCommas(s) == [s[0]] + RemoveTrailingCommas(s[1..]);
    SignificantCons(s[0], RemoveTrailingCommas(s[1..]));
    SignificantCons(s[0], s[1..]);
    assert s == [s[0]] + s[1..];
  }

  /** A comma followed by whitespace has nothing significant. */
  lemma NothingSignificant(w: string)
    requires w != [] && w[0] == ','
    requires forall i :: 1 <= i < |w| ==> IsJsSpace(w[i])
    ensures Significant(w) == []
  {
    assert Significant(w) == Significant(w[1..]);
    NoSignificantSpace(w[1..]);
  }

  lemma {:induction false} NoSignificantSpace(w: string)
    requires AllSpace(w)
    ensures Significant(w) == []
    decreases |w|
  {
    if w != [] {
      NoSignificantSpace(w[1..]);
    }
  }

  /** Text without commas is left alone. */
  lemma {:induction false} RemoveTrailingCommasNoComma(s: string)
    requires ',' !in s
    ensures RemoveTrailingCommas(s) == s
    decreases |s|
  {
    if s != [] {
      assert s[0] in s;
      RemoveTrailingCommasNoComma(s[1..]);
      assert s == [s[0]] + s[1..];
    }
  }

  /** A comma, whitespace and a closing brace or bracket at the front are replaced by the closer. */
  lemma RemoveTrailingCommaAtFront(w: string, close: char, y: string)
    requires AllSpace(w) && (close == '}' || close == ']')
    ensures RemoveTrailingCommas("," + w + [close] + y) == [close] + RemoveTrailingCommas(y)
  {
    var s := "," + w + [close] + y;
    assert s[1..] == w + ([close] + y);
    LeadCountAfterSpace(w, [close] + y);
    assert AfterCommaRun(s) == 1 + |w|;
    assert s[1 + |w|] == close;
    assert s[|w| + 2..] == y;
  }

  /** A trailing comma before a closing brace or bracket is removed with the whitespace after it. */
  lemma {:induction false} RemoveTrailingCommaBefore(x: string, w: string, close: char, y: string)
    requires ',' !in x && AllSpace(w) && (close == '}' || close == ']')
    ensures RemoveTrailingCommas(x + "," + w + [close] + y) == x + [close] + RemoveTrailingCommas(y)
    decreases |x|
  {
    if x == [] {
      assert x + "," + w + [close] + y == "," + w + [close] + y;
      RemoveTrailingCommaAtFront(w, close, y);
    } else {
      var s := x + "," + w + [close] + y;
      var t := x[1..] + "," + w + [close] + y;
      assert s == [x[0]] + t;
      assert x[0] in x;
      assert !TrailingCommaAt(s);
      assert s[1..] == t;
      RemoveTrailingCommaBefore(x[1..], w, close, y);
      assert x == [x[0]] + x[1..];
    }
  }

  /** `[â€œâ€]`: the characters the first quote class holds (U+00E2, U+20AC, U+0153). */
  predicate IsDoubleQuoteClass(c: char)
  {
    c == '\U{E2}' || c == '\U{20AC}' || c == '\U{153}'
  }

  /** `[â€˜â€™]`: U+00E2, U+20AC, U+02DC and U+2122. The first two are gone by the time this class
      is applied. */
  predicate IsSingleQuoteClass(c: char)
  {
    c == '\U{E2}' || c == '\U{20AC}' || c == '\U{2DC}' || c == '\U{2122}'
  }

  /** `.replace(/[â€œâ€]/g, '"').replace(/[â€˜â€™]/g, "'")`. */
  function NormalizeQuotes(s: string): (r: string)
    ensures |r| == |s|
    ensures forall i :: 0 <= i < |s| ==> r[i] == (if IsDoubleQuoteClass(s[i]) then '"'
                                                  else if IsSingleQuoteClass(s[i]) then '\'' else s[i])
  {
    if s == [] then []
    else
      [if IsDoubleQuoteClass(s[0]) then '"' else if IsSingleQuoteClass(s[0]) then '\'' else s[0]]
      + NormalizeQuotes(s[1..])
  }

  /** No character of either class survives the quote step. */
  lemma NormalizeQuotesClears(s: string)
    ensures forall i :: 0 <= i < |NormalizeQuotes(s)| ==>
              !IsDoubleQuoteClass(NormalizeQuotes(s)[i]) && !IsSingleQuoteClass(NormalizeQuotes(s)[i])
  {
  }

  /** The text `tryParse` hands to `JSON.parse`. */
  function Repair(str: string): string
  {
    Trim(NormalizeQuotes(RemoveTrailingCommas(str)))
  }

  /** `tryParse(str)`: None stands for the `null` it returns when `JSON.parse` throws. */
  function TryParse(str: string, parse: JsonParser): Option<JsValue>
  {
    parse(Repair(str))
  }

  /** `parseJsonFromText(txt)` inside `initVault`: the repaired whole text wins when it parses to a
      truthy value; otherwise the repaired greedy span, or `null`. */
  function ParseJsonRepairing(txt: string, parse: JsonParser): (r: JsValue)
    ensures txt == "" ==> r == Null
    ensures txt != "" && TryParse(StripFences(Trim(txt)), parse).Some?
            && Truthy(TryParse(StripFences(Trim(txt)), parse).value)
            ==> r == TryParse(StripFences(Trim(txt)), parse).value
    ensures txt != "" && GreedySpan(StripFences(Trim(txt))).None?
            && !(TryParse(StripFences(Trim(txt)), parse).Some? && Truthy(TryParse(StripFences(Trim(txt)), parse).value))
            ==> r == Null
  {
    if txt == "" then Null
    else
      var noFence := StripFences(Trim(txt));
      var direct := TryParse(noFence, parse);
      if direct.Some? && Truthy(direct.value) then direct.value
      else
        match GreedySpan(noFence)
        case None => Null
        case Some(span) =>
          var v := TryParse(SpanText(noFence, span), parse);
          if v.Some? then v.value else Null
  }

  /** The whole fence-stripped text is always tried before the span: when its repaired form parses
      to an object, the span is never consulted, so changing what the span would parse to changes
      nothing. */
  lemma RepairingPrefersWholeText(txt: string, parse: JsonParser, other: JsonParser)
    requires txt != ""
    requires parse(Repair(StripFences(Trim(txt)))) == other(Repair(StripFences(Trim(txt))))
    requires parse(Repair(StripFences(Trim(txt)))).Some?
    requires IsObjectLike(parse(Repair(StripFences(Trim(txt)))).value)
    ensures ParseJsonRepairing(txt, parse) == ParseJsonRepairing(txt, other)
    ensures ParseJsonRepairing(txt, parse) == parse(Repair(StripFences(Trim(txt)))).value
  {
  }

  /** On text the repair leaves unchanged, the two readers agree whenever the whole text parses to a
      truthy value. */
  lemma ReadersAgreeOnCleanText(txt: string, parse: JsonParser)
    requires txt != ""
    requires Repair(StripFences(Trim(txt))) == StripFences(Trim(txt))
    requires parse(StripFences(Trim(txt))).Some? && Truthy(parse(StripFences(Trim(txt))).value)
    ensures ParseJsonRepairing(txt, parse) == ParseJsonFromText(txt, parse)
  {
  }

  /** A JSON object with a trailing comma before its closing brace, `{` + x + `,}` with no comma in x,
      is read by the repairing reader as `JSON.parse` reads `{` + x + `}`. */
  lemma RepairingReadsTrailingComma(x: string, v: JsValue, parse: JsonParser)
    requires ',' !in x
    requires forall i :: 0 <= i < |x| ==> !IsDoubleQuoteClass(x[i]) && !IsSingleQuoteClass(x[i])
    requires parse("{" + x + "}") == Some(v) && IsObjectLike(v)
    ensures ParseJsonRepairing("{" + x + ",}", parse) == v
  {
    var s := "{" + x + ",}";
    assert s[0] == '{' && s[|s| - 1] == '}';
    TrimOfTrimmed(s);
    StripFencesOfPlain(s);
    RepairOfTrailingComma(x);
  }

  lemma RepairOfTrailingComma(x: string)
    requires ',' !in x
    requires forall i :: 0 <= i < |x| ==> !IsDoubleQuoteClass(x[i]) && !IsSingleQuoteClass(x[i])
    ensures Repair("{" + x + ",}") == "{" + x + "}"
  {
    var s := "{" + x + ",}";
    assert s == "{" + x + "," + "" + ['}'] + "";
    assert ',' !in "{" + x by { assert "{" + x == ['{'] + x; }
    RemoveTrailingCommaBefore("{" + x, "", '}', "");
    var u := "{" + x + "}";
    assert RemoveTrailingCommas(s) == u;
    forall i | 0 <= i < |u|
      ensures !IsDoubleQuoteClass(u[i]) && !IsSingleQuoteClass(u[i])
    {
      if 0 < i < |u| - 1 {
        assert u[i] == x[i - 1];
      }
    }
    NormalizeQuotesOfPlain(u);
    assert u[0] == '{' && u[|u| - 1] == '}';
    TrimOfTrimmed(u);
  }

  /** Text with no character of either quote class is left alone by the quote step. */
  lemma NormalizeQuotesOfPlain(u: string)
    requires forall i :: 0 <= i < |u| ==> !IsDoubleQuoteClass(u[i]) && !IsSingleQuoteClass(u[i])
    ensures NormalizeQuotes(u) == u
  {
  }
}
