/** The proxy's access helpers: `parseAllowed` (the allow-list format of `ALLOWED_PASSPHRASES` and
    `ALLOWED_ORIGINS`), `getBearer` (the `Authorization` header) and `getAllowedOrigin` (the origin
    echoed in `Access-Control-Allow-Origin`). */
module Access {
  import opened JsText
  import opened JsValues

  // ---------------------------------------------------------------- parseAllowed

  /** The separator class `[\n,]` of the plain list format. */
  predicate IsListSep(c: char)
  {
    c == '\n' || c == ','
  }

  predicate NoListSep(s: string)
  {
    forall i :: 0 <= i < |s| ==> !IsListSep(s[i])
  }

  /** Splitting at every separator character. `split(/[\n,]+/)` splits at runs of them instead; the runs
      only add empty pieces here, and the filter that follows drops every empty piece. */
  function SplitSeps(s: string): (parts: seq<string>)
    ensures |parts| >= 1
    ensures forall k :: 0 <= k < |parts| ==> NoListSep(parts[k])
  {
    if s == [] then [""]
    else if IsListSep(s[0]) then [""] + SplitSeps(s[1..])
    else
      var rest := SplitSeps(s[1..]);
      [[s[0]] + rest[0]] + rest[1..]
  }

  /** `parseAllowed(raw)`, with "" for an unset variable. A JSON array is read with `jsonParse`, whose
      failure (and any non-array result) gives the empty list. */
  function ParseAllowed(raw: string, jsonParse: JsonParser): (r: seq<string>)
    ensures forall k :: 0 <= k < |r| ==> r[k] != "" && Trimmed(r[k])
    ensures Trim(raw) == "" ==> r == []
    ensures Trim(raw) != "" && Trim(raw)[0] == '[' && !(jsonParse(Trim(raw)).Some? && jsonParse(Trim(raw)).value.Arr?)
            ==> r == []
  {
    var s := Trim(raw);
    if s == "" then []
    else if s[0] == '[' then
      match jsonParse(s)
      case Some(Arr(es)) => TrimNonEmpty(ElementStrings(es))
      case _ => []
    else TrimNonEmpty(SplitSeps(s))
  }

  /** The comma-separated form of a list. */
  function JoinComma(ws: seq<string>): string
    requires |ws| >= 1
  {
    if |ws| == 1 then ws[0] else ws[0] + "," + JoinComma(ws[1..])
  }

  /** An allow-list entry as written by hand: non-empty, trimmed, and free of separators. */
  predicate IsEntry(w: string)
  {
    w != "" && Trimmed(w) && NoListSep(w)
  }

  lemma {:induction false} SplitSepsAfterEntry(a: string, rest: string)
    requires NoListSep(a)
    ensures SplitSeps(a + "," + rest) == [a] + SplitSeps(rest)
    decreases |a|
  {
    if a == [] {
      assert a + "," + rest == [','] + rest;
      assert ([','] + rest)[1..] == rest;
    } else {
      assert (a + "," + rest)[1..] == a[1..] + "," + rest;
      SplitSepsAfterEntry(a[1..], rest);
      assert [a[0]] + a[1..] == a;
    }
  }

  lemma {:induction false} SplitSepsOfEntry(a: string)
    requires NoListSep(a)
    ensures SplitSeps(a) == [a]
    decreases |a|
  {
    if a != [] {
      SplitSepsOfEntry(a[1..]);
      assert [a[0]] + a[1..] == a;
    }
  }

  lemma {:induction false} SplitJoinComma(ws: seq<string>)
    requires |ws| >= 1 && forall k :: 0 <= k < |ws| ==> NoListSep(ws[k])
    ensures SplitSeps(JoinComma(ws)) == ws
    decreases |ws|
  {
    if |ws| == 1 {
      SplitSepsOfEntry(ws[0]);
    } else {
      SplitSepsAfterEntry(ws[0], JoinComma(ws[1..]));
      SplitJoinComma(ws[1..]);
    }
  }

  /** The joined list begins where its first entry begins and ends where its last entry ends. */
  lemma {:induction false} JoinCommaEnds(ws: seq<string>)
    requires |ws| >= 1 && forall k :: 0 <= k < |ws| ==> ws[k] != ""
    ensures var j := JoinComma(ws); |j| > 0 && j[0] == ws[0][0] && j[|j| - 1] == ws[|ws| - 1][|ws[|ws| - 1]| - 1]
    decreases |ws|
  {
    if |ws| > 1 {
      JoinCommaEnds(ws[1..]);
    }
  }

  /** A hand-written comma-separated allow-list reads back as exactly its entries, in order
      (unless it begins with "[", which selects the JSON format). */
  lemma ParseAllowedOfList(ws: seq<string>, jsonParse: JsonParser)
    requires |ws| >= 1 && forall k :: 0 <= k < |ws| ==> IsEntry(ws[k])
    requires ws[0] != "" && ws[0][0] != '['
    ensures ParseAllowed(JoinComma(ws), jsonParse) == ws
  {
    var j := JoinComma(ws);
    JoinCommaEnds(ws);
    assert !IsJsSpace(j[0]) && !IsJsSpace(j[|j| - 1]) by {
      assert Trimmed(ws[0]) && Trimmed(ws[|ws| - 1]);
    }
    TrimOfTrimmed(j);
    SplitJoinComma(ws);
    TrimNonEmptyOfEntries(ws);
  }

  /** A JSON array of trimmed, non-empty strings reads back as exactly those strings. */
  lemma ParseAllowedOfJsonArray(raw: string, ws: seq<string>, jsonParse: JsonParser)
    requires Trim(raw) != "" && Trim(raw)[0] == '['
    requires jsonParse(Trim(raw)) == Some(Arr(Strs(ws)))
    requires forall k :: 0 <= k < |ws| ==> ws[k] != "" && Trimmed(ws[k])
    ensures ParseAllowed(raw, jsonParse) == ws
  {
    ElementStringsOfStrs(ws);
    TrimNonEmptyOfEntries(ws);
  }

  // ---------------------------------------------------------------- getBearer

  predicate NoLineTerminator(s: string)
  {
    forall i :: 0 <= i < |s| ==> !IsLineTerminator(s[i])
  }

  /** `getBearer(req)` for the `Authorization` header `h` ("" when absent): the match of
      `/^Bearer\s+(.+)$/i`, trimmed. "Bearer" matches in any ASCII case; `\s+` takes the whole run of
      whitespace and `(.+)` the rest, which must be non-empty and free of line terminators. (When the
      rest is blank the match can still succeed by backtracking, but its capture trims to "".) */
  function GetBearer(h: string): (r: string)
    ensures Trimmed(r) && NoLineTerminator(r)
    ensures r != "" ==> |h| > 7 && AsciiLowerAll(h[..6]) == "bearer" && IsJsSpace(h[6])
  {
    if |h| >= 7 && AsciiLowerAll(h[..6]) == "bearer" && IsJsSpace(h[6]) then
      var rest := h[6..];
      var v := rest[LeadCount(rest)..];
      if v != "" && NoLineTerminator(v) then
        var r := Trim(v);
        assert forall i :: 0 <= i < |r| ==> r[i] == v[LeadCount(v) + i];
        r
      else ""
    else ""
  }

  /** The header `<scheme> <whitespace> <token>` yields the token whenever the scheme spells "Bearer"
      in any ASCII case and the token is a trimmed, non-empty line. */
  lemma GetBearerOfHeader(scheme: string, ws: string, token: string)
    requires |scheme| == 6 && AsciiLowerAll(scheme) == "bearer"
    requires ws != "" && AllSpace(ws)
    requires token != "" && Trimmed(token) && NoLineTerminator(token)
    ensures GetBearer(scheme + ws + token) == token
  {
    var rest := ws + token;
    var h := scheme + rest;
    assert scheme + ws + token == h;
    assert h[..6] == scheme;
    assert h[6..] == rest;
    assert IsJsSpace(h[6]) by {
      assert h[6] == ws[0];
    }
    SkipBlanks(rest, ws, token);
    TrimOfTrimmed(token);
  }

  /** Skipping the whitespace run after the scheme lands on the token. */
  lemma SkipBlanks(rest: string, ws: string, token: string)
    requires rest == ws + token && AllSpace(ws)
    requires token == [] || !IsJsSpace(token[0])
    ensures rest[LeadCount(rest)..] == token
  {
    LeadCountAfterSpace(ws, token);
    assert LeadCount(token) == 0;
  }

  /** A header that does not start with the `Bearer` scheme, or carries a line break in its token, gives "". */
  lemma GetBearerRejects(h: string)
    ensures (|h| < 7 || AsciiLowerAll(h[..6]) != "bearer") ==> GetBearer(h) == ""
    ensures (|h| >= 7 && !NoLineTerminator(h[7..]) && !IsJsSpace(h[7])) ==> GetBearer(h) == ""
  {
    if |h| >= 7 && !NoLineTerminator(h[7..]) && !IsJsSpace(h[7]) && AsciiLowerAll(h[..6]) == "bearer" && IsJsSpace(h[6]) {
      var rest := h[6..];
      assert LeadCount(rest) == 1;
      assert rest[1..] == h[7..];
    }
  }

  // ---------------------------------------------------------------- getAllowedOrigin

  const FallbackOrigin := "https://zhelair.github.io"

  /** `String(env.DEFAULT_ORIGIN || "https://zhelair.github.io")`. */
  function DefaultOrigin(defaultOriginVar: string): (d: string)
    ensures d != ""
  {
    if defaultOriginVar == "" then FallbackOrigin else defaultOriginVar
  }

  /** The origins allowed to read responses: `ALLOWED_ORIGINS` parsed, or just the default origin when unset. */
  function AllowedOrigins(allowedOriginsVar: string, defaultOriginVar: string, jsonParse: JsonParser): seq<string>
  {
    if allowedOriginsVar == "" then [DefaultOrigin(defaultOriginVar)] else ParseAllowed(allowedOriginsVar, jsonParse)
  }

  /** `getAllowedOrigin(req, env)` for the `Origin` header `origin` ("" when absent). */
  function AllowedOrigin(origin: string, allowedOriginsVar: string, defaultOriginVar: string, jsonParse: JsonParser)
    : (r: string)
    ensures r != ""
    ensures r == origin || r == DefaultOrigin(defaultOriginVar)
    ensures r == origin <==> origin in AllowedOrigins(allowedOriginsVar, defaultOriginVar, jsonParse)
                             || origin == DefaultOrigin(defaultOriginVar)
  {
    if origin in AllowedOrigins(allowedOriginsVar, defaultOriginVar, jsonParse) then origin
    else DefaultOrigin(defaultOriginVar)
  }

  /** With `ALLOWED_ORIGINS` unset, every response names the default origin, whatever the request says. */
  lemma OnlyDefaultWhenUnset(origin: string, defaultOriginVar: string, jsonParse: JsonParser)
    ensures AllowedOrigin(origin, "", defaultOriginVar, jsonParse) == DefaultOrigin(defaultOriginVar)
  {
  }

  /** A request without an `Origin` header is answered with the default origin. */
  lemma NoOriginGetsDefault(allowedOriginsVar: string, defaultOriginVar: string, jsonParse: JsonParser)
    ensures AllowedOrigin("", allowedOriginsVar, defaultOriginVar, jsonParse) == DefaultOrigin(defaultOriginVar)
  {
    if allowedOriginsVar != "" {
      var list := ParseAllowed(allowedOriginsVar, jsonParse);
      assert forall k :: 0 <= k < |list| ==> list[k] != "";
    }
  }
}
