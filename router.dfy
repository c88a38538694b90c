/** The proxy's request handler (`export default { fetch }` in worker/src/index.js): CORS preflight,
    health check, `/unlock`, the bearer-token gate, `/status`, `/prompt-check` and `/coach-last5`.
    The handler is a function of the request, the environment, the clock, the day key and the
    counters before the request; it gives the response and the counters after it. */
module Router {
  import opened JsText
  import opened JsValues
  import opened Tokens
  import opened Limits
  import opened Access

  /** The two system prompts kept on the server (their text is not part of this model). */
  datatype SystemPrompt = PromptReviewer | Coach

  /** `deepseekChat(env, { system, user, max_tokens })`: the model's reply text, or None when it throws. */
  type Upstream = (SystemPrompt, string, int) -> Option<string>

  /** What the handler calls out to: the token primitives, `new Date(ms).toISOString()` and the upstream model. */
  datatype Platform = Platform(prims: Primitives, isoString: int -> string, upstream: Upstream)

  /** The Worker environment. Strings are "" when unset; a numeric setting is None when unset or "",
      in which case its default applies. */
  datatype Env = Env(
    tokenSecret: string,
    tokenTtlDays: Option<int>,
    allowedPassphrases: string,
    allowedOrigins: string,
    defaultOrigin: string,
    promptLimit: Option<int>,
    coachLimit: Option<int>,
    promptMaxChars: Option<int>,
    coachMaxChars: Option<int>)

  /** `Number(env.X || "<default>")`. */
  function Setting(v: Option<int>, default: int): int
  {
    if v.Some? then v.value else default
  }

  /** The parts of the request the handler reads: `verb` is `request.method`. Headers are "" when absent; `body` is the result of
      `request.json()`, None when that throws. */
  datatype Request = Request(
    verb: string,
    path: string,
    origin: string,
    authorization: string,
    passHeader: string,
    body: Option<JsValue>)

  datatype Body = JsonBody(value: JsValue) | TextBody(text: string) | NoBody

  /** A response with its status, body and `Access-Control-Allow-Origin`; `Crash` is an exception that
      escapes the handler (the platform answers 500 without CORS headers). */
  datatype Response = Response(status: int, body: Body, allowOrigin: string) | Crash

  datatype Outcome = Outcome(response: Response, counters: Counters)

  const NotJsonMessage := "Model output was not valid JSON."
  const CoachSeparator := "\n\n---\n\n"

  /** The `Access-Control-Allow-Origin` of every response to `req`. */
  function Origin(plat: Platform, env: Env, req: Request): string
  {
    AllowedOrigin(req.origin, env.allowedOrigins, env.defaultOrigin, plat.prims.jsonParse)
  }

  /** `json(req, env, status, obj)`, for the origin `Origin` chose. */
  function Json(origin: string, status: int, value: JsValue): Response
  {
    Response(status, JsonBody(value), origin)
  }

  function ErrorBody(error: string): JsValue
  {
    Obj(map["error" := Str(error)])
  }

  function CountsBody(reply: DoReply): JsValue
    requires reply.Counts?
  {
    Obj(map["used" := Num(reply.used), "limit" := Num(reply.limit), "left" := Num(reply.left)])
  }

  /** `let body = {}; try { body = await request.json(); } catch { body = {}; }`. */
  function RequestBody(req: Request): JsValue
  {
    if req.body.Some? then req.body.value else Obj(map[])
  }

  /** Reading a property of the body throws when the body is null. */
  predicate Unreadable(v: JsValue)
  {
    v.Null? || v.Undefined?
  }

  /** `String(v || "").trim()`. */
  function TextField(v: JsValue): string
  {
    Trim(JsString(Or(v, Str(""))))
  }

  /** `typeof v === "string" ? v : ""`. */
  function StringOrEmpty(v: JsValue): JsValue
  {
    if v.Str? then v else Str("")
  }

  // ---------------------------------------------------------------- /unlock

  function Unlock(plat: Platform, env: Env, req: Request, now: int, origin: string): (r: Response)
    ensures r.Response? ==> r.allowOrigin == origin && r.status in {200, 400, 401, 405}
  {
    if req.verb != "POST" then Json(origin, 405, ErrorBody("use_post"))
    else
      var pass := Trim(req.passHeader);
      if pass == "" then Json(origin, 400, ErrorBody("missing_passphrase"))
      else
        var allowed := ParseAllowed(env.allowedPassphrases, plat.prims.jsonParse);
        if !(|allowed| > 0 && pass in allowed) then Json(origin, 401, ErrorBody("invalid_passphrase"))
        else
          match IssueToken(plat.prims, env.tokenSecret, Setting(env.tokenTtlDays, 30), now, pass)
          case None => Crash
          case Some(t) =>
            Json(origin, 200, Obj(map["token" := Str(t.token), "expiresAt" := Str(plat.isoString(t.exp))]))
  }

  /** The `/unlock` ladder: POST only, then a non-blank `X-OU-PASS`, then membership of the allow-list
      (an empty list admits nobody), then a token issued for the trimmed passphrase. */
  lemma UnlockLadder(plat: Platform, env: Env, req: Request, now: int, origin: string)
    ensures req.verb != "POST" ==> Unlock(plat, env, req, now, origin) == Json(origin, 405, ErrorBody("use_post"))
    ensures req.verb == "POST" && Trim(req.passHeader) == ""
            ==> Unlock(plat, env, req, now, origin) == Json(origin, 400, ErrorBody("missing_passphrase"))
    ensures req.verb == "POST" && Trim(req.passHeader) != ""
            && Trim(req.passHeader) !in ParseAllowed(env.allowedPassphrases, plat.prims.jsonParse)
            ==> Unlock(plat, env, req, now, origin) == Json(origin, 401, ErrorBody("invalid_passphrase"))
    ensures Unlock(plat, env, req, now, origin).Response? && Unlock(plat, env, req, now, origin).status == 200
            ==> req.verb == "POST" && Trim(req.passHeader) in ParseAllowed(env.allowedPassphrases, plat.prims.jsonParse)
                && Trim(env.tokenSecret) != ""
  {
  }

  /** An accepted passphrase gets the token `issueToken` makes for it. */
  lemma UnlockIssues(plat: Platform, env: Env, req: Request, now: int, origin: string)
    requires req.verb == "POST"
    requires Trim(req.passHeader) in ParseAllowed(env.allowedPassphrases, plat.prims.jsonParse)
    requires Trim(env.tokenSecret) != ""
    ensures var t := IssueToken(plat.prims, env.tokenSecret, Setting(env.tokenTtlDays, 30), now, Trim(req.passHeader));
            t.Some?
            && Unlock(plat, env, req, now, origin)
               == Json(origin, 200, Obj(map["token" := Str(t.value.token), "expiresAt" := Str(plat.isoString(t.value.exp))]))
  {
    var allowed := ParseAllowed(env.allowedPassphrases, plat.prims.jsonParse);
    assert ParseAllowed(env.allowedPassphrases, plat.prims.jsonParse) == allowed;
    assert |allowed| > 0;
  }

  // ---------------------------------------------------------------- /status

  function Status(env: Env, req: Request, sub: string, dayKey: string, counters: Counters, origin: string): (r: Response)
    ensures r.Response? && r.allowOrigin == origin && r.status in {200, 405}
  {
    if req.verb != "GET" then Json(origin, 405, ErrorBody("use_get"))
    else
      var prompt := GetCounter(counters, sub, dayKey, "prompt", Setting(env.promptLimit, 30), false).1;
      var coach := GetCounter(counters, sub, dayKey, "coach", Setting(env.coachLimit, 5), false).1;
      Json(origin, 200, Obj(map["dayKey" := Str(dayKey), "prompt" := CountsBody(prompt), "coach" := CountsBody(coach)]))
  }

  /** `/status` reports the stored counts of the day with their limits and remainders. */
  lemma StatusReports(env: Env, req: Request, sub: string, dayKey: string, counters: Counters, origin: string)
    requires req.verb == "GET"
    ensures var p := Setting(env.promptLimit, 30);
            var c := Setting(env.coachLimit, 5);
            var used := Count(counters, sub, dayKey, "prompt");
            var usedC := Count(counters, sub, dayKey, "coach");
            Status(env, req, sub, dayKey, counters, origin)
            == Json(origin, 200, Obj(map["dayKey" := Str(dayKey),
                 "prompt" := CountsBody(Counts(used, p, Max(0, p - used))),
                 "coach" := CountsBody(Counts(usedC, c, Max(0, c - usedC)))]))
  {
  }

  // ---------------------------------------------------------------- /prompt-check

  function EmptyReview(): JsValue
  {
    Obj(map["diagnosis" := Arr([]), "missing" := Arr([]), "improvements" := Arr([]), "golden" := Str("")])
  }

  /** `JSON.parse(out)`, replaced by the fallback shape when it throws or gives a non-object. */
  function ParsedOr(plat: Platform, out: string, fallback: JsValue): JsValue
  {
    match plat.prims.jsonParse(out)
    case Some(v) => if IsObjectLike(v) then v else fallback
    case None => fallback
  }

  /** The response body of `/prompt-check` built from the model's reply `out`. */
  function ReviewBody(plat: Platform, out: string): (r: JsValue)
    ensures r.Obj? && r.props.Keys == {"diagnosis", "missing", "improvements", "golden"}
    ensures Get(r, "diagnosis").Arr? && Get(r, "missing").Arr? && Get(r, "improvements").Arr? && Get(r, "golden").Str?
  {
    var parsed := ParsedOr(plat, out, Obj(map["diagnosis" := Arr([Str(NotJsonMessage)]), "missing" := Arr([]),
                                              "improvements" := Arr([]), "golden" := Str(out)]));
    Obj(map["diagnosis" := Arr(ArrayOrEmpty(Get(parsed, "diagnosis"))),
            "missing" := Arr(ArrayOrEmpty(Get(parsed, "missing"))),
            "improvements" := Arr(ArrayOrEmpty(Get(parsed, "improvements"))),
            "golden" := StringOrEmpty(Get(parsed, "golden"))])
  }

  /** A reply that is not a JSON object comes back as the one-line diagnosis with the raw reply as `golden`. */
  lemma ReviewOfNonJson(plat: Platform, out: string)
    requires plat.prims.jsonParse(out).None? || !IsObjectLike(plat.prims.jsonParse(out).value)
    ensures ReviewBody(plat, out) == Obj(map["diagnosis" := Arr([Str(NotJsonMessage)]), "missing" := Arr([]),
                                             "improvements" := Arr([]), "golden" := Str(out)])
  {
  }

  // ---------------------------------------------------------------- metered model calls

  /** The response body built from the model's reply for each system prompt. */
  function ReplyBody(plat: Platform, system: SystemPrompt, out: string): JsValue
  {
    match system
    case PromptReviewer => ReviewBody(plat, out)
    case Coach => CoachBody(plat, out)
  }

  /** The tail both model routes share: increment today's `kind` counter of `sub`, refuse with 429 once
      the new count is over `limit`, and otherwise ask the model (a failing call throws). */
  function Metered(plat: Platform, counters: Counters, sub: string, dayKey: string, origin: string, kind: string,
                   limit: int, limitError: string, system: SystemPrompt, input: string, maxTokens: int): (o: Outcome)
    ensures o.counters == GetCounter(counters, sub, dayKey, kind, limit, true).0
    ensures o.response.Response? ==> o.response.allowOrigin == origin && o.response.status in {200, 429}
  {
    var (after, c) := GetCounter(counters, sub, dayKey, kind, limit, true);
    if c.used > c.limit then Outcome(Json(origin, 429, ErrorBody(limitError)), after)
    else
      match plat.upstream(system, input, maxTokens)
      case None => Outcome(Crash, after)
      case Some(out) => Outcome(Json(origin, 200, ReplyBody(plat, system, out)), after)
  }

  /** Every metered call raises the count by exactly one, whatever happens upstream; it is refused with
      429 exactly when the new count exceeds the limit, and then the model is never consulted. */
  lemma MeteredQuota(plat: Platform, counters: Counters, sub: string, dayKey: string, origin: string, kind: string,
                     limit: int, limitError: string, system: SystemPrompt, input: string, maxTokens: int,
                     other: Upstream)
    ensures var o := Metered(plat, counters, sub, dayKey, origin, kind, limit, limitError, system, input, maxTokens);
            Count(o.counters, sub, dayKey, kind) == Count(counters, sub, dayKey, kind) + 1
            && (o.response.Response? && o.response.status == 429 <==> Count(counters, sub, dayKey, kind) + 1 > limit)
            && (o.response.Response? && o.response.status == 429 ==> o.response == Json(origin, 429, ErrorBody(limitError)))
    ensures Count(counters, sub, dayKey, kind) + 1 > limit
            ==> Metered(plat.(upstream := other), counters, sub, dayKey, origin, kind, limit, limitError, system, input, maxTokens)
                == Metered(plat, counters, sub, dayKey, origin, kind, limit, limitError, system, input, maxTokens)
  {
    var (after, c) := GetCounter(counters, sub, dayKey, kind, limit, true);
  }

  /** Under the limit, the model's reply becomes the 200 body. */
  lemma MeteredAnswered(plat: Platform, counters: Counters, sub: string, dayKey: string, origin: string, kind: string,
                        limit: int, limitError: string, system: SystemPrompt, input: string, maxTokens: int, out: string)
    requires Count(counters, sub, dayKey, kind) + 1 <= limit
    requires plat.upstream(system, input, maxTokens) == Some(out)
    ensures Metered(plat, counters, sub, dayKey, origin, kind, limit, limitError, system, input, maxTokens).response
            == Json(origin, 200, ReplyBody(plat, system, out))
  {
    var (after, c) := GetCounter(counters, sub, dayKey, kind, limit, true);
  }

  /** `/prompt-check`: the counters change, if at all, by the one prompt increment of `sub` today. */
  function PromptCheck(plat: Platform, env: Env, req: Request, sub: string, dayKey: string, counters: Counters, origin: string)
    : (o: Outcome)
    ensures o.response.Response? ==> o.response.allowOrigin == origin && o.response.status in {200, 400, 405, 429}
    ensures o.counters == counters
            || o.counters == GetCounter(counters, sub, dayKey, "prompt", Setting(env.promptLimit, 30), true).0
  {
    if req.verb != "POST" then Outcome(Json(origin, 405, ErrorBody("use_post")), counters)
    else
      var body := RequestBody(req);
      if Unreadable(body) then Outcome(Crash, counters)
      else
        var prompt := PromptOf(req);
        if prompt == "" then Outcome(Json(origin, 200, EmptyReview()), counters)
        else if Utf16Length(prompt) > Setting(env.promptMaxChars, 5000) then
          Outcome(Json(origin, 400, ErrorBody("prompt_too_long")), counters)
        else
          Metered(plat, counters, sub, dayKey, origin, "prompt", Setting(env.promptLimit, 30), "daily_prompt_limit",
                  PromptReviewer, prompt, 900)
  }

  // ---------------------------------------------------------------- /coach-last5

  /** The two fields of a coach item the chunk loop reads: `String(item?.prompt || "").trim()` and
      `String(item?.aiReply || "").trim()` (missing on null, on non-objects and on absent keys). */
  datatype ProxyItem = ProxyItem(prompt: string, reply: string)

  function ProxyItemOf(v: JsValue): ProxyItem
  {
    ProxyItem(TextField(Get(v, "prompt")), TextField(Get(v, "aiReply")))
  }

  function ProxyItemsOf(vs: seq<JsValue>): (r: seq<ProxyItem>)
    ensures |r| == |vs| && forall k :: 0 <= k < |vs| ==> r[k] == ProxyItemOf(vs[k])
  {
    if vs == [] then [] else [ProxyItemOf(vs[0])] + ProxyItemsOf(vs[1..])
  }

  /** A chunk: its heading, the 1-based item number, a colon, a newline and the text. */
  function Labelled(heading: string, n: nat, text: string): (r: string)
    ensures |r| > |heading| && r[..|heading|] == heading
  {
    heading + NatToString(n) + ":\n" + text
  }

  /** The chunks item `i` (0-based) contributes: none when its prompt is empty, else its numbered
      prompt and, when it has one, its numbered reply. */
  function ItemChunks(i: nat, item: ProxyItem): (r: seq<string>)
    ensures item.prompt == "" <==> r == []
    ensures |r| <= 2
  {
    if item.prompt == "" then []
    else
      [Labelled("PROMPT ", i + 1, item.prompt)]
      + (if item.reply != "" then [Labelled("AI REPLY ", i + 1, item.reply)] else [])
  }

  /** The chunks of the first `n` items, in order. */
  function ChunksUpTo(items: seq<ProxyItem>, n: nat): (r: seq<string>)
    requires n <= |items|
    ensures |r| <= 2 * n
  {
    if n == 0 then [] else ChunksUpTo(items, n - 1) + ItemChunks(n - 1, items[n - 1])
  }

  function CoachChunks(items: seq<ProxyItem>): seq<string>
  {
    ChunksUpTo(items, |items|)
  }

  /** The chunk loop of `/coach-last5`, over the trimmed fields `ProxyItemsOf` reads from each item. */
  method BuildChunks(items: seq<ProxyItem>) returns (chunks: seq<string>)
    ensures chunks == CoachChunks(items)
  {
    chunks := [];
    for i := 0 to |items|
      invariant chunks == ChunksUpTo(items, i)
    {
      ghost var before := chunks;
      var item := items[i];
      if item.prompt != "" {
        var promptChunk := Labelled("PROMPT ", i + 1, item.prompt);
        chunks := chunks + [promptChunk];
        if item.reply != "" {
          var replyChunk := Labelled("AI REPLY ", i + 1, item.reply);
          chunks := chunks + [replyChunk];
          assert chunks == before + [promptChunk, replyChunk];
        }
      }
      assert chunks == before + ItemChunks(i, item);
    }
  }

  /** The user message of `/coach-last5`: the chunks joined and, when longer than `maxChars` UTF-16
      code units, sliced to that many. */
  function ClippedChunks(items: seq<ProxyItem>, maxChars: int): (r: string)
    ensures r <= JoinWith(CoachChunks(items), CoachSeparator)
    ensures maxChars >= 0 ==> Utf16Length(r) <= maxChars
    ensures Utf16Length(JoinWith(CoachChunks(items), CoachSeparator)) <= maxChars
            ==> r == JoinWith(CoachChunks(items), CoachSeparator)
    ensures maxChars >= 0 && r != JoinWith(CoachChunks(items), CoachSeparator)
            ==> Utf16Length(r) + Utf16Units(JoinWith(CoachChunks(items), CoachSeparator)[|r|]) > maxChars
  {
    var combined := JoinWith(CoachChunks(items), CoachSeparator);
    if Utf16Length(combined) > maxChars then Utf16Slice(combined, maxChars) else combined
  }

  /** Items whose prompt is empty do not reach the model. */
  lemma {:induction false} BlankItemsSkipped(items: seq<ProxyItem>, n: nat)
    requires n <= |items|
    requires forall i :: 0 <= i < n ==> items[i].prompt == ""
    ensures ChunksUpTo(items, n) == []
  {
    if n > 0 {
      BlankItemsSkipped(items, n - 1);
    }
  }

  /** Every chunk is a numbered prompt or a numbered reply. */
  lemma {:induction false} ChunksAreLabelled(items: seq<ProxyItem>, n: nat)
    requires n <= |items|
    ensures forall k :: 0 <= k < |ChunksUpTo(items, n)| ==>
              var c := ChunksUpTo(items, n)[k]; (|c| >= 7 && c[..7] == "PROMPT ") || (|c| >= 9 && c[..9] == "AI REPLY ")
  {
    if n > 0 {
      ChunksAreLabelled(items, n - 1);
      var prev := ChunksUpTo(items, n - 1);
      var more := ItemChunks(n - 1, items[n - 1]);
      assert ChunksUpTo(items, n) == prev + more;
      forall k | 0 <= k < |more|
        ensures (|more[k]| >= 7 && more[k][..7] == "PROMPT ") || (|more[k]| >= 9 && more[k][..9] == "AI REPLY ")
      {
      }
    }
  }

  function Blanks(n: nat): (r: seq<JsValue>)
    ensures |r| == n && forall i :: 0 <= i < n ==> r[i] == Str("")
  {
    if n == 0 then [] else [Str("")] + Blanks(n - 1)
  }

  /** `xs.slice(0, 3)` followed by `while (xs.length < 3) xs.push("")`. */
  function PadToThree(xs: seq<JsValue>): (r: seq<JsValue>)
    ensures |r| == 3
    ensures r[..Min3(|xs|)] == xs[..Min3(|xs|)]
    ensures forall i :: Min3(|xs|) <= i < 3 ==> r[i] == Str("")
  {
    var head := Take(xs, 3);
    head + Blanks(3 - |head|)
  }

  function Min3(n: nat): nat
  {
    if n < 3 then n else 3
  }

  /** The padding loop of `/coach-last5`. */
  method PadList(xs: seq<JsValue>) returns (r: seq<JsValue>)
    ensures r == PadToThree(xs)
  {
    r := Take(xs, 3);
    ghost var head := r;
    while |r| < 3
      invariant |head| <= |r| <= 3
      invariant r == head + Blanks(|r| - |head|)
      decreases 3 - |r|
    {
      assert Blanks(|r| + 1 - |head|) == Blanks(|r| - |head|) + [Str("")];
      r := r + [Str("")];
    }
  }

  /** The response body of `/coach-last5` built from the model's reply `out`. */
  function CoachBody(plat: Platform, out: string): (r: JsValue)
    ensures r.Obj? && r.props.Keys == {"mistakes", "fixes", "metaPrompt"}
    ensures Get(r, "mistakes").Arr? && |Get(r, "mistakes").elems| == 3
    ensures Get(r, "fixes").Arr? && |Get(r, "fixes").elems| == 3
    ensures Get(r, "metaPrompt").Str?
  {
    var parsed := ParsedOr(plat, out, Obj(map["mistakes" := Arr([Str(NotJsonMessage)]), "fixes" := Arr([]),
                                              "metaPrompt" := Str(out)]));
    Obj(map["mistakes" := Arr(PadToThree(ArrayOrEmpty(Get(parsed, "mistakes")))),
            "fixes" := Arr(PadToThree(ArrayOrEmpty(Get(parsed, "fixes")))),
            "metaPrompt" := StringOrEmpty(Get(parsed, "metaPrompt"))])
  }

  /** The lists of a well-formed reply are its first three entries, padded with "". */
  lemma CoachListsArePrefixes(plat: Platform, out: string, parsed: JsValue)
    requires plat.prims.jsonParse(out) == Some(parsed) && parsed.Obj?
    requires Get(parsed, "mistakes").Arr?
    ensures var m := Get(CoachBody(plat, out), "mistakes").elems;
            var given := Get(parsed, "mistakes").elems;
            m[..Min3(|given|)] == given[..Min3(|given|)] && forall i :: Min3(|given|) <= i < 3 ==> m[i] == Str("")
  {
  }

  /** A reply that is not a JSON object gives the one-line mistake, empty fixes and the raw reply as `metaPrompt`. */
  lemma CoachOfNonJson(plat: Platform, out: string)
    requires plat.prims.jsonParse(out).None? || !IsObjectLike(plat.prims.jsonParse(out).value)
    ensures CoachBody(plat, out) == Obj(map["mistakes" := Arr([Str(NotJsonMessage), Str(""), Str("")]),
                                            "fixes" := Arr([Str(""), Str(""), Str("")]),
                                            "metaPrompt" := Str(out)])
  {
    assert PadToThree([Str(NotJsonMessage)]) == [Str(NotJsonMessage), Str(""), Str("")];
    assert PadToThree([]) == [Str(""), Str(""), Str("")];
  }

  /** `/coach-last5`: the counters change, if at all, by the one coach increment of `sub` today. */
  function CoachLast5(plat: Platform, env: Env, req: Request, sub: string, dayKey: string, counters: Counters, origin: string)
    : (o: Outcome)
    ensures o.response.Response? ==> o.response.allowOrigin == origin && o.response.status in {200, 400, 405, 429}
    ensures o.counters == counters
            || o.counters == GetCounter(counters, sub, dayKey, "coach", Setting(env.coachLimit, 5), true).0
  {
    if req.verb != "POST" then Outcome(Json(origin, 405, ErrorBody("use_post")), counters)
    else
      var body := RequestBody(req);
      if Unreadable(body) then Outcome(Crash, counters)
      else
        var last := Take(ArrayOrEmpty(Get(body, "items")), 5);
        if last == [] then Outcome(Json(origin, 400, ErrorBody("missing_items")), counters)
        else
          var combined := ClippedChunks(ProxyItemsOf(last), Setting(env.coachMaxChars, 8000));
          Metered(plat, counters, sub, dayKey, origin, "coach", Setting(env.coachLimit, 5), "daily_coach_limit",
                  Coach, combined, 700)
  }

  // ---------------------------------------------------------------- dispatch

  /** The token gate's result for this request. */
  function Gate(plat: Platform, env: Env, req: Request, now: int): Verdict
  {
    VerifyToken(plat.prims, env.tokenSecret, GetBearer(req.authorization), now, AsWritten)
  }

  predicate IsOpen(req: Request)
  {
    req.verb == "OPTIONS" || (req.verb == "GET" && (req.path == "/" || req.path == "/health")) || req.path == "/unlock"
  }

  /** The dispatch of the handler once the response origin and the token verdict are known; both are
      pure functions of the request, so computing them up front changes nothing. */
  function Dispatch(plat: Platform, env: Env, req: Request, now: int, dayKey: string, counters: Counters,
                    origin: string, vt: Verdict): (o: Outcome)
    ensures o.response.Response? ==> o.response.allowOrigin == origin
    ensures o.response.Response? ==> o.response.status in {200, 204, 400, 401, 404, 405, 429}
    ensures o.counters == counters
            || (vt.Verified? && req.path == "/prompt-check"
                && o.counters == GetCounter(counters, vt.sub, dayKey, "prompt", Setting(env.promptLimit, 30), true).0)
            || (vt.Verified? && req.path == "/coach-last5"
                && o.counters == GetCounter(counters, vt.sub, dayKey, "coach", Setting(env.coachLimit, 5), true).0)
  {
    if req.verb == "OPTIONS" then Outcome(Response(204, NoBody, origin), counters)
    else if req.verb == "GET" && (req.path == "/" || req.path == "/health") then
      Outcome(Json(origin, 200, Obj(map["ok" := Bool(true)])), counters)
    else if req.path == "/unlock" then Outcome(Unlock(plat, env, req, now, origin), counters)
    else if vt.Rejected? then
      Outcome(Json(origin, 401, ErrorBody(if vt.error == "" then "unauthorized" else vt.error)), counters)
    else if req.path == "/status" then Outcome(Status(env, req, vt.sub, dayKey, counters, origin), counters)
    else if req.path == "/prompt-check" then PromptCheck(plat, env, req, vt.sub, dayKey, counters, origin)
    else if req.path == "/coach-last5" then CoachLast5(plat, env, req, vt.sub, dayKey, counters, origin)
    else Outcome(Response(404, TextBody("Not found"), origin), counters)
  }

  /** The handler. `now` is `Date.now()` and `dayKey` is today's date in the configured time zone. Every
      response carries the origin `getAllowedOrigin` chose, and a request changes at most one counter. */
  function Route(plat: Platform, env: Env, req: Request, now: int, dayKey: string, counters: Counters): (o: Outcome)
    ensures o.response.Response? ==> o.response.allowOrigin == Origin(plat, env, req)
    ensures o.response.Response? ==> o.response.status in {200, 204, 400, 401, 404, 405, 429}
  {
    Dispatch(plat, env, req, now, dayKey, counters, Origin(plat, env, req), Gate(plat, env, req, now))
  }

  // ---------------------------------------------------------------- metering properties

  /** Preflight, health and `/unlock` never touch a counter, whatever the token. */
  lemma OpenRoutesDoNotCount(plat: Platform, env: Env, req: Request, now: int, dayKey: string, counters: Counters,
                             origin: string, vt: Verdict)
    requires IsOpen(req)
    ensures var o := Dispatch(plat, env, req, now, dayKey, counters, origin, vt);
            o.counters == counters
            && (req.verb == "OPTIONS" ==> o.response == Response(204, NoBody, origin))
            && (req.verb != "OPTIONS" && req.path == "/unlock" ==> o.response == Unlock(plat, env, req, now, origin))
  {
  }

  /** A missing or invalid token is answered 401 with the verifier's error and never reaches a counter. */
  lemma RejectedTokenDoesNotCount(plat: Platform, env: Env, req: Request, now: int, dayKey: string, counters: Counters,
                                  origin: string, vt: Verdict)
    requires !IsOpen(req)
    requires vt.Rejected? && vt.error != ""
    ensures var o := Dispatch(plat, env, req, now, dayKey, counters, origin, vt);
            o.counters == counters && o.response == Json(origin, 401, ErrorBody(vt.error))
  {
  }

  /** Without an `Authorization` header every gated path is refused as a bad token (or a missing secret). */
  lemma NoHeaderIsRejected(plat: Platform, env: Env, req: Request, now: int)
    requires req.authorization == ""
    ensures Gate(plat, env, req, now).Rejected?
    ensures Gate(plat, env, req, now).error in {"server_misconfig", "bad_token"}
  {
    assert GetBearer("") == "";
    assert |Split("", '.')| == 1;
  }

  /** `/status` never increments. */
  lemma StatusDoesNotCount(plat: Platform, env: Env, req: Request, now: int, dayKey: string, counters: Counters,
                           origin: string, vt: Verdict)
    requires req.path == "/status"
    ensures Dispatch(plat, env, req, now, dayKey, counters, origin, vt).counters == counters
  {
  }

  /** The prompt of a `/prompt-check` request. */
  function PromptOf(req: Request): string
  {
    TextField(Get(RequestBody(req), "prompt"))
  }

  /** An empty prompt gets the empty review and an oversize one `prompt_too_long`, both before any increment. */
  lemma PromptRejectedBeforeCounting(plat: Platform, env: Env, req: Request, sub: string, dayKey: string, origin: string,
                                     counters: Counters)
    requires req.verb == "POST" && !Unreadable(RequestBody(req))
    requires PromptOf(req) == "" || Utf16Length(PromptOf(req)) > Setting(env.promptMaxChars, 5000)
    ensures var o := PromptCheck(plat, env, req, sub, dayKey, counters, origin);
            o.counters == counters
            && (PromptOf(req) == "" ==> o.response == Json(origin, 200, EmptyReview()))
            && (PromptOf(req) != "" ==> o.response == Json(origin, 400, ErrorBody("prompt_too_long")))
  {
  }

  /** An accepted prompt goes to the metered tail with the reviewer prompt and 900 tokens. */
  lemma PromptIsMetered(plat: Platform, env: Env, req: Request, sub: string, dayKey: string, origin: string,
                        counters: Counters)
    requires req.verb == "POST" && !Unreadable(RequestBody(req))
    requires PromptOf(req) != "" && Utf16Length(PromptOf(req)) <= Setting(env.promptMaxChars, 5000)
    ensures PromptCheck(plat, env, req, sub, dayKey, counters, origin)
            == Metered(plat, counters, sub, dayKey, origin, "prompt", Setting(env.promptLimit, 30), "daily_prompt_limit",
                       PromptReviewer, PromptOf(req), 900)
  {
  }

  /** An accepted prompt raises the day's prompt count by one, whatever the outcome upstream; the request
      is refused with 429 exactly when the new count exceeds the limit, and then the upstream model is
      not consulted (any other upstream gives the same outcome). */
  lemma PromptQuota(plat: Platform, env: Env, req: Request, sub: string, dayKey: string, origin: string, counters: Counters,
                    other: Upstream)
    requires req.verb == "POST" && !Unreadable(RequestBody(req))
    requires PromptOf(req) != "" && Utf16Length(PromptOf(req)) <= Setting(env.promptMaxChars, 5000)
    ensures var o := PromptCheck(plat, env, req, sub, dayKey, counters, origin);
            Count(o.counters, sub, dayKey, "prompt") == Count(counters, sub, dayKey, "prompt") + 1
            && (o.response.Response? && o.response.status == 429
                <==> Count(counters, sub, dayKey, "prompt") + 1 > Setting(env.promptLimit, 30))
    ensures Count(counters, sub, dayKey, "prompt") + 1 > Setting(env.promptLimit, 30)
            ==> PromptCheck(plat.(upstream := other), env, req, sub, dayKey, counters, origin)
                == PromptCheck(plat, env, req, sub, dayKey, counters, origin)
  {
    PromptIsMetered(plat, env, req, sub, dayKey, origin, counters);
    PromptIsMetered(plat.(upstream := other), env, req, sub, dayKey, origin, counters);
    MeteredQuota(plat, counters, sub, dayKey, origin, "prompt", Setting(env.promptLimit, 30), "daily_prompt_limit",
                 PromptReviewer, PromptOf(req), 900, other);
  }

  /** A successful `/prompt-check` carries the four review fields of the model's reply. */
  lemma PromptAnswered(plat: Platform, env: Env, req: Request, sub: string, dayKey: string, origin: string, counters: Counters,
                       out: string)
    requires req.verb == "POST" && !Unreadable(RequestBody(req))
    requires PromptOf(req) != "" && Utf16Length(PromptOf(req)) <= Setting(env.promptMaxChars, 5000)
    requires Count(counters, sub, dayKey, "prompt") + 1 <= Setting(env.promptLimit, 30)
    requires plat.upstream(PromptReviewer, PromptOf(req), 900) == Some(out)
    ensures PromptCheck(plat, env, req, sub, dayKey, counters, origin).response == Json(origin, 200, ReviewBody(plat, out))
  {
    PromptIsMetered(plat, env, req, sub, dayKey, origin, counters);
    MeteredAnswered(plat, counters, sub, dayKey, origin, "prompt", Setting(env.promptLimit, 30), "daily_prompt_limit",
                    PromptReviewer, PromptOf(req), 900, out);
  }

  /** The coach items of a request: the first five entries of `items`. */
  function CoachItems(req: Request): seq<JsValue>
  {
    Take(ArrayOrEmpty(Get(RequestBody(req), "items")), 5)
  }

  /** The user message `/coach-last5` sends: the clipped chunks of the first five items. */
  function CoachMessage(env: Env, req: Request): string
  {
    ClippedChunks(ProxyItemsOf(CoachItems(req)), Setting(env.coachMaxChars, 8000))
  }

  /** A `/coach-last5` request without items is refused before any increment. */
  lemma CoachNeedsItems(plat: Platform, env: Env, req: Request, sub: string, dayKey: string, origin: string,
                        counters: Counters)
    requires req.verb == "POST" && !Unreadable(RequestBody(req)) && CoachItems(req) == []
    ensures var o := CoachLast5(plat, env, req, sub, dayKey, counters, origin);
            o.counters == counters && o.response == Json(origin, 400, ErrorBody("missing_items"))
  {
  }

  /** A request with items goes to the metered tail with the coach prompt and 700 tokens. */
  lemma CoachIsMetered(plat: Platform, env: Env, req: Request, sub: string, dayKey: string, origin: string,
                       counters: Counters)
    requires req.verb == "POST" && !Unreadable(RequestBody(req)) && CoachItems(req) != []
    ensures CoachLast5(plat, env, req, sub, dayKey, counters, origin)
            == Metered(plat, counters, sub, dayKey, origin, "coach", Setting(env.coachLimit, 5), "daily_coach_limit",
                       Coach, CoachMessage(env, req), 700)
  {
  }

  /** `/coach-last5` counts like `/prompt-check`: one increment per request that has items, 429 exactly
      when the new count exceeds the limit, and then an answer without the upstream model. */
  lemma CoachQuota(plat: Platform, env: Env, req: Request, sub: string, dayKey: string, origin: string, counters: Counters,
                   other: Upstream)
    requires req.verb == "POST" && !Unreadable(RequestBody(req)) && CoachItems(req) != []
    ensures var o := CoachLast5(plat, env, req, sub, dayKey, counters, origin);
            Count(o.counters, sub, dayKey, "coach") == Count(counters, sub, dayKey, "coach") + 1
            && (o.response.Response? && o.response.status == 429
                <==> Count(counters, sub, dayKey, "coach") + 1 > Setting(env.coachLimit, 5))
    ensures Count(counters, sub, dayKey, "coach") + 1 > Setting(env.coachLimit, 5)
            ==> CoachLast5(plat.(upstream := other), env, req, sub, dayKey, counters, origin)
                == CoachLast5(plat, env, req, sub, dayKey, counters, origin)
  {
    CoachIsMetered(plat, env, req, sub, dayKey, origin, counters);
    CoachIsMetered(plat.(upstream := other), env, req, sub, dayKey, origin, counters);
    MeteredQuota(plat, counters, sub, dayKey, origin, "coach", Setting(env.coachLimit, 5), "daily_coach_limit",
                 Coach, CoachMessage(env, req), 700, other);
  }

  /** A successful answer has exactly three mistakes and three fixes, and the model was sent at most
      `COACH_MAX_CHARS` characters. */
  lemma CoachAnswered(plat: Platform, env: Env, req: Request, sub: string, dayKey: string, origin: string, counters: Counters,
                      out: string)
    requires req.verb == "POST" && !Unreadable(RequestBody(req)) && CoachItems(req) != []
    requires Count(counters, sub, dayKey, "coach") + 1 <= Setting(env.coachLimit, 5)
    requires plat.upstream(Coach, CoachMessage(env, req), 700) == Some(out)
    ensures var r := CoachLast5(plat, env, req, sub, dayKey, counters, origin).response;
            r == Json(origin, 200, CoachBody(plat, out))
            && |Get(r.body.value, "mistakes").elems| == 3 && |Get(r.body.value, "fixes").elems| == 3
    ensures Setting(env.coachMaxChars, 8000) >= 0 ==> Utf16Length(CoachMessage(env, req)) <= Setting(env.coachMaxChars, 8000)
  {
    CoachIsMetered(plat, env, req, sub, dayKey, origin, counters);
    MeteredAnswered(plat, counters, sub, dayKey, origin, "coach", Setting(env.coachLimit, 5), "daily_coach_limit",
                    Coach, CoachMessage(env, req), 700, out);
  }
}
