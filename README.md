# Prompting Buddy, modelled in Dafny

Prompting Buddy is a static web client (`assets/app.js`) in front of a Cloudflare Worker, the "house
proxy" (`worker/src/index.js`).

- **Proxy side.** A user unlocks with a passphrase and receives a signed session token. The proxy
  verifies that token on every other call and keeps per-user, per-day counters in a Durable Object.
  It forwards prompts to an upstream model and reshapes the model's reply into fixed JSON shapes.
- **Client side.** The client reads the model's output tolerantly, normalises it into the shapes the
  UI renders and escapes it for HTML. It keeps a vault of the last ten runs and the token in
  `localStorage`, and builds the "coach me" request from the newest five runs.

The model covers both halves.

| file | module | what it models |
|---|---|---|
| `js_text.dfy` | `JsText` | the string built-ins the code relies on: `trim`, `slice`, single-character `replace`, `split`, `Number`/`String` on integers |
| `js_values.dfy` | `JsValues` | parsed JSON values, truthiness, `typeof`, property access, `a \|\| b`, `String(v)`, `Number(v)`, object spread |
| `base64url.dfy` | `Base64Url` | `base64urlEncode` / `base64urlDecode` over bytes, with `btoa` and `atob` written out |
| `tokens.dfy` | `Tokens` | `hmacSign`, the compare in `hmacVerify`, `issueToken`, `verifyToken` |
| `limits.dfy` | `Limits` | the `LimitsDO` Durable Object (a class whose storage map `/inc` updates in place) and `getCounter` |
| `gate.dfy` | `Access` | `parseAllowed`, `getBearer`, `getAllowedOrigin` |
| `router.dfy` | `Router` | the Worker's `fetch` handler: `/unlock`, `/status`, `/prompt-check`, `/coach-last5`, the chunk and padding loops |
| `client_extract.dfy` | `ClientExtract` | both `parseJsonFromText` readers: fences, the greedy `{...}` span, trailing-comma and quote repair |
| `client_normalize.dfy` | `ClientNormalize` | `normalizePromptCheckPayload` with `toList`, both `normalizeCoachPayload` variants, the coach response and `cleanList` |
| `html_escape.dfy` | `HtmlEscape` | `escapeHtml` |
| `client_store.dfy` | `ClientStore` | `localStorage` as a class: the vault, the token and its expiry, and the coach request text |

How the model stands in for things it cannot run:

- **Platform functions are parameters.** `JSON.parse`, `JSON.stringify`, `Date.parse`,
  `TextEncoder`/`TextDecoder`, SHA-256, HMAC-SHA-256, `new Date(ms).toISOString()` and the upstream
  model are parameters, not axioms. A lemma that needs one of them to behave says so in its
  `requires`, for the one value it concerns. For example, `JSON.parse` must read back the payload
  `JSON.stringify` wrote.
- **Clock, day key and now.** `Date.now()` and the day key are inputs.
- **Integers.** Numbers are integers; NaN appears only as a `None` from a conversion.
- **Strings.** Strings are sequences of Unicode characters. Where the code compares or slices by
  `.length`, the model counts UTF-16 code units (`JsText.Utf16Length`): two for a character outside
  the Basic Multilingual Plane, one otherwise.
- **The token decoder.** `Tokens.VerifyToken` takes the padding of `base64urlDecode` as a choice.
  The Worker's handler runs it as written (see "## Findings"); the corrected padding is kept beside
  it so that the intended round trip can be stated and proved.

## Model

| member | source | states |
|---|---|---|
| JsText.Utf16Length | worker/src/index.js:339 | `s.length` counts UTF-16 code units: between one and two per character |
| JsText.Utf16LengthAppend | worker/src/index.js:385-386 | the code-unit length of a concatenation is the sum |
| JsText.Utf16Take | worker/src/index.js:386 | `s.slice(0, n)`: a prefix of at most `n` code units, all of `s` when it fits, and no shorter than the next character forces |
| JsText.Utf16TakeKeepsPrefix | assets/app.js:635 | a prefix that fits in `n` code units survives the slice whole |
| JsText.Utf16TakeOfBmp | assets/app.js:624-625 | on text without characters outside the Basic Multilingual Plane, slicing by code units is slicing by characters |
| JsText.Utf16Slice | worker/src/index.js:386 | `s.slice(0, n)` for any integer `n`: a prefix of at most `n` code units, or of at most `length + n` when `n` is negative (never the whole of a non-empty string, and empty once `-n` reaches the length), and maximal under that bound |
| Base64Url.BinaryString | worker/src/index.js:23-24 | the encoder's character loop builds exactly the binary string of the bytes |
| Base64Url.BinaryToBytes | worker/src/index.js:32-33 | the decoder's byte loop keeps the low 8 bits of each character code |
| Base64Url.BinaryBytesOfLatin1 | worker/src/index.js:21-35 | reading back the binary string of a byte sequence gives the bytes |
| Base64Url.Btoa | worker/src/index.js:25 | `btoa` succeeds exactly when every character is at most U+00FF |
| Base64Url.AtobStripped | worker/src/index.js:31 | `atob` of unpadded text succeeds exactly when it is alphabet characters and its length is not 1 modulo 4 |
| Base64Url.StripTrailingEquals | worker/src/index.js:25 | `.replace(/=+$/g, "")` leaves a prefix that does not end in "=" |
| Base64Url.Encode | worker/src/index.js:21-26 | the encoder's output is the unpadded standard text in the url-safe alphabet |
| Base64Url.EncodeFacts | worker/src/index.js:25 | stripping the padding of the url-safe standard text gives the unpadded text, all url-safe characters |
| Base64Url.EncodeBytes | worker/src/index.js:21-26 | the encoder, with its loop, computes `Encode` |
| Base64Url.DecodeText | worker/src/index.js:28-35 | the decoder with corrected padding, with its loop, computes `Decode` |
| Base64Url.SextetBytesOfSextets | worker/src/index.js:21-35 | unpacking the 6-bit groups gives back the bytes |
| Base64Url.SextetsOfCharsOf | worker/src/index.js:21-35 | the alphabet maps 6-bit values to characters and back |
| Base64Url.DecodeEncodeUnpadded | worker/src/index.js:21-35 | decoding the unpadded standard text gives back the bytes |
| Base64Url.UnpaddedLength | worker/src/index.js:25 | the unpadded length modulo 4 is 2, 3 or 0 for byte counts 1, 2 or 0 modulo 3 |
| Base64Url.AtobOfStdEncode | worker/src/index.js:25-31 | `atob(btoa(bin))` gives back the binary string |
| Base64Url.AtobOfPadded | worker/src/index.js:30-31 | `atob` accepts alphabet text plus the padding that completes its last group |
| Base64Url.AtobRejectsShortPadding | worker/src/index.js:30-31 | one "=" after a two-character final group makes `atob` throw |
| Base64Url.FromToUrlAlphabet | worker/src/index.js:25-29 | renaming "-"/"_" back to "+"/"/" undoes the encoder's renaming |
| Base64Url.PadToQuadOfUnpadded | worker/src/index.js:30 | the corrected padding re-adds exactly what the encoder stripped |
| Base64Url.PadAsWrittenOfUnpadded | worker/src/index.js:30 | the padding as written adds one "=" after a final single byte and nothing after a final pair |
| Base64Url.DecodeEncode | worker/src/index.js:21-35 | round trip: the corrected decoder gives back every encoded byte sequence |
| Base64Url.DecodeAsWrittenEncode | worker/src/index.js:21-35 | the decoder as written inverts the encoder exactly when the byte count is not 1 modulo 3, and throws otherwise |
| Base64Url.DecodeAsWrittenRejectsYQ | worker/src/index.js:28-35 | "a" encodes to "YQ"; the decoder as written throws on "YQ", and the corrected one gives back "a" |
| Tokens.Hex | worker/src/index.js:116-120 | `sha256Hex` prints two lower-case hex digits per byte |
| Tokens.HmacSign | worker/src/index.js:37-50 | a signature is url-safe base64 text |
| Tokens.XorZero | worker/src/index.js:57 | `a ^ b` is zero exactly when `a == b` |
| Tokens.BitOrZero | worker/src/index.js:57 | `a \| b` is zero exactly when both are zero |
| Tokens.SignaturesMatch | worker/src/index.js:54-58 | the length check plus the XOR accumulator accept exactly equal strings |
| Tokens.HmacVerify | worker/src/index.js:52-59 | a signature verifies exactly when it equals the HMAC of the message |
| Tokens.PayloadPart | worker/src/index.js:136-137 | the payload part never contains "." |
| Tokens.SignedToken | worker/src/index.js:138-141 | splitting an issued token at "." gives exactly the payload part and its signature |
| Tokens.Subject | worker/src/index.js:134 | `sub` is at most 32 lower-case hex digits, non-empty for a non-empty digest |
| Tokens.IssueToken | worker/src/index.js:128-145 | an empty trimmed secret throws; otherwise `exp = now + max(1, ttlDays) * 86400000`, `sub` is the hashed passphrase and the token is signed with the trimmed secret |
| Tokens.CheckPayload | worker/src/index.js:155-163 | the payload checks accept exactly a truthy payload with truthy `sub` and `exp` that has not expired; the only errors are `bad_token` and `expired` |
| Tokens.DecodeWith | worker/src/index.js:28-35 | `base64urlDecode` with the padding as written, or with the padding corrected |
| Tokens.VerifyToken | worker/src/index.js:147-164 | the ladder `server_misconfig`, then the two-part split, then the signature, then the payload checks decoded with the chosen padding (the Worker's is `AsWritten`); no other error |
| Tokens.DecodeIssuedPayload | worker/src/index.js:136-157 | decoding an issued payload part gives back `{sub, exp}`: with the corrected padding always, with the padding as written when the payload's UTF-8 length is not 1 modulo 3 |
| Tokens.DecodeIssuedPayloadFails | worker/src/index.js:155-160 | with the padding as written, an issued payload whose UTF-8 length is 1 modulo 3 does not decode |
| Tokens.VerifySigned | worker/src/index.js:147-164 | a correctly signed token verifies with its `sub` and `exp` until `exp` and is `expired` after, under the corrected padding always and under the padding as written when the payload's UTF-8 length is not 1 modulo 3 |
| Tokens.SignedRejectedAsWritten | worker/src/index.js:147-164 | under the padding as written, a correctly signed token whose payload's UTF-8 length is 1 modulo 3 is `bad_token` at every time |
| Tokens.CheckIssuedPayload | worker/src/index.js:161-163 | an issued payload passes until its expiry and is `expired` after it |
| Tokens.IssuedSubject | worker/src/index.js:134 | a 32-byte digest gives a 32-character `sub` |
| Tokens.VerifyIssued | worker/src/index.js:128-164 | issue then verify as the Worker runs it: when the digit count of `exp` is not a multiple of 3, the token verifies with the issued `sub` and `exp` up to `exp` and is `expired` after |
| Tokens.VerifyIssuedRejected | worker/src/index.js:128-164 | issue then verify as the Worker runs it: when the digit count of `exp` is a multiple of 3, the freshly issued token is `bad_token` at every time |
| Tokens.DigitCount | worker/src/index.js:136-137 | `String(n)` has `d` digits exactly for `10^(d-1) <= n < 10^d` |
| Tokens.TwelveDigitExpiry | worker/src/index.js:132-133 | issued at 100000000000 with a 30-day lifetime, `exp` is 102592000000, a digit count divisible by 3 |
| Tokens.WorkerRefusesOwnToken | worker/src/index.js:128-164 | a token issued at 100000000000 with the default 30-day lifetime is refused as `bad_token` by the Worker's own verifier |
| Tokens.VerifyIssuedCorrected | worker/src/index.js:128-164 | issue then verify with the corrected padding: every issued token verifies until its expiry and is `expired` after, whatever the digit count |
| Tokens.ExpiryAfterNow | worker/src/index.js:132-133 | a token lives at least one day |
| Tokens.VerifyRejectsForeignSignature | worker/src/index.js:152-154 | under either padding, a token whose signature is not the HMAC of its payload is `bad_token` |
| Tokens.VerifyRejectsOtherSecret | worker/src/index.js:148-154 | under either padding, a token signed under another secret (with a different HMAC) is `bad_token` |
| Tokens.PayloadLength | worker/src/index.js:134-137 | the payload JSON is 49 characters plus the digits of `exp` |
| Tokens.PayloadDecodesAsWritten | worker/src/index.js:28-35 | with the decoder as written, an issued payload fails to decode exactly when the digit count of `exp` is a multiple of 3 |
| Tokens.PayloadUtf8Length | worker/src/index.js:134-137 | for a 32-character `sub` and an ASCII payload, the UTF-8 length is 1 modulo 3 exactly when the digit count of `exp` is a multiple of 3 |
| Limits.LimitsObject.Fetch | worker/src/index.js:248-271 | `LimitsDO.fetch` updates the storage and replies as `DoFetch` says |
| Limits.IncAddsOne | worker/src/index.js:258-267 | `/inc` raises its key by exactly one, replies with the new count and `max(0, limit - used)`, and leaves every other key alone |
| Limits.GetChangesNothing | worker/src/index.js:258-267 | `/get` never writes and reports the stored count, 0 for a fresh key |
| Limits.LeftIsRemainder | worker/src/index.js:266-267 | `left = max(0, limit - used)`: never negative, never above a non-negative limit |
| Limits.OtherPathNotFound | worker/src/index.js:250-252 | exactly the paths other than `/get` and `/inc` get 404, and they leave storage alone |
| Limits.IncTimesCount | worker/src/index.js:261-264 | after `n` increments the count is `n` higher, and the `n`-th reply says so |
| Limits.OverLimitExactlyAfter | worker/src/index.js:258-267 | from a fresh key, increment `n` is over the limit exactly when `n > limit` |
| Limits.GetCounter | worker/src/index.js:274-281 | `getCounter` reports the limit; a read changes nothing; an increment reports and stores the count plus one |
| Limits.IncrementIsolated | worker/src/index.js:274-281 | an increment leaves every other user, day and kind unchanged |
| Limits.ObjectNameInjective | worker/src/index.js:275 | the object name `u:<sub>` determines the user |
| Access.SplitSeps | worker/src/index.js:17 | the plain-list split yields at least one part and no part contains a separator |
| Access.ParseAllowed | worker/src/index.js:7-19 | entries are trimmed and non-empty; a blank value gives none; a `[`-value that is not a JSON array gives none |
| Access.SplitJoinComma | worker/src/index.js:17 | splitting a comma-joined list of separator-free entries gives the entries |
| Access.ParseAllowedOfList | worker/src/index.js:7-19 | a hand-written comma-separated list reads back as exactly its entries, in order |
| Access.ParseAllowedOfJsonArray | worker/src/index.js:10-16 | a JSON array of trimmed non-empty strings reads back as exactly those strings |
| Access.GetBearer | worker/src/index.js:122-126 | the token is trimmed and has no line break; a non-empty one comes from a header starting "bearer" (any case) and whitespace |
| Access.GetBearerOfHeader | worker/src/index.js:122-126 | `<Bearer in any case><whitespace><token>` yields the token |
| Access.GetBearerRejects | worker/src/index.js:122-126 | a header not starting with the scheme, or with a line break after it, yields "" |
| Access.DefaultOrigin | worker/src/index.js:75 | the default origin is never empty |
| Access.AllowedOrigin | worker/src/index.js:73-80 | the answer is the request's origin exactly when it is allowed or is the default; otherwise it is the default |
| Access.OnlyDefaultWhenUnset | worker/src/index.js:77 | with `ALLOWED_ORIGINS` unset only the default origin is ever named |
| Access.NoOriginGetsDefault | worker/src/index.js:74-79 | a request without `Origin` gets the default origin |
| Router.Unlock | worker/src/index.js:299-311 | `/unlock` answers 200, 400, 401 or 405, with the chosen origin |
| Router.UnlockLadder | worker/src/index.js:299-311 | 405 for a non-POST, then 400 for a blank passphrase, then 401 for one not in the allow-list; 200 needs all three checks and a secret |
| Router.UnlockIssues | worker/src/index.js:308-309 | an accepted passphrase gets the issued token and its ISO expiry |
| Router.Status | worker/src/index.js:320-327 | `/status` answers 200 or 405 |
| Router.StatusReports | worker/src/index.js:320-327 | `/status` reports today's prompt and coach counts with their limits and remainders |
| Router.ReviewBody | worker/src/index.js:352-363 | the review body has exactly the four fields, three arrays and a string |
| Router.ReviewOfNonJson | worker/src/index.js:352-356 | a reply that is not a JSON object becomes the one-line diagnosis with the raw reply as `golden` |
| Router.Metered | worker/src/index.js:341-363 | the metered tail always increments once and answers 200 or 429 |
| Router.MeteredQuota | worker/src/index.js:342-343 | the count rises by one; 429 exactly when the new count exceeds the limit, and then the upstream is not consulted |
| Router.MeteredAnswered | worker/src/index.js:345-363 | under the limit, the model's reply becomes the 200 body |
| Router.PromptCheck | worker/src/index.js:330-364 | `/prompt-check` answers 200, 400, 405 or 429 and changes at most the one prompt counter; the length limit counts UTF-16 code units |
| Router.ProxyItemsOf | worker/src/index.js:379-380 | each item is read as its trimmed prompt and reply |
| Router.Labelled | worker/src/index.js:382-383 | a chunk starts with its heading |
| Router.ItemChunks | worker/src/index.js:379-383 | an item contributes no chunk exactly when its prompt is empty, and at most two |
| Router.ChunksUpTo | worker/src/index.js:377-384 | `n` items give at most `2n` chunks |
| Router.BuildChunks | worker/src/index.js:377-384 | the chunk loop computes `CoachChunks` |
| Router.ClippedChunks | worker/src/index.js:385-386 | the user message is a prefix of the joined chunks, at most `maxChars` UTF-16 code units, all of it when it fits, and otherwise the longest prefix that fits |
| Router.BlankItemsSkipped | worker/src/index.js:381 | items with an empty prompt contribute nothing |
| Router.ChunksAreLabelled | worker/src/index.js:382-383 | every chunk is a numbered `PROMPT` or `AI REPLY` |
| Router.Blanks | worker/src/index.js:406-407 | padding is a run of empty strings |
| Router.PadToThree | worker/src/index.js:404-407 | exactly three entries: the first up to three given, then "" |
| Router.PadList | worker/src/index.js:404-407 | the padding loops compute `PadToThree` |
| Router.CoachBody | worker/src/index.js:398-413 | the coach body has exactly `mistakes`, `fixes` (three each) and a string `metaPrompt` |
| Router.CoachListsArePrefixes | worker/src/index.js:404-407 | the given lists are kept, truncated to three, and padded with "" |
| Router.CoachOfNonJson | worker/src/index.js:398-402 | a reply that is not a JSON object gives the one-line mistake, blank fixes and the raw reply as `metaPrompt` |
| Router.CoachLast5 | worker/src/index.js:367-414 | `/coach-last5` answers 200, 400, 405 or 429 and changes at most the one coach counter |
| Router.Dispatch | worker/src/index.js:284-417 | every answer carries the chosen origin and a known status; only `/prompt-check` and `/coach-last5` of a verified user change a counter |
| Router.Route | worker/src/index.js:284-417 | the handler answers with the origin `getAllowedOrigin` chose and a known status |
| Router.OpenRoutesDoNotCount | worker/src/index.js:287-311 | preflight, health and `/unlock` never touch a counter |
| Router.RejectedTokenDoesNotCount | worker/src/index.js:314-315 | a rejected token gets 401 with the verifier's error and no counter changes |
| Router.NoHeaderIsRejected | worker/src/index.js:313-315 | without `Authorization` every gated path is refused |
| Router.StatusDoesNotCount | worker/src/index.js:320-327 | `/status` never increments |
| Router.PromptRejectedBeforeCounting | worker/src/index.js:335-339 | an empty prompt gets the empty review and one longer than the limit in UTF-16 code units `prompt_too_long`, both before any increment |
| Router.PromptIsMetered | worker/src/index.js:341-349 | an accepted prompt goes to the model with the reviewer prompt and 900 tokens |
| Router.PromptQuota | worker/src/index.js:341-343 | each accepted prompt adds one to today's count; 429 exactly over the limit |
| Router.PromptAnswered | worker/src/index.js:345-363 | a successful check returns the four review fields of the reply |
| Router.CoachNeedsItems | worker/src/index.js:372-374 | no items: 400 `missing_items` before any increment |
| Router.CoachIsMetered | worker/src/index.js:376-396 | a request with items goes to the model with the coach prompt, the clipped chunks and 700 tokens |
| Router.CoachQuota | worker/src/index.js:388-390 | each request with items adds one to today's coach count; 429 exactly over the limit |
| Router.CoachAnswered | worker/src/index.js:376-413 | a successful answer has three mistakes and three fixes, and the message sent is at most `COACH_MAX_CHARS` UTF-16 code units |
| ClientExtract.StripOpenFence | assets/app.js:802 | an opening fence (with optional `json` and whitespace) is removed; otherwise the text is unchanged |
| ClientExtract.StripCloseFence | assets/app.js:803 | a closing fence with trailing whitespace is cut off; otherwise the text is unchanged |
| ClientExtract.StripFencesOfPlain | assets/app.js:801-803 | text without backticks at its ends passes unchanged |
| ClientExtract.StripFencesOfFenced | assets/app.js:801-803 | a fenced block yields its content (plus the newline before the closing fence) |
| ClientExtract.IndexOf | assets/app.js:805 | the first occurrence of a character, or -1 |
| ClientExtract.LastIndexOf | assets/app.js:805 | the last occurrence of a character, or -1 |
| ClientExtract.GreedySpan | assets/app.js:805 | `/\{[\s\S]*\}/` matches from the first "{" to the last "}" after it; no match exactly when no "}" follows a "{" |
| ClientExtract.SpanText | assets/app.js:805-807 | the matched text runs from "{" to "}" |
| ClientExtract.SpanOfWrappedObject | assets/app.js:805 | prose without braces around one object matches exactly that object |
| ClientExtract.ParseJsonFromText | assets/app.js:798-808 | empty text gives null; text that parses directly wins; no braces span gives null |
| ClientExtract.ReadsCleanJson | assets/app.js:798-808 | clean JSON reads as itself |
| ClientExtract.FencedReadsLikeBare | assets/app.js:798-808 | a ```json fence reads like the bare JSON |
| ClientExtract.SameBraces | assets/app.js:805 | a trailing newline does not change the braces span |
| ClientExtract.ReadsObjectInProse | assets/app.js:805-807 | an object inside prose is found and read |
| ClientExtract.AfterCommaRun | assets/app.js:538 | the comma and the whitespace run after it stay inside the text |
| ClientExtract.RemoveTrailingCommas | assets/app.js:538 | removing trailing commas never lengthens the text |
| ClientExtract.RemoveTrailingCommasKeepsStructure | assets/app.js:538 | apart from commas and whitespace, the repaired text has the same characters in the same order |
| ClientExtract.RemoveTrailingCommasNoComma | assets/app.js:538 | text without commas is unchanged |
| ClientExtract.RemoveTrailingCommaBefore | assets/app.js:538 | a comma before a closing bracket disappears, and the whitespace after it with it |
| ClientExtract.NormalizeQuotes | assets/app.js:540-541 | each character of the first mojibake class becomes `"`, each of the second `'`, every other character stays |
| ClientExtract.NormalizeQuotesClears | assets/app.js:540-541 | no character of either class survives |
| ClientExtract.ParseJsonRepairing | assets/app.js:527-551 | empty text gives null; a truthy repaired whole-text parse wins; no braces span gives null |
| ClientExtract.RepairingPrefersWholeText | assets/app.js:545-546 | when the repaired whole text parses to an object, that is the answer, whatever the span would give |
| ClientExtract.ReadersAgreeOnCleanText | assets/app.js:527-551 | on text the repair leaves alone, both readers agree |
| ClientExtract.RepairingReadsTrailingComma | assets/app.js:535-546 | `{x,}` reads like `{x}` under the repairing reader |
| ClientExtract.RepairOfTrailingComma | assets/app.js:536-542 | the repair turns `{x,}` into `{x}` |
| ClientNormalize.ReaderOf | assets/app.js:527-551 | the top-level handlers use the plain reader and the vault handlers the repairing one |
| ClientNormalize.Unwrap | assets/app.js:811-814 | `result` replaces the object exactly when it is an object |
| ClientNormalize.NonEmpty | assets/app.js:820 | `filter(Boolean)` keeps only non-empty strings |
| ClientNormalize.NonEmptyKeeps | assets/app.js:820 | a string survives exactly when it was there and is non-empty |
| ClientNormalize.ToList | assets/app.js:819-823 | entries are non-empty; anything but an array or a string gives [] |
| ClientNormalize.ToListOfArray | assets/app.js:820 | every non-empty `String(x)` of the array is kept, and nothing else appears |
| ClientNormalize.ToListOfString | assets/app.js:821 | a blank string gives [], any other its trimmed text |
| ClientNormalize.ToListOfStrings | assets/app.js:820 | an array of non-empty strings is kept as is |
| ClientNormalize.ReviewFields | assets/app.js:825-830 | the four fields: lists of non-empty strings and a trimmed `golden`; a non-object gives empty fields |
| ClientNormalize.PromptCheckSource | assets/app.js:815-817 | the source is always an object: the unwrapped result, the parsed text, `{golden: text}`, or `{}` |
| ClientNormalize.NormalizePromptCheck | assets/app.js:810-831 | the review is well formed; a non-object, non-string input gives the empty review |
| ClientNormalize.UnparsedTextIsGolden | assets/app.js:816 | unreadable text becomes the trimmed `golden` |
| ClientNormalize.ResultIsUnwrapped | assets/app.js:811-815 | an object `result` is what is normalised |
| ClientNormalize.DiagnosisSynonyms | assets/app.js:826 | `mistakes` and `notes` stand in for `diagnosis` |
| ClientNormalize.ImprovementsSynonyms | assets/app.js:828 | `fixes` and `suggestions` stand in for `improvements` |
| ClientNormalize.GoldenSynonyms | assets/app.js:829 | `goldenPrompt` and `prompt` stand in for `golden` |
| ClientNormalize.PrimaryWins | assets/app.js:826-829 | a truthy primary field wins over its synonyms |
| ClientNormalize.ReviewJson | assets/app.js:825-830 | the stored review has exactly the four fields |
| ClientNormalize.NormalizeIdempotent | assets/app.js:810-831 | normalising a normalised review gives it back |
| ClientNormalize.NormalizeTwice | assets/app.js:810-831 | normalising is idempotent on every input |
| ClientNormalize.CoachFields | assets/app.js:842-845 | `mistakes`/`fixes` are the arrays given, else []; `metaPrompt` is the first truthy of `metaPrompt`, `meta`, `raw` as a trimmed string, and "" when none is truthy |
| ClientNormalize.MergeMetaPrompt | assets/app.js:838-841 | the object changes only when `metaPrompt` is a string that reads as an object, and then becomes an object |
| ClientNormalize.CoachObject | assets/app.js:835 | a string becomes what it reads as, or `{metaPrompt: text}`; anything else passes |
| ClientNormalize.Settle | assets/app.js:837 | only the top-level variant unwraps an object `result` |
| ClientNormalize.NormalizeCoach | assets/app.js:833-848 | an object input gives a trimmed `metaPrompt`; a non-object, non-string gives empty lists and `String(maybe \|\| "")` |
| ClientNormalize.UnparsedTextIsMetaPrompt | assets/app.js:835-844 | unreadable text becomes the trimmed `metaPrompt` |
| ClientNormalize.ArraysAreKept | assets/app.js:838-843 | when both lists are arrays they are kept and `metaPrompt` is not re-read |
| ClientNormalize.MetaPromptFieldsOverride | assets/app.js:838-844 | when either list is not an array and `metaPrompt` reads as an object, its parsed `mistakes`, `fixes` and `metaPrompt` override the outer ones, which stay where the parsed object is silent |
| ClientNormalize.CoachMetaPromptChain | assets/app.js:838-844 | with both lists arrays, `metaPrompt` comes from a non-empty `metaPrompt`, else a non-empty `meta`, else a non-empty `raw`, trimmed, and is "" when none is truthy |
| ClientNormalize.TopLevelUnwrapsResult | assets/app.js:837 | the top-level variant takes the lists from `result` |
| ClientNormalize.CoachResponseOfText | assets/app.js:673 | an unreadable reply becomes the trimmed `metaPrompt` with no lists |
| ClientNormalize.CoachResponseOfObject | assets/app.js:673 | a reply object's arrays are shown as given, and its meta-prompt is the trimmed first non-empty of `metaPrompt`, `meta`, `raw` |
| ClientNormalize.DisplayStrings | assets/app.js:676 | `String(x ?? '')` of each entry |
| ClientNormalize.CleanList | assets/app.js:675-678 | at most three entries, trimmed and non-empty, in order, and all of them when fewer than three |
| ClientNormalize.CleanListOfClean | assets/app.js:675-678 | up to three clean strings pass unchanged |
| HtmlEscape.EscapeHtml | assets/app.js:788-795 | no `'` survives escaping |
| HtmlEscape.EscapeEach | assets/app.js:788-795 | escaping each character on its own never shrinks the text and leaves no `<`, `>`, `"` or `'` |
| HtmlEscape.EscapeHtmlIsPerCharacter | assets/app.js:788-795 | because `&` goes first, the chain of replacements escapes each character exactly once |
| HtmlEscape.EscapeHtmlHasNoMarkup | assets/app.js:788-795 | the output contains no `<`, `>`, `"` or `'` |
| HtmlEscape.UnescapeEscapeHtml | assets/app.js:788-795 | decoding the five entities gives back the input |
| ClientStore.VaultSaved | assets/app.js:73-75 | `saveVault` writes the first ten entries as JSON and changes no other key |
| ClientStore.WithReply | assets/app.js:509 | an object entry gets `aiReply` and keeps its other properties; any other entry is unchanged |
| ClientStore.TokenCleared | assets/app.js:99-102 | `clearToken` removes exactly the two token keys |
| ClientStore.LocalStorage.LoadVault | assets/app.js:66-72 | `loadVault` returns `VaultOf` of the store |
| ClientStore.LocalStorage.SaveVault | assets/app.js:73-75 | the store becomes `VaultSaved` of the array |
| ClientStore.LocalStorage.AddVaultItem | assets/app.js:76-80 | the store holds the item followed by the loaded vault, saved |
| ClientStore.LocalStorage.SaveReply | assets/app.js:494-514 | "Save reply" changes the store as `ReplySaved` says |
| ClientStore.LocalStorage.GetToken | assets/app.js:83-93 | `getToken` returns and changes what `TokenRead` says |
| ClientStore.LocalStorage.SetToken | assets/app.js:94-98 | `setToken` writes what `TokenSet` says |
| ClientStore.LocalStorage.ClearToken | assets/app.js:99-102 | `clearToken` leaves `TokenCleared` of the store |
| ClientStore.LoadVaultFallsBack | assets/app.js:66-72 | only a stored text that parses to an array gives entries, and then exactly its elements |
| ClientStore.SaveThenLoad | assets/app.js:66-75 | a saved vault loads as its first ten entries, so never more than ten |
| ClientStore.AddThenLoad | assets/app.js:66-80 | after adding, the vault is the item followed by the nine newest older runs, in order |
| ClientStore.SaveReplyThenLoad | assets/app.js:494-514 | a missing or falsy entry writes nothing; an object entry gets the trimmed reply, every other property and entry unchanged |
| ClientStore.GetTokenOutcomes | assets/app.js:83-93 | "" exactly when no token is stored or it has expired; an expired token is removed with its expiry; otherwise the trimmed token, store untouched |
| ClientStore.GetTokenTwice | assets/app.js:83-93 | a second read at the same moment gives the same answer and changes nothing |
| ClientStore.SetThenGet | assets/app.js:83-98 | a token stored with a non-zero expiry reads back trimmed until then, and is dropped with its expiry after |
| ClientStore.StoredExpiry | assets/app.js:85-97 | the stored expiry reads back as the number `Date.parse` gave |
| ClientStore.SetWithoutExpiryKeepsOldExpiry | assets/app.js:85-97 | without an expiry, an earlier expiry stays, and the new token is dropped exactly when that expiry has passed |
| ClientStore.ClearThenGet | assets/app.js:83-102 | after `clearToken` no token is read |
| ClientStore.ItemOf | assets/app.js:623-626 | prompt at most 5000 and reply at most 4000 UTF-16 code units, each a prefix of the field's text and all of it when it fits |
| ClientStore.Items | assets/app.js:623-626 | one item per vault entry, in order |
| ClientStore.Sections | assets/app.js:630-634 | one section per item |
| ClientStore.SectionsNumbered | assets/app.js:630-633 | item `k` becomes section `k + 1` |
| ClientStore.SectionOpens | assets/app.js:633 | a section opens with `#n PROMPT`, a newline and the prompt |
| ClientStore.CoachInput | assets/app.js:619-627 | locked exactly without a token; throws exactly for a null among the newest five; "No saved runs" exactly for an empty vault |
| ClientStore.CoachItemsBounds | assets/app.js:622-627 | one to five items, the newest runs in order, each within its limits in UTF-16 code units |
| ClientStore.CoachTextBounds | assets/app.js:630-635 | the text is a prefix of the combined sections: all of them when they fit in 8000 UTF-16 code units, otherwise 8000 units, or 7999 where the next character is a surrogate pair |
| ClientStore.CombinedOpens | assets/app.js:630-634 | the combined text opens with section 1 |
| ClientStore.HeadFits | assets/app.js:624-633 | the header of section 1 and a clipped prompt fit in 8000 code units |
| ClientStore.ClipKeepsFirstPrompt | assets/app.js:630-635 | the 8000-unit clip keeps section 1's header and prompt |
| ClientStore.CoachTextOpensWithNewest | assets/app.js:622-635 | the newest run's prompt, under `#1 PROMPT`, always survives the clip whole |
| ClientStore.AddedRunIsCoachedFirst | assets/app.js:619-635 | after a run is added, the coach request starts with it |

## Left out

- DOM and UI in `assets/app.js` are not modelled: theme, templates, modals, clipboard, navigation, rendering, status texts and timers. The escaped text's insertion into `innerHTML` is not modelled either.
- `fetch`/`api` and `deepseekChat` are left out: the upstream reply is an input string, and an upstream failure is `None`.
- `crypto.subtle` (SHA-256, HMAC-SHA-256), `TextEncoder`/`TextDecoder`, `JSON.parse`, `JSON.stringify`, `Date.parse` and `toISOString` are parameters, not implementations.
- `getSofiaDayKey` is not modelled. The day key and every `Date.now()` are inputs.
- Durable Object concurrency is not modelled: the counters form a sequential map, one request at a time.
- CORS header plumbing (`corsHeaders`, `withCors`) is reduced to the `Access-Control-Allow-Origin` value.
- `assets/data.js` is not part of this model. Its limits enter as the constants 5000 and 8000.
- Numbers are integers. Fractions, exponents, hex, `Infinity` and floating-point time are outside the model, and `Number(s)` of such text reads as NaN.
- `localStorage` writes are assumed to succeed. The quota exceptions that `saveVault` swallows are not modelled.
- The `_raw` field the normalisers attach is dropped. Nothing reads it back.
- The functions at assets/app.js:408-447 and the inner `normalizePromptCheckPayload` at 571-595 are not modelled. They are shadowed by later declarations and never called.
- The top-level `normalizeCoachPayload` (833) is modelled, although no handler calls it.
- Object spread `{...obj, ...parsed}` copies only string keys, so the index keys of a spread array are dropped. Nothing reads them afterwards.
- ClientStore.LocalStorage.SaveReply: the index is an integer. The `Number(data-idx)` parse is not modelled; the attribute is always rendered from an integer.
- Router.Dispatch: the Worker environment's numeric settings are taken as already-parsed integers. `None` stands for an unset or empty setting.
- JsText.Utf16Take: where `n` falls between the two halves of a surrogate pair, JavaScript's `slice` keeps a lone high surrogate. A Dafny `char` cannot hold one, so the model's prefix stops before the pair, one code unit short of `n`.
- JsText.Utf16Slice: inherits that from `Utf16Take`, at both non-negative and negative ends.
- Router.ClippedChunks: inherits that from `Utf16Take`. A clip that would end inside a surrogate pair ends before it.
- ClientStore.ItemOf: inherits that from `Utf16Take` for the 5000- and 4000-unit clips.
- ClientStore.CoachInput: inherits that from `Utf16Take` for the 8000-unit clip.
- Draft prompt, theme and "last run" caches in `localStorage` are not modelled. They are presentation state.

Where the documentation and the code disagree, the model follows the code:

- The proxy reads the model's reply with a plain `JSON.parse` and falls back to a fixed shape. It does not use the tolerant reader.
- The expired-token error is `expired`.
- `/unlock` reads the passphrase only from the `X-OU-PASS` header.
- The client's `/\{[\s\S]*\}/` span is greedy and not quote-aware: it runs from the first `{` to the last `}`.
- In `normalizeCoachPayload`, `metaPrompt` is trimmed only on the object path. The fallback for a non-object, non-string input is `String(maybe || "")`, untrimmed.

## Findings

| source | as written | input that shows it | evidently intended | confidence | as-written member | corrected member |
|---|---|---|---|---|---|---|
| worker/src/index.js:30 | `"===".slice((len % 4) \|\| 4)` adds one "=" when `len % 4 == 2` (two are needed) | "a" encodes to "YQ", which decodes padded to "YQ=" and `atob` rejects; end to end, a token issued at 100000000000 with the default 30 days expires at 102592000000 (12 digits), its 61-byte payload encodes to 82 characters, and `verifyToken` answers `bad_token`. The defect hits only expiries whose digit count is a multiple of 3 (the payload is 49 bytes plus the digits). Today's expiries in milliseconds have 13 digits (10^12 to 10^13, the years 2001 to 2286), so their 62-byte payloads decode, and the Worker's own tokens fail only for 12- or 15-digit expiries, that is an expiry between 1973 and 2001 or beyond the year 5138 (`Tokens.PayloadDecodesAsWritten`) | padding that completes the last group of four, `"===".slice(0, (4 - len % 4) % 4)`, so that decoding inverts encoding and every issued token verifies until it expires | medium, not executed | Tokens.WorkerRefusesOwnToken | Tokens.VerifyIssuedCorrected |
