/** Session tokens of the proxy (worker/src/index.js): `sha256Hex`, `hmacSign`, the compare
    in `hmacVerify`, `issueToken` and `verifyToken`.

    A token is `payloadB64 "." sig`: `payloadB64` is the base64url text of the UTF-8 bytes of
    `{"sub":..,"exp":..}`, and `sig` is the base64url HMAC-SHA-256 of `payloadB64` under the
    trimmed `TOKEN_SECRET`. UTF-8, HMAC-SHA-256, SHA-256 and `JSON.parse` are the fields of
    `Primitives`; the clock is the parameter `now` (milliseconds). */
module Tokens {
  import opened JsText
  import opened JsValues
  import opened Base64Url

  datatype Primitives = Primitives(
    utf8Encode: string -> seq<byte>,
    utf8Decode: seq<byte> -> string,
    hmacSha256: (seq<byte>, seq<byte>) -> seq<byte>,
    sha256: seq<byte> -> seq<byte>,
    jsonParse: JsonParser)

  const DayMillis: int := 24 * 60 * 60 * 1000

  // ---------------------------------------------------------------- hex digest

  predicate IsLowerHex(c: char)
  {
    ('0' <= c <= '9') || ('a' <= c <= 'f')
  }

  function HexDigit(d: int): (c: char)
    requires 0 <= d < 16
    ensures IsLowerHex(c)
  {
    if d < 10 then ('0' as int + d) as char else ('a' as int + (d - 10)) as char
  }

  /** `bytes.map(b => b.toString(16).padStart(2, "0")).join("")`. */
  function Hex(bytes: seq<byte>): (h: string)
    ensures |h| == 2 * |bytes|
    ensures forall i :: 0 <= i < |h| ==> IsLowerHex(h[i])
  {
    if bytes == [] then [] else [HexDigit(bytes[0] / 16), HexDigit(bytes[0] % 16)] + Hex(bytes[1..])
  }

  /** `sha256Hex(str)`. */
  function Sha256Hex(prims: Primitives, str: string): string
  {
    Hex(prims.sha256(prims.utf8Encode(str)))
  }

  // ---------------------------------------------------------------- signatures

  /** `hmacSign(secret, msg)`: base64url of the HMAC-SHA-256 of the UTF-8 bytes. */
  function HmacSign(prims: Primitives, secret: string, msg: string): (sig: string)
    ensures forall i :: 0 <= i < |sig| ==> IsUrlAlphabetChar(sig[i])
  {
    Encode(prims.hmacSha256(prims.utf8Encode(secret), prims.utf8Encode(msg)))
  }

  /** Bitwise XOR of two non-negative integers (exact for the 16-bit character codes compared here). */
  function Xor(a: nat, b: nat): nat
    decreases a + b
  {
    if a == 0 && b == 0 then 0 else 2 * Xor(a / 2, b / 2) + (if a % 2 != b % 2 then 1 else 0)
  }

  /** Bitwise OR of two non-negative integers. */
  function BitOr(a: nat, b: nat): nat
    decreases a + b
  {
    if a == 0 && b == 0 then 0 else 2 * BitOr(a / 2, b / 2) + (if a % 2 == 1 || b % 2 == 1 then 1 else 0)
  }

  lemma {:induction false} XorZero(a: nat, b: nat)
    ensures Xor(a, b) == 0 <==> a == b
    decreases a + b
  {
    if !(a == 0 && b == 0) {
      XorZero(a / 2, b / 2);
    }
  }

  lemma {:induction false} BitOrZero(a: nat, b: nat)
    ensures BitOr(a, b) == 0 <==> a == 0 && b == 0
    decreases a + b
  {
    if !(a == 0 && b == 0) {
      BitOrZero(a / 2, b / 2);
    }
  }

  /** The compare in `hmacVerify`: unequal lengths are rejected before the loop, which ORs together
      the XOR of every pair of character codes and accepts when the result is 0. */
  method SignaturesMatch(expected: string, sig: string) returns (ok: bool)
    ensures ok <==> expected == sig
  {
    if |expected| != |sig| {
      return false;
    }
    var acc: nat := 0;
    var i := 0;
    while i < |expected|
      invariant 0 <= i <= |expected|
      invariant acc == 0 <==> expected[..i] == sig[..i]
    {
      assert expected[..i + 1] == expected[..i] + [expected[i]];
      assert sig[..i + 1] == sig[..i] + [sig[i]];
      var x := Xor(expected[i] as int, sig[i] as int);
      XorZero(expected[i] as int, sig[i] as int);
      BitOrZero(acc, x);
      acc := BitOr(acc, x);
      i := i + 1;
    }
    assert expected[..i] == expected && sig[..i] == sig;
    ok := acc == 0;
  }

  /** `hmacVerify(secret, msg, sig)`. */
  method HmacVerify(prims: Primitives, secret: string, msg: string, sig: string) returns (ok: bool)
    ensures ok <==> sig == HmacSign(prims, secret, msg)
  {
    var expected := HmacSign(prims, secret, msg);
    ok := SignaturesMatch(expected, sig);
  }

  // ---------------------------------------------------------------- issuing

  /** `JSON.stringify({ sub, exp })` for a hexadecimal `sub` (nothing to escape). */
  function PayloadText(sub: string, exp: int): string
  {
    "{\"sub\":\"" + sub + "\",\"exp\":" + IntToString(exp) + "}"
  }

  /** The object `JSON.parse` gives back for the payload. */
  function PayloadObject(sub: string, exp: int): JsValue
  {
    Obj(map["sub" := Str(sub), "exp" := Num(exp)])
  }

  /** The base64url payload part of a token. */
  function PayloadPart(prims: Primitives, sub: string, exp: int): (p: string)
    ensures '.' !in p
  {
    var p := Encode(prims.utf8Encode(PayloadText(sub, exp)));
    NoDotInUrlText(p);
    p
  }

  /** `${payloadB64}.${sig}` under the (already trimmed) secret. */
  function SignedToken(prims: Primitives, secret: string, sub: string, exp: int): (token: string)
    ensures Split(token, '.') == [PayloadPart(prims, sub, exp), HmacSign(prims, secret, PayloadPart(prims, sub, exp))]
  {
    var p := PayloadPart(prims, sub, exp);
    var sig := HmacSign(prims, secret, p);
    NoDotInUrlText(sig);
    SplitJoined(p, sig, '.');
    p + "." + sig
  }

  /** `sha256Hex(passphrase).slice(0, 32)`. */
  function Subject(prims: Primitives, passphrase: string): (sub: string)
    ensures |sub| <= 32 && forall i :: 0 <= i < |sub| ==> IsLowerHex(sub[i])
    ensures |prims.sha256(prims.utf8Encode(passphrase))| > 0 ==> sub != ""
  {
    Take(Sha256Hex(prims, passphrase), 32)
  }

  datatype Issued = Issued(token: string, sub: string, exp: int)

  /** `issueToken(env, passphrase)`; None is the exception thrown when the trimmed secret is empty. */
  function IssueToken(prims: Primitives, tokenSecret: string, ttlDays: int, now: int, passphrase: string)
    : (r: Option<Issued>)
    ensures r.None? <==> Trim(tokenSecret) == ""
    ensures r.Some? ==> r.value.exp == now + Max(1, ttlDays) * DayMillis
    ensures r.Some? ==> r.value.sub == Subject(prims, passphrase)
    ensures r.Some? ==> r.value.token == SignedToken(prims, Trim(tokenSecret), r.value.sub, r.value.exp)
  {
    var secret := Trim(tokenSecret);
    if secret == "" then None
    else
      var exp := now + Max(1, ttlDays) * DayMillis;
      var sub := Subject(prims, passphrase);
      Some(Issued(SignedToken(prims, secret, sub, exp), sub, exp))
  }

  lemma NoDotInUrlText(s: string)
    requires forall i :: 0 <= i < |s| ==> IsUrlAlphabetChar(s[i])
    ensures '.' !in s
  {
    forall i | 0 <= i < |s| ensures s[i] != '.' {
      assert IsUrlAlphabetChar(s[i]);
    }
  }

  // ---------------------------------------------------------------- verifying

  datatype Verdict =
    | Verified(sub: string, exp: Option<int>)  // exp None: `Number(payload.exp)` is NaN
    | Rejected(error: string)

  /** Which `base64urlDecode` the verifier runs: the one the Worker ships, whose padding
      `"===".slice((len % 4) || 4)` is one "=" short after a final single byte, or the same decoder
      with that padding corrected. */
  datatype Padding = AsWritten | Corrected

  /** `base64urlDecode(p)` under the chosen padding; None is the exception `atob` throws. */
  function DecodeWith(padding: Padding, payloadB64: string): (r: Option<seq<byte>>)
    ensures padding.AsWritten? ==> r == DecodeAsWritten(payloadB64)
    ensures padding.Corrected? ==> r == Decode(payloadB64)
  {
    match padding
    case AsWritten => DecodeAsWritten(payloadB64)
    case Corrected => Decode(payloadB64)
  }

  /** Decoding the payload part: `JSON.parse(base64urlDecode(p))`; None is the exception either throws.
      `TextDecoder` replaces malformed UTF-8 and never throws. */
  function DecodePayload(prims: Primitives, payloadB64: string, padding: Padding): Option<JsValue>
  {
    match DecodeWith(padding, payloadB64)
    case None => None
    case Some(bytes) => prims.jsonParse(prims.utf8Decode(bytes))
  }

  /** The checks of `verifyToken` after the signature: a payload that decodes, is truthy and has truthy
      `sub` and `exp`, and has not expired (`now > Number(exp)`; a NaN expiry never expires). */
  function CheckPayload(decoded: Option<JsValue>, now: int): (r: Verdict)
    ensures r.Rejected? ==> r.error in {"bad_token", "expired"}
    ensures r.Verified? <==>
              decoded.Some? && Truthy(decoded.value)
              && Truthy(Get(decoded.value, "sub")) && Truthy(Get(decoded.value, "exp"))
              && !(ToNumber(Get(decoded.value, "exp")).Some? && now > ToNumber(Get(decoded.value, "exp")).value)
    ensures r.Verified? ==> r.sub == JsString(Get(decoded.value, "sub")) && r.exp == ToNumber(Get(decoded.value, "exp"))
    ensures r == Rejected("expired") ==> decoded.Some? && ToNumber(Get(decoded.value, "exp")).Some? && now > ToNumber(Get(decoded.value, "exp")).value
  {
    match decoded
    case None => Rejected("bad_token")
    case Some(payload) =>
      if !Truthy(payload) || !Truthy(Get(payload, "sub")) || !Truthy(Get(payload, "exp")) then Rejected("bad_token")
      else
        var exp := ToNumber(Get(payload, "exp"));
        if exp.Some? && now > exp.value then Rejected("expired")
        else Verified(JsString(Get(payload, "sub")), exp)
  }

  /** `verifyToken(env, token)` at time `now`: the first failing check decides the error. The Worker
      runs it with `AsWritten`. */
  function VerifyToken(prims: Primitives, tokenSecret: string, token: string, now: int, padding: Padding)
    : (r: Verdict)
    ensures Trim(tokenSecret) == "" ==> r == Rejected("server_misconfig")
    ensures Trim(tokenSecret) != "" && |Split(token, '.')| != 2 ==> r == Rejected("bad_token")
    ensures Trim(tokenSecret) != "" && |Split(token, '.')| == 2
            && Split(token, '.')[1] != HmacSign(prims, Trim(tokenSecret), Split(token, '.')[0])
            ==> r == Rejected("bad_token")
    ensures Trim(tokenSecret) != "" && |Split(token, '.')| == 2
            && Split(token, '.')[1] == HmacSign(prims, Trim(tokenSecret), Split(token, '.')[0])
            ==> r == CheckPayload(DecodePayload(prims, Split(token, '.')[0], padding), now)
    ensures r.Rejected? ==> r.error in {"server_misconfig", "bad_token", "expired"}
  {
    var secret := Trim(tokenSecret);
    if secret == "" then Rejected("server_misconfig")
    else
      var parts := Split(token, '.');
      if |parts| != 2 then Rejected("bad_token")
      else if parts[1] != HmacSign(prims, secret, parts[0]) then Rejected("bad_token")
      else CheckPayload(DecodePayload(prims, parts[0], padding), now)
  }

  /** The decoding step of `verifyToken` gives back the issued payload, provided UTF-8 round-trips and
      `JSON.parse` reads back what `JSON.stringify` wrote, and, with the padding as written, provided the
      payload's UTF-8 length is not 1 modulo 3. */
  lemma DecodeIssuedPayload(prims: Primitives, sub: string, exp: int, padding: Padding)
    requires prims.utf8Decode(prims.utf8Encode(PayloadText(sub, exp))) == PayloadText(sub, exp)
    requires prims.jsonParse(PayloadText(sub, exp)) == Some(PayloadObject(sub, exp))
    requires padding.AsWritten? ==> |prims.utf8Encode(PayloadText(sub, exp))| % 3 != 1
    ensures DecodePayload(prims, Encode(prims.utf8Encode(PayloadText(sub, exp))), padding) == Some(PayloadObject(sub, exp))
  {
    var b := prims.utf8Encode(PayloadText(sub, exp));
    if padding.AsWritten? {
      DecodeAsWrittenEncode(b);
    } else {
      DecodeEncode(b);
    }
  }

  /** With the padding as written, an issued payload whose UTF-8 length is 1 modulo 3 does not decode. */
  lemma DecodeIssuedPayloadFails(prims: Primitives, sub: string, exp: int)
    requires |prims.utf8Encode(PayloadText(sub, exp))| % 3 == 1
    ensures DecodePayload(prims, Encode(prims.utf8Encode(PayloadText(sub, exp))), AsWritten) == None
  {
    DecodeAsWrittenEncode(prims.utf8Encode(PayloadText(sub, exp)));
  }

  /** A token signed with the trimmed secret over a payload that parses back verifies with that
      payload's `sub` and `exp` until `exp`, and is "expired" after it; with the padding as written this
      needs the payload's UTF-8 length not to be 1 modulo 3. */
  lemma VerifySigned(prims: Primitives, tokenSecret: string, sub: string, exp: int, later: int, padding: Padding)
    requires Trim(tokenSecret) != ""
    requires prims.utf8Decode(prims.utf8Encode(PayloadText(sub, exp))) == PayloadText(sub, exp)
    requires prims.jsonParse(PayloadText(sub, exp)) == Some(PayloadObject(sub, exp))
    requires padding.AsWritten? ==> |prims.utf8Encode(PayloadText(sub, exp))| % 3 != 1
    requires sub != "" && exp != 0
    ensures later <= exp ==> VerifyToken(prims, tokenSecret, SignedToken(prims, Trim(tokenSecret), sub, exp), later, padding)
                             == Verified(sub, Some(exp))
    ensures later > exp ==> VerifyToken(prims, tokenSecret, SignedToken(prims, Trim(tokenSecret), sub, exp), later, padding)
                            == Rejected("expired")
  {
    var p := PayloadPart(prims, sub, exp);
    var token := SignedToken(prims, Trim(tokenSecret), sub, exp);
    assert Split(token, '.') == [p, HmacSign(prims, Trim(tokenSecret), p)];
    DecodeIssuedPayload(prims, sub, exp, padding);
    assert DecodePayload(prims, p, padding) == Some(PayloadObject(sub, exp));
    CheckIssuedPayload(sub, exp, later);
  }

  /** With the padding as written, a correctly signed token whose payload's UTF-8 length is 1 modulo 3
      is "bad_token" at every time: the signature passes and the decoding throws. */
  lemma SignedRejectedAsWritten(prims: Primitives, tokenSecret: string, sub: string, exp: int, later: int)
    requires Trim(tokenSecret) != ""
    requires |prims.utf8Encode(PayloadText(sub, exp))| % 3 == 1
    ensures VerifyToken(prims, tokenSecret, SignedToken(prims, Trim(tokenSecret), sub, exp), later, AsWritten)
            == Rejected("bad_token")
  {
    var p := PayloadPart(prims, sub, exp);
    var token := SignedToken(prims, Trim(tokenSecret), sub, exp);
    assert Split(token, '.') == [p, HmacSign(prims, Trim(tokenSecret), p)];
    DecodeIssuedPayloadFails(prims, sub, exp);
  }

  /** The payload checks accept an issued payload until its expiry and call it "expired" after. */
  lemma CheckIssuedPayload(sub: string, exp: int, later: int)
    requires sub != "" && exp != 0
    ensures later <= exp ==> CheckPayload(Some(PayloadObject(sub, exp)), later) == Verified(sub, Some(exp))
    ensures later > exp ==> CheckPayload(Some(PayloadObject(sub, exp)), later) == Rejected("expired")
  {
    var payload := PayloadObject(sub, exp);
    assert Get(payload, "exp") == Num(exp);
    assert Get(payload, "sub") == Str(sub);
  }

  /** An issued token's `sub` is 32 hex digits when the digest has SHA-256's 32 bytes. */
  lemma IssuedSubject(prims: Primitives, passphrase: string)
    requires |prims.sha256(prims.utf8Encode(passphrase))| == 32
    ensures |Subject(prims, passphrase)| == 32
  {
  }

  /** Issue then verify, as the Worker runs it: with the same secret, at any time up to the expiry, the
      token verifies with the issued `sub` and `exp` and after it is "expired", provided the digit count
      of `exp` is not a multiple of 3 (for an ASCII payload that is the UTF-8 length condition). */
  lemma VerifyIssued(prims: Primitives, tokenSecret: string, ttlDays: int, now: int, passphrase: string,
                      t: Issued, later: int)
    requires IssueToken(prims, tokenSecret, ttlDays, now, passphrase) == Some(t)
    requires now >= 0
    requires prims.utf8Decode(prims.utf8Encode(PayloadText(t.sub, t.exp))) == PayloadText(t.sub, t.exp)
    requires |prims.utf8Encode(PayloadText(t.sub, t.exp))| == |PayloadText(t.sub, t.exp)|
    requires prims.jsonParse(PayloadText(t.sub, t.exp)) == Some(PayloadObject(t.sub, t.exp))
    requires |prims.sha256(prims.utf8Encode(passphrase))| == 32
    requires |IntToString(t.exp)| % 3 != 0
    ensures later <= t.exp ==> VerifyToken(prims, tokenSecret, t.token, later, AsWritten) == Verified(t.sub, Some(t.exp))
    ensures later > t.exp ==> VerifyToken(prims, tokenSecret, t.token, later, AsWritten) == Rejected("expired")
  {
    ExpiryAfterNow(ttlDays, now);
    IssuedSubject(prims, passphrase);
    PayloadUtf8Length(prims, t.sub, t.exp);
    VerifySigned(prims, tokenSecret, t.sub, t.exp, later, AsWritten);
  }

  /** Issue then verify, as the Worker runs it, when the digit count of `exp` is a multiple of 3 (12 or
      15 digits): the freshly issued token is "bad_token" at every time. */
  lemma VerifyIssuedRejected(prims: Primitives, tokenSecret: string, ttlDays: int, now: int, passphrase: string,
                             t: Issued, later: int)
    requires IssueToken(prims, tokenSecret, ttlDays, now, passphrase) == Some(t)
    requires now >= 0
    requires |prims.utf8Encode(PayloadText(t.sub, t.exp))| == |PayloadText(t.sub, t.exp)|
    requires |prims.sha256(prims.utf8Encode(passphrase))| == 32
    requires |IntToString(t.exp)| % 3 == 0
    ensures VerifyToken(prims, tokenSecret, t.token, later, AsWritten) == Rejected("bad_token")
  {
    ExpiryAfterNow(ttlDays, now);
    IssuedSubject(prims, passphrase);
    PayloadUtf8Length(prims, t.sub, t.exp);
    SignedRejectedAsWritten(prims, tokenSecret, t.sub, t.exp, later);
  }

  function Pow10(d: nat): (r: nat)
    ensures r >= 1
  {
    if d == 0 then 1 else 10 * Pow10(d - 1)
  }

  /** `String(n)` has `d` digits exactly for `10^(d-1) <= n < 10^d`. */
  lemma {:induction false} DigitCount(n: nat, d: nat)
    requires d >= 1 && Pow10(d - 1) <= n < Pow10(d)
    ensures |NatToString(n)| == d
    decreases d
  {
    if d > 1 {
      assert Pow10(d) == 10 * Pow10(d - 1) && Pow10(d - 1) == 10 * Pow10(d - 2);
      assert Pow10(d - 2) <= n / 10 < Pow10(d - 1);
      DigitCount(n / 10, d - 1);
    }
  }

  /** Issued at 100000000000 with a 30-day lifetime, a token expires at 102592000000, twelve digits,
      so the Worker as written refuses its own token. */
  lemma TwelveDigitExpiry(ttlDays: int)
    requires ttlDays == 30
    ensures 100000000000 + Max(1, ttlDays) * DayMillis == 102592000000
    ensures |IntToString(102592000000)| % 3 == 0
  {
    assert Pow10(11) == 100000000000 && Pow10(12) == 1000000000000;
    DigitCount(102592000000, 12);
  }

  /** The defect end to end: a token issued at 100000000000 with the default 30-day lifetime is
      refused as "bad_token" by the Worker's own verifier, at any time. */
  lemma WorkerRefusesOwnToken(prims: Primitives, tokenSecret: string, passphrase: string, t: Issued, later: int)
    requires IssueToken(prims, tokenSecret, 30, 100000000000, passphrase) == Some(t)
    requires |prims.utf8Encode(PayloadText(t.sub, t.exp))| == |PayloadText(t.sub, t.exp)|
    requires |prims.sha256(prims.utf8Encode(passphrase))| == 32
    ensures t.exp == 102592000000
    ensures VerifyToken(prims, tokenSecret, t.token, later, AsWritten) == Rejected("bad_token")
  {
    TwelveDigitExpiry(30);
    VerifyIssuedRejected(prims, tokenSecret, 30, 100000000000, passphrase, t, later);
  }

  /** Issue then verify with the corrected padding: every issued token verifies until its expiry and is
      "expired" after it, whatever the digit count of `exp`. */
  lemma VerifyIssuedCorrected(prims: Primitives, tokenSecret: string, ttlDays: int, now: int, passphrase: string,
                              t: Issued, later: int)
    requires IssueToken(prims, tokenSecret, ttlDays, now, passphrase) == Some(t)
    requires now >= 0
    requires prims.utf8Decode(prims.utf8Encode(PayloadText(t.sub, t.exp))) == PayloadText(t.sub, t.exp)
    requires prims.jsonParse(PayloadText(t.sub, t.exp)) == Some(PayloadObject(t.sub, t.exp))
    requires |prims.sha256(prims.utf8Encode(passphrase))| > 0
    ensures later <= t.exp ==> VerifyToken(prims, tokenSecret, t.token, later, Corrected) == Verified(t.sub, Some(t.exp))
    ensures later > t.exp ==> VerifyToken(prims, tokenSecret, t.token, later, Corrected) == Rejected("expired")
  {
    ExpiryAfterNow(ttlDays, now);
    VerifySigned(prims, tokenSecret, t.sub, t.exp, later, Corrected);
  }

  /** The expiry lies at least one day after the issue time. */
  lemma ExpiryAfterNow(ttlDays: int, now: int)
    ensures now + Max(1, ttlDays) * DayMillis >= now + DayMillis
  {
    var d := Max(1, ttlDays);
    assert d * DayMillis == (d - 1) * DayMillis + DayMillis;
  }

  /** A token whose payload part was replaced is rejected unless the signature of the new payload
      was supplied too: the signature binds the payload text. */
  lemma VerifyRejectsForeignSignature(prims: Primitives, tokenSecret: string, payloadB64: string, sig: string, now: int,
                                      padding: Padding)
    requires Trim(tokenSecret) != ""
    requires '.' !in payloadB64 && '.' !in sig
    requires sig != HmacSign(prims, Trim(tokenSecret), payloadB64)
    ensures VerifyToken(prims, tokenSecret, payloadB64 + "." + sig, now, padding) == Rejected("bad_token")
  {
    SplitJoined(payloadB64, sig, '.');
  }

  /** A token signed under one secret is rejected under another whose HMAC of the payload differs. */
  lemma VerifyRejectsOtherSecret(prims: Primitives, secretA: string, secretB: string, sub: string, exp: int, later: int,
                                 padding: Padding)
    requires Trim(secretB) != ""
    requires HmacSign(prims, secretA, PayloadPart(prims, sub, exp)) != HmacSign(prims, Trim(secretB), PayloadPart(prims, sub, exp))
    ensures VerifyToken(prims, secretB, SignedToken(prims, secretA, sub, exp), later, padding) == Rejected("bad_token")
  {
  }

  // ---------------------------------------------------------------- the padding defect at token level

  /** The payload text is 49 characters plus the digits of `exp`. */
  lemma PayloadLength(sub: string, exp: nat)
    requires |sub| == 32
    ensures |PayloadText(sub, exp)| == 49 + |NatToString(exp)|
  {
  }

  /** With the decoder as written, an issued payload fails to decode exactly when its UTF-8 length is
      1 modulo 3, which for a 32-character `sub` and an ASCII payload means a digit count of `exp`
      divisible by 3 (12 or 15 digits; today's 13-digit millisecond times are unaffected). */
  lemma PayloadDecodesAsWritten(prims: Primitives, sub: string, exp: nat)
    requires |sub| == 32
    requires |prims.utf8Encode(PayloadText(sub, exp))| == |PayloadText(sub, exp)|
    ensures DecodeAsWritten(Encode(prims.utf8Encode(PayloadText(sub, exp)))).None? <==> |NatToString(exp)| % 3 == 0
  {
    PayloadLength(sub, exp);
    var b := prims.utf8Encode(PayloadText(sub, exp));
    DigitsMod3(|b|, |NatToString(exp)|);
    DecodeAsWrittenEncode(b);
  }

  lemma DigitsMod3(n: int, d: int)
    requires n == 49 + d
    ensures n % 3 == 1 <==> d % 3 == 0
  {
  }

  /** For a 32-character `sub` and an ASCII payload, the UTF-8 length is 1 modulo 3 exactly when the
      digit count of a non-negative `exp` is a multiple of 3. */
  lemma PayloadUtf8Length(prims: Primitives, sub: string, exp: int)
    requires |sub| == 32 && exp >= 0
    requires |prims.utf8Encode(PayloadText(sub, exp))| == |PayloadText(sub, exp)|
    ensures |prims.utf8Encode(PayloadText(sub, exp))| % 3 == 1 <==> |IntToString(exp)| % 3 == 0
  {
    PayloadLength(sub, exp);
    DigitsMod3(|PayloadText(sub, exp)|, |NatToString(exp)|);
  }
}
