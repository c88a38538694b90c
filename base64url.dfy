/** The proxy's base64url codec (worker/src/index.js, `base64urlEncode`,
    `base64urlDecode` and the tail of `hmacSign`), over byte sequences.
    The UTF-8 step (`TextEncoder` / `TextDecoder`) is left to the caller.

    - `btoa` is standard padded base64 of a binary string (one character per byte);
    - `atob` is the forgiving-base64 decode of the HTML standard: ASCII
      whitespace is dropped, one or two final "=" are removed only when the
      length is a multiple of 4, a length of 1 modulo 4 or any character
      outside the alphabet is a failure (the DOMException it throws);
    - the encoder maps "+" to "-", "/" to "_" and strips the trailing "=";
    - the decoder maps back and re-pads before calling `atob`. Its padding
      `"===".slice((len % 4) || 4)` is one "=" short (`DecodeAsWritten`); the
      model uses the corrected padding in `Decode` (see README, "Findings"). */
module Base64Url {
  import opened JsText

  type byte = b: int | 0 <= b < 256

  predicate IsAlphabetChar(c: char)
  {
    ('A' <= c <= 'Z') || ('a' <= c <= 'z') || ('0' <= c <= '9') || c == '+' || c == '/'
  }

  predicate AllAlphabet(s: string)
  {
    forall i :: 0 <= i < |s| ==> IsAlphabetChar(s[i])
  }

  function CharOf(v: int): (c: char)
    requires 0 <= v < 64
    ensures IsAlphabetChar(c)
  {
    if v < 26 then ('A' as int + v) as char
    else if v < 52 then ('a' as int + (v - 26)) as char
    else if v < 62 then ('0' as int + (v - 52)) as char
    else if v == 62 then '+'
    else '/'
  }

  function SextetOf(c: char): (v: int)
    requires IsAlphabetChar(c)
    ensures 0 <= v < 64
    ensures CharOf(v) == c
  {
    if 'A' <= c <= 'Z' then c as int - 'A' as int
    else if 'a' <= c <= 'z' then c as int - 'a' as int + 26
    else if '0' <= c <= '9' then c as int - '0' as int + 52
    else if c == '+' then 62
    else 63
  }

  lemma SextetOfCharOf(v: int)
    requires 0 <= v < 64
    ensures SextetOf(CharOf(v)) == v
  {
  }

  // ---------------------------------------------------------------- binary strings

  /** The binary string `String.fromCharCode(...bytes)` builds. */
  function Latin1(bytes: seq<byte>): (bin: string)
    ensures |bin| == |bytes|
  {
    if bytes == [] then [] else [bytes[0] as char] + Latin1(bytes[1..])
  }

  /** `new Uint8Array(n)` filled with `bin.charCodeAt(i)`: each store keeps the low 8 bits. */
  function BinaryBytes(bin: string): (bytes: seq<byte>)
    ensures |bytes| == |bin|
  {
    if bin == [] then [] else [(bin[0] as int) % 256] + BinaryBytes(bin[1..])
  }

  /** Every character of a binary string is one byte. */
  lemma {:induction false} Latin1Chars(bytes: seq<byte>)
    ensures forall i :: 0 <= i < |bytes| ==> Latin1(bytes)[i] as int == bytes[i]
    decreases |bytes|
  {
    if bytes != [] {
      Latin1Chars(bytes[1..]);
      var bin := Latin1(bytes);
      forall i | 0 <= i < |bytes| ensures bin[i] as int == bytes[i] {
        if i > 0 {
          assert bin[i] == Latin1(bytes[1..])[i - 1];
        }
      }
    }
  }

  lemma {:induction false} BinaryBytesOfLatin1(bytes: seq<byte>)
    ensures BinaryBytes(Latin1(bytes)) == bytes
    decreases |bytes|
  {
    if bytes != [] {
      BinaryBytesOfLatin1(bytes[1..]);
      var bin := Latin1(bytes);
      assert bin[0] == bytes[0] as char && bin[1..] == Latin1(bytes[1..]);
      assert bytes == [bytes[0]] + bytes[1..];
    }
  }

  lemma {:induction false} Latin1Append(a: seq<byte>, b: seq<byte>)
    ensures Latin1(a + b) == Latin1(a) + Latin1(b)
    decreases |a|
  {
    if a != [] {
      Latin1Append(a[1..], b);
      assert (a + b)[1..] == a[1..] + b;
    } else {
      assert a + b == b;
    }
  }

  lemma {:induction false} BinaryBytesAppend(a: string, b: string)
    ensures BinaryBytes(a + b) == BinaryBytes(a) + BinaryBytes(b)
    decreases |a|
  {
    if a != [] {
      BinaryBytesAppend(a[1..], b);
      assert (a + b)[1..] == a[1..] + b;
    } else {
      assert a + b == b;
    }
  }

  /** The encoder's loop: `for (...) bin += String.fromCharCode(bytes[i])`. */
  method BinaryString(bytes: seq<byte>) returns (bin: string)
    ensures bin == Latin1(bytes)
  {
    bin := "";
    var i := 0;
    while i < |bytes|
      invariant 0 <= i <= |bytes|
      invariant bin == Latin1(bytes[..i])
    {
      Latin1Append(bytes[..i], [bytes[i]]);
      assert bytes[..i + 1] == bytes[..i] + [bytes[i]];
      bin := bin + [bytes[i] as char];
      i := i + 1;
    }
    assert bytes[..i] == bytes;
  }

  /** The decoder's loop: `for (...) bytes[i] = bin.charCodeAt(i)`. */
  method BinaryToBytes(bin: string) returns (bytes: seq<byte>)
    ensures bytes == BinaryBytes(bin)
  {
    bytes := [];
    var i := 0;
    while i < |bin|
      invariant 0 <= i <= |bin|
      invariant bytes == BinaryBytes(bin[..i])
    {
      BinaryBytesAppend(bin[..i], [bin[i]]);
      assert bin[..i + 1] == bin[..i] + [bin[i]];
      bytes := bytes + [(bin[i] as int) % 256];
      i := i + 1;
    }
    assert bin[..i] == bin;
  }

  // ---------------------------------------------------------------- sextets

  predicate IsSextets(v: seq<int>)
  {
    forall i :: 0 <= i < |v| ==> 0 <= v[i] < 64
  }

  /** The 6-bit values of standard base64 for a byte sequence, before padding: four per group of
      three bytes, three for a final pair, two for a final single byte (low bits zero). */
  function Sextets(b: seq<byte>): (v: seq<int>)
    ensures IsSextets(v) && |v| % 4 != 1
    decreases |b|
  {
    if |b| >= 3 then
      [b[0] / 4, (b[0] % 4) * 16 + b[1] / 16, (b[1] % 16) * 4 + b[2] / 64, b[2] % 64] + Sextets(b[3..])
    else if |b| == 2 then [b[0] / 4, (b[0] % 4) * 16 + b[1] / 16, (b[1] % 16) * 4]
    else if |b| == 1 then [b[0] / 4, (b[0] % 4) * 16]
    else []
  }

  /** The bytes packed in a sequence of 6-bit values; a final partial group keeps only whole bytes. */
  function SextetBytes(v: seq<int>): (b: seq<byte>)
    requires IsSextets(v) && |v| % 4 != 1
    decreases |v|
  {
    if |v| >= 4 then [v[0] * 4 + v[1] / 16, (v[1] % 16) * 16 + v[2] / 4, (v[2] % 4) * 64 + v[3]] + SextetBytes(v[4..])
    else if |v| == 3 then [v[0] * 4 + v[1] / 16, (v[1] % 16) * 16 + v[2] / 4]
    else if |v| == 2 then [v[0] * 4 + v[1] / 16]
    else []
  }

  /** `hi * 16 + lo` splits back into `hi` and `lo`. */
  lemma JoinBits16(hi: int, lo: int)
    requires 0 <= lo < 16
    ensures (hi * 16 + lo) / 16 == hi && (hi * 16 + lo) % 16 == lo
  {
  }

  /** `hi * 4 + lo` splits back into `hi` and `lo`. */
  lemma JoinBits4(hi: int, lo: int)
    requires 0 <= lo < 4
    ensures (hi * 4 + lo) / 4 == hi && (hi * 4 + lo) % 4 == lo
  {
  }

  /** Unpacking the 6-bit values gives back the bytes. */
  lemma {:induction false} SextetBytesOfSextets(b: seq<byte>)
    ensures SextetBytes(Sextets(b)) == b
    decreases |b|
  {
    if |b| >= 3 {
      var v := Sextets(b);
      var rest := Sextets(b[3..]);
      assert v[4..] == rest;
      JoinBits16(b[0] % 4, b[1] / 16);
      JoinBits4(b[1] % 16, b[2] / 64);
      SextetBytesOfSextets(b[3..]);
      assert b == [b[0], b[1], b[2]] + b[3..];
    } else if |b| == 2 {
      JoinBits16(b[0] % 4, b[1] / 16);
      JoinBits4(b[1] % 16, 0);
    } else if |b| == 1 {
      JoinBits16(b[0] % 4, 0);
    }
  }

  /** The unpadded length modulo 4 is fixed by the byte count modulo 3. */
  lemma {:induction false} SextetsLength(b: seq<byte>)
    ensures |Sextets(b)| % 4 == (if |b| % 3 == 1 then 2 else if |b| % 3 == 2 then 3 else 0)
    decreases |b|
  {
    if |b| >= 3 {
      SextetsLength(b[3..]);
      var x := |Sextets(b[3..])|;
      assert |Sextets(b)| == 4 + x;
      GroupsMod(x, |b[3..]|, |Sextets(b)|, |b|);
    }
  }

  lemma GroupsMod(x: nat, y: nat, a: nat, b: nat)
    requires a == 4 + x && b == 3 + y
    requires x % 4 == (if y % 3 == 1 then 2 else if y % 3 == 2 then 3 else 0)
    ensures a % 4 == (if b % 3 == 1 then 2 else if b % 3 == 2 then 3 else 0)
  {
  }

  /** The alphabet characters for a sequence of 6-bit values. */
  function CharsOf(v: seq<int>): (t: string)
    requires IsSextets(v)
    ensures |t| == |v| && AllAlphabet(t)
  {
    if v == [] then [] else [CharOf(v[0])] + CharsOf(v[1..])
  }

  /** The 6-bit values of a string of alphabet characters. */
  function SextetsOf(t: string): (v: seq<int>)
    requires AllAlphabet(t)
    ensures |v| == |t| && IsSextets(v)
  {
    if t == [] then [] else [SextetOf(t[0])] + SextetsOf(t[1..])
  }

  lemma {:induction false} SextetsOfCharsOf(v: seq<int>)
    requires IsSextets(v)
    ensures SextetsOf(CharsOf(v)) == v
    decreases |v|
  {
    if v != [] {
      var t := CharsOf(v);
      assert t[1..] == CharsOf(v[1..]);
      SextetOfCharOf(v[0]);
      SextetsOfCharsOf(v[1..]);
      assert v == [v[0]] + v[1..];
    }
  }

  // ---------------------------------------------------------------- btoa

  /** Standard base64 without its "=" padding. */
  function EncodeUnpadded(b: seq<byte>): (s: string)
    ensures AllAlphabet(s) && |s| % 4 != 1
  {
    CharsOf(Sextets(b))
  }

  /** The "=" count `btoa` appends: two after a final single byte, one after a final pair. */
  function Padding(n: nat): string
  {
    if n % 3 == 1 then "==" else if n % 3 == 2 then "=" else ""
  }

  /** Standard padded base64 of a byte sequence. */
  function StdEncode(b: seq<byte>): string
  {
    EncodeUnpadded(b) + Padding(|b|)
  }

  /** `btoa(bin)`: None is the exception thrown for a character above U+00FF. */
  function Btoa(bin: string): (r: Option<string>)
    ensures (forall i :: 0 <= i < |bin| ==> bin[i] as int < 256) <==> r.Some?
  {
    if forall i :: 0 <= i < |bin| ==> bin[i] as int < 256 then
      Some(StdEncode(BinaryBytes(bin)))
    else None
  }

  lemma BtoaOfLatin1(bytes: seq<byte>)
    ensures Btoa(Latin1(bytes)) == Some(StdEncode(bytes))
  {
    Latin1Chars(bytes);
    BinaryBytesOfLatin1(bytes);
  }

  // ---------------------------------------------------------------- atob

  predicate IsAsciiWhitespace(c: char)
  {
    c == '\t' || c == '\n' || c == '\U{C}' || c == '\r' || c == ' '
  }

  function RemoveAsciiWhitespace(s: string): (r: string)
  {
    if s == [] then []
    else (if IsAsciiWhitespace(s[0]) then [] else [s[0]]) + RemoveAsciiWhitespace(s[1..])
  }

  /** Removes one or two final "=". */
  function StripFinalEquals(s: string): string
  {
    if |s| >= 2 && s[|s| - 2] == '=' && s[|s| - 1] == '=' then s[..|s| - 2]
    else if |s| >= 1 && s[|s| - 1] == '=' then s[..|s| - 1]
    else s
  }

  /** The bytes of an unpadded alphabet string whose length is not 1 modulo 4. */
  function DecodeSextets(t: string): (b: seq<byte>)
    requires AllAlphabet(t) && |t| % 4 != 1
  {
    SextetBytes(SextetsOf(t))
  }

  /** `atob(data)`: None is the exception thrown for input that is not base64. */
  function Atob(data: string): (r: Option<string>)
  {
    var t := RemoveAsciiWhitespace(data);
    AtobStripped(if |t| % 4 == 0 then StripFinalEquals(t) else t)
  }

  /** The steps of `atob` after whitespace and final "=" are removed. */
  function AtobStripped(t: string): (r: Option<string>)
    ensures r.Some? <==> |t| % 4 != 1 && AllAlphabet(t)
  {
    if |t| % 4 == 1 then None
    else if !AllAlphabet(t) then None
    else Some(Latin1(DecodeSextets(t)))
  }

  /** Decoding undoes `EncodeUnpadded`. */
  lemma DecodeEncodeUnpadded(b: seq<byte>)
    ensures DecodeSextets(EncodeUnpadded(b)) == b
  {
    SextetsOfCharsOf(Sextets(b));
    SextetBytesOfSextets(b);
  }

  /** The unpadded length modulo 4 is fixed by the byte count modulo 3. */
  lemma UnpaddedLength(b: seq<byte>)
    ensures |EncodeUnpadded(b)| % 4 == (if |b| % 3 == 1 then 2 else if |b| % 3 == 2 then 3 else 0)
  {
    SextetsLength(b);
  }

  // ---------------------------------------------------------------- base64url

  /** `.replace(/\+/g, "-").replace(/\//g, "_")`. */
  function ToUrlAlphabet(s: string): string
  {
    SwapChar(SwapChar(s, '+', '-'), '/', '_')
  }

  /** `.replace(/-/g, "+").replace(/_/g, "/")`. */
  function FromUrlAlphabet(s: string): string
  {
    SwapChar(SwapChar(s, '-', '+'), '_', '/')
  }

  predicate IsUrlAlphabetChar(c: char)
  {
    ('A' <= c <= 'Z') || ('a' <= c <= 'z') || ('0' <= c <= '9') || c == '-' || c == '_'
  }

  /** `.replace(/=+$/g, "")`. */
  function StripTrailingEquals(s: string): (r: string)
    ensures |r| <= |s| && r == s[..|r|]
    ensures r == [] || r[|r| - 1] != '='
  {
    if s != [] && s[|s| - 1] == '=' then StripTrailingEquals(s[..|s| - 1]) else s
  }

  /** `base64urlEncode` after the UTF-8 step, and the tail of `hmacSign`. */
  function Encode(bytes: seq<byte>): (s: string)
    ensures s == ToUrlAlphabet(EncodeUnpadded(bytes))
    ensures forall i :: 0 <= i < |s| ==> IsUrlAlphabetChar(s[i])
  {
    EncodeFacts(bytes);
    StripTrailingEquals(ToUrlAlphabet(StdEncode(bytes)))
  }

  /** The url-safe text is the unpadded standard text with "+" and "/" renamed. */
  lemma EncodeFacts(bytes: seq<byte>)
    ensures StripTrailingEquals(ToUrlAlphabet(StdEncode(bytes))) == ToUrlAlphabet(EncodeUnpadded(bytes))
    ensures forall i :: 0 <= i < |ToUrlAlphabet(EncodeUnpadded(bytes))| ==>
              IsUrlAlphabetChar(ToUrlAlphabet(EncodeUnpadded(bytes))[i])
  {
    var u := EncodeUnpadded(bytes);
    var p := Padding(|bytes|);
    var v := ToUrlAlphabet(u);
    assert ToUrlAlphabet(u + p) == v + p;
    forall i | 0 <= i < |v| ensures IsUrlAlphabetChar(v[i]) {
      assert IsAlphabetChar(u[i]);
    }
    StripEqualsPadding(v, p);
  }

  lemma StripTrailingEqualsNone(v: string)
    requires v == [] || v[|v| - 1] != '='
    ensures StripTrailingEquals(v) == v
  {
  }

  lemma StripTrailingEqualsAfter(w: string)
    ensures StripTrailingEquals(w + "=") == StripTrailingEquals(w)
  {
    assert (w + "=")[..|w|] == w;
  }

  lemma StripEqualsPadding(v: string, p: string)
    requires forall i :: 0 <= i < |v| ==> IsUrlAlphabetChar(v[i])
    requires p == "" || p == "=" || p == "=="
    ensures StripTrailingEquals(v + p) == v
  {
    assert v == [] || v[|v| - 1] != '=' by {
      if v != [] {
        assert IsUrlAlphabetChar(v[|v| - 1]);
      }
    }
    StripTrailingEqualsNone(v);
    StripTrailingEqualsAfter(v);
    if p == "==" {
      assert v + p == (v + "=") + "=";
      StripTrailingEqualsAfter(v + "=");
    } else if p == "" {
      assert v + p == v;
    }
  }

  /** The padding `base64urlDecode` appends: `"===".slice((len % 4) || 4)`. */
  function PadAsWritten(len: nat): string
  {
    var k := len % 4;
    if k == 0 then "" else "==="[k..]
  }

  /** Padding that completes a group of four: `"===".slice(0, (4 - len % 4) % 4)`. */
  function PadToQuad(len: nat): (p: string)
    ensures (len + |p|) % 4 == 0
  {
    "==="[..(4 - len % 4) % 4]
  }

  /** `base64urlDecode` as written, before the UTF-8 step. None is the exception `atob` throws. */
  function DecodeAsWritten(s: string): Option<seq<byte>>
  {
    var b64 := FromUrlAlphabet(s);
    match Atob(b64 + PadAsWritten(|b64|))
    case None => None
    case Some(bin) => Some(BinaryBytes(bin))
  }

  /** `base64urlDecode` with the padding corrected. */
  function Decode(s: string): Option<seq<byte>>
  {
    var b64 := FromUrlAlphabet(s);
    match Atob(b64 + PadToQuad(|b64|))
    case None => None
    case Some(bin) => Some(BinaryBytes(bin))
  }

  /** Renaming back recovers the standard alphabet. */
  lemma FromToUrlAlphabet(u: string)
    requires AllAlphabet(u)
    ensures FromUrlAlphabet(ToUrlAlphabet(u)) == u
  {
    var w := FromUrlAlphabet(ToUrlAlphabet(u));
    forall i | 0 <= i < |u| ensures w[i] == u[i] {
      assert IsAlphabetChar(u[i]);
    }
  }

  predicate AlphabetOrEquals(s: string)
  {
    forall i :: 0 <= i < |s| ==> IsAlphabetChar(s[i]) || s[i] == '='
  }

  lemma {:induction false} NoAsciiWhitespace(s: string)
    requires AlphabetOrEquals(s)
    ensures RemoveAsciiWhitespace(s) == s
    decreases |s|
  {
    if s != [] {
      assert AlphabetOrEquals(s[1..]) by {
        forall i | 0 <= i < |s[1..]| ensures IsAlphabetChar(s[1..][i]) || s[1..][i] == '=' {
          assert s[1..][i] == s[i + 1];
        }
      }
      NoAsciiWhitespace(s[1..]);
      assert !IsAsciiWhitespace(s[0]) by {
        assert IsAlphabetChar(s[0]) || s[0] == '=';
      }
      assert [s[0]] + s[1..] == s;
    }
  }

  lemma AlphabetThenEquals(u: string, p: string)
    requires AllAlphabet(u)
    requires p == "" || p == "=" || p == "=="
    ensures AlphabetOrEquals(u + p)
  {
    var t := u + p;
    forall i | 0 <= i < |t| ensures IsAlphabetChar(t[i]) || t[i] == '=' {
      if i < |u| {
        assert t[i] == u[i];
      }
    }
  }

  /** After `EncodeUnpadded`, one or two "=" of padding are exactly what `atob` strips. */
  lemma StripFinalEqualsOfPadded(u: string, p: string)
    requires AllAlphabet(u)
    requires p == "" || p == "=" || p == "=="
    ensures StripFinalEquals(u + p) == u
  {
    var t := u + p;
    if p == "==" {
      assert t[..|t| - 2] == u;
    } else if p == "=" {
      if |u| >= 1 {
        assert t[|t| - 2] == u[|u| - 1];
        assert IsAlphabetChar(u[|u| - 1]);
      }
      assert t[..|t| - 1] == u;
    } else {
      assert t == u;
      if |u| >= 1 {
        assert IsAlphabetChar(u[|u| - 1]);
      }
    }
  }

  /** `atob` accepts alphabet text followed by the padding that completes its last group. */
  lemma AtobOfPadded(u: string, p: string)
    requires AllAlphabet(u) && |u| % 4 != 1
    requires p == "" || p == "=" || p == "=="
    requires (|u| + |p|) % 4 == 0
    ensures Atob(u + p) == Some(Latin1(DecodeSextets(u)))
  {
    var t := u + p;
    AlphabetThenEquals(u, p);
    NoAsciiWhitespace(t);
    assert |t| % 4 == 0;
    StripFinalEqualsOfPadded(u, p);
    assert Atob(t) == AtobStripped(u);
  }

  /** `atob` accepts unpadded alphabet text whose length is not 1 modulo 4. */
  lemma AtobOfUnpadded(u: string)
    requires AllAlphabet(u) && |u| % 4 != 1
    ensures Atob(u) == Some(Latin1(DecodeSextets(u)))
  {
    AlphabetThenEquals(u, "");
    assert u + "" == u;
    NoAsciiWhitespace(u);
    if |u| % 4 == 0 {
      StripFinalEqualsOfPadded(u, "");
    }
    assert Atob(u) == AtobStripped(u);
  }

  /** `atob` of the padded standard text gives the original bytes (as a binary string). */
  lemma AtobOfStdEncode(b: seq<byte>)
    ensures Atob(StdEncode(b)) == Some(Latin1(b))
  {
    var u, p := EncodeUnpadded(b), Padding(|b|);
    assert StdEncode(b) == u + p;
    PadToQuadOfUnpadded(b);
    DecodeEncodeUnpadded(b);
    assert p == "" || p == "=" || p == "==";
    AtobOfPadded(u, p);
  }

  /** The corrected decoder re-adds exactly the padding the encoder stripped. */
  lemma PadToQuadOfUnpadded(b: seq<byte>)
    ensures PadToQuad(|EncodeUnpadded(b)|) == Padding(|b|)
    ensures (|EncodeUnpadded(b)| + |Padding(|b|)|) % 4 == 0
  {
    UnpaddedLength(b);
    PaddingByLength(|EncodeUnpadded(b)|, |b|);
  }

  lemma PaddingByLength(len: nat, n: nat)
    requires len % 4 == (if n % 3 == 1 then 2 else if n % 3 == 2 then 3 else 0)
    ensures PadToQuad(len) == Padding(n)
    ensures (len + |Padding(n)|) % 4 == 0
  {
    if n % 3 == 1 {
      assert (4 - len % 4) % 4 == 2;
      assert "==="[..2] == "==";
    } else if n % 3 == 2 {
      assert (4 - len % 4) % 4 == 1;
      assert "==="[..1] == "=";
    } else {
      assert (4 - len % 4) % 4 == 0;
    }
  }

  /** The decoder as written re-adds one "=" after a final single byte, where two were stripped. */
  lemma PadAsWrittenOfUnpadded(b: seq<byte>)
    ensures PadAsWritten(|EncodeUnpadded(b)|) == if |b| % 3 == 1 then "=" else ""
  {
    UnpaddedLength(b);
  }

  /** A decoder fed the encoder's output sees the unpadded standard text. */
  lemma FromUrlOfEncode(b: seq<byte>)
    ensures FromUrlAlphabet(Encode(b)) == EncodeUnpadded(b)
  {
    FromToUrlAlphabet(EncodeUnpadded(b));
  }

  /** Round trip: decoding what the encoder wrote gives back the bytes. */
  lemma DecodeEncode(b: seq<byte>)
    ensures Decode(Encode(b)) == Some(b)
  {
    FromUrlOfEncode(b);
    DecodeUnpadded(Encode(b), b);
  }

  lemma DecodeUnpadded(s: string, b: seq<byte>)
    requires FromUrlAlphabet(s) == EncodeUnpadded(b)
    ensures Decode(s) == Some(b)
  {
    var u := EncodeUnpadded(b);
    PadToQuadOfUnpadded(b);
    AtobOfStdEncode(b);
    assert Atob(u + PadToQuad(|u|)) == Some(Latin1(b));
    BinaryBytesOfLatin1(b);
  }

  /** A string of alphabet characters and "=" that is not all alphabet, of length 3 modulo 4, is rejected. */
  lemma AtobRejectsNonAlphabet(t: string)
    requires AlphabetOrEquals(t)
    requires |t| % 4 == 3
    requires !AllAlphabet(t)
    ensures Atob(t) == None
  {
    NoAsciiWhitespace(t);
  }

  /** With "=" appended to a two-character final group, `atob` fails. */
  lemma AtobRejectsShortPadding(u: string)
    requires AllAlphabet(u) && |u| % 4 == 2
    ensures Atob(u + "=") == None
  {
    var t := u + "=";
    AlphabetThenEquals(u, "=");
    assert |t| % 4 == 3;
    assert t[|t| - 1] == '=';
    assert !AllAlphabet(t) by {
      assert !IsAlphabetChar(t[|t| - 1]);
    }
    AtobRejectsNonAlphabet(t);
  }

  lemma DecodeAsWrittenUnpadded(s: string, b: seq<byte>)
    requires FromUrlAlphabet(s) == EncodeUnpadded(b)
    ensures |b| % 3 != 1 ==> DecodeAsWritten(s) == Some(b)
    ensures |b| % 3 == 1 ==> DecodeAsWritten(s) == None
  {
    var u := EncodeUnpadded(b);
    PadAsWrittenOfUnpadded(b);
    UnpaddedLength(b);
    if |b| % 3 == 1 {
      AtobRejectsShortPadding(u);
    } else {
      DecodeEncodeUnpadded(b);
      AtobOfUnpadded(u);
      assert u + "" == u;
      BinaryBytesOfLatin1(b);
    }
  }

  /** The decoder as written inverts the encoder only when the byte count is not 1 modulo 3. */
  lemma DecodeAsWrittenEncode(b: seq<byte>)
    ensures |b| % 3 != 1 ==> DecodeAsWritten(Encode(b)) == Some(b)
    ensures |b| % 3 == 1 ==> DecodeAsWritten(Encode(b)) == None
  {
    FromUrlOfEncode(b);
    DecodeAsWrittenUnpadded(Encode(b), b);
  }

  /** The smallest such input: the one byte 0x61 ("a") encodes to "YQ", which the decoder as written
      pads to "YQ=" and `atob` rejects, while the corrected padding "YQ==" decodes. */
  lemma DecodeAsWrittenRejectsYQ()
    ensures Encode([0x61]) == "YQ"
    ensures DecodeAsWritten("YQ") == None
    ensures Decode("YQ") == Some([0x61])
  {
    assert EncodeUnpadded([0x61]) == "YQ";
    assert ToUrlAlphabet("YQ") == "YQ";
    DecodeAsWrittenEncode([0x61]);
    DecodeEncode([0x61]);
  }

  /** `base64urlEncode` after the UTF-8 step, with the source's loop. */
  method EncodeBytes(bytes: seq<byte>) returns (s: string)
    ensures s == Encode(bytes)
  {
    var bin := BinaryString(bytes);
    BtoaOfLatin1(bytes);
    var std := Btoa(bin).value;
    s := StripTrailingEquals(ToUrlAlphabet(std));
  }

  /** `base64urlDecode` before the UTF-8 step (padding corrected), with the source's loop. */
  method DecodeText(s: string) returns (r: Option<seq<byte>>)
    ensures r == Decode(s)
  {
    var b64 := FromUrlAlphabet(s);
    var padded := b64 + PadToQuad(|b64|);
    match Atob(padded)
    case None =>
      r := None;
    case Some(bin) =>
      var bytes := BinaryToBytes(bin);
      r := Some(bytes);
  }
}
