/** JavaScript string primitives used throughout the proxy and the client:
    the whitespace set of `String.prototype.trim` and `\s`, `trim`, `slice(0, n)`,
    `split` on one character, single-character `replace(/c/g, ...)` and the
    decimal conversions `String(n)` / `Number(s)` restricted to integers. */
module JsText {

  datatype Option<T> = None | Some(value: T)

  /** The characters `trim()` removes and `\s` matches: WhiteSpace and LineTerminator of ECMAScript. */
  predicate IsJsSpace(c: char)
  {
    c in {'\t', '\n', '\U{B}', '\U{C}', '\r', ' ', '\U{A0}', '\U{1680}', '\U{2028}', '\U{2029}',
          '\U{202F}', '\U{205F}', '\U{3000}', '\U{FEFF}'}
    || ('\U{2000}' <= c <= '\U{200A}')
  }

  /** The characters `.` in a regular expression does not match. */
  predicate IsLineTerminator(c: char)
  {
    c == '\n' || c == '\r' || c == '\U{2028}' || c == '\U{2029}'
  }

  predicate AllSpace(s: string)
  {
    forall i :: 0 <= i < |s| ==> IsJsSpace(s[i])
  }

  /** Neither end of `s` is whitespace: the shape of every `trim()` result. */
  predicate Trimmed(s: string)
  {
    s == [] || (!IsJsSpace(s[0]) && !IsJsSpace(s[|s| - 1]))
  }

  /** The number of leading whitespace characters. */
  function LeadCount(s: string): (n: nat)
    ensures n <= |s|
    ensures forall k :: 0 <= k < n ==> IsJsSpace(s[k])
    ensures n < |s| ==> !IsJsSpace(s[n])
  {
    if s != [] && IsJsSpace(s[0]) then 1 + LeadCount(s[1..]) else 0
  }

  /** The length of `s` without its trailing whitespace. */
  function EndIndex(s: string): (n: nat)
    ensures n <= |s|
    ensures forall k :: n <= k < |s| ==> IsJsSpace(s[k])
    ensures n > 0 ==> !IsJsSpace(s[n - 1])
  {
    if s != [] && IsJsSpace(s[|s| - 1]) then EndIndex(s[..|s| - 1]) else |s|
  }

  /** `String.prototype.trim`: the slice of `s` between its leading and its trailing whitespace. */
  function Trim(s: string): (r: string)
    ensures Trimmed(r)
    ensures |r| <= |s| - LeadCount(s) && r == s[LeadCount(s)..LeadCount(s) + |r|]
    ensures forall k :: 0 <= k < |s| && !(LeadCount(s) <= k < LeadCount(s) + |r|) ==> IsJsSpace(s[k])
  {
    var i := LeadCount(s);
    var a := s[i..];
    var j := EndIndex(a);
    assert forall k :: i + j <= k < |s| ==> s[k] == a[k - i];
    a[..j]
  }

  /** `trim()` leaves an already trimmed string alone; in particular it is idempotent. */
  lemma TrimOfTrimmed(s: string)
    requires Trimmed(s)
    ensures Trim(s) == s
  {
    assert LeadCount(s) == 0;
    assert s[LeadCount(s)..] == s;
  }

  lemma TrimIdempotent(s: string)
    ensures Trim(Trim(s)) == Trim(s)
  {
    TrimOfTrimmed(Trim(s));
  }

  /** Leading whitespace is skipped over by the count. */
  lemma {:induction false} LeadCountAfterSpace(w: string, s: string)
    requires AllSpace(w)
    ensures LeadCount(w + s) == |w| + LeadCount(s)
    ensures (w + s)[LeadCount(w + s)..] == s[LeadCount(s)..]
    decreases |w|
  {
    if w != [] {
      assert (w + s)[1..] == w[1..] + s;
      LeadCountAfterSpace(w[1..], s);
    } else {
      assert w + s == s;
    }
  }

  /** Leading whitespace never survives `trim()`. */
  lemma TrimAfterSpace(w: string, s: string)
    requires AllSpace(w)
    ensures Trim(w + s) == Trim(s)
  {
    LeadCountAfterSpace(w, s);
  }

  /** The trimmed string is empty exactly when every character is whitespace. */
  lemma TrimEmptyIffAllSpace(s: string)
    ensures Trim(s) == [] <==> AllSpace(s)
  {
    if AllSpace(s) {
      assert LeadCount(s) == |s|;
    }
  }

  /** `s.slice(0, n)` for a non-negative `n`. */
  function Take<T>(s: seq<T>, n: nat): (r: seq<T>)
    ensures |r| == if n < |s| then n else |s|
    ensures r == s[..|r|]
  {
    if n < |s| then s[..n] else s
  }

  /** The UTF-16 code units a character takes in a JavaScript string: two (a surrogate pair) outside
      the Basic Multilingual Plane, one inside it. */
  function Utf16Units(c: char): (n: nat)
    ensures 1 <= n <= 2
  {
    if c as int >= 0x1_0000 then 2 else 1
  }

  /** `s.length`: the number of UTF-16 code units, which exceeds the number of characters by one
      for each character outside the Basic Multilingual Plane. */
  function Utf16Length(s: string): (n: nat)
    ensures |s| <= n <= 2 * |s|
  {
    if s == [] then 0 else Utf16Units(s[0]) + Utf16Length(s[1..])
  }

  lemma {:induction false} Utf16LengthAppend(a: string, b: string)
    ensures Utf16Length(a + b) == Utf16Length(a) + Utf16Length(b)
    decreases |a|
  {
    if a != [] {
      assert (a + b)[0] == a[0] && (a + b)[1..] == a[1..] + b;
      Utf16LengthAppend(a[1..], b);
    } else {
      assert a + b == b;
    }
  }

  /** Text inside the Basic Multilingual Plane (ASCII, in particular) has one code unit per character. */
  lemma {:induction false} Utf16LengthOfBmp(s: string)
    requires forall i :: 0 <= i < |s| ==> s[i] as int < 0x1_0000
    ensures Utf16Length(s) == |s|
    decreases |s|
  {
    if s != [] {
      Utf16LengthOfBmp(s[1..]);
    }
  }

  /** `s.slice(0, n)` for a non-negative `n`, counting UTF-16 code units: the longest prefix of at most
      `n` units. Where `n` falls between the two halves of a surrogate pair, JavaScript keeps the lone
      high half; a `char` cannot hold a lone surrogate, so here the prefix stops before the pair. */
  function Utf16Take(s: string, n: nat): (r: string)
    ensures r <= s
    ensures Utf16Length(r) <= n
    ensures Utf16Length(s) <= n ==> r == s
    ensures r != s ==> Utf16Length(r) + Utf16Units(s[|r|]) > n
    decreases |s|
  {
    if s == [] || Utf16Units(s[0]) > n then []
    else
      var t := Utf16Take(s[1..], n - Utf16Units(s[0]));
      assert ([s[0]] + t)[1..] == t;
      [s[0]] + t
  }

  /** A prefix that fits in `n` code units survives the slice whole. */
  lemma {:induction false} Utf16TakeKeepsPrefix(p: string, s: string, n: nat)
    requires p <= s && Utf16Length(p) <= n
    ensures p <= Utf16Take(s, n)
    decreases |p|
  {
    if p != [] {
      assert s[0] == p[0];
      assert p[1..] <= s[1..];
      Utf16TakeKeepsPrefix(p[1..], s[1..], n - Utf16Units(s[0]));
    }
  }

  /** On text inside the Basic Multilingual Plane, slicing by code units is slicing by characters. */
  lemma {:induction false} Utf16TakeOfBmp(s: string, n: nat)
    requires forall i :: 0 <= i < |s| ==> s[i] as int < 0x1_0000
    ensures Utf16Take(s, n) == Take(s, n)
    decreases |s|
  {
    if s != [] && n >= 1 {
      Utf16TakeOfBmp(s[1..], n - 1);
    }
  }

  /** `s.slice(0, n)`, counting UTF-16 code units; a negative `n` counts from the end. */
  function Utf16Slice(s: string, n: int): (r: string)
    ensures r <= s
    ensures n >= 0 ==> r == Utf16Take(s, n)
    ensures n < 0 ==> r == Utf16Take(s, Max(0, Utf16Length(s) + n))
    ensures n >= 0 ==> Utf16Length(r) <= n && (Utf16Length(s) <= n ==> r == s)
    ensures n < 0 ==> Utf16Length(r) <= Max(0, Utf16Length(s) + n)
    ensures n < 0 && s != [] ==> r != s
    ensures n < 0 && -n >= Utf16Length(s) ==> r == []
    ensures r != s ==> Utf16Length(r) + Utf16Units(s[|r|]) > Max(0, if n >= 0 then n else Utf16Length(s) + n)
  {
    if n >= 0 then Utf16Take(s, n) else Utf16Take(s, Max(0, Utf16Length(s) + n))
  }

  /** `s.replace(/from/g, to)` for a single character `from` replaced by the string `to`. */
  function ReplaceChar(s: string, from: char, to: string): (r: string)
    ensures from !in to ==> from !in r
  {
    if s == [] then []
    else (if s[0] == from then to else [s[0]]) + ReplaceChar(s[1..], from, to)
  }

  /** A one-character-for-one-character `replace(/a/g, b)`. */
  function SwapChar(s: string, from: char, to: char): (r: string)
    ensures |r| == |s|
    ensures forall i :: 0 <= i < |s| ==> r[i] == (if s[i] == from then to else s[i])
  {
    if s == [] then [] else [if s[0] == from then to else s[0]] + SwapChar(s[1..], from, to)
  }

  /** `s.split(sep)` for a one-character separator string. */
  function Split(s: string, sep: char): (parts: seq<string>)
    ensures |parts| >= 1
    ensures forall k :: 0 <= k < |parts| ==> sep !in parts[k]
  {
    if s == [] then [""]
    else if s[0] == sep then [""] + Split(s[1..], sep)
    else
      var rest := Split(s[1..], sep);
      [[s[0]] + rest[0]] + rest[1..]
  }

  /** Two pieces without the separator, joined by it, split back into the two pieces. */
  lemma {:induction false} SplitJoined(a: string, b: string, sep: char)
    requires sep !in a && sep !in b
    ensures Split(a + [sep] + b, sep) == [a, b]
    decreases |a|
  {
    if a == [] {
      assert a + [sep] + b == [sep] + b;
      SplitNoSep(b, sep);
    } else {
      assert (a + [sep] + b)[1..] == a[1..] + [sep] + b;
      SplitJoined(a[1..], b, sep);
      assert [a[0]] + a[1..] == a;
    }
  }

  lemma {:induction false} SplitNoSep(s: string, sep: char)
    requires sep !in s
    ensures Split(s, sep) == [s]
    decreases |s|
  {
    if s != [] {
      SplitNoSep(s[1..], sep);
      assert [s[0]] + s[1..] == s;
    }
  }

  function CountChar(s: string, c: char): nat
  {
    if s == [] then 0 else (if s[0] == c then 1 else 0) + CountChar(s[1..], c)
  }

  /** `split` yields one more piece than there are separators. */
  lemma {:induction false} SplitCount(s: string, sep: char)
    ensures |Split(s, sep)| == CountChar(s, sep) + 1
    decreases |s|
  {
    if s != [] {
      SplitCount(s[1..], sep);
    }
  }

  /** ASCII-only lower-casing, the case-folding a non-Unicode `/i` regular expression applies to ASCII letters. */
  function AsciiLower(c: char): char
  {
    if 'A' <= c <= 'Z' then (c as int + 32) as char else c
  }

  predicate IsDigit(c: char) { '0' <= c <= '9' }

  predicate AllDigits(s: string)
  {
    forall i :: 0 <= i < |s| ==> IsDigit(s[i])
  }

  function DigitChar(d: nat): char
    requires d < 10
  {
    ('0' as int + d) as char
  }

  /** Decimal digits of a natural number, as `String(n)` prints it. */
  function NatToString(n: nat): (r: string)
    ensures r != [] && forall i :: 0 <= i < |r| ==> IsDigit(r[i])
    decreases n
  {
    if n < 10 then [DigitChar(n)] else NatToString(n / 10) + [DigitChar(n % 10)]
  }

  /** `String(n)` for an integral number. */
  function IntToString(n: int): string
  {
    if n < 0 then "-" + NatToString(-n) else NatToString(n)
  }

  function DigitsValue(s: string): nat
    requires AllDigits(s)
  {
    if s == [] then 0
    else
      assert IsDigit(s[|s| - 1]);
      DigitsValue(s[..|s| - 1]) * 10 + (s[|s| - 1] as int - '0' as int)
  }

  /** Reading back the digits `NatToString` writes. */
  lemma {:induction false} DigitsValueOfNatToString(n: nat)
    ensures DigitsValue(NatToString(n)) == n
    decreases n
  {
    if n >= 10 {
      var s := NatToString(n / 10) + [DigitChar(n % 10)];
      assert s[..|s| - 1] == NatToString(n / 10);
      DigitsValueOfNatToString(n / 10);
    }
  }

  /** `Number(s)` on integer literals: the trimmed text is empty (0), or optionally signed ASCII
      decimal digits. Any other text (fractions, exponents, hex, "Infinity") reads as NaN (None). */
  function StringToNumber(s: string): (r: Option<int>)
    ensures AllDigits(Trim(s)) && Trim(s) != [] ==> r == Some(DigitsValue(Trim(s)))
    ensures Trim(s) == [] ==> r == Some(0)
  {
    var t := Trim(s);
    if t == [] then Some(0)
    else if AllDigits(t) then Some(DigitsValue(t))
    else if (t[0] == '-' || t[0] == '+') && |t| > 1 && AllDigits(t[1..]) then
      var v: int := DigitsValue(t[1..]);
      Some(if t[0] == '-' then -v else v)
    else None
  }

  /** `Number(String(n))` gives back `n`. */
  lemma NumberOfIntToString(n: int)
    ensures StringToNumber(IntToString(n)) == Some(n)
  {
    var s := IntToString(n);
    var d := NatToString(if n < 0 then -n else n);
    assert !IsJsSpace(d[|d| - 1]) by { assert IsDigit(d[|d| - 1]); }
    assert !IsJsSpace(s[0]) by { assert s[0] == '-' || IsDigit(s[0]); }
    assert s[|s| - 1] == d[|d| - 1];
    TrimOfTrimmed(s);
    DigitsValueOfNatToString(if n < 0 then -n else n);
    if n < 0 {
      assert s[1..] == d;
      assert !IsDigit(s[0]);
    }
  }

  /** `.map(x => x.trim()).filter(Boolean)`. */
  function TrimNonEmpty(xs: seq<string>): (r: seq<string>)
    ensures |r| <= |xs|
    ensures forall k :: 0 <= k < |r| ==> r[k] != "" && Trimmed(r[k])
    ensures forall k :: 0 <= k < |xs| && Trim(xs[k]) != "" ==> Trim(xs[k]) in r
  {
    if xs == [] then []
    else
      var t := Trim(xs[0]);
      var rest := TrimNonEmpty(xs[1..]);
      assert forall k :: 1 <= k < |xs| ==> xs[k] == xs[1..][k - 1];
      if t == "" then rest else [t] + rest
  }

  /** Entries that are already trimmed and non-empty pass through unchanged. */
  lemma {:induction false} TrimNonEmptyOfEntries(ws: seq<string>)
    requires forall k :: 0 <= k < |ws| ==> ws[k] != "" && Trimmed(ws[k])
    ensures TrimNonEmpty(ws) == ws
    decreases |ws|
  {
    if ws != [] {
      TrimOfTrimmed(ws[0]);
      TrimNonEmptyOfEntries(ws[1..]);
    }
  }

  function AsciiLowerAll(s: string): (r: string)
    ensures |r| == |s| && forall i :: 0 <= i < |s| ==> r[i] == AsciiLower(s[i])
  {
    if s == [] then [] else [AsciiLower(s[0])] + AsciiLowerAll(s[1..])
  }

  /** `xs.join(sep)`. */
  function JoinWith(xs: seq<string>, sep: string): string
  {
    if xs == [] then "" else if |xs| == 1 then xs[0] else JoinWith(xs[..|xs| - 1], sep) + sep + xs[|xs| - 1]
  }

  function Max(a: int, b: int): int { if a < b then b else a }
}
