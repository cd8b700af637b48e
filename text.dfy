/**
 * The Python string builtins the core relies on, written out: `str.strip()` with no
 * argument, `str.find` / `str.rfind` of one character, the length of
 * `str.encode("utf-8")`, and `int(s)` restricted to an optional sign and decimal
 * digits. Strings are sequences of Unicode scalar values, as Python's `str` is apart
 * from lone surrogates (which `encode("utf-8")` would reject and Dafny cannot form).
 */
module Text {
  import opened Wrappers

  /** The characters `str.strip()` removes: those for which Python's `str.isspace()` holds. */
  predicate IsSpace(c: char) {
    ('\t' <= c <= '\r') || ('\U{001C}' <= c <= '\U{001F}') || c == ' ' ||
    c == '\U{0085}' || c == '\U{00A0}' || c == '\U{1680}' ||
    ('\U{2000}' <= c <= '\U{200A}') || c == '\U{2028}' || c == '\U{2029}' ||
    c == '\U{202F}' || c == '\U{205F}' || c == '\U{3000}'
  }

  /** `s.lstrip()`: the longest suffix of `s` that does not start with whitespace. */
  function LStrip(s: string): (r: string)
    ensures |r| <= |s| && r == s[|s| - |r|..]
    ensures r != [] ==> !IsSpace(r[0])
    ensures forall i :: 0 <= i < |s| - |r| ==> IsSpace(s[i])
  {
    if s != [] && IsSpace(s[0]) then LStrip(s[1..]) else s
  }

  /** `s.rstrip()`: the longest prefix of `s` that does not end with whitespace. */
  function RStrip(s: string): (r: string)
    ensures |r| <= |s| && r == s[..|r|]
    ensures r != [] ==> !IsSpace(r[|r| - 1])
    ensures forall i :: |r| <= i < |s| ==> IsSpace(s[i])
  {
    if s != [] && IsSpace(s[|s| - 1]) then RStrip(s[..|s| - 1]) else s
  }

  /** Where `s.strip()` begins inside `s`: the number of leading whitespace characters. */
  function StripStart(s: string): nat {
    |s| - |LStrip(s)|
  }

  /**
   * `s.strip()`: the contiguous slice of `s` left once leading and trailing whitespace is
   * removed; it neither starts nor ends with whitespace, and only whitespace was dropped.
   */
  function Strip(s: string): (r: string)
    ensures StripStart(s) + |r| <= |s| && r == s[StripStart(s)..StripStart(s) + |r|]
    ensures r != [] ==> !IsSpace(r[0]) && !IsSpace(r[|r| - 1])
    ensures forall i :: 0 <= i < StripStart(s) ==> IsSpace(s[i])
    ensures forall i :: StripStart(s) + |r| <= i < |s| ==> IsSpace(s[i])
  {
    var l := LStrip(s);
    var r := RStrip(l);
    assert r == s[StripStart(s)..StripStart(s) + |r|] by {
      assert l == s[StripStart(s)..];
    }
    r
  }

  /** A string whose ends are not whitespace is its own `strip()`. */
  lemma StripKeepsTrimmed(s: string)
    requires s != [] ==> !IsSpace(s[0]) && !IsSpace(s[|s| - 1])
    ensures Strip(s) == s
  {
  }

  /** `strip()` is idempotent. */
  lemma StripIdempotent(s: string)
    ensures Strip(Strip(s)) == Strip(s)
  {
    StripKeepsTrimmed(Strip(s));
  }

  /** `u` is a prefix of `s`. */
  predicate IsPrefix(u: string, s: string) {
    |u| <= |s| && s[..|u|] == u
  }

  /** Python's `k in s` on two strings: `k` occurs in `s` as a contiguous slice. */
  predicate IsSubstring(k: string, s: string) {
    exists i :: 0 <= i <= |s| && IsPrefix(k, s[i..])
  }

  /**
   * Stripping any prefix of an already stripped string gives a prefix of that string:
   * the leading end is already clean, so only trailing whitespace can go.
   */
  lemma StripOfPrefixIsPrefix(t: string, k: nat)
    requires k <= |t|
    requires t != [] ==> !IsSpace(t[0])
    ensures IsPrefix(Strip(t[..k]), t)
  {
    var p := t[..k];
    if p != [] {
      assert !IsSpace(p[0]);
      assert LStrip(p) == p;
    }
  }

  /** `s.find(c)`: the first index of `c` in `s`, or -1 when `c` does not occur. */
  function Find(s: string, c: char): (r: int)
    ensures -1 <= r < |s|
    ensures r == -1 <==> c !in s
    ensures r >= 0 ==> s[r] == c && c !in s[..r]
  {
    if s == [] then -1
    else if s[0] == c then 0
    else
      var k := Find(s[1..], c);
      assert s[1..] + [] == s[1..];
      if k == -1 then -1
      else
        assert s[..k + 1] == [s[0]] + s[1..][..k];
        k + 1
  }

  /** `s.rfind(c)`: the last index of `c` in `s`, or -1 when `c` does not occur. */
  function RFind(s: string, c: char): (r: int)
    ensures -1 <= r < |s|
    ensures r == -1 <==> c !in s
    ensures r >= 0 ==> s[r] == c && c !in s[r + 1..]
  {
    if s == [] then -1
    else if s[|s| - 1] == c then |s| - 1
    else
      var k := RFind(s[..|s| - 1], c);
      assert s == s[..|s| - 1] + [s[|s| - 1]];
      if k >= 0 then
        assert s[k + 1..] == s[..|s| - 1][k + 1..] + [s[|s| - 1]];
        k
      else k
  }

  /** The first `c` of `p + s`, when `p` has none and `s` starts with one, is at `|p|`. */
  lemma {:induction false} FindAfterPrefix(p: string, s: string, c: char)
    requires c !in p && s != [] && s[0] == c
    ensures Find(p + s, c) == |p|
  {
    if p == [] {
      assert p + s == s;
    } else {
      assert (p + s)[1..] == p[1..] + s;
      FindAfterPrefix(p[1..], s, c);
    }
  }

  /** A string ending in `c` has its last `c` at its end. */
  lemma RFindAtEnd(s: string, c: char)
    requires s != [] && s[|s| - 1] == c
    ensures RFind(s, c) == |s| - 1
  {
  }

  /** The number of bytes UTF-8 uses for one Unicode scalar value. */
  function Utf8Width(c: char): nat {
    if c as int < 0x80 then 1
    else if c as int < 0x800 then 2
    else if c as int < 0x1_0000 then 3
    else 4
  }

  /** `len(s.encode("utf-8"))`: between one and four bytes per character. */
  function Utf8Length(s: string): (n: nat)
    ensures |s| <= n <= 4 * |s|
  {
    if s == [] then 0 else Utf8Width(s[0]) + Utf8Length(s[1..])
  }

  /** The encoded length of a concatenation is the sum of the encoded lengths. */
  lemma {:induction false} Utf8LengthAppend(a: string, b: string)
    ensures Utf8Length(a + b) == Utf8Length(a) + Utf8Length(b)
  {
    if a == [] {
      assert a + b == b;
    } else {
      assert (a + b)[1..] == a[1..] + b;
      Utf8LengthAppend(a[1..], b);
    }
  }

  /** n copies of one character encode to n times its width. */
  lemma {:induction false} Utf8LengthRepeat(c: char, n: nat)
    ensures Utf8Length(seq(n, _ => c)) == n * Utf8Width(c)
  {
    if n > 0 {
      var s := seq(n, _ => c);
      assert s[1..] == seq(n - 1, _ => c);
      Utf8LengthRepeat(c, n - 1);
    }
  }

  /** An ASCII-only string has as many bytes as characters. */
  lemma {:induction false} Utf8LengthAscii(s: string)
    requires forall i :: 0 <= i < |s| ==> s[i] as int < 0x80
    ensures Utf8Length(s) == |s|
  {
    if s != [] {
      Utf8LengthAscii(s[1..]);
    }
  }

  predicate IsDigit(c: char) {
    '0' <= c <= '9'
  }

  predicate AllDigits(s: string) {
    forall i :: 0 <= i < |s| ==> IsDigit(s[i])
  }

  function DigitChar(d: nat): (c: char)
    requires d < 10
    ensures IsDigit(c)
  {
    ('0' as int + d) as char
  }

  /** `str(n)` for a natural number: the shortest decimal form, most significant digit first. */
  function ToDecimal(n: nat): (s: string)
    ensures s != [] && AllDigits(s)
    ensures |s| > 1 ==> s[0] != '0'
  {
    if n < 10 then [DigitChar(n)] else ToDecimal(n / 10) + [DigitChar(n % 10)]
  }

  /** The value of a string of decimal digits, read most significant digit first. */
  function DigitsValue(s: string): nat
    requires AllDigits(s)
  {
    if s == [] then 0 else DigitsValue(s[..|s| - 1]) * 10 + (s[|s| - 1] as int - '0' as int)
  }

  /** A non-empty run of decimal digits, or nothing. */
  function ParseDecimal(s: string): (r: Option<nat>)
    ensures r.Some? <==> s != [] && AllDigits(s)
  {
    if s != [] && AllDigits(s) then Some(DigitsValue(s)) else None
  }

  /** Reading back what `ToDecimal` prints gives the number again. */
  lemma {:induction false} DecimalRoundTrip(n: nat)
    ensures ParseDecimal(ToDecimal(n)) == Some(n)
  {
    var s := ToDecimal(n);
    if n < 10 {
      assert s[..|s| - 1] == [];
    } else {
      assert s[..|s| - 1] == ToDecimal(n / 10);
      DecimalRoundTrip(n / 10);
      assert DigitsValue(ToDecimal(n / 10)) == n / 10;
    }
    assert DigitsValue(s) == n;
  }

  /** `str(i)` for any integer. */
  function IntToText(i: int): string {
    if i < 0 then "-" + ToDecimal(-i) else ToDecimal(i)
  }

  /**
   * `int(s)` on the subset of its grammar modelled here: surrounding whitespace, an
   * optional `+` or `-`, then one or more decimal digits. `None` stands for the
   * `ValueError` Python raises on anything else.
   */
  function ParseInt(s: string): (r: Option<int>)
    ensures r.Some? <==>
      var t := Strip(s);
      if t != [] && (t[0] == '-' || t[0] == '+') then ParseDecimal(t[1..]).Some?
      else ParseDecimal(t).Some?
  {
    var t := Strip(s);
    if t != [] && t[0] == '-' then
      match ParseDecimal(t[1..])
      case Some(n) => Some(-(n as int))
      case None => None
    else if t != [] && t[0] == '+' then
      match ParseDecimal(t[1..])
      case Some(n) => Some(n)
      case None => None
    else
      match ParseDecimal(t)
      case Some(n) => Some(n)
      case None => None
  }

  /** `int(str(i)) == i` for every integer. */
  lemma IntRoundTrip(i: int)
    ensures ParseInt(IntToText(i)) == Some(i)
  {
    if i < 0 {
      NegativeRoundTrip(-i);
    } else {
      NaturalRoundTrip(i);
    }
  }

  /** A decimal digit is neither whitespace nor a sign. */
  lemma DigitIsPlain(c: char)
    requires IsDigit(c)
    ensures !IsSpace(c) && c != '-' && c != '+'
  {
  }

  /** `int(str(n)) == n` for a natural number. */
  lemma NaturalRoundTrip(n: nat)
    ensures ParseInt(ToDecimal(n)) == Some(n)
  {
    var d := ToDecimal(n);
    DecimalRoundTrip(n);
    DigitIsPlain(d[0]);
    DigitIsPlain(d[|d| - 1]);
    StripKeepsTrimmed(d);
  }

  /** `int(str(-n)) == -n` for a natural number. */
  lemma NegativeRoundTrip(n: nat)
    ensures ParseInt("-" + ToDecimal(n)) == Some(-(n as int))
  {
    var d := ToDecimal(n);
    var s := "-" + d;
    assert Strip(s) == s by {
      DigitIsPlain(d[|d| - 1]);
      assert s[0] == '-' && s[|s| - 1] == d[|d| - 1];
      StripKeepsTrimmed(s);
    }
    assert ParseDecimal(s[1..]) == Some(n) by {
      assert s[1..] == d;
      DecimalRoundTrip(n);
    }
  }
}
