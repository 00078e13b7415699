/**
 * The pieces of Rust's `str`/`String` behaviour that the review mesh relies
 * on: `trim`, `starts_with`, the `Ord` on strings used by `sort`, and the
 * `{}` / `{:x}` formatting of unsigned integers.
 */
module Strings {
  import opened Common

  // ---------------------------------------------------------------------
  // `str::trim`
  // ---------------------------------------------------------------------

  /** The characters with the Unicode White_Space property, which `trim` removes. */
  predicate IsWhitespace(c: char) {
    || ('\t' <= c <= '\r')
    || c == ' '
    || c == '\U{85}'
    || c == '\U{A0}'
    || c == '\U{1680}'
    || ('\U{2000}' <= c <= '\U{200A}')
    || c == '\U{2028}'
    || c == '\U{2029}'
    || c == '\U{202F}'
    || c == '\U{205F}'
    || c == '\U{3000}'
  }

  /** `trim_start`: `s` without its leading white space. */
  function TrimStart(s: string): string {
    if s == [] || !IsWhitespace(s[0]) then s else TrimStart(s[1..])
  }

  /** `trim_end`: `s` without its trailing white space. */
  function TrimEnd(s: string): string {
    if s == [] || !IsWhitespace(s[|s| - 1]) then s else TrimEnd(s[..|s| - 1])
  }

  /** `trim`: `s` without its leading and trailing white space. */
  function Trim(s: string): string {
    TrimEnd(TrimStart(s))
  }

  /** `trim_start` drops exactly the white space in front of the first other character. */
  lemma {:induction false} TrimStartSpec(s: string)
    ensures var r := TrimStart(s);
      && |r| <= |s| && r == s[|s| - |r|..]
      && (forall k :: 0 <= k < |s| - |r| ==> IsWhitespace(s[k]))
      && (r == [] || !IsWhitespace(r[0]))
  {
    if s != [] && IsWhitespace(s[0]) {
      var t := s[1..];
      TrimStartSpec(t);
      var r := TrimStart(t);
      assert TrimStart(s) == r;
      assert r == s[|s| - |r|..] by {
        assert t[|t| - |r|..] == s[|s| - |r|..];
      }
      forall k | 0 < k < |s| - |r| ensures IsWhitespace(s[k]) {
        assert s[k] == t[k - 1];
      }
    }
  }

  /** `trim_end` drops exactly the white space after the last other character. */
  lemma {:induction false} TrimEndSpec(s: string)
    ensures var r := TrimEnd(s);
      && |r| <= |s| && r == s[..|r|]
      && (forall k :: |r| <= k < |s| ==> IsWhitespace(s[k]))
      && (r == [] || !IsWhitespace(r[|r| - 1]))
  {
    if s != [] && IsWhitespace(s[|s| - 1]) {
      TrimEndSpec(s[..|s| - 1]);
    }
  }

  /** `s` is `r` placed at offset `i` with only white space before and after it. */
  ghost predicate PaddedAt(s: string, r: string, i: int) {
    && 0 <= i <= |s| - |r|
    && r == s[i..i + |r|]
    && (forall k :: 0 <= k < i ==> IsWhitespace(s[k]))
    && (forall k :: i + |r| <= k < |s| ==> IsWhitespace(s[k]))
  }

  /** White space at the end of the suffix `s[i..]` is white space at the end of `s`. */
  lemma WhitespaceTail(s: string, i: nat, j: nat)
    requires i <= |s| && forall k :: j <= k < |s| - i ==> IsWhitespace(s[i..][k])
    ensures forall k :: i + j <= k < |s| ==> IsWhitespace(s[k])
  {
    forall k | i + j <= k < |s| ensures IsWhitespace(s[k]) {
      assert s[k] == s[i..][k - i];
    }
  }

  /**
   * `trim` keeps a slice of `s` with only white space around it, and that
   * slice neither starts nor ends with white space.
   */
  lemma TrimSpec(s: string)
    ensures PaddedAt(s, Trim(s), |s| - |TrimStart(s)|)
    ensures Trim(s) == [] || (!IsWhitespace(Trim(s)[0]) && !IsWhitespace(Trim(s)[|Trim(s)| - 1]))
  {
    var t := TrimStart(s);
    TrimStartSpec(s);
    TrimEndSpec(t);
    var r := TrimEnd(t);
    var i := |s| - |t|;
    assert r == s[i..i + |r|];
    WhitespaceTail(s, i, |r|);
    assert PaddedAt(s, r, i);
  }

  /** `s.starts_with(p)`. */
  predicate StartsWith(s: string, p: string) {
    |p| <= |s| && s[..|p|] == p
  }

  // ---------------------------------------------------------------------
  // `Ord for str`: lexicographic order. Comparing the UTF-8 bytes, as Rust
  // does, orders strings exactly as comparing their code points does.
  // ---------------------------------------------------------------------

  predicate Less(a: string, b: string) {
    if a == [] then b != []
    else if b == [] then false
    else if a[0] != b[0] then a[0] < b[0]
    else Less(a[1..], b[1..])
  }

  lemma {:induction false} LessIrreflexive(a: string)
    ensures !Less(a, a)
  {
    if a != [] {
      LessIrreflexive(a[1..]);
    }
  }

  lemma {:induction false} LessAsymmetric(a: string, b: string)
    ensures !(Less(a, b) && Less(b, a))
  {
    if a != [] && b != [] && a[0] == b[0] {
      LessAsymmetric(a[1..], b[1..]);
    }
  }

  lemma {:induction false} LessTotal(a: string, b: string)
    ensures a == b || Less(a, b) || Less(b, a)
  {
    if a != [] && b != [] && a[0] == b[0] {
      LessTotal(a[1..], b[1..]);
      if a[1..] == b[1..] {
        assert a == [a[0]] + a[1..] && b == [b[0]] + b[1..];
      }
    }
  }

  lemma {:induction false} LessTransitive(a: string, b: string, c: string)
    requires Less(a, b) && Less(b, c)
    ensures Less(a, c)
  {
    if a != [] && b != [] && c != [] && a[0] == b[0] == c[0] {
      LessTransitive(a[1..], b[1..], c[1..]);
    }
  }

  // ---------------------------------------------------------------------
  // `format!("{}", n)` and `format!("{:x}", n)` for unsigned integers.
  // ---------------------------------------------------------------------

  predicate IsDecimalDigit(c: char) {
    '0' <= c <= '9'
  }

  predicate IsLowerHexDigit(c: char) {
    ('0' <= c <= '9') || ('a' <= c <= 'f')
  }

  function HexDigit(d: nat): (c: char)
    requires d < 16
    ensures IsLowerHexDigit(c)
  {
    if d < 10 then '0' + d as char else 'a' + (d - 10) as char
  }

  function HexValue(c: char): (d: nat)
    requires IsLowerHexDigit(c)
    ensures d < 16 && HexDigit(d) == c
  {
    if c <= '9' then (c - '0') as nat else (c - 'a') as nat + 10
  }

  /** Decimal digits of `n`, most significant first, with no leading zeros. */
  function Decimal(n: nat): string {
    if n < 10 then ['0' + n as char] else Decimal(n / 10) + ['0' + (n % 10) as char]
  }

  /** `Decimal` is a non-empty run of decimal digits with no leading zero. */
  lemma {:induction false} DecimalDigits(n: nat)
    ensures Decimal(n) != []
    ensures forall k :: 0 <= k < |Decimal(n)| ==> IsDecimalDigit(Decimal(n)[k])
    ensures |Decimal(n)| > 1 ==> Decimal(n)[0] != '0'
  {
    if n >= 10 {
      DecimalDigits(n / 10);
    }
  }

  function DecimalValue(c: char): (d: nat)
    requires IsDecimalDigit(c)
    ensures d < 10 && '0' + d as char == c
  {
    (c - '0') as nat
  }

  /** Reads back a string of decimal digits. */
  function ParseDecimal(s: string): nat
    requires forall k :: 0 <= k < |s| ==> IsDecimalDigit(s[k])
  {
    if s == [] then 0 else ParseDecimal(s[..|s| - 1]) * 10 + DecimalValue(s[|s| - 1])
  }

  /** Parsing the decimal text of `n` gives `n` back, so `Decimal` loses nothing. */
  lemma {:induction false} ParseDecimalOf(n: nat)
    ensures forall k :: 0 <= k < |Decimal(n)| ==> IsDecimalDigit(Decimal(n)[k])
    ensures ParseDecimal(Decimal(n)) == n
  {
    DecimalDigits(n);
    var r := Decimal(n);
    if n >= 10 {
      ParseDecimalOf(n / 10);
      assert r[..|r| - 1] == Decimal(n / 10);
    }
  }

  /** Lower-case hexadecimal digits of `n`, most significant first, no leading zeros. */
  function LowerHex(n: nat): (r: string)
    ensures r != []
    ensures forall k :: 0 <= k < |r| ==> IsLowerHexDigit(r[k])
    ensures |r| > 1 ==> r[0] != '0'
  {
    if n < 16 then [HexDigit(n)] else LowerHex(n / 16) + [HexDigit(n % 16)]
  }

  /** Reads back a string of lower-case hexadecimal digits. */
  function ParseHex(s: string): nat
    requires forall k :: 0 <= k < |s| ==> IsLowerHexDigit(s[k])
  {
    if s == [] then 0 else ParseHex(s[..|s| - 1]) * 16 + HexValue(s[|s| - 1])
  }

  /** Parsing the hexadecimal text of `n` gives `n` back. */
  lemma {:induction false} ParseLowerHex(n: nat)
    ensures ParseHex(LowerHex(n)) == n
  {
    var r := LowerHex(n);
    if n >= 16 {
      ParseLowerHex(n / 16);
      assert r[..|r| - 1] == LowerHex(n / 16);
    }
  }

  /** Distinct numbers have distinct hexadecimal texts. */
  lemma LowerHexInjective(m: nat, n: nat)
    ensures LowerHex(m) == LowerHex(n) <==> m == n
  {
    ParseLowerHex(m);
    ParseLowerHex(n);
  }

  function Pow16(k: nat): (p: nat)
    ensures p >= 1
  {
    if k == 0 then 1 else 16 * Pow16(k - 1)
  }

  lemma {:induction false} LowerHexLengthBound(n: nat, k: nat)
    requires 1 <= k && n < Pow16(k)
    ensures |LowerHex(n)| <= k
  {
    if n >= 16 {
      LowerHexLengthBound(n / 16, k - 1);
    }
  }

  /** A 64-bit value is written with one to sixteen lower-case hex digits. */
  lemma LowerHexOfU64(n: u64)
    ensures 1 <= |LowerHex(n)| <= 16
    ensures forall k :: 0 <= k < |LowerHex(n)| ==> IsLowerHexDigit(LowerHex(n)[k])
  {
    assert Pow16(1) == 0x10;
    assert Pow16(2) == 0x100;
    assert Pow16(3) == 0x1000;
    assert Pow16(4) == 0x1_0000;
    assert Pow16(5) == 0x10_0000;
    assert Pow16(6) == 0x100_0000;
    assert Pow16(7) == 0x1000_0000;
    assert Pow16(8) == 0x1_0000_0000;
    assert Pow16(9) == 0x10_0000_0000;
    assert Pow16(10) == 0x100_0000_0000;
    assert Pow16(11) == 0x1000_0000_0000;
    assert Pow16(12) == 0x1_0000_0000_0000;
    assert Pow16(13) == 0x10_0000_0000_0000;
    assert Pow16(14) == 0x100_0000_0000_0000;
    assert Pow16(15) == 0x1000_0000_0000_0000;
    assert Pow16(16) == U64_LIMIT;
    LowerHexLengthBound(n, 16);
  }
}
