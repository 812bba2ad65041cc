/**
 * Text helpers: the ordinal (code-point) string order that SQLite's BINARY
 * collation uses for ORDER BY, the ASCII-case-insensitive substring match
 * of SQLite's `LIKE '%...%'`, and decimal digit strings.
 */
module Text {
  import opened Collections

  /** Ordinal lexicographic order: a proper prefix sorts first. */
  predicate StrLess(a: string, b: string) {
    if a == [] then b != []
    else if b == [] then false
    else if a[0] != b[0] then a[0] < b[0]
    else StrLess(a[1..], b[1..])
  }

  lemma {:induction false} StrLessIrreflexive(a: string)
    ensures !StrLess(a, a)
  {
    if a != [] {
      StrLessIrreflexive(a[1..]);
    }
  }

  lemma {:induction false} StrLessTransitive(a: string, b: string, c: string)
    requires StrLess(a, b) && StrLess(b, c)
    ensures StrLess(a, c)
  {
    if a != [] && a[0] == b[0] && b[0] == c[0] {
      StrLessTransitive(a[1..], b[1..], c[1..]);
    }
  }

  lemma {:induction false} StrLessTotal(a: string, b: string)
    requires a != b
    ensures StrLess(a, b) || StrLess(b, a)
  {
    if a != [] && b != [] && a[0] == b[0] {
      assert a == [a[0]] + a[1..] && b == [b[0]] + b[1..];
      StrLessTotal(a[1..], b[1..]);
    }
  }

  lemma {:induction false} StrLessIsStrictTotalOrder()
    ensures StrictTotalOrder(StrLess)
  {
    forall a ensures !StrLess(a, a) {
      StrLessIrreflexive(a);
    }
    forall a, b, c | StrLess(a, b) && StrLess(b, c) ensures StrLess(a, c) {
      StrLessTransitive(a, b, c);
    }
    forall a, b | a != b ensures StrLess(a, b) || StrLess(b, a) {
      StrLessTotal(a, b);
    }
  }

  /** The strings of a set in ascending ordinal order, each once. */
  function SortedStrings(s: set<string>): (xs: seq<string>)
    ensures |xs| == |s|
    ensures forall x :: x in xs <==> x in s
    ensures forall i, j :: 0 <= i < j < |xs| ==> StrLess(xs[i], xs[j])
  {
    StrLessIsStrictTotalOrder();
    SortSet(s, StrLess)
  }

  /** When the first parts have equal length, the order is decided by them first. */
  lemma {:induction false} StrLessConcat(a: string, b: string, c: string, d: string)
    requires |a| == |b|
    ensures StrLess(a + c, b + d) <==> StrLess(a, b) || (a == b && StrLess(c, d))
  {
    if a != [] {
      assert (a + c)[1..] == a[1..] + c && (b + d)[1..] == b[1..] + d;
      StrLessConcat(a[1..], b[1..], c, d);
      assert a == [a[0]] + a[1..] && b == [b[0]] + b[1..];
      assert (a + c)[0] == a[0] && (b + d)[0] == b[0];
    } else {
      assert a + c == c && b + d == d;
    }
  }

  /** SQLite's LIKE folds only the ASCII letters A..Z. */
  function AsciiLower(c: char): (r: char)
    ensures 'A' <= c <= 'Z' ==> r as int == c as int + 32
    ensures !('A' <= c <= 'Z') ==> r == c
  {
    if 'A' <= c <= 'Z' then (c as int + 32) as char else c
  }

  /** `pat` (lower case) occurs in `s` at position `i`, ignoring ASCII case. */
  predicate MatchesAt(s: string, pat: string, i: int)
    requires 0 <= i && i + |pat| <= |s|
  {
    forall j :: 0 <= j < |pat| ==> AsciiLower(s[i + j]) == pat[j]
  }

  /** `pat` occurs in `s` at position `i` once both sides are folded to lower case. */
  predicate LikeAt(s: string, pat: string, i: int)
    requires 0 <= i && i + |pat| <= |s|
  {
    forall j :: 0 <= j < |pat| ==> AsciiLower(s[i + j]) == AsciiLower(pat[j])
  }

  /** SQLite's `s LIKE '%' + pat + '%'` for a pattern without wildcards: ASCII case is ignored on both sides. */
  predicate Like(s: string, pat: string) {
    exists i :: 0 <= i && i + |pat| <= |s| && LikeAt(s, pat, i)
  }

  /** `s LIKE '%' + pat + '%'` for a lower-case pattern without wildcards. */
  predicate ContainsIgnoringAsciiCase(s: string, pat: string) {
    exists i :: 0 <= i && i + |pat| <= |s| && MatchesAt(s, pat, i)
  }

  function DigitChar(d: int): (c: char)
    requires 0 <= d <= 9
    ensures '0' <= c <= '9' && c as int - '0' as int == d
  {
    ('0' as int + d) as char
  }

  predicate IsDigits(s: string) {
    forall i :: 0 <= i < |s| ==> '0' <= s[i] <= '9'
  }

  /** The number a string of decimal digits denotes. */
  function DigitsValue(s: string): (n: nat)
    requires IsDigits(s)
  {
    if s == [] then 0
    else DigitsValue(s[..|s| - 1]) * 10 + (s[|s| - 1] as int - '0' as int)
  }

  /** `n` in exactly `width` decimal digits, with leading zeros (the "0000" / "00" formats). */
  function PaddedDigits(n: nat, width: nat): (s: string)
    ensures |s| == width && IsDigits(s)
  {
    if width == 0 then []
    else PaddedDigits(n / 10, width - 1) + [DigitChar(n % 10)]
  }

  function Pow10(k: nat): (p: nat)
    ensures p >= 1
  {
    if k == 0 then 1 else 10 * Pow10(k - 1)
  }

  lemma {:induction false} DigitsValueBound(s: string)
    requires IsDigits(s)
    ensures DigitsValue(s) < Pow10(|s|)
  {
    if s != [] {
      DigitsValueBound(s[..|s| - 1]);
    }
  }

  /** Padding then reading back gives the number, as long as it fits the width. */
  lemma {:induction false} PaddedDigitsValue(n: nat, width: nat)
    requires n < Pow10(width)
    ensures DigitsValue(PaddedDigits(n, width)) == n
  {
    if width > 0 {
      var q, r := n / 10, n % 10;
      LastDigitSplit(n);
      LeadingDigitsFit(n, width);
      var s, init := PaddedDigits(n, width), PaddedDigits(q, width - 1);
      assert s == init + [DigitChar(r)];
      assert s[..|s| - 1] == init;
      PaddedDigitsValue(q, width - 1);
      assert DigitsValue(s) == DigitsValue(init) * 10 + r;
    }
  }

  /**
   * Fixed-width digit strings sort as the numbers they denote, which is why
   * a text column of such numbers can be compared as text.
   */
  lemma {:induction false} PaddedDigitsOrder(m: nat, n: nat, width: nat)
    requires m < Pow10(width) && n < Pow10(width)
    ensures StrLess(PaddedDigits(m, width), PaddedDigits(n, width)) <==> m < n
    ensures PaddedDigits(m, width) == PaddedDigits(n, width) <==> m == n
  {
    if width > 0 {
      LeadingDigitsFit(m, width);
      LeadingDigitsFit(n, width);
      var a, b := PaddedDigits(m / 10, width - 1), PaddedDigits(n / 10, width - 1);
      assert PaddedDigits(m, width) == a + [DigitChar(m % 10)];
      assert PaddedDigits(n, width) == b + [DigitChar(n % 10)];
      PaddedDigitsOrder(m / 10, n / 10, width - 1);
      LastDigitOrder(a, b, m % 10, n % 10);
      DecimalLexOrder(m, n);
    }
  }

  /** Dropping the last digit of a `width`-digit number leaves a `width - 1`-digit one. */
  lemma {:induction false} LeadingDigitsFit(n: nat, width: nat)
    requires width > 0 && n < Pow10(width)
    ensures n / 10 < Pow10(width - 1)
  {
    assert Pow10(width) == 10 * Pow10(width - 1);
  }

  /** Two equally long strings, each followed by one digit, compare by the strings first. */
  lemma {:induction false} LastDigitOrder(a: string, b: string, x: int, y: int)
    requires |a| == |b| && 0 <= x <= 9 && 0 <= y <= 9
    ensures StrLess(a + [DigitChar(x)], b + [DigitChar(y)]) <==> StrLess(a, b) || (a == b && x < y)
    ensures a + [DigitChar(x)] == b + [DigitChar(y)] <==> a == b && x == y
  {
    var c, d := [DigitChar(x)], [DigitChar(y)];
    StrLessConcat(a, b, c, d);
    if a + c == b + d {
      assert (a + c)[..|a|] == a && (b + d)[..|b|] == b;
      assert (a + c)[|a|] == c[0] && (b + d)[|b|] == d[0];
    }
  }

  /** Numbers compare by their leading digits first, then by their last digit. */
  lemma {:induction false} DecimalLexOrder(m: nat, n: nat)
    ensures m < n <==> m / 10 < n / 10 || (m / 10 == n / 10 && m % 10 < n % 10)
    ensures m == n <==> m / 10 == n / 10 && m % 10 == n % 10
  {
    LastDigitSplit(m);
    LastDigitSplit(n);
  }

  lemma {:induction false} LastDigitSplit(n: nat)
    ensures n == n / 10 * 10 + n % 10 && 0 <= n % 10 <= 9
  {
  }

  /** `n.ToString()` for a natural number: its digits without leading zeros ("0" for zero). */
  function NatText(n: nat): (s: string)
    ensures |s| >= 1 && IsDigits(s)
    ensures DigitsValue(s) == n
    ensures |s| > 1 ==> s[0] != '0'
  {
    if n < 10 then [DigitChar(n)]
    else
      var s := NatText(n / 10) + [DigitChar(n % 10)];
      assert s[..|s| - 1] == NatText(n / 10);
      s
  }

  /** `n.ToString()` for any integer: a minus sign before the digits of a negative number. */
  function IntText(n: int): (s: string)
    ensures |s| >= 1 && (s[0] == '-' <==> n < 0)
  {
    if n >= 0 then NatText(n) else "-" + NatText(-n)
  }
}
