/**
 Decimal numerals as the CLI writes and reads them: `String(n)`, `BigInt(s)`, and the
 hand-expanded pattern that admits unsigned 64-bit counters on the wire.
 */
module Decimals {

  predicate IsDigit(c: char) {
    '0' <= c <= '9'
  }

  predicate AllDigits(s: string) {
    forall i | 0 <= i < |s| :: IsDigit(s[i])
  }

  function DigitValue(c: char): nat
    requires IsDigit(c)
  {
    c as int - '0' as int
  }

  function DigitChar(d: nat): char
    requires d < 10
  {
    ('0' as int + d) as char
  }

  /** What `BigInt(s)` reads. */
  function Value(s: string): nat
    requires AllDigits(s)
  {
    if s == "" then 0 else 10 * Value(s[..|s| - 1]) + DigitValue(s[|s| - 1])
  }

  /** What `String(n)` writes. */
  function Decimal(n: nat): string {
    if n < 10 then [DigitChar(n)] else Decimal(n / 10) + [DigitChar(n % 10)]
  }

  /** A numeral without a redundant leading zero. */
  predicate Canonical(s: string) {
    s != "" && AllDigits(s) && (|s| > 1 ==> s[0] != '0')
  }

  lemma {:induction false} ValueOfDecimal(n: nat)
    ensures Canonical(Decimal(n)) && Value(Decimal(n)) == n
    ensures Decimal(n)[0] == '0' <==> n == 0
  {
    if n >= 10 {
      ValueOfDecimal(n / 10);
      assert Decimal(n)[..|Decimal(n)| - 1] == Decimal(n / 10);
    }
  }

  lemma {:induction false} CanonicalIsPositive(s: string)
    requires Canonical(s) && s[0] != '0'
    ensures Value(s) > 0
  {
    if |s| > 1 {
      CanonicalIsPositive(s[..|s| - 1]);
    }
  }

  lemma {:induction false} DecimalOfValue(s: string)
    requires Canonical(s)
    ensures Decimal(Value(s)) == s
  {
    if |s| > 1 {
      var front := s[..|s| - 1];
      CanonicalIsPositive(front);
      DecimalOfValue(front);
      assert s == front + [s[|s| - 1]];
    } else {
      assert Value(s[..0]) == 0;
    }
  }

  /** On canonical numerals, comparing strings for equality is comparing numbers. */
  lemma EqualityIsNumeric(a: string, b: string)
    requires Canonical(a) && Canonical(b)
    ensures a == b <==> Value(a) == Value(b)
  {
    DecimalOfValue(a);
    DecimalOfValue(b);
  }

  // ----- the order of equally long numerals

  function Pow10(k: nat): nat {
    if k == 0 then 1 else 10 * Pow10(k - 1)
  }

  lemma {:induction false} ValueSplit(a: string, b: string)
    requires AllDigits(a) && AllDigits(b)
    ensures AllDigits(a + b)
    ensures Value(a + b) == Value(a) * Pow10(|b|) + Value(b)
    decreases |b|
  {
    if b == "" {
      assert a + b == a;
    } else {
      var front := b[..|b| - 1];
      ValueSplit(a, front);
      assert (a + b)[..|a + b| - 1] == a + front;
      assert Value(a + b) == 10 * (Value(a) * Pow10(|front|) + Value(front)) + DigitValue(b[|b| - 1]);
      assert 10 * (Value(a) * Pow10(|front|)) == Value(a) * Pow10(|b|);
    }
  }

  lemma {:induction false} ValueBelowPow10(s: string)
    requires AllDigits(s)
    ensures Value(s) < Pow10(|s|)
  {
    if s != "" {
      ValueBelowPow10(s[..|s| - 1]);
    }
  }

  lemma {:induction false} CanonicalAtLeastPow10(s: string)
    requires Canonical(s) && s[0] != '0'
    ensures Value(s) >= Pow10(|s| - 1)
  {
    if |s| > 1 {
      CanonicalAtLeastPow10(s[..|s| - 1]);
    }
  }

  /** The first differing digit decides the order. */
  lemma FirstDifferenceDecides(a: string, b: string, k: nat)
    requires AllDigits(a) && AllDigits(b) && |a| == |b| && k < |a|
    requires a[..k] == b[..k] && a[k] < b[k]
    ensures Value(a) < Value(b)
  {
    var pa, pb, t, u := a[..k + 1], b[..k + 1], a[k + 1..], b[k + 1..];
    assert a == pa + t && b == pb + u;
    ValueSplit(pa, t);
    ValueSplit(pb, u);
    ValueBelowPow10(t);
    assert pa[..k] == a[..k] == pb[..k];
    ScaledOrder(Value(pa), Value(pb), Pow10(|t|), Value(t), Value(u));
  }

  lemma ScaledOrder(x: nat, y: nat, base: nat, t: nat, u: nat)
    requires x < y && t < base
    ensures x * base + t < y * base + u
  {
    assert (x + 1) * base <= y * base;
  }

  function FirstDifference(a: string, b: string): (k: nat)
    requires |a| == |b| && a != b
    ensures k < |a| && a[..k] == b[..k] && a[k] != b[k]
  {
    if a[0] != b[0] then 0
    else
      var k := 1 + FirstDifference(a[1..], b[1..]);
      assert a[..k] == [a[0]] + a[1..][..k - 1] && b[..k] == [b[0]] + b[1..][..k - 1];
      k
  }

  // ----- the unsigned 64-bit pattern

  const U64_MAX: nat := 0xFFFF_FFFF_FFFF_FFFF
  const U64_MAX_TEXT := "18446744073709551615"

  /** One twenty-digit alternative: a literal prefix, one digit of `0..top`, then `tail` free digits. */
  datatype Branch = Branch(prefix: string, top: char, tail: nat)

  const U64_BRANCHES: seq<Branch> := [
    Branch("1", '7', 18),
    Branch("18", '3', 17),
    Branch("184", '3', 16),
    Branch("1844", '5', 15),
    Branch("18446", '6', 14),
    Branch("184467", '3', 13),
    Branch("1844674", '3', 12),
    Branch("184467440", '6', 10),
    Branch("1844674407", '2', 9),
    Branch("18446744073", '6', 8),
    Branch("1844674407370", '8', 6),
    Branch("18446744073709", '4', 5),
    Branch("184467440737095", '4', 4),
    Branch("1844674407370955", '0', 3),
    Branch("18446744073709551", '5', 2),
    Branch("184467440737095516", '0', 1),
    Branch("1844674407370955161", '4', 0)
  ]

  predicate MatchesBranch(s: string, b: Branch) {
    && |s| == |b.prefix| + 1 + b.tail
    && AllDigits(s)
    && s[..|b.prefix|] == b.prefix
    && s[|b.prefix|] <= b.top
  }

  /** The alternatives shared by both patterns: `[1-9][0-9]{0,18}`, the branches, and the maximum itself. */
  predicate MatchesPositive(s: string) {
    || (1 <= |s| <= 19 && AllDigits(s) && s[0] != '0')
    || (exists i | 0 <= i < |U64_BRANCHES| :: MatchesBranch(s, U64_BRANCHES[i]))
    || s == U64_MAX_TEXT
  }

  /** The pattern of `expected_generation` and of a receipt's `generation`. */
  predicate MatchesU64(s: string) {
    s == "0" || MatchesPositive(s)
  }

  /** Every branch leaves the maximum exactly at the digit it bounds. */
  predicate LeavesMaximumAt(b: Branch, k: nat)
    requires k < 20
  {
    |b.prefix| == k && b.prefix == U64_MAX_TEXT[..k] && b.top as int + 1 == U64_MAX_TEXT[k] as int && b.tail == 19 - k
  }

  lemma EarlyBranchesLeaveMaximum(i: nat)
    requires i < 8
    ensures var k := |U64_BRANCHES[i].prefix|; 1 <= k < 20 && LeavesMaximumAt(U64_BRANCHES[i], k)
  {
    var b := U64_BRANCHES[i];
    assert |b.prefix| == if i < 7 then i + 1 else i + 2;
    if i < 4 {
      assert b.prefix == U64_MAX_TEXT[..i + 1];
    }
  }

  lemma LateBranchesLeaveMaximum(i: nat)
    requires 8 <= i < |U64_BRANCHES|
    ensures var k := |U64_BRANCHES[i].prefix|; 1 <= k < 20 && LeavesMaximumAt(U64_BRANCHES[i], k)
  {
  }

  lemma BranchesLeaveMaximum(i: nat)
    requires i < |U64_BRANCHES|
    ensures var k := |U64_BRANCHES[i].prefix|; 1 <= k < 20 && LeavesMaximumAt(U64_BRANCHES[i], k)
  {
    if i < 8 {
      EarlyBranchesLeaveMaximum(i);
    } else {
      LateBranchesLeaveMaximum(i);
    }
  }

  /** ... and every nonzero digit of the maximum after the first has its branch. */
  lemma BranchForDigit(k: nat) returns (i: nat)
    requires 1 <= k < 20 && U64_MAX_TEXT[k] != '0'
    ensures i < |U64_BRANCHES| && LeavesMaximumAt(U64_BRANCHES[i], k)
  {
    i := if k <= 7 then k - 1 else if k <= 11 then k - 2 else k - 3;
  }

  lemma MaximumText()
    ensures AllDigits(U64_MAX_TEXT) && Canonical(U64_MAX_TEXT) && Value(U64_MAX_TEXT) == U64_MAX
  {
    hide Pow10;
    assert U64_MAX_TEXT[..10] == "1844674407" && U64_MAX_TEXT[10..] == "3709551615";
    assert U64_MAX_TEXT == U64_MAX_TEXT[..10] + U64_MAX_TEXT[10..];
    TenDigits(U64_MAX_TEXT[..10], 18446, 74407);
    TenDigits(U64_MAX_TEXT[10..], 37095, 51615);
    ValueSplit(U64_MAX_TEXT[..10], U64_MAX_TEXT[10..]);
    TenthPower();
  }

  lemma TenthPower()
    ensures Pow10(10) == 10000000000
  {
  }

  lemma FiveDigits(s: string)
    requires |s| == 5 && AllDigits(s)
    ensures Value(s) == 10000 * DigitValue(s[0]) + 1000 * DigitValue(s[1]) + 100 * DigitValue(s[2])
                        + 10 * DigitValue(s[3]) + DigitValue(s[4])
  {
    var a, b, c, d := s[..4], s[..3], s[..2], s[..1];
    assert a[..3] == b && b[..2] == c && c[..1] == d && d[..0] == "";
    assert Value(d) == DigitValue(s[0]);
    assert Value(c) == 10 * Value(d) + DigitValue(s[1]);
    assert Value(b) == 10 * Value(c) + DigitValue(s[2]);
    assert Value(a) == 10 * Value(b) + DigitValue(s[3]);
  }

  lemma TenDigits(s: string, hi: nat, lo: nat)
    requires |s| == 10 && AllDigits(s)
    requires hi == 10000 * DigitValue(s[0]) + 1000 * DigitValue(s[1]) + 100 * DigitValue(s[2])
                   + 10 * DigitValue(s[3]) + DigitValue(s[4])
    requires lo == 10000 * DigitValue(s[5]) + 1000 * DigitValue(s[6]) + 100 * DigitValue(s[7])
                   + 10 * DigitValue(s[8]) + DigitValue(s[9])
    ensures Value(s) == 100000 * hi + lo
  {
    FiveDigits(s[..5]);
    FiveDigits(s[5..]);
    assert s == s[..5] + s[5..];
    ValueSplit(s[..5], s[5..]);
    assert Pow10(5) == 100000;
  }

  lemma NineteenDigitsFit(s: string)
    requires AllDigits(s) && |s| <= 19
    ensures Value(s) <= U64_MAX
  {
    ValueBelowPow10(s);
    PowMonotone(|s|, 19);
    assert Pow10(10) == 10000000000 && Pow10(19) == 1000000000 * Pow10(10);
  }

  lemma {:induction false} PowMonotone(a: nat, b: nat)
    requires a <= b
    ensures Pow10(a) <= Pow10(b)
    decreases b - a
  {
    if a < b {
      PowMonotone(a + 1, b);
    }
  }

  lemma TwentyDigitBranch(s: string, i: nat)
    requires i < |U64_BRANCHES| && MatchesBranch(s, U64_BRANCHES[i])
    ensures |s| == 20 && Canonical(s) && s[0] != '0' && Value(s) < U64_MAX
  {
    var k := |U64_BRANCHES[i].prefix|;
    BranchesLeaveMaximum(i);
    MaximumText();
    assert s[..k][0] == '1';
    FirstDifferenceDecides(s, U64_MAX_TEXT, k);
  }

  lemma BelowMaximumMatches(s: string, k: nat)
    requires Canonical(s) && |s| == 20 && k < 20
    requires s[..k] == U64_MAX_TEXT[..k] && s[k] < U64_MAX_TEXT[k]
    ensures MatchesPositive(s)
  {
    var i := BranchForDigit(k);
    assert MatchesBranch(s, U64_BRANCHES[i]);
  }

  lemma TwentyDigitsBelowMaximum(s: string)
    requires Canonical(s) && |s| == 20 && Value(s) <= U64_MAX
    ensures MatchesPositive(s)
  {
    if s != U64_MAX_TEXT {
      var k := FirstDifference(s, U64_MAX_TEXT);
      MaximumText();
      assert s[k] < U64_MAX_TEXT[k] by {
        if s[k] > U64_MAX_TEXT[k] {
          FirstDifferenceDecides(U64_MAX_TEXT, s, k);
        }
      }
      BelowMaximumMatches(s, k);
    }
  }

  lemma LongNumeralsExceed(s: string)
    requires Canonical(s) && |s| >= 21
    ensures Value(s) > U64_MAX
  {
    CanonicalAtLeastPow10(s);
    PowMonotone(20, |s| - 1);
    assert Pow10(10) == 10000000000 && Pow10(20) == 10000000000 * Pow10(10);
  }

  lemma ZeroNumeral(s: string)
    requires Canonical(s) && s[0] == '0'
    ensures s == "0" && Value(s) == 0
  {
    assert Value(s[..0]) == 0;
  }

  /** The pattern without the `0` alternative admits exactly the canonical decimals of 1..2^64-1. */
  lemma PositivePatternIsExact(s: string)
    ensures MatchesPositive(s) <==> Canonical(s) && 1 <= Value(s) <= U64_MAX
  {
    if MatchesPositive(s) {
      if 1 <= |s| <= 19 && AllDigits(s) && s[0] != '0' {
        NineteenDigitsFit(s);
      } else if s == U64_MAX_TEXT {
        MaximumText();
      } else {
        var i :| 0 <= i < |U64_BRANCHES| && MatchesBranch(s, U64_BRANCHES[i]);
        TwentyDigitBranch(s, i);
      }
      CanonicalIsPositive(s);
    }
    if Canonical(s) && 1 <= Value(s) <= U64_MAX {
      if s[0] == '0' {
        ZeroNumeral(s);
        assert false;
      } else if |s| >= 21 {
        LongNumeralsExceed(s);
        assert false;
      } else if |s| == 20 {
        TwentyDigitsBelowMaximum(s);
      }
    }
  }

  /** The numerals of unsigned 64-bit counters. */
  predicate IsCounter(s: string) {
    Canonical(s) && Value(s) <= U64_MAX
  }

  type Counter = s: string | IsCounter(s) witness "0"

  /** `expected_generation` admits exactly the canonical decimals of 0..2^64-1. */
  lemma U64PatternIsExact(s: string)
    ensures MatchesU64(s) <==> IsCounter(s)
  {
    PositivePatternIsExact(s);
    if Canonical(s) {
      if s[0] == '0' {
        ZeroNumeral(s);
      } else {
        CanonicalIsPositive(s);
      }
    }
  }

  /** Said as a bijection: the accepted strings are the numerals of the 64-bit counters. */
  lemma U64PatternIsDecimal(s: string)
    ensures MatchesU64(s) <==> exists n: nat :: n <= U64_MAX && s == Decimal(n)
  {
    U64PatternIsExact(s);
    if MatchesU64(s) {
      DecimalOfValue(s);
    }
    forall n: nat | n <= U64_MAX && s == Decimal(n)
      ensures MatchesU64(s)
    {
      ValueOfDecimal(n);
    }
  }
}
