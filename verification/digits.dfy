/** Decimal text of natural numbers: PHP's integer-to-string conversion,
    str_pad with STR_PAD_LEFT, and reading a run of digits back. Both the
    transaction numbers of the inventory ledger and the invoice numbers of the
    point of sale are built from these. */
module Digits {

  predicate IsDigit(c: char) {
    '0' <= c <= '9'
  }

  predicate AllDigits(s: string) {
    forall i :: 0 <= i < |s| ==> IsDigit(s[i])
  }

  function DigitChar(d: nat): (c: char)
    requires d < 10
    ensures IsDigit(c)
  {
    ('0' as int + d) as char
  }

  function DigitValue(c: char): (d: nat)
    requires IsDigit(c)
    ensures d < 10
    ensures DigitChar(d) == c
  {
    c as int - '0' as int
  }

  /** The decimal text of n, without leading zeros ("0" for zero). */
  function Decimal(n: nat): (s: string)
    ensures 1 <= |s|
    ensures AllDigits(s)
    ensures n < 10 <==> |s| == 1
    decreases n
  {
    if n < 10 then [DigitChar(n)] else Decimal(n / 10) + [DigitChar(n % 10)]
  }

  /** The number a string of digits denotes, most significant digit first. */
  function Value(s: string): nat
    requires AllDigits(s)
  {
    if s == [] then 0 else Value(s[..|s| - 1]) * 10 + DigitValue(s[|s| - 1])
  }

  lemma {:induction false} ValueOfDecimal(n: nat)
    ensures Value(Decimal(n)) == n
    decreases n
  {
    var s := Decimal(n);
    if n >= 10 {
      ValueOfDecimal(n / 10);
      assert s[..|s| - 1] == Decimal(n / 10);
    }
  }

  /** `count` copies of `fill`. */
  function Repeat(fill: char, count: nat): (r: string)
    ensures |r| == count
    ensures forall i :: 0 <= i < count ==> r[i] == fill
  {
    seq(count, _ => fill)
  }

  /** str_pad(s, width, fill, STR_PAD_LEFT): fill on the left up to `width`
      characters; a string already that long is returned whole, never cut. */
  function PadLeft(s: string, width: nat, fill: char): (r: string)
    ensures |r| == if |s| >= width then |s| else width
    ensures r[|r| - |s|..] == s
    ensures forall i :: 0 <= i < |r| - |s| ==> r[i] == fill
  {
    if |s| >= width then s else Repeat(fill, width - |s|) + s
  }

  /** A number written in decimal and left-padded with '0' to `width` digits. */
  function ZeroPadded(n: nat, width: nat): string {
    PadLeft(Decimal(n), width, '0')
  }

  lemma {:induction false} ValueSnoc(s: string, c: char)
    requires AllDigits(s) && IsDigit(c)
    ensures AllDigits(s + [c])
    ensures Value(s + [c]) == Value(s) * 10 + DigitValue(c)
  {
    assert (s + [c])[..|s|] == s;
  }

  lemma {:induction false} ValueAppend(a: string, b: string)
    requires AllDigits(a) && AllDigits(b)
    ensures AllDigits(a + b)
    ensures Value(a + b) == Value(a) * Pow10(|b|) + Value(b)
    decreases |b|
  {
    if b == [] {
      assert a + b == a;
    } else {
      var b' := b[..|b| - 1];
      var c := b[|b| - 1];
      assert b == b' + [c];
      assert a + b == (a + b') + [c];
      ValueAppend(a, b');
      ValueSnoc(a + b', c);
      ValueSnoc(b', c);
      assert Pow10(|b|) == 10 * Pow10(|b'|);
      ShiftDigit(Value(a), Pow10(|b'|), Value(b'), DigitValue(c));
    }
  }

  /** Appending a digit to x * p + y shifts both parts one place. */
  lemma {:induction false} ShiftDigit(x: nat, p: nat, y: nat, d: nat)
    ensures (x * p + y) * 10 + d == x * (10 * p) + (y * 10 + d)
  {
  }

  function Pow10(k: nat): (p: nat)
    ensures p >= 1
  {
    if k == 0 then 1 else 10 * Pow10(k - 1)
  }

  lemma {:induction false} ValueOfZeros(k: nat)
    ensures AllDigits(Repeat('0', k))
    ensures Value(Repeat('0', k)) == 0
  {
    if k > 0 {
      assert Repeat('0', k)[..k - 1] == Repeat('0', k - 1);
      ValueOfZeros(k - 1);
    }
  }

  lemma {:induction false} ValueBound(s: string)
    requires AllDigits(s)
    ensures Value(s) < Pow10(|s|)
    decreases |s|
  {
    if s != [] {
      ValueBound(s[..|s| - 1]);
    }
  }

  /** Padding is read back as the number it pads: Value(ZeroPadded(n, w)) == n. */
  lemma {:induction false} ZeroPaddedRoundTrip(n: nat, width: nat)
    ensures AllDigits(ZeroPadded(n, width))
    ensures Value(ZeroPadded(n, width)) == n
  {
    var d := Decimal(n);
    ValueOfDecimal(n);
    var zeros := Repeat('0', if |d| < width then width - |d| else 0);
    ZeroPaddedShape(n, width);
    ValueOfZeros(|zeros|);
    ValueAppend(zeros, d);
  }

  /** The padded text is a run of zeros followed by the decimal text. */
  lemma {:induction false} ZeroPaddedShape(n: nat, width: nat)
    ensures ZeroPadded(n, width) == Repeat('0', if |Decimal(n)| < width then width - |Decimal(n)| else 0) + Decimal(n)
  {
    var d := Decimal(n);
    if |d| >= width {
      assert Repeat('0', 0) == [];
      assert [] + d == d;
    }
  }

  /** Distinct numbers never share a padded text, whatever the width. */
  lemma {:induction false} ZeroPaddedInjective(n: nat, m: nat, width: nat)
    requires ZeroPadded(n, width) == ZeroPadded(m, width)
    ensures n == m
  {
    ZeroPaddedRoundTrip(n, width);
    ZeroPaddedRoundTrip(m, width);
  }

  /** A string of digits is read back by the integer cast in full. */
  lemma {:induction false} LeadingDigitsOfDigits(s: string)
    requires AllDigits(s)
    ensures LeadingDigits(s) == s
    ensures IntCast(s) == Value(s)
  {
    if s != [] {
      LeadingDigitsOfDigits(s[1..]);
      assert [s[0]] + s[1..] == s;
    }
  }

  /** The trailing digits of a digit string denote its value modulo the
      matching power of ten. */
  lemma {:induction false} SuffixValue(a: string, b: string)
    requires AllDigits(a) && AllDigits(b)
    ensures AllDigits(a + b)
    ensures Value(b) == Value(a + b) % Pow10(|b|)
  {
    ValueAppend(a, b);
    ValueBound(b);
    ModOfMultiplePlus(Value(a), Pow10(|b|), Value(b));
  }

  lemma {:induction false} ModOfMultiplePlus(q: nat, p: nat, r: nat)
    requires 0 <= r < p
    ensures (q * p + r) % p == r
  {
    var x := q * p + r;
    var q', r' := x / p, x % p;
    assert x == q' * p + r';
    assert (q - q') * p == r' - r;
    if q > q' {
      MulAtLeast(q - q', p);
    } else if q < q' {
      MulAtLeast(q' - q, p);
    }
  }

  lemma {:induction false} MulAtLeast(k: int, p: int)
    requires k >= 1 && p >= 0
    ensures k * p >= p
  {
  }

  /** A number of at least 10^k has more than k digits. */
  lemma {:induction false} DecimalLength(n: nat, k: nat)
    requires n >= Pow10(k)
    ensures |Decimal(n)| > k
    decreases k
  {
    if k > 0 {
      assert n / 10 >= Pow10(k - 1);
      DecimalLength(n / 10, k - 1);
    }
  }

  /** The last three characters of s, or all of s when it is shorter:
      PHP's substr(s, -3). */
  function LastThree(s: string): (r: string)
    ensures |r| == if |s| >= 3 then 3 else |s|
    ensures r == s[|s| - |r|..]
  {
    if |s| >= 3 then s[|s| - 3..] else s
  }

  /** The longest run of digits at the start of s. */
  function LeadingDigits(s: string): (r: string)
    ensures AllDigits(r)
    ensures r <= s
    ensures |r| < |s| ==> !IsDigit(s[|r|])
  {
    if s == [] || !IsDigit(s[0]) then [] else [s[0]] + LeadingDigits(s[1..])
  }

  /** PHP's (int) cast of a string, for the strings it meets here: the value of
      the leading digits, 0 when there are none. */
  function IntCast(s: string): nat {
    Value(LeadingDigits(s))
  }

  /** The longest run of digits at the end of s. */
  function TrailingDigits(s: string): (r: string)
    ensures AllDigits(r)
    ensures |r| <= |s| && r == s[|s| - |r|..]
    ensures |r| < |s| ==> !IsDigit(s[|s| - |r| - 1])
  {
    if s == [] || !IsDigit(s[|s| - 1]) then [] else TrailingDigits(s[..|s| - 1]) + [s[|s| - 1]]
  }

  lemma {:induction false} TrailingDigitsOfSuffix(a: string, d: string)
    requires AllDigits(d)
    requires |a| > 0 && !IsDigit(a[|a| - 1])
    ensures TrailingDigits(a + d) == d
    decreases |d|
  {
    if d == [] {
      assert a + d == a;
    } else {
      var d' := d[..|d| - 1];
      assert (a + d)[..|a + d| - 1] == a + d';
      TrailingDigitsOfSuffix(a, d');
      assert d' + [d[|d| - 1]] == d;
    }
  }
}
