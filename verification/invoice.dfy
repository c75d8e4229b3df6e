/** Invoice numbers of the point of sale, "INV-" + year + "-" + a sequence
    number left-padded with '0' to at least three digits, and the rule that
    picks the next number from the year's latest invoice. */
module Invoice {
  import opened Digits

  /** A four-digit year, as date('Y') prints it. */
  predicate IsYear(year: string) {
    |year| == 4 && AllDigits(year)
  }

  /** The text before the sequence number. */
  function Prefix(year: string): string {
    "INV-" + year + "-"
  }

  function InvoiceNumber(year: string, n: nat): string {
    Prefix(year) + ZeroPadded(n, 3)
  }

  /** Padding never truncates: the number part has at least three digits,
      and at least four once the sequence reaches 1000. */
  lemma {:induction false} InvoiceNumberWidth(year: string, n: nat)
    ensures |InvoiceNumber(year, n)| >= |Prefix(year)| + 3
    ensures n >= 1000 ==> |InvoiceNumber(year, n)| >= |Prefix(year)| + 4
  {
    if n >= 1000 {
      Pow10Three();
      DecimalLength(n, 3);
    }
  }

  /** The sequence number is read back from the digits after the prefix. */
  lemma {:induction false} InvoiceNumberInjective(year: string, n: nat, m: nat)
    requires InvoiceNumber(year, n) == InvoiceNumber(year, m)
    ensures n == m
  {
    var k := |Prefix(year)|;
    assert ZeroPadded(n, 3) == InvoiceNumber(year, n)[k..];
    assert ZeroPadded(m, 3) == InvoiceNumber(year, m)[k..];
    ZeroPaddedInjective(n, m, 3);
  }

  /** Sale::generateInvoiceNumber as written. `yearInvoices` are the invoice
      numbers of the current year's sales in id order; the successor is
      taken from the integer value of the last three characters of the
      latest one. */
  function NextInvoiceAsWritten(year: string, yearInvoices: seq<string>): string {
    var n := if yearInvoices == [] then 1 else IntCast(LastThree(yearInvoices[|yearInvoices| - 1])) + 1;
    InvoiceNumber(year, n)
  }

  /** The last three characters of a text ending in at least three
      digits are its last three digits. */
  lemma {:induction false} LastThreeOfSuffix(pre: string, p: string)
    requires |p| >= 3
    ensures LastThree(pre + p) == p[|p| - 3..]
  {
  }

  /** Three digits are read back as the padded number modulo 1000. */
  lemma {:induction false} CastOfLastDigits(n: nat)
    ensures var p := ZeroPadded(n, 3);
      |p| >= 3 && IntCast(p[|p| - 3..]) == n % 1000
  {
    var p := ZeroPadded(n, 3);
    ZeroPaddedRoundTrip(n, 3);
    var head, tail := p[..|p| - 3], p[|p| - 3..];
    SplitDigits(p, |p| - 3);
    SuffixValue(head, tail);
    Pow10Three();
    LeadingDigitsOfDigits(tail);
  }

  /** Both halves of a digit string are digit strings that make it up. */
  lemma {:induction false} SplitDigits(s: string, k: nat)
    requires AllDigits(s) && k <= |s|
    ensures AllDigits(s[..k]) && AllDigits(s[k..]) && s[..k] + s[k..] == s
  {
  }

  lemma {:induction false} Pow10Three()
    ensures Pow10(3) == 1000
  {
  }

  /** The last three characters of an invoice number denote its sequence
      number modulo 1000. */
  lemma {:induction false} LastThreeOfInvoice(year: string, n: nat)
    ensures IntCast(LastThree(InvoiceNumber(year, n))) == n % 1000
  {
    CastOfLastDigits(n);
    LastThreeOfSuffix(Prefix(year), ZeroPadded(n, 3));
  }

  /** The as-written successor of sequence number n is n mod 1000 + 1. */
  lemma {:induction false} NextAsWrittenWraps(year: string, earlier: seq<string>, n: nat)
    ensures NextInvoiceAsWritten(year, earlier + [InvoiceNumber(year, n)]) == InvoiceNumber(year, n % 1000 + 1)
  {
    var xs := earlier + [InvoiceNumber(year, n)];
    assert xs[|xs| - 1] == InvoiceNumber(year, n);
    LastThreeOfInvoice(year, n);
    assert IntCast(LastThree(xs[|xs| - 1])) == n % 1000;
  }

  /** Once a year has issued a multiple of 1000 invoices, the rule hands out
      INV-yyyy-001 again, the number the year's first sale already holds;
      1000 invoices are the first such case. */
  lemma {:induction false} AsWrittenRepeatsFirstNumber(year: string, invoices: seq<string>)
    requires Consecutive(year, invoices)
    requires |invoices| > 0 && |invoices| % 1000 == 0
    ensures NextInvoiceAsWritten(year, invoices) == invoices[0]
  {
    var m := |invoices|;
    assert invoices == invoices[..m - 1] + [InvoiceNumber(year, m)];
    NextAsWrittenWraps(year, invoices[..m - 1], m);
    assert m % 1000 + 1 == 0 + 1;
  }

  /** The successor as evidently intended: the whole run of digits that ends
      the latest invoice number, plus one. */
  function NextInvoice(year: string, yearInvoices: seq<string>): string {
    var n := if yearInvoices == [] then 1 else Value(TrailingDigits(yearInvoices[|yearInvoices| - 1])) + 1;
    InvoiceNumber(year, n)
  }

  /** The corrected successor of sequence number n is n + 1, for every n. */
  lemma {:induction false} NextAfter(year: string, earlier: seq<string>, n: nat)
    ensures NextInvoice(year, earlier + [InvoiceNumber(year, n)]) == InvoiceNumber(year, n + 1)
  {
    var xs := earlier + [InvoiceNumber(year, n)];
    assert xs[|xs| - 1] == Prefix(year) + ZeroPadded(n, 3);
    ZeroPaddedRoundTrip(n, 3);
    PrefixEndsInDash(year);
    TrailingDigitsOfSuffix(Prefix(year), ZeroPadded(n, 3));
    assert Value(TrailingDigits(xs[|xs| - 1])) == n;
  }

  lemma {:induction false} PrefixEndsInDash(year: string)
    ensures |Prefix(year)| > 0 && !IsDigit(Prefix(year)[|Prefix(year)| - 1])
  {
    assert Prefix(year)[|Prefix(year)| - 1] == '-';
  }

  /** The year's invoices numbered 1, 2, 3, ... in id order. */
  predicate Consecutive(year: string, invoices: seq<string>) {
    forall i :: 0 <= i < |invoices| ==> invoices[i] == InvoiceNumber(year, i + 1)
  }

  /** The corrected rule continues the sequence without a gap. */
  lemma {:induction false} NextKeepsConsecutive(year: string, invoices: seq<string>)
    requires Consecutive(year, invoices)
    ensures NextInvoice(year, invoices) == InvoiceNumber(year, |invoices| + 1)
    ensures Consecutive(year, invoices + [NextInvoice(year, invoices)])
  {
    NextIsSuccessor(year, invoices);
    ConsecutiveSnoc(year, invoices, NextInvoice(year, invoices));
  }

  /** After a gap-free run of m numbers the corrected rule hands out m + 1. */
  lemma {:induction false} NextIsSuccessor(year: string, invoices: seq<string>)
    requires Consecutive(year, invoices)
    ensures NextInvoice(year, invoices) == InvoiceNumber(year, |invoices| + 1)
  {
    var m := |invoices|;
    if m > 0 {
      assert invoices == invoices[..m - 1] + [InvoiceNumber(year, m)];
      NextAfter(year, invoices[..m - 1], m);
    }
  }

  /** A gap-free run extended by the following number stays gap-free. */
  lemma {:induction false} ConsecutiveSnoc(year: string, invoices: seq<string>, next: string)
    requires Consecutive(year, invoices)
    requires next == InvoiceNumber(year, |invoices| + 1)
    ensures Consecutive(year, invoices + [next])
  {
    var xs := invoices + [next];
    forall i | 0 <= i < |xs| ensures xs[i] == InvoiceNumber(year, i + 1) {
      if i < |invoices| {
        assert xs[i] == invoices[i];
      }
    }
  }

  /** Numbers handed out by the corrected rule are pairwise distinct. */
  lemma {:induction false} ConsecutiveDistinct(year: string, invoices: seq<string>)
    requires Consecutive(year, invoices)
    ensures forall i, j :: 0 <= i < j < |invoices| ==> invoices[i] != invoices[j]
  {
    forall i, j | 0 <= i < j < |invoices|
      ensures invoices[i] != invoices[j]
    {
      if invoices[i] == invoices[j] {
        InvoiceNumberInjective(year, i + 1, j + 1);
      }
    }
  }

  /** So the next number never collides with one already issued. */
  lemma {:induction false} NextIsFresh(year: string, invoices: seq<string>)
    requires Consecutive(year, invoices)
    ensures NextInvoice(year, invoices) !in invoices
  {
    NextKeepsConsecutive(year, invoices);
    ConsecutiveDistinct(year, invoices + [NextInvoice(year, invoices)]);
    var xs := invoices + [NextInvoice(year, invoices)];
    forall i | 0 <= i < |invoices| ensures invoices[i] != NextInvoice(year, invoices) {
      assert xs[i] == invoices[i] && xs[|invoices|] == NextInvoice(year, invoices);
    }
  }

  /** Both rules agree below the wrap: they differ only once a year passes
      999 invoices. */
  lemma {:induction false} RulesAgreeBelowWrap(year: string, earlier: seq<string>, n: nat)
    requires n < 1000
    ensures NextInvoiceAsWritten(year, earlier + [InvoiceNumber(year, n)]) == NextInvoice(year, earlier + [InvoiceNumber(year, n)])
  {
    SmallMod(n);
    NextAsWrittenWraps(year, earlier, n);
    NextAfter(year, earlier, n);
  }

  lemma {:induction false} SmallMod(n: nat)
    requires n < 1000
    ensures n % 1000 == n
  {
  }
}
