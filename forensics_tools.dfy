/** The Benford's-law fraud check: the first significant digit of each
    number, a 1..9 histogram, a deviation from the Benford shares and a
    risk score clamped to 0..100. */
module ForensicsTools {
  import opened TextUtil

  /** One element of the input list, seen through `float(n)`: either the
      text `str(float(n))` or a value whose conversion fails with ValueError. */
  datatype Entry = Numeric(repr: string) | Unconvertible

  // ---------------------------------------------------------------------
  // First significant digit
  // ---------------------------------------------------------------------

  /** `s.replace('.', '')`. */
  function RemoveDots(s: string): (r: string)
    ensures '.' !in r
    ensures |r| <= |s|
  {
    if s == [] then []
    else (if s[0] == '.' then [] else [s[0]]) + RemoveDots(s[1..])
  }

  /** `s.lstrip('0')`. */
  function StripLeadingZeros(s: string): (r: string)
    ensures |r| <= |s| && r == s[|s| - |r|..]
    ensures forall i :: 0 <= i < |s| - |r| ==> s[i] == '0'
    ensures r == [] || r[0] != '0'
  {
    if s != [] && s[0] == '0' then StripLeadingZeros(s[1..]) else s
  }

  /** The digit `int(s[0])` yields for the float text `repr`, or None when
      nothing is left after dropping the point and leading zeros, or when
      the first character left is not a digit (the ValueError the loop
      catches). */
  function FirstDigit(repr: string): (r: Option<int>)
    ensures r.Some? ==> 1 <= r.value <= 9
  {
    var s := StripLeadingZeros(RemoveDots(repr));
    if s != [] && IsDigit(s[0]) then Some(DigitValue(s[0])) else None
  }

  function EntryDigit(e: Entry): Option<int> {
    match e
    case Numeric(repr) => FirstDigit(repr)
    case Unconvertible => None
  }

  /** The list `first_digits`: one digit per entry that yields one, in order. */
  function ValidDigits(numbers: seq<Entry>): (ds: seq<int>)
    ensures |ds| <= |numbers|
    ensures forall k :: 0 <= k < |ds| ==> 1 <= ds[k] <= 9
  {
    if numbers == [] then []
    else
      var ds := ValidDigits(numbers[..|numbers| - 1]);
      match EntryDigit(numbers[|numbers| - 1])
      case Some(d) => ds + [d]
      case None => ds
  }

  // ---------------------------------------------------------------------
  // Decimal integers, an independent reading of the leading digit
  // ---------------------------------------------------------------------

  function Pow10(k: nat): (r: nat)
    ensures r >= 1
  {
    if k == 0 then 1 else 10 * Pow10(k - 1)
  }

  /** The decimal numeral of `n`, without leading zeros. */
  function DecimalText(n: nat): (s: string)
    ensures s != [] && '.' !in s
    ensures forall i :: 0 <= i < |s| ==> IsDigit(s[i])
  {
    if n < 10 then [DigitChar(n)] else DecimalText(n / 10) + [DigitChar(n % 10)]
  }

  /** The leading digit of a positive integer: the `d` with
      `d * 10^k <= n < (d + 1) * 10^k` for the `k` that makes it a digit. */
  function LeadingDigit(n: nat): (d: nat)
    requires n >= 1
    ensures 1 <= d <= 9
    ensures d * Pow10(|DecimalText(n)| - 1) <= n < (d + 1) * Pow10(|DecimalText(n)| - 1)
  {
    if n < 10 then n
    else
      var d := LeadingDigit(n / 10);
      var p := Pow10(|DecimalText(n / 10)| - 1);
      assert |DecimalText(n)| - 1 == |DecimalText(n / 10)|;
      assert Pow10(|DecimalText(n)| - 1) == 10 * p;
      ScaleBounds(d, p, n);
      d
  }

  lemma ScaleBounds(d: nat, p: nat, n: nat)
    requires d * p <= n / 10 < (d + 1) * p
    ensures d * (10 * p) <= n < (d + 1) * (10 * p)
  {
    assert d * (10 * p) == 10 * (d * p);
    assert (d + 1) * (10 * p) == 10 * ((d + 1) * p);
  }

  /** The numeral of a positive integer starts with its leading digit. */
  lemma {:induction false} DecimalTextStart(n: nat)
    requires n >= 1
    ensures DecimalText(n)[0] == DigitChar(LeadingDigit(n))
  {
    if n >= 10 {
      DecimalTextStart(n / 10);
    }
  }

  lemma {:induction false} RemoveDotsAppend(a: string, b: string)
    ensures RemoveDots(a + b) == RemoveDots(a) + RemoveDots(b)
  {
    if a != [] {
      assert (a + b)[0] == a[0];
      assert (a + b)[1..] == a[1..] + b;
      RemoveDotsAppend(a[1..], b);
      var h := if a[0] == '.' then [] else [a[0]];
      calc {
        RemoveDots(a + b);
        h + RemoveDots(a[1..] + b);
        h + (RemoveDots(a[1..]) + RemoveDots(b));
        (h + RemoveDots(a[1..])) + RemoveDots(b);
      }
    } else {
      assert a + b == b;
    }
  }

  lemma {:induction false} RemoveDotsNoDots(s: string)
    requires '.' !in s
    ensures RemoveDots(s) == s
  {
    if s != [] {
      assert s[0] != '.';
      RemoveDotsNoDots(s[1..]);
    }
  }

  /** A whole number `n >= 1` renders as `n.0`; its first digit is the
      leading digit of `n`. */
  lemma FirstDigitOfWhole(n: nat)
    requires n >= 1
    ensures FirstDigit(DecimalText(n) + ".0") == Some(LeadingDigit(n))
  {
    var t := DecimalText(n);
    RemoveDotsAppend(t, ".0");
    RemoveDotsNoDots(t);
    assert RemoveDots(".0") == "0";
    DecimalTextStart(n);
    assert (t + "0")[0] == t[0] != '0';
  }

  /** A fraction below one renders as `0.` then zeros then the significant
      digits; its first digit is the first significant one. */
  lemma FirstDigitOfFraction(zeros: string, n: nat)
    requires n >= 1 && forall i :: 0 <= i < |zeros| ==> zeros[i] == '0'
    ensures FirstDigit("0." + zeros + DecimalText(n)) == Some(LeadingDigit(n))
  {
    var t := DecimalText(n);
    RemoveDotsAppend("0." + zeros, t);
    RemoveDotsAppend("0.", zeros);
    RemoveDotsNoDots(t);
    RemoveDotsNoDots(zeros);
    assert RemoveDots("0.") == "0";
    DecimalTextStart(n);
    LeadingZerosDropped("0" + zeros, t);
  }

  lemma {:induction false} LeadingZerosDropped(z: string, t: string)
    requires forall i :: 0 <= i < |z| ==> z[i] == '0'
    requires t != [] && t[0] != '0'
    ensures StripLeadingZeros(z + t) == t
  {
    if z != [] {
      assert (z + t)[1..] == z[1..] + t;
      LeadingZerosDropped(z[1..], t);
    }
  }

  /** A negative number is skipped: its sign is the first character left. */
  lemma NegativeSkipped(rest: string)
    ensures FirstDigit("-" + rest) == None
  {
    RemoveDotsAppend("-", rest);
    assert RemoveDots("-") == "-";
  }

  /** Zero is skipped: nothing is left once the point and zeros are dropped. */
  lemma ZeroSkipped()
    ensures FirstDigit("0.0") == None
  {
    assert RemoveDots("0.0") == "00";
  }

  // ---------------------------------------------------------------------
  // Histogram
  // ---------------------------------------------------------------------

  /** `first_digits.count(d)`. */
  function CountOf(ds: seq<int>, d: int): (c: nat)
    ensures c == multiset(ds)[d]
  {
    if ds == [] then 0
    else
      assert ds == ds[..|ds| - 1] + [ds[|ds| - 1]];
      CountOf(ds[..|ds| - 1], d) + (if ds[|ds| - 1] == d then 1 else 0)
  }

  /** The `counts` dictionary: keys exactly 1..9, each with its count. */
  function Distribution(ds: seq<int>): (m: map<int, nat>)
    ensures forall d :: d in m <==> 1 <= d <= 9
    ensures forall d :: d in m ==> m[d] == multiset(ds)[d]
  {
    map d | 1 <= d <= 9 :: CountOf(ds, d)
  }

  /** The counts of the digits 1..k, added up. */
  function SumCounts(ds: seq<int>, k: nat): nat {
    if k == 0 then 0 else SumCounts(ds, k - 1) + CountOf(ds, k)
  }

  lemma {:induction false} SumCountsSnoc(ds: seq<int>, x: int, k: nat)
    ensures SumCounts(ds + [x], k) == SumCounts(ds, k) + (if 1 <= x <= k then 1 else 0)
  {
    if k > 0 {
      SumCountsSnoc(ds, x, k - 1);
      assert (ds + [x])[..|ds + [x]| - 1] == ds;
    }
  }

  /** The histogram accounts for every digit: its counts sum to the number
      of valid entries. */
  lemma {:induction false} CountsSumToTotal(ds: seq<int>)
    requires forall k :: 0 <= k < |ds| ==> 1 <= ds[k] <= 9
    ensures SumCounts(ds, 9) == |ds|
  {
    if ds != [] {
      var init := ds[..|ds| - 1];
      CountsSumToTotal(init);
      SumCountsSnoc(init, ds[|ds| - 1], 9);
      assert init + [ds[|ds| - 1]] == ds;
    } else {
      SumCountsEmpty(9);
    }
  }

  lemma {:induction false} SumCountsEmpty(k: nat)
    ensures SumCounts([], k) == 0
  {
    if k > 0 {
      SumCountsEmpty(k - 1);
    }
  }

  // ---------------------------------------------------------------------
  // Deviation, risk score and message
  // ---------------------------------------------------------------------

  /** `math.log10(1 + 1/d)` for d = 1..9, as the decimal values of the doubles
      Python computes. */
  const BenfordExpected: seq<real> := [
    0.3010299956639812, 0.17609125905568124, 0.12493873660829992,
    0.09691001300805642, 0.07918124604762482, 0.06694678963061322,
    0.05799194697768673, 0.05115252244738129, 0.04575749056067514
  ]

  function Abs(x: real): (r: real)
    ensures r >= 0.0 && (r == x || r == -x)
  {
    if x < 0.0 then -x else x
  }

  /** `counts[d] / total`. */
  function Share(ds: seq<int>, d: int): (r: real)
    requires ds != []
    ensures r >= 0.0
  {
    CountOf(ds, d) as real / |ds| as real
  }

  /** The deviation summed over the digits 1..k. */
  function DeviationUpTo(ds: seq<int>, k: nat): (r: real)
    requires ds != [] && k <= 9
    ensures r >= 0.0
  {
    if k == 0 then 0.0
    else DeviationUpTo(ds, k - 1) + Abs(Share(ds, k) - BenfordExpected[k - 1])
  }

  function Deviation(ds: seq<int>): (r: real)
    requires ds != []
    ensures r >= 0.0
  {
    DeviationUpTo(ds, 9)
  }

  /** `min(100, int(deviation_sum * 200))`; `int` truncates toward zero, which
      is the floor for a non-negative value. */
  function RiskScore(dev: real): (r: int)
    requires dev >= 0.0
    ensures 0 <= r <= 100
    ensures r == 100 <==> dev >= 0.5
    ensures r > 50 <==> dev >= 0.255
  {
    var raw := (dev * 200.0).Floor;
    if raw < 100 then raw else 100
  }

  const HighDeviation := "High deviation detected"
  const NaturalDistribution := "Natural distribution"
  const NoData := "No data provided."
  const NoValidNumbers := "No valid numbers found."

  function Verdict(risk: int): string {
    if risk > 50 then HighDeviation else NaturalDistribution
  }

  /** The result dictionary; the early returns carry no distribution. */
  datatype BenfordReport = BenfordReport(riskScore: int, distribution: Option<map<int, nat>>, message: string)

  /** The functional reading of `check_benfords_law`. */
  function BenfordOf(numbers: seq<Entry>): (r: BenfordReport)
    ensures 0 <= r.riskScore <= 100
    ensures r.distribution.None? <==> ValidDigits(numbers) == []
  {
    if numbers == [] then BenfordReport(0, None, NoData)
    else
      var ds := ValidDigits(numbers);
      if ds == [] then BenfordReport(0, None, NoValidNumbers)
      else
        var risk := RiskScore(Deviation(ds));
        BenfordReport(risk, Some(Distribution(ds)), Verdict(risk))
  }

  /** `check_benfords_law`: the digits are collected by appending in a loop,
      the deviation is accumulated in a second loop over 1..9. */
  method CheckBenfordsLaw(numbers: seq<Entry>) returns (r: BenfordReport)
    ensures r == BenfordOf(numbers)
  {
    if |numbers| == 0 {
      return BenfordReport(0, None, NoData);
    }
    var firstDigits: seq<int> := [];
    var i := 0;
    while i < |numbers|
      invariant 0 <= i <= |numbers|
      invariant firstDigits == ValidDigits(numbers[..i])
    {
      assert numbers[..i + 1][..i] == numbers[..i];
      match EntryDigit(numbers[i]) {
        case Some(d) => firstDigits := firstDigits + [d];
        case None =>
      }
      i := i + 1;
    }
    assert numbers[..i] == numbers;
    if |firstDigits| == 0 {
      return BenfordReport(0, None, NoValidNumbers);
    }
    var counts := Distribution(firstDigits);
    var deviationSum := 0.0;
    for d := 1 to 10
      invariant deviationSum == DeviationUpTo(firstDigits, d - 1)
    {
      var observed := counts[d] as real / |firstDigits| as real;
      deviationSum := deviationSum + Abs(observed - BenfordExpected[d - 1]);
    }
    var risk := RiskScore(deviationSum);
    r := BenfordReport(risk, Some(counts), Verdict(risk));
  }

  // ---------------------------------------------------------------------
  // Properties
  // ---------------------------------------------------------------------

  /** The report on a non-empty list with valid entries: the histogram has
      keys 1..9, maps each digit to the number of entries that lead with it
      and so sums to the number of valid entries, and the message is
      the high-deviation one exactly when the score exceeds 50. */
  lemma ReportShape(numbers: seq<Entry>)
    requires ValidDigits(numbers) != []
    ensures var r := BenfordOf(numbers);
      && r.distribution.Some?
      && (forall d :: d in r.distribution.value <==> 1 <= d <= 9)
      && (forall d :: 1 <= d <= 9 ==> r.distribution.value[d] == CountOf(ValidDigits(numbers), d))
      && SumCounts(ValidDigits(numbers), 9) == |ValidDigits(numbers)|
      && (r.message == HighDeviation <==> r.riskScore > 50)
      && (r.message == NaturalDistribution <==> r.riskScore <= 50)
  {
    CountsSumToTotal(ValidDigits(numbers));
  }

  /** The early exits: an empty list, and a list none of whose entries
      yields a digit. */
  lemma EarlyExits(numbers: seq<Entry>)
    ensures numbers == [] ==> BenfordOf(numbers) == BenfordReport(0, None, NoData)
    ensures numbers != [] && (forall k :: 0 <= k < |numbers| ==> EntryDigit(numbers[k]).None?)
            ==> BenfordOf(numbers) == BenfordReport(0, None, NoValidNumbers)
  {
    if numbers != [] && forall k :: 0 <= k < |numbers| ==> EntryDigit(numbers[k]).None? {
      NoDigitsWhenAllSkipped(numbers);
    }
  }

  lemma {:induction false} NoDigitsWhenAllSkipped(numbers: seq<Entry>)
    requires forall k :: 0 <= k < |numbers| ==> EntryDigit(numbers[k]).None?
    ensures ValidDigits(numbers) == []
  {
    if numbers != [] {
      NoDigitsWhenAllSkipped(numbers[..|numbers| - 1]);
    }
  }

  lemma {:induction false} ValidDigitsAppend(a: seq<Entry>, b: seq<Entry>)
    ensures ValidDigits(a + b) == ValidDigits(a) + ValidDigits(b)
  {
    if b != [] {
      ValidDigitsAppend(a, b[..|b| - 1]);
      assert (a + b)[..|a + b| - 1] == a + b[..|b| - 1];
      assert (a + b)[|a + b| - 1] == b[|b| - 1];
      match EntryDigit(b[|b| - 1]) {
        case Some(d) =>
          assert ValidDigits(a + b) == ValidDigits(a + b[..|b| - 1]) + [d];
        case None =>
      }
    } else {
      assert a + b == a;
    }
  }

  /** Entries that yield no digit (zero, negatives, non-numeric text) change
      nothing once the list is non-empty. */
  lemma SkippedEntryIgnored(numbers: seq<Entry>, e: Entry)
    requires numbers != [] && EntryDigit(e).None?
    ensures BenfordOf(numbers + [e]) == BenfordOf(numbers)
  {
    assert (numbers + [e])[..|numbers|] == numbers;
  }

  /** Only how often each digit occurs matters: the score is the same for any
      ordering of the digits. */
  lemma {:induction false} DeviationUpToPermutation(ds: seq<int>, es: seq<int>, k: nat)
    requires ds != [] && multiset(ds) == multiset(es) && k <= 9
    ensures es != [] && DeviationUpTo(ds, k) == DeviationUpTo(es, k)
  {
    assert |ds| == |multiset(ds)| == |multiset(es)| == |es|;
    if k > 0 {
      DeviationUpToPermutation(ds, es, k - 1);
    }
  }

  /** Swapping two parts of the input list leaves the report unchanged;
      `PermutationIrrelevant` covers every reordering. */
  lemma OrderIrrelevant(a: seq<Entry>, b: seq<Entry>)
    ensures BenfordOf(a + b) == BenfordOf(b + a)
  {
    ValidDigitsAppend(a, b);
    ValidDigitsAppend(b, a);
    var ds, es := ValidDigits(a + b), ValidDigits(b + a);
    assert multiset(ds) == multiset(es);
    if ds != [] {
      DeviationUpToPermutation(ds, es, 9);
      assert Distribution(ds) == Distribution(es);
    }
  }

  /** Two lists, both empty or both not, whose digits agree as multisets get
      the same report. */
  lemma SameDigitsSameReport(a: seq<Entry>, b: seq<Entry>)
    requires (a == []) == (b == [])
    requires multiset(ValidDigits(a)) == multiset(ValidDigits(b))
    ensures BenfordOf(a) == BenfordOf(b)
  {
    var ds, es := ValidDigits(a), ValidDigits(b);
    assert |ds| == |multiset(ds)| == |multiset(es)| == |es|;
    if ds != [] {
      DeviationUpToPermutation(ds, es, 9);
      assert Distribution(ds) == Distribution(es);
    }
  }

  /** Digit extraction respects permutation: reordered entries give the same
      digits, reordered. */
  lemma {:induction false} ValidDigitsPermutation(a: seq<Entry>, b: seq<Entry>)
    requires multiset(a) == multiset(b)
    ensures multiset(ValidDigits(a)) == multiset(ValidDigits(b))
    decreases |a|
  {
    if a == [] {
      assert |b| == |multiset(b)| == 0;
    } else {
      var n := |a| - 1;
      var x := a[n];
      assert a == a[..n] + [x];
      assert x in multiset(b);
      var i :| 0 <= i < |b| && b[i] == x;
      var b1, b2 := b[..i], b[i + 1..];
      assert b == b1 + [x] + b2;
      RemoveOne(a[..n], x, b1, b2);
      ValidDigitsPermutation(a[..n], b1 + b2);
      ValidDigitsAppend(a[..n], [x]);
      DigitsAround(b1, x, b2);
    }
  }

  lemma RemoveOne(a: seq<Entry>, x: Entry, b1: seq<Entry>, b2: seq<Entry>)
    requires multiset(a + [x]) == multiset(b1 + [x] + b2)
    ensures multiset(a) == multiset(b1 + b2)
  {
    var m, k := multiset(a), multiset(b1 + b2);
    assert multiset(a + [x]) == m + multiset{x};
    assert multiset(b1 + [x] + b2) == multiset(b1) + multiset{x} + multiset(b2);
    assert k == multiset(b1) + multiset(b2);
    forall e ensures m[e] == k[e] {
      assert (m + multiset{x})[e] == (k + multiset{x})[e];
    }
  }

  lemma DigitsAround(b1: seq<Entry>, x: Entry, b2: seq<Entry>)
    ensures multiset(ValidDigits(b1 + [x] + b2))
            == multiset(ValidDigits(b1 + b2)) + multiset(ValidDigits([x]))
  {
    ValidDigitsAppend(b1 + [x], b2);
    ValidDigitsAppend(b1, [x]);
    ValidDigitsAppend(b1, b2);
  }

  /** Any reordering of the input list leaves the report unchanged. */
  lemma PermutationIrrelevant(a: seq<Entry>, b: seq<Entry>)
    requires multiset(a) == multiset(b)
    ensures BenfordOf(a) == BenfordOf(b)
  {
    assert |a| == |multiset(a)| == |multiset(b)| == |b|;
    ValidDigitsPermutation(a, b);
    SameDigitsSameReport(a, b);
  }

  /** The shares add up over the digits 1..k. */
  function ShareSum(ds: seq<int>, k: nat): (r: real)
    requires ds != [] && k <= 9
  {
    if k == 0 then 0.0 else ShareSum(ds, k - 1) + Share(ds, k)
  }

  function ExpectedSum(k: nat): real
    requires k <= 9
  {
    if k == 0 then 0.0 else ExpectedSum(k - 1) + BenfordExpected[k - 1]
  }

  lemma {:induction false} ShareSumIsCount(ds: seq<int>, k: nat)
    requires ds != [] && k <= 9
    ensures ShareSum(ds, k) == SumCounts(ds, k) as real / |ds| as real
  {
    if k > 0 {
      ShareSumIsCount(ds, k - 1);
      AddQuotients(SumCounts(ds, k - 1) as real, CountOf(ds, k) as real, |ds| as real);
    }
  }

  lemma SelfQuotient(n: real)
    requires n > 0.0
    ensures n / n == 1.0
  {
  }

  lemma AddQuotients(a: real, b: real, n: real)
    requires n > 0.0
    ensures a / n + b / n == (a + b) / n
  {
  }

  lemma {:induction false} DeviationUpToBound(ds: seq<int>, k: nat)
    requires ds != [] && k <= 9
    ensures DeviationUpTo(ds, k) <= ShareSum(ds, k) + ExpectedSum(k)
  {
    if k > 0 {
      DeviationUpToBound(ds, k - 1);
    }
  }

  /** The deviation never exceeds 2 (each absolute difference is at most the
      observed share plus the expected one, and each side sums to at most 1),
      so the raw score stays below 400 before the clamp. */
  lemma DeviationBelowTwo(ds: seq<int>)
    requires ds != [] && forall k :: 0 <= k < |ds| ==> 1 <= ds[k] <= 9
    ensures Deviation(ds) <= 2.0
  {
    DeviationUpToBound(ds, 9);
    ShareSumIsCount(ds, 9);
    CountsSumToTotal(ds);
    ExpectedSumBelowOne();
    var n := |ds| as real;
    assert ShareSum(ds, 9) == n / n;
    SelfQuotient(n);
  }

  /** The Benford shares add up to at most one. */
  lemma ExpectedSumBelowOne()
    ensures ExpectedSum(9) <= 1.0
  {
    assert ExpectedSum(3) == 0.60205999132796236;
    assert ExpectedSum(6) == 0.84509804001425682;
  }

  /** A list whose entries all lead with the same digit scores the maximum. */
  lemma SingleDigitMaximal(ds: seq<int>, d: int)
    requires ds != [] && 1 <= d <= 9 && forall k :: 0 <= k < |ds| ==> ds[k] == d
    ensures RiskScore(Deviation(ds)) == 100
  {
    assert multiset(ds)[d] == |ds| by {
      assert ds == seq(|ds|, _ => d);
      ConstantCount(|ds|, d);
    }
    assert Share(ds, d) == |ds| as real / |ds| as real;
    SelfQuotient(|ds| as real);
    DeviationAtLeast(ds, d, 9);
  }

  lemma {:induction false} ConstantCount(n: nat, d: int)
    ensures multiset(seq(n, _ => d))[d] == n
  {
    if n > 0 {
      ConstantCount(n - 1, d);
      assert seq(n, _ => d) == seq(n - 1, _ => d) + [d];
    }
  }

  lemma {:induction false} DeviationAtLeast(ds: seq<int>, d: int, k: nat)
    requires ds != [] && 1 <= d <= k <= 9 && Share(ds, d) == 1.0
    ensures DeviationUpTo(ds, k) >= 1.0 - BenfordExpected[d - 1]
  {
    if k > d {
      DeviationAtLeast(ds, d, k - 1);
    }
  }

  // ---------------------------------------------------------------------
  // The worked example
  // ---------------------------------------------------------------------

  /** `float(n)` of a whole number `n >= 1` below 2^53 prints as `n.0`. */
  function WholeEntry(n: nat): Entry {
    Numeric(DecimalText(n) + ".0")
  }

  lemma WholeEntryDigit(n: nat)
    requires n >= 1
    ensures EntryDigit(WholeEntry(n)) == Some(LeadingDigit(n))
  {
    FirstDigitOfWhole(n);
  }

  const ExampleNumbers: seq<nat> := [123, 456, 789, 111, 222, 333, 999, 888, 777, 111]

  lemma DigitsInOrder(es: seq<Entry>, ds: seq<int>)
    requires |es| == |ds|
    requires forall k :: 0 <= k < |es| ==> EntryDigit(es[k]) == Some(ds[k])
    ensures ValidDigits(es) == ds
  {
    DigitsOfPrefix(es, ds, |es|);
    assert es[..|es|] == es && ds[..|ds|] == ds;
  }

  lemma {:induction false} DigitsOfPrefix(es: seq<Entry>, ds: seq<int>, n: nat)
    requires |es| == |ds| && n <= |es|
    requires forall k :: 0 <= k < |es| ==> EntryDigit(es[k]) == Some(ds[k])
    ensures ValidDigits(es[..n]) == ds[..n]
  {
    if n > 0 {
      DigitsOfPrefix(es, ds, n - 1);
      assert es[..n][n - 1] == es[n - 1];
      ValidDigitsSnoc(es[..n], Some(ds[n - 1]));
      assert es[..n][..n - 1] == es[..n - 1];
      PrefixSnoc(ds, n);
    }
  }

  lemma PrefixSnoc<T>(s: seq<T>, n: nat)
    requires 0 < n <= |s|
    ensures s[..n] == s[..n - 1] + [s[n - 1]]
  {
  }

  lemma ValidDigitsSnoc(es: seq<Entry>, d: Option<int>)
    requires es != [] && EntryDigit(es[|es| - 1]) == d
    ensures d.Some? ==> ValidDigits(es) == ValidDigits(es[..|es| - 1]) + [d.value]
    ensures d.None? ==> ValidDigits(es) == ValidDigits(es[..|es| - 1])
  {
  }

  lemma LeadingDigitOfHundreds(n: nat)
    requires 100 <= n < 1000
    ensures LeadingDigit(n) == n / 100
  {
    assert LeadingDigit(n) == LeadingDigit(n / 10) == LeadingDigit(n / 10 / 10);
  }

  function WholeEntries(ns: seq<nat>): (es: seq<Entry>)
    ensures |es| == |ns| && forall k :: 0 <= k < |ns| ==> es[k] == WholeEntry(ns[k])
  {
    seq(|ns|, k requires 0 <= k < |ns| => WholeEntry(ns[k]))
  }

  /** A list of positive whole numbers contributes the leading digit of every
      entry, in order. */
  lemma WholeNumbersDigits(ns: seq<nat>)
    requires forall k :: 0 <= k < |ns| ==> ns[k] >= 1
    ensures ValidDigits(WholeEntries(ns)) == seq(|ns|, k requires 0 <= k < |ns| => LeadingDigit(ns[k]))
  {
    var es := WholeEntries(ns);
    var ds := seq(|ns|, k requires 0 <= k < |ns| => LeadingDigit(ns[k]));
    forall k | 0 <= k < |es| ensures EntryDigit(es[k]) == Some(ds[k]) {
      WholeEntryDigit(ns[k]);
    }
    DigitsInOrder(es, ds);
  }

  const ExampleDigitList: seq<int> := [1, 4, 7, 1, 2, 3, 9, 8, 7, 1]

  /** Three-digit numbers lead with their hundreds digit. */
  lemma HundredsDigits(ns: seq<nat>)
    requires forall k :: 0 <= k < |ns| ==> 100 <= ns[k] < 1000
    ensures ValidDigits(WholeEntries(ns)) == seq(|ns|, k requires 0 <= k < |ns| => ns[k] / 100)
  {
    WholeNumbersDigits(ns);
    forall k | 0 <= k < |ns| ensures LeadingDigit(ns[k]) == ns[k] / 100 {
      LeadingDigitOfHundreds(ns[k]);
    }
  }

  /** The leading digits of the example series, in order. */
  lemma ExampleDigits()
    ensures ValidDigits(WholeEntries(ExampleNumbers)) == ExampleDigitList
  {
    HundredsDigits(ExampleNumbers);
    ExampleHundreds();
  }

  lemma ExampleHundreds()
    ensures seq(10, k requires 0 <= k < 10 => ExampleNumbers[k] / 100) == ExampleDigitList
  {
  }

  /** The example series: digit counts 3,1,1,1,0,0,2,1,1 for 1..9, summing
      to ten, and a deviation of about 0.496 that scores 99, flagged as high. */
  lemma ExampleReport()
    ensures BenfordOf(WholeEntries(ExampleNumbers)) == BenfordReport(99,
      Some(map[1 := 3, 2 := 1, 3 := 1, 4 := 1, 5 := 0, 6 := 0, 7 := 2, 8 := 1, 9 := 1]),
      HighDeviation)
  {
    ExampleDigits();
    ExampleCounts();
    ExampleDeviation();
  }

  lemma ExampleMultiset()
    ensures multiset(ExampleDigitList) == multiset{1, 1, 1, 2, 3, 4, 7, 7, 8, 9}
  {
  }

  lemma ExampleCounts()
    ensures Distribution(ExampleDigitList)
            == map[1 := 3, 2 := 1, 3 := 1, 4 := 1, 5 := 0, 6 := 0, 7 := 2, 8 := 1, 9 := 1]
  {
    ExampleMultiset();
    DistributionOfExample(ExampleDigitList);
  }

  lemma DistributionOfExample(ds: seq<int>)
    requires multiset(ds) == multiset{1, 1, 1, 2, 3, 4, 7, 7, 8, 9}
    ensures Distribution(ds)
            == map[1 := 3, 2 := 1, 3 := 1, 4 := 1, 5 := 0, 6 := 0, 7 := 2, 8 := 1, 9 := 1]
  {
    ExampleCountValues(ds);
    var m := Distribution(ds);
    var want := map[1 := 3, 2 := 1, 3 := 1, 4 := 1, 5 := 0, 6 := 0, 7 := 2, 8 := 1, 9 := 1];
    assert m.Keys == want.Keys;
  }

  lemma ExampleCountValues(ds: seq<int>)
    requires multiset(ds) == multiset{1, 1, 1, 2, 3, 4, 7, 7, 8, 9}
    ensures |ds| == 10
    ensures CountOf(ds, 1) == 3 && CountOf(ds, 2) == 1 && CountOf(ds, 3) == 1
    ensures CountOf(ds, 4) == 1 && CountOf(ds, 5) == 0 && CountOf(ds, 6) == 0
    ensures CountOf(ds, 7) == 2 && CountOf(ds, 8) == 1 && CountOf(ds, 9) == 1
  {
    assert |multiset(ds)| == 10;
  }

  lemma ExampleDeviation()
    ensures Deviation(ExampleDigitList) == 0.49637605401240082
  {
    ExampleMultiset();
    DeviationOfExample(ExampleDigitList);
  }

  lemma DeviationOfExample(ds: seq<int>)
    requires multiset(ds) == multiset{1, 1, 1, 2, 3, 4, 7, 7, 8, 9}
    ensures Deviation(ds) == 0.49637605401240082
  {
    ExampleCountValues(ds);
    assert Share(ds, 1) == 0.3;
    assert DeviationUpTo(ds, 1) == 0.0010299956639812;
    assert Share(ds, 2) == 0.1;
    assert DeviationUpTo(ds, 2) == 0.07712125471966244;
    assert Share(ds, 3) == 0.1;
    assert DeviationUpTo(ds, 3) == 0.10205999132796236;
    assert Share(ds, 4) == 0.1;
    assert DeviationUpTo(ds, 4) == 0.10514997831990594;
    assert Share(ds, 5) == 0.0;
    assert DeviationUpTo(ds, 5) == 0.18433122436753076;
    assert Share(ds, 6) == 0.0;
    assert DeviationUpTo(ds, 6) == 0.25127801399814398;
    assert Share(ds, 7) == 0.2;
    assert DeviationUpTo(ds, 7) == 0.39328606702045725;
    assert Share(ds, 8) == 0.1;
    assert DeviationUpTo(ds, 8) == 0.44213354457307596;
    assert Share(ds, 9) == 0.1;
    assert DeviationUpTo(ds, 9) == 0.49637605401240082;
  }
}
