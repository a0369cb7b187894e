/** The citation audit tools: a mock citation source and the temporal anomaly
    filter that flags citations published after the citing paper. */
module CitationTools {
  import opened TextUtil

  // ---------------------------------------------------------------------
  // Calendar dates and the YYYY-MM-DD format
  // ---------------------------------------------------------------------

  datatype Date = Date(year: int, month: int, day: int)

  predicate IsLeapYear(y: int) {
    y % 4 == 0 && (y % 100 != 0 || y % 400 == 0)
  }

  function DaysInMonth(y: int, m: int): (n: int)
    requires 1 <= m <= 12
    ensures 28 <= n <= 31
    ensures n == 29 <==> m == 2 && IsLeapYear(y)
  {
    if m == 2 then (if IsLeapYear(y) then 29 else 28)
    else if m == 4 || m == 6 || m == 9 || m == 11 then 30
    else 31
  }

  /** The dates a Python `date` can hold (years 1 to 9999, Gregorian calendar). */
  predicate ValidDate(d: Date) {
    1 <= d.year <= 9999 && 1 <= d.month <= 12 && 1 <= d.day <= DaysInMonth(d.year, d.month)
  }

  /** Calendar order, as Python compares two `date` values with `>`. */
  predicate After(a: Date, b: Date) {
    a.year > b.year
    || (a.year == b.year && (a.month > b.month || (a.month == b.month && a.day > b.day)))
  }

  /** The shape `DDDD-DD-DD`: ten characters, digits except for the two dashes. */
  predicate DateShaped(s: string) {
    |s| == 10 && s[4] == '-' && s[7] == '-'
    && IsDigit(s[0]) && IsDigit(s[1]) && IsDigit(s[2]) && IsDigit(s[3])
    && IsDigit(s[5]) && IsDigit(s[6]) && IsDigit(s[8]) && IsDigit(s[9])
  }

  /** The `YYYY-MM-DD` text of a date, as `strftime("%Y-%m-%d")` writes it. */
  function FormatDate(d: Date): (s: string)
    requires ValidDate(d)
    ensures DateShaped(s)
  {
    var y, m, n := d.year, d.month, d.day;
    [ DigitChar(y / 1000), DigitChar(y / 100 % 10), DigitChar(y / 10 % 10), DigitChar(y % 10), '-',
      DigitChar(m / 10), DigitChar(m % 10), '-', DigitChar(n / 10), DigitChar(n % 10) ]
  }

  /** `strptime(s, "%Y-%m-%d").date()`: a valid calendar date written with
      four, two and two digits, or None where Python raises ValueError. */
  function ParseDate(s: string): (r: Option<Date>)
    ensures r.Some? ==> ValidDate(r.value) && FormatDate(r.value) == s
  {
    if DateShaped(s) then
      var d := Date(
        1000 * DigitValue(s[0]) + 100 * DigitValue(s[1]) + 10 * DigitValue(s[2]) + DigitValue(s[3]),
        10 * DigitValue(s[5]) + DigitValue(s[6]),
        10 * DigitValue(s[8]) + DigitValue(s[9]));
      if ValidDate(d) then
        assert FormatDate(d) == s by {
          DigitsOfNumber(DigitValue(s[0]), DigitValue(s[1]), DigitValue(s[2]), DigitValue(s[3]));
          DigitsOfNumber(0, 0, DigitValue(s[5]), DigitValue(s[6]));
          DigitsOfNumber(0, 0, DigitValue(s[8]), DigitValue(s[9]));
          DigitCharValue(s[0]); DigitCharValue(s[1]); DigitCharValue(s[2]); DigitCharValue(s[3]);
          DigitCharValue(s[5]); DigitCharValue(s[6]); DigitCharValue(s[8]); DigitCharValue(s[9]);
        }
        Some(d)
      else None
    else None
  }

  /** Every valid date survives formatting and parsing. */
  lemma ParseFormatDate(d: Date)
    requires ValidDate(d)
    ensures ParseDate(FormatDate(d)) == Some(d)
  {
    NumberOfDigits(d.year);
    NumberOfDigits(d.month);
    NumberOfDigits(d.day);
  }

  /** Reading the four digits of a number below 10000 gives the number back. */
  lemma NumberOfDigits(n: nat)
    requires n < 10000
    ensures n == 1000 * (n / 1000) + 100 * (n / 100 % 10) + 10 * (n / 10 % 10) + n % 10
    ensures n / 1000 < 10
  {
  }

  /** A number assembled from four digits has those digits. */
  lemma DigitsOfNumber(a: nat, b: nat, c: nat, d: nat)
    requires a < 10 && b < 10 && c < 10 && d < 10
    ensures var n := 1000 * a + 100 * b + 10 * c + d;
            n / 1000 == a && n / 100 % 10 == b && n / 10 % 10 == c && n % 10 == d
            && (10 * c + d) / 10 == c && (10 * c + d) % 10 == d
  {
    var n := 1000 * a + 100 * b + 10 * c + d;
    DivMod(10, 100 * a + 10 * b + c, d);
    DivMod(10, 10 * a + b, c);
    DivMod(100, 10 * a + b, 10 * c + d);
    DivMod(10, a, b);
    DivMod(1000, a, 100 * b + 10 * c + d);
    DivMod(10, c, d);
  }

  lemma DivMod(q: nat, k: nat, r: nat)
    requires q in {10, 100, 1000} && r < q
    ensures (q * k + r) / q == k && (q * k + r) % q == r
  {
  }

  // ---------------------------------------------------------------------
  // Citations
  // ---------------------------------------------------------------------

  /** One citation record; `publicationDate` is None when the key is absent. */
  datatype Citation = Citation(title: string, paperId: string, publicationDate: Option<string>)

  /** The date text the filter parses, or None when the citation is skipped
      (a missing or empty `publication_date` is falsy). */
  function DateField(c: Citation): (r: Option<string>)
    ensures r.Some? <==> c.publicationDate.Some? && c.publicationDate.value != ""
    ensures r.Some? ==> r.value == c.publicationDate.value
  {
    match c.publicationDate
    case Some(s) => if s != "" then Some(s) else None
    case None => None
  }

  /** The citation does not make the filter raise ValueError. */
  predicate Parsable(c: Citation) {
    DateField(c).None? || ParseDate(DateField(c).value).Some?
  }

  /** The citation carries a date strictly later than the paper's. */
  predicate IsAnomaly(paper: Date, c: Citation) {
    DateField(c).Some? && ParseDate(DateField(c).value).Some?
    && After(ParseDate(DateField(c).value).value, paper)
  }

  /** The anomalous citations of `cits`, in their original order. */
  function Anomalies(paper: Date, cits: seq<Citation>): (r: seq<Citation>)
    ensures |r| <= |cits|
  {
    if cits == [] then []
    else
      var last := cits[|cits| - 1];
      Anomalies(paper, cits[..|cits| - 1]) + (if IsAnomaly(paper, last) then [last] else [])
  }

  /** The date text of the first citation whose date fails to parse. */
  function FirstUnparsable(cits: seq<Citation>): (r: Option<string>)
    ensures r.Some? ==> exists c :: c in cits && !Parsable(c) && DateField(c) == r
  {
    if cits == [] then None
    else if !Parsable(cits[0]) then DateField(cits[0])
    else
      var r := FirstUnparsable(cits[1..]);
      assert r.Some? ==> exists c :: c in cits && !Parsable(c) && DateField(c) == r by {
        if r.Some? {
          var c :| c in cits[1..] && !Parsable(c) && DateField(c) == r;
          assert c in cits;
        }
      }
      r
  }

  /** What `detect_temporal_anomaly` returns: the flagged citations, or the
      single error entry that replaces them once a date fails to parse. The
      error carries the date text that made the parse fail; the wording of
      Python's exception message is not modelled. */
  datatype AnomalyReport = Flagged(citations: seq<Citation>) | DateError(unparsable: string)

  /** The functional reading of `detect_temporal_anomaly`. */
  function TemporalAnomalies(paperDate: string, cits: seq<Citation>): (r: AnomalyReport)
    ensures r.Flagged? ==> |r.citations| <= |cits|
  {
    match ParseDate(paperDate)
    case None => DateError(paperDate)
    case Some(p) =>
      match FirstUnparsable(cits)
      case Some(bad) => DateError(bad)
      case None => Flagged(Anomalies(p, cits))
  }

  lemma {:induction false} FirstUnparsableAt(cits: seq<Citation>, i: nat)
    requires i < |cits| && !Parsable(cits[i])
    requires forall j :: 0 <= j < i ==> Parsable(cits[j])
    ensures FirstUnparsable(cits) == DateField(cits[i])
  {
    if i > 0 {
      FirstUnparsableAt(cits[1..], i - 1);
    }
  }

  lemma {:induction false} FirstUnparsableNone(cits: seq<Citation>)
    ensures FirstUnparsable(cits).None? <==> forall c :: c in cits ==> Parsable(c)
  {
    if cits != [] {
      FirstUnparsableNone(cits[1..]);
      assert forall c :: c in cits <==> c == cits[0] || c in cits[1..];
    }
  }

  /** `detect_temporal_anomaly`: parse the paper date, then walk the
      citations, appending each one dated after the paper; the first date
      that fails to parse abandons the walk with an error. */
  method DetectTemporalAnomaly(paperDate: string, cits: seq<Citation>) returns (r: AnomalyReport)
    ensures r == TemporalAnomalies(paperDate, cits)
  {
    var parsed := ParseDate(paperDate);
    if parsed.None? {
      return DateError(paperDate);
    }
    var paper := parsed.value;
    var anomalies := [];
    var i := 0;
    while i < |cits|
      invariant 0 <= i <= |cits|
      invariant forall j :: 0 <= j < i ==> Parsable(cits[j])
      invariant anomalies == Anomalies(paper, cits[..i])
    {
      var c := cits[i];
      var field := c.publicationDate;
      if field.Some? && field.value != "" {
        var d := ParseDate(field.value);
        if d.None? {
          FirstUnparsableAt(cits, i);
          return DateError(field.value);
        }
        if After(d.value, paper) {
          anomalies := anomalies + [c];
        }
      }
      assert cits[..i + 1][..i] == cits[..i];
      i := i + 1;
    }
    assert cits[..i] == cits;
    FirstUnparsableNone(cits);
    return Flagged(anomalies);
  }

  // ---------------------------------------------------------------------
  // Properties of the filter
  // ---------------------------------------------------------------------

  /** A citation is flagged exactly when it is in the input and dated after the paper. */
  lemma {:induction false} AnomaliesMembership(paper: Date, cits: seq<Citation>, c: Citation)
    ensures c in Anomalies(paper, cits) <==> c in cits && IsAnomaly(paper, c)
  {
    if cits != [] {
      var init, last := cits[..|cits| - 1], cits[|cits| - 1];
      AnomaliesMembership(paper, init, c);
      assert cits == init + [last];
    }
  }

  /** The filter keeps the input order: it distributes over concatenation. */
  lemma {:induction false} AnomaliesAppend(paper: Date, a: seq<Citation>, b: seq<Citation>)
    ensures Anomalies(paper, a + b) == Anomalies(paper, a) + Anomalies(paper, b)
  {
    if b != [] {
      var init, last := b[..|b| - 1], b[|b| - 1];
      assert (a + b)[..|a + b| - 1] == a + init;
      AnomaliesAppend(paper, a, init);
    } else {
      assert a + b == a;
    }
  }

  /** On success, the result is exactly the citations dated strictly after
      the paper, and nothing else. */
  lemma FlaggedExactly(paperDate: string, cits: seq<Citation>, c: Citation)
    requires TemporalAnomalies(paperDate, cits).Flagged?
    ensures ParseDate(paperDate).Some?
    ensures c in TemporalAnomalies(paperDate, cits).citations
            <==> c in cits && IsAnomaly(ParseDate(paperDate).value, c)
  {
    AnomaliesMembership(ParseDate(paperDate).value, cits, c);
  }

  /** A citation dated on or before the paper's day is never flagged. */
  lemma NotAfterNeverFlagged(paperDate: string, cits: seq<Citation>, c: Citation)
    requires TemporalAnomalies(paperDate, cits).Flagged?
    requires DateField(c).Some? && ParseDate(DateField(c).value).Some?
    requires !After(ParseDate(DateField(c).value).value, ParseDate(paperDate).value)
    ensures c !in TemporalAnomalies(paperDate, cits).citations
  {
    FlaggedExactly(paperDate, cits, c);
  }

  /** In particular, the same day as the paper is not "after" it. */
  lemma SameDayNeverFlagged(paperDate: string, cits: seq<Citation>, c: Citation)
    requires TemporalAnomalies(paperDate, cits).Flagged?
    requires c.publicationDate == Some(paperDate)
    ensures c !in TemporalAnomalies(paperDate, cits).citations
  {
    FlaggedExactly(paperDate, cits, c);
  }

  /** A citation without a usable date is skipped, never flagged. */
  lemma MissingDateNeverFlagged(paperDate: string, cits: seq<Citation>, c: Citation)
    requires TemporalAnomalies(paperDate, cits).Flagged?
    requires c.publicationDate == None || c.publicationDate == Some("")
    ensures c !in TemporalAnomalies(paperDate, cits).citations
  {
    FlaggedExactly(paperDate, cits, c);
  }

  /** The error path: the whole result collapses to one error exactly when the
      paper date or some citation date does not parse. */
  lemma ErrorCollapse(paperDate: string, cits: seq<Citation>)
    ensures TemporalAnomalies(paperDate, cits).DateError?
            <==> ParseDate(paperDate).None? || exists c :: c in cits && !Parsable(c)
  {
    FirstUnparsableNone(cits);
  }

  // ---------------------------------------------------------------------
  // The mock citation source
  // ---------------------------------------------------------------------

  /** `fetch_citation_metadata`: the same five citations for every paper id. */
  function FetchCitationMetadata(paperId: string): (r: seq<Citation>)
    ensures |r| == 5
    ensures forall i :: 0 <= i < 5 ==> r[i].publicationDate.Some?
  {
    [ Citation("Foundations of Multi-Agent Systems", "cit_001", Some("2022-01-15")),
      Citation("Advanced Graph Neural Networks", "cit_002", Some("2023-05-20")),
      Citation("Future of AI: 2025 Outlook", "cit_003", Some("2025-11-10")),
      Citation("Quantum Computing in 2024", "cit_004", Some("2024-02-28")),
      Citation("Legacy Algorithms", "cit_005", Some("2020-08-01")) ]
  }

  /** Audited against 2023-10-01, the mock list flags exactly cit_003 and cit_004. */
  lemma MockCitationsFlagged(paperId: string)
    ensures var r := TemporalAnomalies("2023-10-01", FetchCitationMetadata(paperId));
            r.Flagged? && |r.citations| == 2
            && r.citations[0].paperId == "cit_003" && r.citations[1].paperId == "cit_004"
  {
    var cits := FetchCitationMetadata(paperId);
    var paper := Date(2023, 10, 1);
    MockCitationsClassified(paperId);
    FirstUnparsableNone(cits);
    AnomaliesOfFive(paper, cits);
  }

  lemma MockCitationsClassified(paperId: string)
    ensures var cits, paper := FetchCitationMetadata(paperId), Date(2023, 10, 1);
            ParseDate("2023-10-01") == Some(paper)
            && !IsAnomaly(paper, cits[0]) && !IsAnomaly(paper, cits[1]) && IsAnomaly(paper, cits[2])
            && IsAnomaly(paper, cits[3]) && !IsAnomaly(paper, cits[4])
            && forall c :: c in cits ==> Parsable(c)
  {
    var cits, paper := FetchCitationMetadata(paperId), Date(2023, 10, 1);
    MockDatesParse();
    DatedCitation(cits[0], "2022-01-15", Date(2022, 1, 15), paper);
    DatedCitation(cits[1], "2023-05-20", Date(2023, 5, 20), paper);
    DatedCitation(cits[2], "2025-11-10", Date(2025, 11, 10), paper);
    DatedCitation(cits[3], "2024-02-28", Date(2024, 2, 28), paper);
    DatedCitation(cits[4], "2020-08-01", Date(2020, 8, 1), paper);
  }

  lemma AnomaliesOfFive(paper: Date, cits: seq<Citation>)
    requires |cits| == 5
    requires !IsAnomaly(paper, cits[0]) && !IsAnomaly(paper, cits[1]) && IsAnomaly(paper, cits[2])
    requires IsAnomaly(paper, cits[3]) && !IsAnomaly(paper, cits[4])
    ensures Anomalies(paper, cits) == [cits[2], cits[3]]
  {
    assert cits == [cits[0], cits[1]] + [cits[2], cits[3], cits[4]];
    AnomaliesAppend(paper, [cits[0], cits[1]], [cits[2], cits[3], cits[4]]);
    AnomaliesAppend(paper, [cits[2], cits[3]], [cits[4]]);
    assert [cits[2], cits[3], cits[4]] == [cits[2], cits[3]] + [cits[4]];
    AnomaliesAppend(paper, [cits[2]], [cits[3]]);
    assert [cits[2], cits[3]] == [cits[2]] + [cits[3]];
    AnomaliesAppend(paper, [cits[0]], [cits[1]]);
    assert [cits[0], cits[1]] == [cits[0]] + [cits[1]];
  }

  lemma DatedCitation(c: Citation, s: string, d: Date, paper: Date)
    requires c.publicationDate == Some(s) && ParseDate(s) == Some(d)
    ensures Parsable(c) && (IsAnomaly(paper, c) <==> After(d, paper))
  {
  }

  lemma MockDatesParse()
    ensures ParseDate("2023-10-01") == Some(Date(2023, 10, 1))
    ensures ParseDate("2022-01-15") == Some(Date(2022, 1, 15))
    ensures ParseDate("2023-05-20") == Some(Date(2023, 5, 20))
    ensures ParseDate("2025-11-10") == Some(Date(2025, 11, 10))
    ensures ParseDate("2024-02-28") == Some(Date(2024, 2, 28))
    ensures ParseDate("2020-08-01") == Some(Date(2020, 8, 1))
  {
    MockDatesParseFirst();
    MockDatesParseLast();
  }

  lemma MockDatesParseFirst()
    ensures ParseDate("2023-10-01") == Some(Date(2023, 10, 1))
    ensures ParseDate("2022-01-15") == Some(Date(2022, 1, 15))
    ensures ParseDate("2023-05-20") == Some(Date(2023, 5, 20))
  {
  }

  lemma MockDatesParseLast()
    ensures ParseDate("2025-11-10") == Some(Date(2025, 11, 10))
    ensures ParseDate("2024-02-28") == Some(Date(2024, 2, 28))
    ensures ParseDate("2020-08-01") == Some(Date(2020, 8, 1))
  {
  }
}
