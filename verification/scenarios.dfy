/**
  Worked cases of the bronze stage on concrete inputs. The numeric and
  timestamp parsers stay parameters; each case states only what it needs
  of them.
 */
module Scenarios {
  import opened Base
  import opened Text
  import opened Seqs
  import opened Partition
  import opened Paths
  import opened Frame
  import opened Cleaning
  import opened CleanedRows
  import opened Bronze

  lemma Digits()
    ensures DigitChar(0) == '0' && DigitChar(1) == '1' && DigitChar(2) == '2' && DigitChar(5) == '5'
  {
  }

  /** `date(2025, 1, 15).strftime("%Y%m%d")` is `"20250115"`. */
  lemma KeyOf20250115()
    ensures ValidDate(Date(2025, 1, 15))
    ensures PartitionKey(Date(2025, 1, 15)) == "20250115"
  {
    Digits();
    assert Pow10(4) == 10000;
    var y2 := ZeroPad(2, 1);
    assert y2 == [] + ['2'];
    var y20 := ZeroPad(20, 2);
    assert y20 == y2 + ['0'];
    var y202 := ZeroPad(202, 3);
    assert y202 == y20 + ['2'];
    var y2025 := ZeroPad(2025, 4);
    assert y2025 == y202 + ['5'];
    assert y2025 == "2025";
    var m0 := ZeroPad(0, 1);
    assert m0 == [] + ['0'];
    var m := ZeroPad(1, 2);
    assert m == m0 + ['1'];
    var d1 := ZeroPad(1, 1);
    assert d1 == [] + ['1'];
    var d := ZeroPad(15, 2);
    assert d == d1 + ['5'];
    assert y2025 + m + d == "20250115";
  }

  /** The raw extract of 2025-01-15 is `transactions_20250115.csv`. */
  lemma InputOf20250115(rawDir: Path)
    ensures ValidDate(Date(2025, 1, 15))
    ensures PartitionPath(Date(2025, 1, 15), rawDir, RawFileTemplate) == Join(rawDir, "transactions_20250115.csv")
  {
    RawNameOf20250115();
  }

  lemma RawNameOf20250115()
    ensures ValidDate(Date(2025, 1, 15))
    ensures Format(RawFileTemplate, PartitionKey(Date(2025, 1, 15))) == "transactions_20250115.csv"
  {
    KeyOf20250115();
    RawFileName("20250115");
    var name := "transactions_" + "20250115" + ".csv";
    assert |name| == 25;
    assert forall i :: 0 <= i < 25 ==> name[i] == "transactions_20250115.csv"[i];
  }

  /** No raw extract for 2025-01-15: the run reports the missing input
      path and leaves the disk exactly as it was, so no cleaned artifact
      appears. */
  lemma MissingPartitionIsSkipped(d: Disk, rawDir: Path, cleanDir: Path, p: Parsers)
    requires Join(rawDir, "transactions_20250115.csv") !in d.files
    requires Join(rawDir, "transactions_20250115.csv") !in d.dirs
    ensures var r := CleanDailyTransactions(d, Date(2025, 1, 15), rawDir, cleanDir, RawFileTemplate, CleanFileTemplate, p);
      && r.0 == NotFound(Join(rawDir, "transactions_20250115.csv"))
      && r.1 == d
  {
    InputOf20250115(rawDir);
  }

  // ---------------------------------------------------------------------
  // Cleaning a small extract.
  // ---------------------------------------------------------------------

  /** The header of an extract with exactly the required columns. */
  const Header: seq<string> := Required

  /** A non-empty name with no upper-case letter and no surrounding whitespace. */
  predicate PlainName(s: string) {
    && |s| > 0 && !IsSpace(s[0]) && !IsSpace(s[|s| - 1])
    && forall i :: 0 <= i < |s| ==> !('A' <= s[i] <= 'Z')
  }

  /** A plain name is already normal. */
  lemma NormalName(s: string)
    requires PlainName(s)
    ensures TrimLower(s) == s
  {
    TrimLowerTrimmed(s);
  }

  /** A list of fixed points of `f` is a fixed point of mapping `f`. */
  lemma FixedThree(f: string -> string, a: string, b: string, c: string)
    requires f(a) == a && f(b) == b && f(c) == c
    ensures Map([a, b, c], f) == [a, b, c]
  {
    var r := Map([a, b, c], f);
    assert r[0] == a && r[1] == b && r[2] == c;
  }

  lemma FixedFour(f: string -> string, a: string, b: string, c: string, e: string)
    requires f(a) == a && f(b) == b && f(c) == c && f(e) == e
    ensures Map([a, b, c, e], f) == [a, b, c, e]
  {
    var r := Map([a, b, c, e], f);
    assert r[0] == a && r[1] == b && r[2] == c && r[3] == e;
  }

  /** Three names that are each already normal form normal headers. */
  lemma NormalNames(a: string, b: string, c: string)
    requires PlainName(a) && PlainName(b) && PlainName(c)
    ensures NormalizeHeaders([a, b, c]) == [a, b, c]
  {
    NormalName(a);
    NormalName(b);
    NormalName(c);
    FixedThree(TrimLower, a, b, c);
  }

  /** Four names that are each already normal form normal headers. */
  lemma NormalNamesFour(a: string, b: string, c: string, e: string)
    requires PlainName(a) && PlainName(b) && PlainName(c) && PlainName(e)
    ensures NormalizeHeaders([a, b, c, e]) == [a, b, c, e]
  {
    NormalName(a);
    NormalName(b);
    NormalName(c);
    NormalName(e);
    FixedFour(TrimLower, a, b, c, e);
  }

  lemma HeaderIsNormal()
    ensures NormalizeHeaders(Header) == Header
  {
    NormalNamesFour(TransactionId, CustomerId, Amount, Status);
  }

  lemma HeaderCounts()
    ensures TransactionTs !in Header && OutputColumns(Header) == Header
    ensures Count(Header, Amount) == 1 && Count(Header, Status) == 1
  {
    assert TransactionTs !in Header;
    CountOnce(Header, 2);
    CountOnce(Header, 3);
  }

  lemma CompletedIsNormalised()
    ensures NormalizeStatus(Text("Completed")) == Text("completed")
    ensures NormalizeStatus(Text("completed")) == Text("completed")
  {
    TrimLowerTrimmed("Completed");
    assert Lower("Completed") == "completed";
    TrimLowerTrimmed("completed");
    assert Lower("completed") == "completed";
  }

  /** Transaction 1, as extracted: amount text and capitalised status. */
  const Row1: Row := [Text("1"), Text("A"), Text("12.50"), Text("Completed")]

  /** Transaction 2, whose amount does not parse. With its default
      `na_values`, `pd.read_csv` already reads `n/a` as missing; either way
      `pd.to_numeric` leaves the amount missing and the row is dropped. */
  const Row2: Row := [Text("2"), Text("B"), Text("n/a"), Text("pending")]

  /** Transaction 1 as the cleaned artifact holds it. */
  const Cleaned1: Row := [Text("1"), Text("A"), Number(12.5), Text("completed")]

  /** What these cases need of `pd.to_numeric`. */
  predicate ParsesAmounts(p: Parsers) {
    p.number("12.50") == Some(12.5) && p.number("n/a") == None
  }

  lemma DedupOfExtract()
    ensures FirstOccurrences([Row1, Row1, Row2]) == [Row1, Row2]
  {
    var s := [Row1, Row1, Row2];
    assert s[..1] == [Row1] && s[..2] == [Row1, Row1];
    assert FirstOccurrences([Row1]) == [Row1];
    assert Row1 in s[..1];
    assert FirstOccurrences(s[..2]) == [Row1];
    assert Row2[0] != Row1[0];
    assert Row2 !in s[..2];
  }

  lemma Row1Survives(p: Parsers)
    requires ParsesAmounts(p)
    ensures Retained(Header, p, Row1) && RefineRow(Header, p, Row1) == Cleaned1
  {
    CompletedIsNormalised();
    assert CoerceAmount(p, Text("12.50")) == Number(12.5);
    assert TransactionTs !in Header;
    forall j | 0 <= j < |Row1| ensures CellAccepted(Header[j], p, Row1[j]) {
      if j == 2 {
        assert Header[j] == Amount;
      } else if j == 3 {
        assert Header[j] == Status;
      }
    }
    var y := RefineCells(Header, p, Row1);
    assert y[0] == RefineCell(TransactionId, p, Text("1")) == Text("1");
    assert y[1] == RefineCell(CustomerId, p, Text("A")) == Text("A");
    assert y[2] == RefineCell(Amount, p, Text("12.50")) == Number(12.5);
    assert y[3] == RefineCell(Status, p, Text("Completed")) == Text("completed");
  }

  lemma Row2IsDropped(p: Parsers)
    requires ParsesAmounts(p)
    ensures !Retained(Header, p, Row2)
  {
    assert CoerceAmount(p, Text("n/a")) == Missing;
    assert !CellAccepted(Header[2], p, Row2[2]);
  }

  lemma ExtractRows(p: Parsers)
    requires ParsesAmounts(p)
    ensures Map(Filter([Row1, Row2], Retention(Header, p)), Refinement(Header, p)) == [Cleaned1]
  {
    Row1Survives(p);
    Row2IsDropped(p);
    var s := [Row1, Row2];
    assert s[..1] == [Row1];
    assert Filter([Row1], Retention(Header, p)) == [Row1];
    assert Filter(s, Retention(Header, p)) == [Row1];
  }

  /** The duplicate of transaction 1 collapses, transaction 2 is dropped for
      its unparseable amount, and transaction 1 is kept with a numeric
      amount and a normalised status. */
  lemma DuplicateAndBadAmount(p: Parsers)
    requires ParsesAmounts(p)
    ensures CleanFrame(Table(Header, [Row1, Row1, Row2]), p) == Success(Table(Header, [Cleaned1]))
  {
    HeaderClean([Row1, Row1, Row2], p);
    DedupOfExtract();
    HeaderSucceeds([Row1, Row2], p);
    DeduplicatedRows(Header, [Row1, Row2], p);
    ExtractRows(p);
  }

  /** Transaction 1 extracted a second time with a lower-case status. */
  const Row1Lower: Row := [Text("1"), Text("A"), Text("12.50"), Text("completed")]

  lemma Row1LowerSurvives(p: Parsers)
    requires ParsesAmounts(p)
    ensures Retained(Header, p, Row1Lower) && RefineRow(Header, p, Row1Lower) == Cleaned1
  {
    CompletedIsNormalised();
    assert CoerceAmount(p, Text("12.50")) == Number(12.5);
    assert TransactionTs !in Header;
    forall j | 0 <= j < |Row1Lower| ensures CellAccepted(Header[j], p, Row1Lower[j]) {
      if j == 2 {
        assert Header[j] == Amount;
      } else if j == 3 {
        assert Header[j] == Status;
      }
    }
    var y := RefineCells(Header, p, Row1Lower);
    assert y[0] == Text("1") && y[1] == Text("A");
    assert y[2] == RefineCell(Amount, p, Text("12.50")) == Number(12.5);
    assert y[3] == RefineCell(Status, p, Text("completed")) == Text("completed");
  }

  /** With the canonical header, cleaning is the steps after
      deduplication on the deduplicated rows. */
  lemma HeaderClean(rows: seq<Row>, p: Parsers)
    ensures CleanFrame(Table(Header, rows), p) == CleanDeduplicated(Table(Header, FirstOccurrences(rows)), p)
  {
    HeaderIsNormal();
  }

  /** With the canonical header those steps cannot fail, and keep the header. */
  lemma HeaderSucceeds(d: seq<Row>, p: Parsers)
    ensures CleanDeduplicated(Table(Header, d), p).Success?
    ensures CleanDeduplicated(Table(Header, d), p).value.columns == Header
  {
    HeaderCounts();
  }

  lemma DedupOfVariants()
    ensures FirstOccurrences([Row1, Row1Lower]) == [Row1, Row1Lower]
  {
    var s := [Row1, Row1Lower];
    assert s[..1] == [Row1];
    assert FirstOccurrences([Row1]) == [Row1];
    assert Row1Lower[3] != Row1[3];
    assert Row1Lower !in s[..1];
  }

  lemma VariantRows(p: Parsers)
    requires ParsesAmounts(p)
    ensures Map(Filter([Row1, Row1Lower], Retention(Header, p)), Refinement(Header, p)) == [Cleaned1, Cleaned1]
  {
    Row1Survives(p);
    Row1LowerSurvives(p);
    var s := [Row1, Row1Lower];
    assert s[..1] == [Row1];
    assert Filter([Row1], Retention(Header, p)) == [Row1];
    assert Filter(s, Retention(Header, p)) == s;
  }

  /** Two extracts of one transaction that differ only in the case of the
      status are both kept: deduplication compares the raw text, so the
      cleaned artifact holds the same row twice. */
  lemma CaseVariantsBothSurvive(p: Parsers)
    requires ParsesAmounts(p)
    ensures CleanFrame(Table(Header, [Row1, Row1Lower]), p) == Success(Table(Header, [Cleaned1, Cleaned1]))
  {
    HeaderClean([Row1, Row1Lower], p);
    DedupOfVariants();
    HeaderSucceeds([Row1, Row1Lower], p);
    DeduplicatedRows(Header, [Row1, Row1Lower], p);
    VariantRows(p);
  }

  /** Without a status column, cleaning fails with the missing required
      columns reported, whatever the rows. */
  lemma NoStatusFails(cols: seq<string>, rows: seq<Row>, p: Parsers)
    requires NormalizeHeaders(cols) == cols
    requires Count(cols, Amount) <= 1 && Status !in cols
    ensures CleanFrame(Table(cols, rows), p) == Failure(MissingColumns(AbsentColumns(cols, Required)))
  {
    var t1 := Table(cols, FirstOccurrences(rows));
    assert Count(cols, Status) == 0;
    var t3 := ConvertColumns(t1, p).value;
    assert t3.columns == cols;
    assert Status in Required;
  }

  /** The header of an extract that lacks the status column. */
  const NoStatusHeader: seq<string> := [TransactionId, CustomerId, Amount]

  lemma NoStatusHeaderIsNormal()
    ensures NormalizeHeaders(NoStatusHeader) == NoStatusHeader
  {
    NormalNames(TransactionId, CustomerId, Amount);
  }

  lemma NoStatusHeaderCounts()
    ensures Count(NoStatusHeader, Amount) == 1 && Status !in NoStatusHeader
    ensures AbsentColumns(NoStatusHeader, Required) == [Status]
  {
    var cols := NoStatusHeader;
    CountOnce(cols, 2);
    assert AbsentColumns(cols, Required[3..]) == [Status];
    assert AbsentColumns(cols, Required[2..]) == [Status];
    assert AbsentColumns(cols, Required[1..]) == [Status];
  }

  /** An extract without a status column fails the stage with that column
      named, rather than being skipped. */
  lemma MissingStatusFails(rows: seq<Row>, p: Parsers)
    ensures CleanFrame(Table(NoStatusHeader, rows), p) == Failure(MissingColumns([Status]))
  {
    NoStatusHeaderIsNormal();
    NoStatusHeaderCounts();
    NoStatusFails(NoStatusHeader, rows, p);
  }
}
