/**
  What the cleaning pipeline promises about rows: exactly the deduplicated
  rows that pass `Retained` survive, in order, each turned into
  `RefineRow` of itself, and every surviving row meets the cleaned-artifact
  invariants.
 */
module CleanedRows {
  import opened Base
  import opened Seqs
  import opened Partition
  import opened Frame
  import opened Cleaning

  // ---------------------------------------------------------------------
  // What each step does, cell by cell and row by row.
  // ---------------------------------------------------------------------

  /** `df[name] = f(df[name])` on a name that labels at most one column
      applies `f` to the cells under `name` and leaves every other cell. */
  lemma UpdateColumnCells(t: Table, name: string, f: Cell -> Cell)
    requires Count(t.columns, name) <= 1
    ensures UpdateColumn(t, name, f).Success?
    ensures var u := UpdateColumn(t, name, f).value;
      && u.columns == t.columns && |u.rows| == |t.rows|
      && (forall i :: 0 <= i < |t.rows| ==> |u.rows[i]| == |t.rows[i]|)
      && (forall i, j :: 0 <= i < |t.rows| && 0 <= j < |t.rows[i]| ==>
            u.rows[i][j] == (if j < |t.columns| && t.columns[j] == name then f(t.rows[i][j]) else t.rows[i][j]))
  {
    if name !in t.columns {
      assert forall j :: 0 <= j < |t.columns| ==> t.columns[j] != name;
    }
  }

  /** The `amount` and `status` conversions coerce the amount cell,
      normalise the status cell and leave every other cell. */
  lemma ConvertColumnsCells(t: Table, p: Parsers)
    requires Count(t.columns, Amount) <= 1 && Count(t.columns, Status) <= 1
    ensures ConvertColumns(t, p).Success?
    ensures var u := ConvertColumns(t, p).value;
      && u.columns == t.columns && |u.rows| == |t.rows|
      && (forall i :: 0 <= i < |t.rows| ==> |u.rows[i]| == |t.rows[i]|)
      && (forall i, j :: 0 <= i < |t.rows| && 0 <= j < |t.rows[i]| ==>
            u.rows[i][j] == (if j < |t.columns| && t.columns[j] == Amount then CoerceAmount(p, t.rows[i][j])
                             else if j < |t.columns| && t.columns[j] == Status then NormalizeStatus(t.rows[i][j])
                             else t.rows[i][j]))
  {
    UpdateColumnCells(t, Amount, AmountOp(p));
    var t2 := UpdateColumn(t, Amount, AmountOp(p)).value;
    UpdateColumnCells(t2, Status, NormalizeStatus);
  }

  /** `dropna(subset=names)` over columns that exist keeps, in their order,
      exactly the rows with every named cell present. */
  lemma DropIncompleteRows(t: Table, names: seq<string>)
    requires forall n :: n in names ==> n in t.columns
    ensures DropIncomplete(t, names).Success?
    ensures var u := DropIncomplete(t, names).value;
      && u.columns == t.columns
      && IsSubsequence(u.rows, t.rows)
      && (forall x :: x in u.rows <==> x in t.rows && Complete(t.columns, names, x))
  {
    DropPresent(t, names);
    FilterIsSubsequence(t.rows, Completeness(t.columns, names));
    FilterMembers(t.rows, Completeness(t.columns, names));
  }

  /** Row `x` has a `transaction_ts` cell that `pd.to_datetime` parses. */
  predicate HasStamp(cols: seq<string>, p: Parsers, x: Row) {
    TransactionTs in cols && IndexOf(cols, TransactionTs) < |x| && ParseStamp(p, x[IndexOf(cols, TransactionTs)]).Stamp?
  }

  function StampTest(cols: seq<string>, p: Parsers): Row -> bool {
    x => HasStamp(cols, p, x)
  }

  /** The timestamp steps keep, in order, exactly the rows whose timestamp
      parses; each keeps its parsed timestamp, gets that timestamp's date in
      every `transaction_date` column, and keeps its other cells. Without a
      `transaction_ts` column the frame is unchanged. */
  lemma DeriveDatesRows(t: Table, p: Parsers)
    requires WellFormed(t)
    requires Count(t.columns, TransactionTs) <= 1
    ensures DeriveDates(t, p).Success?
    ensures TransactionTs !in t.columns ==> DeriveDates(t, p).value == t
    ensures TransactionTs in t.columns ==>
      var cols := t.columns;
      var k := IndexOf(cols, TransactionTs);
      var kept := Filter(t.rows, StampTest(cols, p));
      var u := DeriveDates(t, p).value;
      && u.columns == DateColumns(cols)
      && IsSubsequence(kept, t.rows)
      && (forall x :: x in kept <==> x in t.rows && HasStamp(cols, p, x))
      && |u.rows| == |kept|
      && (forall i :: 0 <= i < |kept| ==> DatedFrom(cols, p, kept[i], u.rows[i]))
  {
    if TransactionTs in t.columns {
      var cols := t.columns;
      var ft := ColumnMapper(cols, TransactionTs, StampOp(p));
      var c2 := Completeness(cols, [TransactionTs]);
      var kept := Filter(t.rows, StampTest(cols, p));
      RowsAfterDates(t, p);
      StampTestAgrees(cols, p);
      FilterAgree(t.rows, Compose(ft, c2), StampTest(cols, p), Fits(cols));
      FilterKeeps(t.rows, StampTest(cols, p), Fits(cols));
      FilterIsSubsequence(t.rows, StampTest(cols, p));
      FilterMembers(t.rows, StampTest(cols, p));
      var u := DeriveDates(t, p).value;
      forall i | 0 <= i < |kept| ensures DatedFrom(cols, p, kept[i], u.rows[i]) {
        assert Fits(cols)(kept[i]) && StampTest(cols, p)(kept[i]);
        DatedRow(cols, p, kept[i]);
      }
    }
  }

  /** Row `y` of the dated frame comes from row `x`: the timestamp cell holds
      the parsed timestamp, every `transaction_date` cell holds its date, and
      the other cells are those of `x`. */
  predicate DatedFrom(cols: seq<string>, p: Parsers, x: Row, y: Row)
    requires TransactionTs in cols
  {
    var k := IndexOf(cols, TransactionTs);
    var out := DateColumns(cols);
    && |y| == |out| && k < |x|
    && y[k] == ParseStamp(p, x[k]) && y[k].Stamp?
    && (forall j :: 0 <= j < |out| && out[j] == TransactionDate ==> y[j] == Day(y[k].ts.date))
    && (forall j :: 0 <= j < |x| && j < |cols| && cols[j] != TransactionTs && cols[j] != TransactionDate ==> y[j] == x[j])
  }

  /** On rows as wide as the header, the frame's timestamp `dropna` is `HasStamp`. */
  lemma StampTestAgrees(cols: seq<string>, p: Parsers)
    requires TransactionTs in cols && Count(cols, TransactionTs) <= 1
    ensures forall x :: Fits(cols)(x) ==>
      Compose(ColumnMapper(cols, TransactionTs, StampOp(p)), Completeness(cols, [TransactionTs]))(x) == StampTest(cols, p)(x)
  {
    var k := IndexOf(cols, TransactionTs);
    forall x | Fits(cols)(x)
      ensures Compose(ColumnMapper(cols, TransactionTs, StampOp(p)), Completeness(cols, [TransactionTs]))(x) == StampTest(cols, p)(x)
    {
      var y := MapColumn(cols, TransactionTs, StampOp(p), x);
      forall j | 0 <= j < |x| && cols[j] in [TransactionTs] ensures j == k {
        CountUnique(cols, TransactionTs, j, k);
      }
      assert y[k] == ParseStamp(p, x[k]);
    }
  }

  /** One row through the timestamp steps. */
  lemma DatedRow(cols: seq<string>, p: Parsers, x: Row)
    requires TransactionTs in cols && Count(cols, TransactionTs) <= 1
    requires |x| == |cols| && HasStamp(cols, p, x)
    ensures DatedFrom(cols, p, x, WithDate(cols, MapColumn(cols, TransactionTs, StampOp(p), x)))
  {
    var y2 := MapColumn(cols, TransactionTs, StampOp(p), x);
    StampColumn(cols, p, x);
    WithDateCells(cols, y2);
  }

  /** Parsing the timestamp column changes that one cell. */
  lemma StampColumn(cols: seq<string>, p: Parsers, x: Row)
    requires TransactionTs in cols && Count(cols, TransactionTs) <= 1
    requires |x| == |cols|
    ensures var k := IndexOf(cols, TransactionTs);
      var y := MapColumn(cols, TransactionTs, StampOp(p), x);
      && |y| == |x| && y[k] == ParseStamp(p, x[k])
      && (forall j :: 0 <= j < |x| && cols[j] != TransactionTs ==> y[j] == x[j])
  {
  }

  /** Adding the date column fills every `transaction_date` cell with the
      timestamp's date and leaves the other cells. */
  lemma WithDateCells(cols: seq<string>, y: Row)
    requires TransactionTs in cols && |y| == |cols|
    requires y[IndexOf(cols, TransactionTs)].Stamp?
    ensures var k := IndexOf(cols, TransactionTs);
      var out := DateColumns(cols);
      var w := WithDate(cols, y);
      && |w| == |out| && w[k] == y[k]
      && (forall j :: 0 <= j < |out| && out[j] == TransactionDate ==> w[j] == Day(y[k].ts.date))
      && (forall j :: 0 <= j < |cols| && cols[j] != TransactionDate ==> w[j] == y[j])
  {
    var k := IndexOf(cols, TransactionTs);
    assert DateCell(cols, y) == Day(y[k].ts.date);
  }

  /** The `amount` and `status` conversions as one row function. */
  function Converter(cols: seq<string>, p: Parsers): Row -> Row {
    Compose(ColumnMapper(cols, Amount, AmountOp(p)), ColumnMapper(cols, Status, NormalizeStatus))
  }

  /** Rows as wide as the header. */
  function Fits(cols: seq<string>): Row -> bool {
    x => |x| == |cols|
  }

  /** Deduplication keeps rows as wide as the header. */
  lemma DedupFits(cols: seq<string>, rows: seq<Row>)
    requires forall i :: 0 <= i < |rows| ==> |rows[i]| == |cols|
    ensures forall i :: 0 <= i < |FirstOccurrences(rows)| ==> Fits(cols)(FirstOccurrences(rows)[i])
  {
    var d := FirstOccurrences(rows);
    FirstOccurrencesMembers(rows);
    forall i | 0 <= i < |d| ensures |d[i]| == |cols| {
      assert d[i] in d;
      var k :| 0 <= k < |rows| && rows[k] == d[i];
    }
  }

  /** The `amount` and `status` conversions map every row through `Converter`. */
  lemma ConvertRows(cols: seq<string>, d: seq<Row>, p: Parsers)
    requires Amount in cols && Status in cols
    requires Count(cols, Amount) <= 1 && Count(cols, Status) <= 1
    ensures ConvertColumns(Table(cols, d), p) == Success(Table(cols, Map(d, Converter(cols, p))))
  {
    var fa := ColumnMapper(cols, Amount, AmountOp(p));
    var fs := ColumnMapper(cols, Status, NormalizeStatus);
    var t2 := UpdateColumn(Table(cols, d), Amount, AmountOp(p));
    assert t2 == Success(Table(cols, Map(d, fa)));
    assert UpdateColumn(t2.value, Status, NormalizeStatus) == Success(Table(cols, Map(Map(d, fa), fs)));
    MapMap(d, fa, fs);
  }

  /** `dropna` over columns that all exist keeps exactly the complete rows. */
  lemma DropPresent(t: Table, names: seq<string>)
    requires forall n :: n in names ==> n in t.columns
    ensures DropIncomplete(t, names) == Success(Table(t.columns, Filter(t.rows, Completeness(t.columns, names))))
  {
  }

  /** Up to the first `dropna`, the pipeline keeps the rows whose converted
      form is complete, and converts them. */
  lemma DropnaRows(cols: seq<string>, d: seq<Row>, p: Parsers)
    requires Count(cols, Amount) <= 1 && Count(cols, Status) <= 1
    requires forall n :: n in Required ==> n in cols
    ensures var t1 := Table(cols, d);
      && ConvertColumns(t1, p).Success?
      && DropIncomplete(ConvertColumns(t1, p).value, Required) == Success(Converted(cols, p, d))
  {
    var g := Converter(cols, p);
    assert Amount in Required && Status in Required;
    ConvertRows(cols, d, p);
    DropPresent(Table(cols, Map(d, g)), Required);
    FilterMap(d, g, Completeness(cols, Required));
  }

  /** The timestamp steps keep the rows whose parsed timestamp is present and add their dates. */
  lemma RowsAfterDates(t: Table, p: Parsers)
    requires TransactionTs in t.columns
    requires DeriveDates(t, p).Success?
    ensures var ft := ColumnMapper(t.columns, TransactionTs, StampOp(p));
      DeriveDates(t, p).value.rows
        == Map(Filter(t.rows, Compose(ft, Completeness(t.columns, [TransactionTs]))), Compose(ft, DateAdder(t.columns)))
  {
    var ft := ColumnMapper(t.columns, TransactionTs, StampOp(p));
    var c2 := Completeness(t.columns, [TransactionTs]);
    var t5 := UpdateColumn(t, TransactionTs, StampOp(p)).value;
    assert t5.rows == Map(t.rows, ft);
    FilterMap(t.rows, ft, c2);
    var kept := Filter(t.rows, Compose(ft, c2));
    MapMap(kept, ft, DateAdder(t.columns));
  }

  // The three lemmas below are `Seqs` facts restated for rows: stated over
  // rows rather than a type parameter, they let the solver meet the row
  // functions of the pipeline without boxing.

  /** Two filters that agree on every row satisfying `P` agree on rows that all satisfy `P`. */
  lemma {:induction false} FilterAgree(s: seq<Row>, k1: Row -> bool, k2: Row -> bool, P: Row -> bool)
    requires forall i :: 0 <= i < |s| ==> P(s[i])
    requires forall x :: P(x) ==> k1(x) == k2(x)
    ensures Filter(s, k1) == Filter(s, k2)
  {
    if |s| > 0 {
      FilterAgree(s[..|s|-1], k1, k2, P);
    }
  }

  /** Two maps that agree on every row satisfying `P` agree on rows that all satisfy `P`. */
  lemma MapAgree(s: seq<Row>, f1: Row -> Row, f2: Row -> Row, P: Row -> bool)
    requires forall i :: 0 <= i < |s| ==> P(s[i])
    requires forall x :: P(x) ==> f1(x) == f2(x)
    ensures Map(s, f1) == Map(s, f2)
  {
    assert forall i :: 0 <= i < |s| ==> Map(s, f1)[i] == Map(s, f2)[i];
  }

  /** Filtering keeps a property every row has. */
  lemma {:induction false} FilterKeeps(s: seq<Row>, k: Row -> bool, P: Row -> bool)
    requires forall i :: 0 <= i < |s| ==> P(s[i])
    ensures forall i :: 0 <= i < |Filter(s, k)| ==> P(Filter(s, k)[i])
  {
    if |s| > 0 {
      var n := |s| - 1;
      FilterKeeps(s[..n], k, P);
      assert s == s[..n] + [s[n]];
      var r := Filter(s, k);
      var r0 := Filter(s[..n], k);
      assert r == r0 + (if k(s[n]) then [s[n]] else []);
      forall i | 0 <= i < |r| ensures P(r[i]) {
        if i < |r0| {
          assert r[i] == r0[i];
        } else {
          assert r[i] == s[n];
        }
      }
    }
  }

  /** A filter-then-map is determined by what its two functions do on the rows it can meet. */
  lemma Collapse(d: seq<Row>, k1: Row -> bool, k2: Row -> bool, f1: Row -> Row, f2: Row -> Row, P: Row -> bool)
    requires forall i :: 0 <= i < |d| ==> P(d[i])
    requires forall x :: P(x) ==> k1(x) == k2(x)
    requires forall x :: P(x) ==> f1(x) == f2(x)
    ensures Map(Filter(d, k1), f1) == Map(Filter(d, k2), f2)
  {
    FilterAgree(d, k1, k2, P);
    FilterKeeps(d, k2, P);
    MapAgree(Filter(d, k2), f1, f2, P);
  }

  /** Without a timestamp column the frame steps agree with the reference on every row. */
  lemma AgreeWithoutTimestamps(cols: seq<string>, p: Parsers)
    requires TransactionTs !in cols
    ensures forall x :: Fits(cols)(x) ==>
      Compose(Converter(cols, p), Completeness(cols, Required))(x) == Retention(cols, p)(x)
    ensures forall x :: Fits(cols)(x) ==> Converter(cols, p)(x) == Refinement(cols, p)(x)
  {
    forall x | Fits(cols)(x)
      ensures Compose(Converter(cols, p), Completeness(cols, Required))(x) == Retention(cols, p)(x)
      ensures Converter(cols, p)(x) == Refinement(cols, p)(x)
    {
      RowSteps(cols, p, x);
    }
  }

  /** With a timestamp column the frame steps agree with the reference on every row. */
  lemma AgreeWithTimestamps(cols: seq<string>, p: Parsers)
    requires TransactionTs in cols
    ensures var g := Converter(cols, p);
      var ft := ColumnMapper(cols, TransactionTs, StampOp(p));
      forall x :: Fits(cols)(x) ==>
        Both(Compose(g, Completeness(cols, Required)), Compose(g, Compose(ft, Completeness(cols, [TransactionTs]))))(x)
          == Retention(cols, p)(x)
    ensures var g := Converter(cols, p);
      var ft := ColumnMapper(cols, TransactionTs, StampOp(p));
      forall x :: Fits(cols)(x) ==> Compose(g, Compose(ft, DateAdder(cols)))(x) == Refinement(cols, p)(x)
  {
    var g := Converter(cols, p);
    var ft := ColumnMapper(cols, TransactionTs, StampOp(p));
    forall x | Fits(cols)(x)
      ensures Both(Compose(g, Completeness(cols, Required)), Compose(g, Compose(ft, Completeness(cols, [TransactionTs]))))(x)
          == Retention(cols, p)(x)
      ensures Compose(g, Compose(ft, DateAdder(cols)))(x) == Refinement(cols, p)(x)
    {
      RowSteps(cols, p, x);
    }
  }

  /** Without a timestamp column: convert, then drop incomplete rows. */
  lemma StepsWithoutTimestamps(cols: seq<string>, p: Parsers, d: seq<Row>)
    requires forall i :: 0 <= i < |d| ==> Fits(cols)(d[i])
    requires TransactionTs !in cols
    ensures var g := Converter(cols, p);
      Map(Filter(d, Compose(g, Completeness(cols, Required))), g)
        == Map(Filter(d, Retention(cols, p)), Refinement(cols, p))
  {
    var g := Converter(cols, p);
    AgreeWithoutTimestamps(cols, p);
    Collapse(d, Compose(g, Completeness(cols, Required)), Retention(cols, p), g, Refinement(cols, p), Fits(cols));
  }

  /** With a timestamp column: convert, drop incomplete rows, parse
      timestamps, drop unparsed ones, add dates. */
  lemma StepsWithTimestamps(cols: seq<string>, p: Parsers, d: seq<Row>)
    requires forall i :: 0 <= i < |d| ==> Fits(cols)(d[i])
    requires TransactionTs in cols
    ensures var g := Converter(cols, p);
      var ft := ColumnMapper(cols, TransactionTs, StampOp(p));
      var kept1 := Filter(d, Compose(g, Completeness(cols, Required)));
      Map(Filter(Map(kept1, g), Compose(ft, Completeness(cols, [TransactionTs]))), Compose(ft, DateAdder(cols)))
        == Map(Filter(d, Retention(cols, p)), Refinement(cols, p))
  {
    var g := Converter(cols, p);
    var c1 := Completeness(cols, Required);
    var ft := ColumnMapper(cols, TransactionTs, StampOp(p));
    var c2 := Completeness(cols, [TransactionTs]);
    FuseSteps(d, g, c1, ft, c2, DateAdder(cols));
    FusedWithTimestamps(cols, p, d);
  }

  /** The fused form of the timestamp steps agrees with the reference. */
  lemma FusedWithTimestamps(cols: seq<string>, p: Parsers, d: seq<Row>)
    requires forall i :: 0 <= i < |d| ==> Fits(cols)(d[i])
    requires TransactionTs in cols
    ensures var g := Converter(cols, p);
      var ft := ColumnMapper(cols, TransactionTs, StampOp(p));
      Map(Filter(d, Both(Compose(g, Completeness(cols, Required)), Compose(g, Compose(ft, Completeness(cols, [TransactionTs]))))),
          Compose(g, Compose(ft, DateAdder(cols))))
        == Map(Filter(d, Retention(cols, p)), Refinement(cols, p))
  {
    var g := Converter(cols, p);
    var ft := ColumnMapper(cols, TransactionTs, StampOp(p));
    AgreeWithTimestamps(cols, p);
    Collapse(d, Both(Compose(g, Completeness(cols, Required)), Compose(g, Compose(ft, Completeness(cols, [TransactionTs])))),
      Retention(cols, p), Compose(g, Compose(ft, DateAdder(cols))), Refinement(cols, p), Fits(cols));
  }

  /** Filter, map, filter, map fuses into one filter and one map. */
  lemma FuseSteps(d: seq<Row>, g: Row -> Row, c1: Row -> bool, ft: Row -> Row, c2: Row -> bool, add: Row -> Row)
    ensures Map(Filter(Map(Filter(d, Compose(g, c1)), g), Compose(ft, c2)), Compose(ft, add))
      == Map(Filter(d, Both(Compose(g, c1), Compose(g, Compose(ft, c2)))), Compose(g, Compose(ft, add)))
  {
    var kept1 := Filter(d, Compose(g, c1));
    FilterMap(kept1, g, Compose(ft, c2));
    var kept2 := Filter(kept1, Compose(g, Compose(ft, c2)));
    MapMap(kept2, g, Compose(ft, add));
    FilterFilter(d, Compose(g, c1), Compose(g, Compose(ft, c2)));
  }

  /** The frame `dropna` leaves: the deduplicated rows that convert to complete ones, converted. */
  function Converted(cols: seq<string>, p: Parsers, d: seq<Row>): Table {
    Table(cols, Map(Filter(d, Compose(Converter(cols, p), Completeness(cols, Required))), Converter(cols, p)))
  }

  /** After deduplication, cleaning is the timestamp steps applied to what
      `dropna` leaves. */
  lemma DeduplicatedSteps(cols: seq<string>, d: seq<Row>, p: Parsers)
    requires CleanDeduplicated(Table(cols, d), p).Success?
    ensures Count(cols, TransactionTs) <= 1
    ensures CleanDeduplicated(Table(cols, d), p) == DeriveDates(Converted(cols, p, d), p)
  {
    DropnaRows(cols, d, p);
  }

  /** After deduplication, exactly the retained rows survive, each refined. */
  lemma DeduplicatedRows(cols: seq<string>, d: seq<Row>, p: Parsers)
    requires forall i :: 0 <= i < |d| ==> Fits(cols)(d[i])
    requires CleanDeduplicated(Table(cols, d), p).Success?
    ensures CleanDeduplicated(Table(cols, d), p).value.rows == Map(Filter(d, Retention(cols, p)), Refinement(cols, p))
  {
    DeduplicatedSteps(cols, d, p);
    DerivedRows(cols, p, d);
  }

  /** `CleanFrame` is the timestamp steps applied to what `dropna` leaves. */
  lemma CleanFrameSteps(df: Table, p: Parsers)
    requires CleanFrame(df, p).Success?
    ensures Count(NormalizeHeaders(df.columns), TransactionTs) <= 1
    ensures CleanFrame(df, p) == DeriveDates(Converted(NormalizeHeaders(df.columns), p, FirstOccurrences(df.rows)), p)
  {
    DeduplicatedSteps(NormalizeHeaders(df.columns), FirstOccurrences(df.rows), p);
  }

  /** The timestamp steps on what `dropna` leaves give the reference rows. */
  lemma DerivedRows(cols: seq<string>, p: Parsers, d: seq<Row>)
    requires forall i :: 0 <= i < |d| ==> Fits(cols)(d[i])
    requires Count(cols, TransactionTs) <= 1
    ensures DeriveDates(Converted(cols, p, d), p).Success?
    ensures DeriveDates(Converted(cols, p, d), p).value.rows == Map(Filter(d, Retention(cols, p)), Refinement(cols, p))
  {
    if TransactionTs !in cols {
      StepsWithoutTimestamps(cols, p, d);
    } else {
      RowsAfterDates(Converted(cols, p, d), p);
      StepsWithTimestamps(cols, p, d);
    }
  }

  /** `DerivedRows` for the deduplicated rows of a frame. */
  lemma DedupedRows(cols: seq<string>, rows: seq<Row>, p: Parsers)
    requires forall i :: 0 <= i < |rows| ==> |rows[i]| == |cols|
    requires Count(cols, TransactionTs) <= 1
    ensures var d := FirstOccurrences(rows);
      && DeriveDates(Converted(cols, p, d), p).Success?
      && DeriveDates(Converted(cols, p, d), p).value.rows == Map(Filter(d, Retention(cols, p)), Refinement(cols, p))
  {
    DedupFits(cols, rows);
    DerivedRows(cols, p, FirstOccurrences(rows));
  }

  /** The cleaned rows are the deduplicated input rows that pass `Retained`,
      in their original order, each refined by `RefineRow`. */
  lemma CleanFrameRows(df: Table, p: Parsers)
    requires WellFormed(df)
    requires CleanFrame(df, p).Success?
    ensures var cols := NormalizeHeaders(df.columns);
      CleanFrame(df, p).value.rows
        == Map(Filter(FirstOccurrences(df.rows), Retention(cols, p)), Refinement(cols, p))
  {
    CleanFrameSteps(df, p);
    DedupedRows(NormalizeHeaders(df.columns), df.rows, p);
  }

  // ---------------------------------------------------------------------
  // What the cleaned artifact guarantees about each of its rows.
  // ---------------------------------------------------------------------

  /** A cell under column `name` of the cleaned artifact: identifiers are
      present, the amount is a number, the status is one of the three known
      ones and the timestamp is parsed. */
  predicate CleanCell(name: string, c: Cell) {
    && (name == TransactionId || name == CustomerId ==> c != Missing)
    && (name == Amount ==> c.Number?)
    && (name == Status ==> c.Text? && c.s in Statuses)
    && (name == TransactionTs ==> c.Stamp?)
  }

  /** A row of the cleaned artifact whose input headers were `cols`: it is
      as wide as the output header, every cell meets `CleanCell`, and where
      there is a timestamp every `transaction_date` cell holds its date. */
  predicate CleanRow(cols: seq<string>, y: Row) {
    && |y| == |OutputColumns(cols)|
    && (forall j :: 0 <= j < |cols| ==> CleanCell(cols[j], y[j]))
    && (TransactionTs in cols ==>
          var k := IndexOf(cols, TransactionTs);
          && y[k].Stamp?
          && forall j :: 0 <= j < |y| && OutputColumns(cols)[j] == TransactionDate ==> y[j] == Day(y[k].ts.date))
  }

  /** A retained row refines to a clean one. */
  lemma RefinedRowIsClean(cols: seq<string>, p: Parsers, x: Row)
    requires |x| == |cols|
    requires Retained(cols, p, x)
    ensures CleanRow(cols, RefineRow(cols, p, x))
  {
    var y := RefineCells(cols, p, x);
    forall j | 0 <= j < |cols| ensures CleanCell(cols[j], y[j]) {
      assert CellAccepted(cols[j], p, x[j]);
    }
    if TransactionTs in cols {
      var k := IndexOf(cols, TransactionTs);
      assert CellAccepted(cols[k], p, x[k]);
      var z := WithDate(cols, y);
      assert DateCell(cols, y) == Day(y[k].ts.date);
      if TransactionDate in cols {
        assert z[k] == y[k];
      } else {
        assert z[k] == y[k];
        assert OutputColumns(cols) == cols + [TransactionDate];
      }
    }
  }

  /** Every row of the reference output is clean. */
  lemma ReferenceRowsClean(cols: seq<string>, p: Parsers, d: seq<Row>)
    requires forall i :: 0 <= i < |d| ==> Fits(cols)(d[i])
    ensures forall i :: 0 <= i < |Map(Filter(d, Retention(cols, p)), Refinement(cols, p))| ==>
      CleanRow(cols, Map(Filter(d, Retention(cols, p)), Refinement(cols, p))[i])
  {
    var kept := Filter(d, Retention(cols, p));
    FilterKeeps(d, Retention(cols, p), Fits(cols));
    forall i | 0 <= i < |kept| ensures CleanRow(cols, RefineRow(cols, p, kept[i])) {
      assert Retention(cols, p)(kept[i]);
      RefinedRowIsClean(cols, p, kept[i]);
    }
  }

  lemma DedupedRowsClean(cols: seq<string>, rows: seq<Row>, p: Parsers)
    requires forall i :: 0 <= i < |rows| ==> |rows[i]| == |cols|
    ensures var out := Map(Filter(FirstOccurrences(rows), Retention(cols, p)), Refinement(cols, p));
      forall i :: 0 <= i < |out| ==> CleanRow(cols, out[i])
  {
    DedupFits(cols, rows);
    ReferenceRowsClean(cols, p, FirstOccurrences(rows));
  }

  /** Every row of the cleaned artifact meets the cleaned-artifact invariants. */
  lemma CleanFrameRowsClean(df: Table, p: Parsers)
    requires WellFormed(df)
    requires CleanFrame(df, p).Success?
    ensures forall i :: 0 <= i < |CleanFrame(df, p).value.rows| ==>
      CleanRow(NormalizeHeaders(df.columns), CleanFrame(df, p).value.rows[i])
  {
    CleanFrameRows(df, p);
    DedupedRowsClean(NormalizeHeaders(df.columns), df.rows, p);
  }

  // ---------------------------------------------------------------------
  // Which rows survive, and in what order.
  // ---------------------------------------------------------------------

  /** Reference membership for deduplicated rows. */
  lemma DedupedMembers(cols: seq<string>, rows: seq<Row>, p: Parsers)
    ensures var out := Map(Filter(FirstOccurrences(rows), Retention(cols, p)), Refinement(cols, p));
      && (forall x :: x in rows && Retained(cols, p, x) ==> RefineRow(cols, p, x) in out)
      && (forall y :: y in out ==> exists x :: x in rows && Retained(cols, p, x) && y == RefineRow(cols, p, x))
  {
    var d := FirstOccurrences(rows);
    FirstOccurrencesMembers(rows);
    MapFilterMembers(d, Retention(cols, p), Refinement(cols, p));
  }

  /** An input row appears, refined, in the cleaned artifact when it passes
      `Retained`; and every row of the artifact is the refinement of some
      input row that passes `Retained`. */
  lemma CleanFrameMembers(df: Table, p: Parsers)
    requires WellFormed(df)
    requires CleanFrame(df, p).Success?
    ensures var cols := NormalizeHeaders(df.columns);
      var out := CleanFrame(df, p).value.rows;
      && (forall x :: x in df.rows && Retained(cols, p, x) ==> RefineRow(cols, p, x) in out)
      && (forall y :: y in out ==> exists x :: x in df.rows && Retained(cols, p, x) && y == RefineRow(cols, p, x))
  {
    CleanFrameRows(df, p);
    DedupedMembers(NormalizeHeaders(df.columns), df.rows, p);
  }

  lemma DedupedInOrder(cols: seq<string>, rows: seq<Row>, p: Parsers)
    ensures IsSubsequence(Filter(FirstOccurrences(rows), Retention(cols, p)), rows)
  {
    var d := FirstOccurrences(rows);
    FilterIsSubsequence(d, Retention(cols, p));
    FirstOccurrencesIsSubsequence(rows);
    SubsequenceTrans(Filter(d, Retention(cols, p)), d, rows);
  }

  /** The cleaned artifact is the refinement of an order-preserving
      subsequence of the input rows, each of which passes `Retained`. */
  lemma CleanFrameInOrder(df: Table, p: Parsers)
    requires WellFormed(df)
    requires CleanFrame(df, p).Success?
    ensures var cols := NormalizeHeaders(df.columns);
      var kept := Filter(FirstOccurrences(df.rows), Retention(cols, p));
      && IsSubsequence(kept, df.rows)
      && (forall i :: 0 <= i < |kept| ==> Retained(cols, p, kept[i]))
      && CleanFrame(df, p).value.rows == Map(kept, Refinement(cols, p))
  {
    CleanFrameRows(df, p);
    DedupedInOrder(NormalizeHeaders(df.columns), df.rows, p);
  }

  lemma DedupedCollide(cols: seq<string>, rows: seq<Row>, p: Parsers, x: Row, y: Row)
    requires x in rows && y in rows && x != y
    requires Retained(cols, p, x) && Retained(cols, p, y)
    requires RefineRow(cols, p, x) == RefineRow(cols, p, y)
    ensures HasRepeat(Map(Filter(FirstOccurrences(rows), Retention(cols, p)), Refinement(cols, p)))
  {
    RowsCollide(rows, Retention(cols, p), Refinement(cols, p), x, y);
  }

  /** `MapFilterCollide` after deduplication, for rows. */
  lemma RowsCollide(rows: seq<Row>, keep: Row -> bool, f: Row -> Row, x: Row, y: Row)
    requires x in rows && y in rows && x != y
    requires keep(x) && keep(y) && f(x) == f(y)
    ensures HasRepeat(Map(Filter(FirstOccurrences(rows), keep), f))
  {
    var d := FirstOccurrences(rows);
    FirstOccurrencesMembers(rows);
    assert x in d && y in d;
    MapFilterCollide(d, keep, f, x, y);
  }

  /** Deduplication runs on the raw rows: two different input rows that
      both survive and only become equal once refined (say " Completed"
      and "completed") both stay, so the artifact holds a repeated row. */
  lemma DedupBeforeNormalisation(df: Table, p: Parsers, x: Row, y: Row)
    requires WellFormed(df)
    requires CleanFrame(df, p).Success?
    requires x in df.rows && y in df.rows && x != y
    requires Retained(NormalizeHeaders(df.columns), p, x) && Retained(NormalizeHeaders(df.columns), p, y)
    requires RefineRow(NormalizeHeaders(df.columns), p, x) == RefineRow(NormalizeHeaders(df.columns), p, y)
    ensures HasRepeat(CleanFrame(df, p).value.rows)
  {
    CleanFrameRows(df, p);
    DedupedCollide(NormalizeHeaders(df.columns), df.rows, p, x, y);
  }
}
