/**
  The row-level logic of `clean_daily_transactions`: normalise headers,
  drop duplicate rows, coerce `amount`, normalise `status`, drop incomplete
  rows, and (when there is a `transaction_ts` column) parse timestamps and
  derive `transaction_date`.

  `CleanFrame` follows `transformations.py` step by step. `Retained` and `RefineRow`
  say, for one input row, whether it survives and what it becomes;
  `CleanFrameRows` proves that the step-by-step pipeline is exactly
  "deduplicate, keep the retained rows, refine each".
 */
module Cleaning {
  import opened Base
  import opened Text
  import opened Seqs
  import opened Partition
  import opened Frame

  const TransactionId := "transaction_id"
  const CustomerId := "customer_id"
  const Amount := "amount"
  const Status := "status"
  const TransactionTs := "transaction_ts"
  const TransactionDate := "transaction_date"

  /** The `subset` of the `dropna` call. */
  const Required: seq<string> := [TransactionId, CustomerId, Amount, Status]

  /** The keys of the status mapping; each maps to itself. */
  const Statuses: set<string> := {"completed", "pending", "failed"}

  /** `pd.to_numeric` and `pd.to_datetime` on a single value, `None` where
      `errors="coerce"` yields NaN / NaT: `number` and `timestamp` read
      strings, `epoch` reads a number as nanoseconds since 1970-01-01 (and
      fails outside the representable range). Their rules are not modelled. */
  datatype Parsers = Parsers(number: string -> Option<real>, timestamp: string -> Option<Timestamp>,
                             epoch: real -> Option<Timestamp>)

  /** `_coerce_amount` on one cell: text that parses becomes its number and
      other text becomes missing instead of raising; a numeric cell keeps its
      value; missing, timestamp and date cells become missing. */
  function CoerceAmount(p: Parsers, c: Cell): (r: Cell)
    ensures r == Missing || r.Number?
    ensures c.Text? ==> (r.Number? <==> p.number(c.s).Some?)
    ensures c.Text? && r.Number? ==> r.value == p.number(c.s).value
    ensures c.Number? ==> r == c
    ensures c == Missing || c.Stamp? || c.Day? ==> r == Missing
  {
    match c
    case Text(s) => (match p.number(s) case Some(v) => Number(v) case None => Missing)
    case Number(_) => c
    case _ => Missing
  }

  /** The status mapping applied to one already filled-in string. */
  function StatusOf(s: string): (r: Cell)
    ensures r.Text? <==> TrimLower(s) in Statuses
    ensures r.Text? ==> r.s == TrimLower(s)
    ensures r.Missing? || r.Text?
  {
    var n := TrimLower(s);
    if n in Statuses then Text(n) else Missing
  }

  /** `_normalize_status` on one cell: missing is first filled with `""`,
      then the value is trimmed, lower-cased and looked up in the mapping;
      a non-string value gives NaN under the `.str` accessor. */
  function NormalizeStatus(c: Cell): (r: Cell)
    ensures r == Missing || (r.Text? && r.s in Statuses)
    ensures r.Text? <==> c.Text? && TrimLower(c.s) in Statuses
    ensures r.Text? ==> c.Text? && r.s == TrimLower(c.s)
  {
    match c
    case Text(s) => StatusOf(s)
    case Missing =>
      assert Strip("") == "" && Lower("") == "";
      StatusOf("")
    case _ => Missing
  }

  /** `pd.to_datetime(..., errors="coerce")` on one cell: text is parsed,
      a number is read as an epoch offset in nanoseconds, a timestamp stays
      and a date becomes its midnight timestamp. */
  function ParseStamp(p: Parsers, c: Cell): (r: Cell)
    ensures r == Missing || r.Stamp?
    ensures c.Text? ==> (r.Stamp? <==> p.timestamp(c.s).Some?)
    ensures c.Text? && r.Stamp? ==> r.ts == p.timestamp(c.s).value
    ensures c.Number? ==> (r.Stamp? <==> p.epoch(c.value).Some?)
    ensures c.Number? && r.Stamp? ==> r.ts == p.epoch(c.value).value
    ensures c.Stamp? ==> r == c
    ensures c.Day? ==> r == Stamp(Timestamp(c.date, 0))
    ensures c == Missing ==> r == Missing
  {
    match c
    case Text(s) => (match p.timestamp(s) case Some(t) => Stamp(t) case None => Missing)
    case Number(v) => (match p.epoch(v) case Some(t) => Stamp(t) case None => Missing)
    case Stamp(_) => c
    case Day(d) => Stamp(Timestamp(d, 0))
    case _ => Missing
  }

  /** Surrounding whitespace and letter case do not affect the status a value maps to. */
  lemma StatusIgnoresPaddingAndCase(a: string, s: string, b: string, s': string)
    requires AllSpace(a) && AllSpace(b)
    requires Lower(s) == Lower(s')
    ensures NormalizeStatus(Text(a + s + b)) == NormalizeStatus(Text(s'))
  {
    StripPadding(a, s, b);
    StripLower(s);
    StripLower(s');
  }

  function AmountOp(p: Parsers): Cell -> Cell {
    c => CoerceAmount(p, c)
  }

  function StampOp(p: Parsers): Cell -> Cell {
    c => ParseStamp(p, c)
  }

  /** Row `x` with `f` applied to every cell under a column called `name`. */
  function MapColumn(cols: seq<string>, name: string, f: Cell -> Cell, x: Row): Row {
    seq(|x|, j requires 0 <= j < |x| => if j < |cols| && cols[j] == name then f(x[j]) else x[j])
  }

  function ColumnMapper(cols: seq<string>, name: string, f: Cell -> Cell): Row -> Row {
    x => MapColumn(cols, name, f, x)
  }

  /** No cell of `x` under any of the columns `names` is missing. */
  predicate Complete(cols: seq<string>, names: seq<string>, x: Row) {
    forall j :: 0 <= j < |x| && j < |cols| && cols[j] in names ==> x[j] != Missing
  }

  function Completeness(cols: seq<string>, names: seq<string>): Row -> bool {
    x => Complete(cols, names, x)
  }

  /** `df[name] = f(df[name])` under `if name in df.columns`. When the name
      labels several columns, `df[name]` is a frame and the Series-only
      functions of `transformations.py` raise. */
  function UpdateColumn(t: Table, name: string, f: Cell -> Cell): (r: Result<Table, Failure>)
    ensures r.Failure? <==> Count(t.columns, name) > 1
    ensures r.Success? ==> r.value.columns == t.columns && |r.value.rows| == |t.rows|
  {
    if name !in t.columns then Success(t)
    else if Count(t.columns, name) > 1 then Failure(AmbiguousColumn(name))
    else Success(Table(t.columns, Map(t.rows, ColumnMapper(t.columns, name, f))))
  }

  /** The names of `names` that are not columns, in order (pandas' KeyError list). */
  function AbsentColumns(cols: seq<string>, names: seq<string>): (r: seq<string>)
    ensures forall n :: n in r <==> n in names && n !in cols
  {
    if |names| == 0 then []
    else (if names[0] in cols then [] else [names[0]]) + AbsentColumns(cols, names[1..])
  }

  /** `df.dropna(subset=names)`: rows missing any of `names` go; naming an
      absent column raises. */
  function DropIncomplete(t: Table, names: seq<string>): (r: Result<Table, Failure>)
    ensures r.Failure? <==> exists n :: n in names && n !in t.columns
    ensures r.Success? ==> r.value.columns == t.columns && |r.value.rows| <= |t.rows|
    ensures r.Success? ==> forall i :: 0 <= i < |r.value.rows| ==> Complete(t.columns, names, r.value.rows[i])
  {
    var absent := AbsentColumns(t.columns, names);
    if |absent| > 0 then
      assert absent[0] in absent;
      Failure(MissingColumns(absent))
    else
      Success(Table(t.columns, Filter(t.rows, Completeness(t.columns, names))))
  }

  /** The cell `df["transaction_ts"].dt.date` gives for row `x`. */
  function DateCell(cols: seq<string>, x: Row): Cell {
    if TransactionTs in cols then
      var j := IndexOf(cols, TransactionTs);
      if j < |x| && x[j].Stamp? then Day(x[j].ts.date) else Missing
    else
      Missing
  }

  /** Row `x` after `df["transaction_date"] = ...`: existing columns of that
      name are overwritten, otherwise one is appended. */
  function WithDate(cols: seq<string>, x: Row): Row {
    var d := DateCell(cols, x);
    if TransactionDate in cols then
      seq(|x|, j requires 0 <= j < |x| => if j < |cols| && cols[j] == TransactionDate then d else x[j])
    else
      x + [d]
  }

  function DateAdder(cols: seq<string>): Row -> Row {
    x => WithDate(cols, x)
  }

  function DateColumns(cols: seq<string>): seq<string> {
    if TransactionDate in cols then cols else cols + [TransactionDate]
  }

  function AddDates(t: Table): Table {
    Table(DateColumns(t.columns), Map(t.rows, DateAdder(t.columns)))
  }

  /** Header normalisation: every column name trimmed and lower-cased. */
  function NormalizeHeaders(cols: seq<string>): (r: seq<string>)
    ensures |r| == |cols|
  {
    Map(cols, TrimLower)
  }

  /** Each normalised header is the original name with its surrounding
      whitespace removed and its letters lower-cased: it has no whitespace at
      either end and no upper-case ASCII letter. */
  lemma NormalizedNames(cols: seq<string>)
    ensures forall i :: 0 <= i < |cols| ==>
      var n := NormalizeHeaders(cols)[i];
      && n == Lower(Strip(cols[i]))
      && (n == [] || (!IsSpace(n[0]) && !IsSpace(n[|n| - 1])))
      && (forall k :: 0 <= k < |n| ==> !('A' <= n[k] <= 'Z'))
  {
    forall i | 0 <= i < |cols| {
      TrimLowerShape(cols[i]);
    }
  }

  /** Header normalisation is idempotent. */
  lemma NormalizeHeadersIdempotent(cols: seq<string>)
    ensures NormalizeHeaders(NormalizeHeaders(cols)) == NormalizeHeaders(cols)
  {
    forall j | 0 <= j < |cols| ensures TrimLower(TrimLower(cols[j])) == TrimLower(cols[j]) {
      TrimLowerIdempotent(cols[j]);
    }
  }

  /** The columns of the cleaned frame, given the normalised headers. */
  function OutputColumns(cols: seq<string>): seq<string> {
    if TransactionTs in cols then DateColumns(cols) else cols
  }

  /** The `amount` and `status` conversions (`transformations.py:56-60`). */
  function ConvertColumns(t: Table, p: Parsers): (r: Result<Table, Failure>)
    ensures r.Failure? <==> Count(t.columns, Amount) > 1 || Count(t.columns, Status) > 1
    ensures r.Success? ==> r.value.columns == t.columns && |r.value.rows| == |t.rows|
  {
    var t2 :- UpdateColumn(t, Amount, AmountOp(p));
    UpdateColumn(t2, Status, NormalizeStatus)
  }

  /** The timestamp steps (`transformations.py:65-68`). */
  function DeriveDates(t: Table, p: Parsers): (r: Result<Table, Failure>)
    ensures r.Failure? <==> Count(t.columns, TransactionTs) > 1
    ensures r.Success? ==> r.value.columns == OutputColumns(t.columns) && |r.value.rows| <= |t.rows|
  {
    if TransactionTs in t.columns then
      var t5 :- UpdateColumn(t, TransactionTs, StampOp(p));
      // the subset names a column that exists, so this `dropna` cannot raise
      var t6 := DropIncomplete(t5, [TransactionTs]).value;
      Success(AddDates(t6))
    else
      Success(t)
  }

  /** The steps after deduplication (`transformations.py:56-68`), on a frame whose
      headers are already normalised. */
  function CleanDeduplicated(t: Table, p: Parsers): (r: Result<Table, Failure>)
    ensures r.Failure? <==>
      || (exists n :: n in Required && n !in t.columns)
      || Count(t.columns, Amount) > 1
      || Count(t.columns, Status) > 1
      || Count(t.columns, TransactionTs) > 1
    ensures r.Success? ==> r.value.columns == OutputColumns(t.columns) && |r.value.rows| <= |t.rows|
  {
    var t3 :- ConvertColumns(t, p);
    var t4 :- DropIncomplete(t3, Required);
    DeriveDates(t4, p)
  }

  /** The cleaning part of `clean_daily_transactions`, step by step as
      `transformations.py:53-68` performs it on the frame `pd.read_csv`
      returned. */
  function CleanFrame(df: Table, p: Parsers): (r: Result<Table, Failure>)
    ensures var cols := NormalizeHeaders(df.columns);
      r.Failure? <==>
        || (exists n :: n in Required && n !in cols)
        || Count(cols, Amount) > 1
        || Count(cols, Status) > 1
        || Count(cols, TransactionTs) > 1
    ensures r.Success? ==> r.value.columns == OutputColumns(NormalizeHeaders(df.columns))
    ensures r.Success? ==> |r.value.rows| <= |df.rows|
  {
    CleanDeduplicated(Table(NormalizeHeaders(df.columns), FirstOccurrences(df.rows)), p)
  }

  // ---------------------------------------------------------------------
  // Row-level reference: what happens to one input row.
  // ---------------------------------------------------------------------

  /** Whether a cell under column `name` lets its row through. */
  predicate CellAccepted(name: string, p: Parsers, c: Cell) {
    && (name == TransactionId || name == CustomerId ==> c != Missing)
    && (name == Amount ==> CoerceAmount(p, c) != Missing)
    && (name == Status ==> NormalizeStatus(c) != Missing)
    && (name == TransactionTs ==> ParseStamp(p, c) != Missing)
  }

  /** A row survives iff its identifiers are present, its amount parses,
      its status is a known one and, where there is a timestamp column, its
      timestamp parses. */
  predicate Retained(cols: seq<string>, p: Parsers, x: Row) {
    forall j :: 0 <= j < |x| && j < |cols| ==> CellAccepted(cols[j], p, x[j])
  }

  /** What a cell under column `name` becomes. */
  function RefineCell(name: string, p: Parsers, c: Cell): Cell {
    if name == Amount then CoerceAmount(p, c)
    else if name == Status then NormalizeStatus(c)
    else if name == TransactionTs then ParseStamp(p, c)
    else c
  }

  /** What a surviving row becomes: every cell refined, then the derived
      date set when there is a timestamp column. */
  function RefineRow(cols: seq<string>, p: Parsers, x: Row): Row {
    var y := RefineCells(cols, p, x);
    if TransactionTs in cols then WithDate(cols, y) else y
  }

  function RefineCells(cols: seq<string>, p: Parsers, x: Row): Row {
    seq(|x|, j requires 0 <= j < |x| => if j < |cols| then RefineCell(cols[j], p, x[j]) else x[j])
  }

  function Retention(cols: seq<string>, p: Parsers): Row -> bool {
    x => Retained(cols, p, x)
  }

  function Refinement(cols: seq<string>, p: Parsers): Row -> Row {
    x => RefineRow(cols, p, x)
  }

  /** The column-by-column steps, seen from one row. */
  lemma RowSteps(cols: seq<string>, p: Parsers, x: Row)
    requires |x| == |cols|
    ensures var y2 := MapColumn(cols, Status, NormalizeStatus, MapColumn(cols, Amount, AmountOp(p), x));
      var y3 := MapColumn(cols, TransactionTs, StampOp(p), y2);
      && (TransactionTs !in cols ==>
            (Complete(cols, Required, y2) <==> Retained(cols, p, x)) && y2 == RefineRow(cols, p, x))
      && (TransactionTs in cols ==>
            (Complete(cols, Required, y2) && Complete(cols, [TransactionTs], y3) <==> Retained(cols, p, x))
            && WithDate(cols, y3) == RefineRow(cols, p, x))
  {
    var y1 := MapColumn(cols, Amount, AmountOp(p), x);
    var y2 := MapColumn(cols, Status, NormalizeStatus, y1);
    var y3 := MapColumn(cols, TransactionTs, StampOp(p), y2);
    var y := RefineCells(cols, p, x);
    assert forall j :: 0 <= j < |x| ==> y1[j] == (if cols[j] == Amount then CoerceAmount(p, x[j]) else x[j]);
    assert forall j :: 0 <= j < |x| ==>
      y2[j] == (if cols[j] == Amount then CoerceAmount(p, x[j]) else if cols[j] == Status then NormalizeStatus(x[j]) else x[j]);
    assert forall j :: 0 <= j < |x| ==> y3[j] == y[j];
    assert y3 == y;
    if TransactionTs !in cols {
      assert y2 == y;
    }
  }
}
