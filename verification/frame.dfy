/**
  The data frame the bronze stage works on: named columns over rows of
  cells, where a cell is missing (NaN / NaT) or holds one kind of value.
 */
module Frame {
  import opened Partition

  /** A parsed `transaction_ts`: its calendar date and the time of day in nanoseconds. */
  datatype Timestamp = Timestamp(date: Date, nanos: nat)

  /** A frame cell. `pd.read_csv` gives text, numbers (integer and float
      columns) and missing cells; timestamps and dates come from the
      cleaning steps. Boolean cells are not modelled. */
  datatype Cell =
    | Missing
    | Text(s: string)
    | Number(value: real)
    | Stamp(ts: Timestamp)
    | Day(date: Date)

  type Row = seq<Cell>

  datatype Table = Table(columns: seq<string>, rows: seq<Row>)

  /** Every row has one cell per column, as in any pandas frame. */
  predicate WellFormed(t: Table) {
    forall i :: 0 <= i < |t.rows| ==> |t.rows[i]| == |t.columns|
  }

  /** How many columns carry `name`. */
  function Count(cols: seq<string>, name: string): (n: nat)
    ensures n > 0 <==> name in cols
  {
    if |cols| == 0 then 0
    else (if cols[0] == name then 1 else 0) + Count(cols[1..], name)
  }

  /** A name that labels exactly one column is counted once. */
  lemma CountOnce(cols: seq<string>, k: nat)
    requires k < |cols|
    requires forall i :: 0 <= i < |cols| && i != k ==> cols[i] != cols[k]
    ensures Count(cols, cols[k]) == 1
  {
    if k == 0 {
      assert cols[k] !in cols[1..];
    } else {
      CountOnce(cols[1..], k - 1);
    }
  }

  /** A name counted at most once labels at most one position. */
  lemma {:induction false} CountUnique(cols: seq<string>, name: string, i: nat, j: nat)
    requires Count(cols, name) <= 1
    requires i < |cols| && j < |cols| && cols[i] == name && cols[j] == name
    ensures i == j
  {
    if i != j && i > 0 && j > 0 {
      CountUnique(cols[1..], name, i - 1, j - 1);
    }
  }

  /** The position of the first column called `name`. */
  function IndexOf(cols: seq<string>, name: string): (i: nat)
    requires name in cols
    ensures i < |cols| && cols[i] == name && name !in cols[..i]
  {
    if cols[0] == name then 0
    else
      var i := IndexOf(cols[1..], name);
      assert cols[1..][..i] == cols[1..i + 1];
      i + 1
  }

  /** The hard errors of the bronze stage (exceptions other than a missing input). */
  datatype Failure =
    | AmbiguousColumn(name: string)       // `df[name]` selects more than one column
    | MissingColumns(names: seq<string>)  // `dropna(subset=...)` names an absent column
    | ReadFailed                          // `pd.read_csv` raises
    | MkdirFailed                         // `Path.mkdir` raises
    | WriteFailed                         // `DataFrame.to_parquet` raises
}
