/**
  `clean_daily_transactions`: find the raw CSV of one run date, clean it and
  write the cleaned parquet file next to the other partitions. The
  filesystem is a value: the operation maps a disk to an outcome and a new
  disk.
 */
module Bronze {
  import opened Base
  import opened Partition
  import opened Paths
  import opened Frame
  import opened Seqs
  import opened Cleaning

  /** What a file holds. `Csv(None)` is a file `pd.read_csv` cannot parse
      (empty, malformed, unreadable). */
  datatype Content = Csv(frame: Option<Table>) | Parquet(table: Table)

  datatype Disk = Disk(dirs: set<Path>, files: map<Path, Content>)

  /** The directory holding a file. */
  function Parent(p: Path): Path
    requires |p.segments| > 0
  {
    Path(p.segments[..|p.segments| - 1])
  }

  /** `dir` and every directory above it; the empty path is the working
      directory, which always exists. */
  function Ancestors(dir: Path): set<Path> {
    set i | 1 <= i <= |dir.segments| :: Path(dir.segments[..i])
  }

  /** The shape every real filesystem has: nothing is both a file and a
      directory, directories sit inside directories, files sit inside
      directories, and a CSV parses to a rectangular frame. */
  predicate Consistent(d: Disk) {
    && (forall p :: p in d.files ==> p !in d.dirs)
    && (forall p :: p in d.dirs ==> Ancestors(p) <= d.dirs)
    && (forall p :: p in d.files ==> |p.segments| > 0 && Ancestors(Parent(p)) <= d.dirs)
    && (forall p :: p in d.files && d.files[p].Csv? && d.files[p].frame.Some? ==> WellFormed(d.files[p].frame.value))
  }

  /** `Path.exists()`: the working directory (the empty path) always
      exists, and a path that does not exist cannot be read. */
  predicate Exists(d: Disk, p: Path)
    ensures |p.segments| == 0 ==> Exists(d, p)
    ensures !Exists(d, p) ==> p !in d.files && ReadCsv(d, p).Failure?
  {
    |p.segments| == 0 || p in d.dirs || p in d.files
  }

  /** `dir.mkdir(parents=True, exist_ok=True)`: creates `dir` and any
      missing directory above it, and fails when one of them is a file. */
  function MakeDirs(d: Disk, dir: Path): (r: Result<Disk, Failure>)
    ensures r.Failure? <==> exists q :: q in Ancestors(dir) && q in d.files
    ensures r.Success? ==> r.value.files == d.files && r.value.dirs == d.dirs + Ancestors(dir)
  {
    if exists q :: q in Ancestors(dir) && q in d.files then Failure(MkdirFailed)
    else Success(Disk(d.dirs + Ancestors(dir), d.files))
  }

  /** `pd.read_csv(path)`: only a parsable CSV file gives a frame. */
  function ReadCsv(d: Disk, p: Path): (r: Result<Table, Failure>)
    ensures r.Success? <==> p in d.files && d.files[p].Csv? && d.files[p].frame.Some?
    ensures r.Success? ==> r.value == d.files[p].frame.value
  {
    if p in d.files && d.files[p].Csv? && d.files[p].frame.Some? then Success(d.files[p].frame.value)
    else Failure(ReadFailed)
  }

  /** `df.to_parquet(path, index=False)`: replaces whatever file is at
      `path`; fails when `path` is a directory (the empty path being the
      working directory), when its directory is missing, or when two
      columns share a name (parquet's `ValueError` on duplicate names). */
  function WriteParquet(d: Disk, p: Path, t: Table): (r: Result<Disk, Failure>)
    ensures r.Success? <==>
      && |p.segments| > 0 && p !in d.dirs && (|p.segments| == 1 || Parent(p) in d.dirs)
      && !HasRepeat(t.columns)
    ensures r.Success? ==> r.value.dirs == d.dirs && r.value.files == d.files[p := Parquet(t)]
  {
    if |p.segments| == 0 || p in d.dirs || (|p.segments| > 1 && Parent(p) !in d.dirs) || HasRepeat(t.columns) then
      Failure(WriteFailed)
    else Success(Disk(d.dirs, d.files[p := Parquet(t)]))
  }

  /** What a call of `clean_daily_transactions` ends in. */
  datatype Outcome =
    | NotFound(input: Path)   // `FileNotFoundError` for the missing raw file
    | Written(path: Path)     // the returned `output_path`
    | Failed(error: Failure)  // any other exception

  /** The file of `date` under `dir`: `dir / template.format(ds_nodash=...)`,
      both for the raw input and for the cleaned output. It lies inside `dir`,
      and is a file of its own there whenever the template mentions the key. */
  function PartitionPath(date: Date, dir: Path, template: Template): (p: Path)
    requires ValidDate(date)
    ensures |dir.segments| <= |p.segments| <= |dir.segments| + 1
    ensures p.segments[..|dir.segments|] == dir.segments
    ensures KeyField in template ==> p.segments == dir.segments + [Format(template, PartitionKey(date))]
  {
    Join(dir, Format(template, PartitionKey(date)))
  }

  /** The operation, step by step: existence check, `mkdir`, `read_csv`,
      cleaning, `to_parquet`. */
  function CleanDailyTransactions(d: Disk, date: Date, rawDir: Path, cleanDir: Path,
                                  rawTemplate: Template, cleanTemplate: Template, p: Parsers): (r: (Outcome, Disk))
    requires ValidDate(date)
    ensures var input := PartitionPath(date, rawDir, rawTemplate);
      r.0.NotFound? <==> !Exists(d, input)
    ensures r.0.NotFound? ==> r.0.input == PartitionPath(date, rawDir, rawTemplate) && r.1 == d
    ensures !r.0.NotFound? ==> r.1.dirs >= d.dirs
    ensures r.0.Failed? ==> r.1.files == d.files
    ensures var input := PartitionPath(date, rawDir, rawTemplate);
      var output := PartitionPath(date, cleanDir, cleanTemplate);
      r.0.Written? ==>
        && r.0.path == output
        && ReadCsv(d, input).Success?
        && CleanFrame(ReadCsv(d, input).value, p).Success?
        && r.1.files == d.files[output := Parquet(CleanFrame(ReadCsv(d, input).value, p).value)]
        && r.1.dirs == d.dirs + Ancestors(cleanDir)
    ensures Exists(d, PartitionPath(date, rawDir, rawTemplate)) && MakeDirs(d, cleanDir).Failure? ==>
      r == (Failed(MkdirFailed), d)
    ensures var input := PartitionPath(date, rawDir, rawTemplate);
      Exists(d, input) && MakeDirs(d, cleanDir).Success? && ReadCsv(d, input).Failure? ==>
        r == (Failed(ReadFailed), MakeDirs(d, cleanDir).value)
    ensures var input := PartitionPath(date, rawDir, rawTemplate);
      Exists(d, input) && MakeDirs(d, cleanDir).Success? && ReadCsv(d, input).Success?
        && CleanFrame(ReadCsv(d, input).value, p).Failure? ==>
        r == (Failed(CleanFrame(ReadCsv(d, input).value, p).error), MakeDirs(d, cleanDir).value)
    ensures var input := PartitionPath(date, rawDir, rawTemplate);
      var output := PartitionPath(date, cleanDir, cleanTemplate);
      Exists(d, input) && MakeDirs(d, cleanDir).Success? && ReadCsv(d, input).Success?
        && CleanFrame(ReadCsv(d, input).value, p).Success? ==>
        var d1 := MakeDirs(d, cleanDir).value;
        var t := CleanFrame(ReadCsv(d, input).value, p).value;
        if |output.segments| == 0 || output in d1.dirs || HasRepeat(t.columns) then r == (Failed(WriteFailed), d1)
        else r == (Written(output), Disk(d1.dirs, d1.files[output := Parquet(t)]))
  {
    var input := PartitionPath(date, rawDir, rawTemplate);
    var output := PartitionPath(date, cleanDir, cleanTemplate);
    if !Exists(d, input) then (NotFound(input), d)
    else
      match MakeDirs(d, cleanDir)
      case Failure(e) => (Failed(e), d)
      case Success(d1) =>
        match ReadCsv(d1, input)
        case Failure(e) => (Failed(e), d1)
        case Success(df) =>
          match CleanFrame(df, p)
          case Failure(e) => (Failed(e), d1)
          case Success(t) =>
            OutputInCleanDir(cleanDir, Format(cleanTemplate, PartitionKey(date)), d1.dirs);
            match WriteParquet(d1, output, t)
            case Failure(e) => (Failed(e), d1)
            case Success(d2) => (Written(output), d2)
  }

  /** Once `cleanDir` exists, the output path is a directory, or it is a
      file name inside `cleanDir` and can be written. */
  lemma OutputInCleanDir(cleanDir: Path, name: string, dirs: set<Path>)
    requires Ancestors(cleanDir) <= dirs
    ensures var o := Join(cleanDir, name);
      || |o.segments| == 0
      || o in dirs
      || (&& o.segments == cleanDir.segments + [name]
          && Parent(o) == cleanDir
          && (|o.segments| == 1 || Parent(o) in dirs))
  {
    if |cleanDir.segments| > 0 {
      assert cleanDir == Path(cleanDir.segments[..|cleanDir.segments|]);
      assert cleanDir in Ancestors(cleanDir);
    }
    if name != "" && name != "." {
      assert Parent(Join(cleanDir, name)).segments == cleanDir.segments;
    }
  }

  // ---------------------------------------------------------------------
  // The filesystem stays a filesystem.
  // ---------------------------------------------------------------------

  /** The directories above a directory above `dir` are above `dir`. */
  lemma AncestorsClosed(dir: Path, q: Path)
    requires q in Ancestors(dir)
    ensures Ancestors(q) <= Ancestors(dir)
  {
    var i :| 1 <= i <= |dir.segments| && q == Path(dir.segments[..i]);
    forall a | a in Ancestors(q) ensures a in Ancestors(dir) {
      var k :| 1 <= k <= |q.segments| && a == Path(q.segments[..k]);
      assert q.segments[..k] == dir.segments[..k];
    }
  }

  lemma MakeDirsConsistent(d: Disk, dir: Path)
    requires Consistent(d)
    requires MakeDirs(d, dir).Success?
    ensures Consistent(MakeDirs(d, dir).value)
  {
    var d1 := MakeDirs(d, dir).value;
    forall q | q in d1.dirs ensures Ancestors(q) <= d1.dirs {
      if q in Ancestors(dir) {
        AncestorsClosed(dir, q);
      }
    }
  }

  lemma WriteParquetConsistent(d: Disk, p: Path, t: Table)
    requires Consistent(d)
    requires |p.segments| > 0
    requires WriteParquet(d, p, t).Success?
    ensures Consistent(WriteParquet(d, p, t).value)
  {
    var d1 := WriteParquet(d, p, t).value;
    if |p.segments| == 1 {
      assert Ancestors(Parent(p)) == {};
    }
  }

  /** A run leaves a consistent filesystem consistent, whatever its outcome. */
  lemma CleanPreservesConsistency(d: Disk, date: Date, rawDir: Path, cleanDir: Path,
                                  rawTemplate: Template, cleanTemplate: Template, p: Parsers)
    requires ValidDate(date)
    requires Consistent(d)
    ensures Consistent(CleanDailyTransactions(d, date, rawDir, cleanDir, rawTemplate, cleanTemplate, p).1)
  {
    var input := PartitionPath(date, rawDir, rawTemplate);
    var output := PartitionPath(date, cleanDir, cleanTemplate);
    if Exists(d, input) && MakeDirs(d, cleanDir).Success? {
      MakeDirsConsistent(d, cleanDir);
      var d1 := MakeDirs(d, cleanDir).value;
      if ReadCsv(d1, input).Success? && CleanFrame(ReadCsv(d1, input).value, p).Success? {
        var t := CleanFrame(ReadCsv(d1, input).value, p).value;
        if WriteParquet(d1, output, t).Success? {
          WriteParquetConsistent(d1, output, t);
        }
      }
    }
  }

  // ---------------------------------------------------------------------
  // Outcomes and reruns.
  // ---------------------------------------------------------------------

  /** A raw file whose headers lack a required column is a hard error, not
      a missing partition, and no artifact is written. */
  lemma MissingColumnIsHardError(d: Disk, date: Date, rawDir: Path, cleanDir: Path,
                                 rawTemplate: Template, cleanTemplate: Template, p: Parsers, name: string)
    requires ValidDate(date)
    requires ReadCsv(d, PartitionPath(date, rawDir, rawTemplate)).Success?
    requires MakeDirs(d, cleanDir).Success?
    requires name in Required && name !in NormalizeHeaders(ReadCsv(d, PartitionPath(date, rawDir, rawTemplate)).value.columns)
    ensures var r := CleanDailyTransactions(d, date, rawDir, cleanDir, rawTemplate, cleanTemplate, p);
      r.0.Failed? && (r.0.error.MissingColumns? || r.0.error.AmbiguousColumn?) && r.1.files == d.files
  {
    var df := ReadCsv(d, PartitionPath(date, rawDir, rawTemplate)).value;
    assert CleanFrame(df, p).Failure?;
    var t1 := Table(NormalizeHeaders(df.columns), FirstOccurrences(df.rows));
    if ConvertColumns(t1, p).Success? {
      assert DropIncomplete(ConvertColumns(t1, p).value, Required).Failure?;
    }
  }

  /** A raw template that formats to an empty or `.` name makes the input
      path the raw directory itself: when it exists the run fails on the
      read and does not report a missing file. */
  lemma EmptyRawNameIsReadFailure(d: Disk, date: Date, rawDir: Path, cleanDir: Path,
                                  rawTemplate: Template, cleanTemplate: Template, p: Parsers)
    requires ValidDate(date)
    requires Format(rawTemplate, PartitionKey(date)) == "" || Format(rawTemplate, PartitionKey(date)) == "."
    requires rawDir in d.dirs && rawDir !in d.files
    requires MakeDirs(d, cleanDir).Success?
    ensures CleanDailyTransactions(d, date, rawDir, cleanDir, rawTemplate, cleanTemplate, p)
      == (Failed(ReadFailed), MakeDirs(d, cleanDir).value)
  {
    assert PartitionPath(date, rawDir, rawTemplate) == rawDir;
  }

  /** Running the same date again over the result of a successful run
      changes nothing and returns the same path, provided the raw and the
      cleaned file are different files. */
  lemma RerunIsIdempotent(d: Disk, date: Date, rawDir: Path, cleanDir: Path,
                          rawTemplate: Template, cleanTemplate: Template, p: Parsers)
    requires ValidDate(date)
    requires Consistent(d)
    requires PartitionPath(date, rawDir, rawTemplate) != PartitionPath(date, cleanDir, cleanTemplate)
    requires CleanDailyTransactions(d, date, rawDir, cleanDir, rawTemplate, cleanTemplate, p).0.Written?
    ensures var r := CleanDailyTransactions(d, date, rawDir, cleanDir, rawTemplate, cleanTemplate, p);
      CleanDailyTransactions(r.1, date, rawDir, cleanDir, rawTemplate, cleanTemplate, p) == r
  {
    var r := CleanDailyTransactions(d, date, rawDir, cleanDir, rawTemplate, cleanTemplate, p);
    var input := PartitionPath(date, rawDir, rawTemplate);
    var output := PartitionPath(date, cleanDir, cleanTemplate);
    WrittenRun(d, date, rawDir, cleanDir, rawTemplate, cleanTemplate, p);
    var df := ReadCsv(d, input).value;
    var t := CleanFrame(df, p).value;
    CleanPreservesConsistency(d, date, rawDir, cleanDir, rawTemplate, cleanTemplate, p);
    SettledAfterWrite(d, r.1, cleanDir, input, output, t);
    RunOnSettledDisk(r.1, date, rawDir, cleanDir, rawTemplate, cleanTemplate, p, df, t);
  }

  /** What a successful run read, cleaned and wrote. */
  lemma WrittenRun(d: Disk, date: Date, rawDir: Path, cleanDir: Path,
                   rawTemplate: Template, cleanTemplate: Template, p: Parsers)
    requires ValidDate(date)
    requires CleanDailyTransactions(d, date, rawDir, cleanDir, rawTemplate, cleanTemplate, p).0.Written?
    ensures var input := PartitionPath(date, rawDir, rawTemplate);
      var output := PartitionPath(date, cleanDir, cleanTemplate);
      && input in d.files && ReadCsv(d, input).Success? && CleanFrame(ReadCsv(d, input).value, p).Success?
      && |output.segments| > 0 && Parent(output) == cleanDir
      && !HasRepeat(CleanFrame(ReadCsv(d, input).value, p).value.columns)
      && CleanDailyTransactions(d, date, rawDir, cleanDir, rawTemplate, cleanTemplate, p).1
         == Disk(d.dirs + Ancestors(cleanDir), d.files[output := Parquet(CleanFrame(ReadCsv(d, input).value, p).value)])
  {
    OutputInCleanDir(cleanDir, Format(cleanTemplate, PartitionKey(date)), d.dirs + Ancestors(cleanDir));
  }

  /** After the artifact is written, making the clean directory and writing
      the same artifact again change nothing, and the input is untouched. */
  lemma SettledAfterWrite(d: Disk, d1: Disk, cleanDir: Path, input: Path, output: Path, t: Table)
    requires Consistent(d1)
    requires |output.segments| > 0 && Parent(output) == cleanDir
    requires d1.files == d.files[output := Parquet(t)] && d1.dirs == d.dirs + Ancestors(cleanDir)
    requires input != output && input in d.files
    requires !HasRepeat(t.columns)
    ensures input in d1.files && ReadCsv(d1, input) == ReadCsv(d, input)
    ensures MakeDirs(d1, cleanDir) == Success(d1)
    ensures WriteParquet(d1, output, t) == Success(d1)
  {
    assert d1.files[input] == d.files[input];
    assert d1.dirs + Ancestors(cleanDir) == d1.dirs;
    if |cleanDir.segments| > 0 {
      assert cleanDir == Path(cleanDir.segments[..|cleanDir.segments|]);
      assert cleanDir in Ancestors(cleanDir);
    }
    WriteParquetAgain(d1, output, t);
  }

  /** A run on a disk where mkdir and the write change nothing returns the
      output path and that same disk. */
  lemma RunOnSettledDisk(d: Disk, date: Date, rawDir: Path, cleanDir: Path,
                         rawTemplate: Template, cleanTemplate: Template, p: Parsers, df: Table, t: Table)
    requires ValidDate(date)
    requires Exists(d, PartitionPath(date, rawDir, rawTemplate))
    requires MakeDirs(d, cleanDir) == Success(d)
    requires ReadCsv(d, PartitionPath(date, rawDir, rawTemplate)) == Success(df)
    requires CleanFrame(df, p) == Success(t)
    requires WriteParquet(d, PartitionPath(date, cleanDir, cleanTemplate), t) == Success(d)
    ensures CleanDailyTransactions(d, date, rawDir, cleanDir, rawTemplate, cleanTemplate, p)
      == (Written(PartitionPath(date, cleanDir, cleanTemplate)), d)
  {
  }

  /** Writing the table a file already holds changes nothing. */
  lemma WriteParquetAgain(d: Disk, p: Path, t: Table)
    requires |p.segments| > 0
    requires p in d.files && d.files[p] == Parquet(t)
    requires p !in d.dirs && (|p.segments| == 1 || Parent(p) in d.dirs)
    requires !HasRepeat(t.columns)
    ensures WriteParquet(d, p, t) == Success(d)
  {
    assert d.files[p := Parquet(t)] == d.files;
  }

  // ---------------------------------------------------------------------
  // File names.
  // ---------------------------------------------------------------------

  /** With the default templates the raw and the cleaned file of a date
      never coincide. */
  lemma DefaultPathsDiffer(date: Date, rawDir: Path, cleanDir: Path)
    requires ValidDate(date)
    ensures PartitionPath(date, rawDir, RawFileTemplate) != PartitionPath(date, cleanDir, CleanFileTemplate)
  {
    var key := PartitionKey(date);
    RawFileName(key);
    CleanFileName(key);
    var a := PartitionPath(date, rawDir, RawFileTemplate);
    var b := PartitionPath(date, cleanDir, CleanFileTemplate);
    assert a.segments[|a.segments| - 1] == Format(RawFileTemplate, key);
    assert b.segments[|b.segments| - 1] == Format(CleanFileTemplate, key);
  }

  /** Both default file names carry the partition key at characters 13-20,
      and it reads back as the run date. */
  lemma PartitionCorrelation(date: Date)
    requires ValidDate(date)
    ensures var key := PartitionKey(date);
      var raw := Format(RawFileTemplate, key);
      var clean := Format(CleanFileTemplate, key);
      && |raw| == 25 && |clean| == 35
      && raw[13..21] == key && clean[13..21] == key
      && ParseKey(raw[13..21]) == Some(date)
  {
    var key := PartitionKey(date);
    RawFileName(key);
    CleanFileName(key);
    KeyRoundTrip(date);
  }

  /** Distinct dates read and write distinct files under any template
      that mentions the key. */
  lemma PartitionPathsDistinct(d1: Date, d2: Date, dir: Path, t: Template)
    requires ValidDate(d1) && ValidDate(d2) && d1 != d2
    requires KeyField in t
    ensures Join(dir, Format(t, PartitionKey(d1))) != Join(dir, Format(t, PartitionKey(d2)))
  {
    var k1, k2 := PartitionKey(d1), PartitionKey(d2);
    KeyInjective(d1, d2);
    if Format(t, k1) == Format(t, k2) {
      FormatInjective(t, k1, k2);
    }
    var a := Join(dir, Format(t, k1));
    var b := Join(dir, Format(t, k2));
    assert a.segments[|dir.segments|] == Format(t, k1);
    assert b.segments[|dir.segments|] == Format(t, k2);
  }
}
