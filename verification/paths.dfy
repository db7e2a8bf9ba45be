/**
  File locations: a directory joined with a file name, where the name comes
  from a `str.format` template with one `{ds_nodash}` field.
 */
module Paths {

  /** A filesystem path as its sequence of components (`pathlib.Path.parts`). */
  datatype Path = Path(segments: seq<string>)

  /** `dir / name`. pathlib drops an empty or `.` component, so such a
      name leaves the directory itself. */
  function Join(dir: Path, name: string): (p: Path)
    ensures name == "" || name == "." ==> p == dir
    ensures name != "" && name != "." ==> |p.segments| == |dir.segments| + 1 && p.segments[..|dir.segments|] == dir.segments
  {
    if name == "" || name == "." then dir else Path(dir.segments + [name])
  }

  /** A piece of a file-name template: literal text, or the `{ds_nodash}` field. */
  datatype Piece = Lit(text: string) | KeyField

  type Template = seq<Piece>

  /** `template.format(ds_nodash=key)`: a template that mentions the key
      formats to at least the key's length. */
  function Format(t: Template, key: string): (r: string)
    ensures KeyField in t ==> |r| >= |key|
  {
    if |t| == 0 then ""
    else
      assert t[0] != KeyField ==> (KeyField in t <==> KeyField in t[1..]);
      (match t[0] case Lit(text) => text case KeyField => key) + Format(t[1..], key)
  }

  /** `"transactions_{ds_nodash}.csv"` */
  const RawFileTemplate: Template := [Lit("transactions_"), KeyField, Lit(".csv")]

  /** `"transactions_{ds_nodash}_clean.parquet"` */
  const CleanFileTemplate: Template := [Lit("transactions_"), KeyField, Lit("_clean.parquet")]

  lemma RawFileName(key: string)
    ensures Format(RawFileTemplate, key) == "transactions_" + key + ".csv"
  {
    var t := RawFileTemplate;
    assert Format(t[1..][1..][1..], key) == "";
    assert Format(t[1..][1..], key) == ".csv";
    assert Format(t[1..], key) == key + ".csv";
  }

  lemma CleanFileName(key: string)
    ensures Format(CleanFileTemplate, key) == "transactions_" + key + "_clean.parquet"
  {
    var t := CleanFileTemplate;
    assert Format(t[1..][1..][1..], key) == "";
    assert Format(t[1..][1..], key) == "_clean.parquet";
    assert Format(t[1..], key) == key + "_clean.parquet";
  }

  /** A template that mentions the key tells keys of equal length apart. */
  lemma {:induction false} FormatInjective(t: Template, k1: string, k2: string)
    requires KeyField in t
    requires |k1| == |k2|
    requires Format(t, k1) == Format(t, k2)
    ensures k1 == k2
  {
    var rest1 := Format(t[1..], k1);
    var rest2 := Format(t[1..], k2);
    match t[0]
    case Lit(text) =>
      assert text + rest1 == text + rest2;
      assert rest1 == (text + rest1)[|text|..];
      assert rest2 == (text + rest2)[|text|..];
      assert KeyField in t[1..];
      FormatInjective(t[1..], k1, k2);
    case KeyField =>
      assert k1 == (k1 + rest1)[..|k1|];
      assert k2 == (k2 + rest2)[..|k2|];
  }
}
