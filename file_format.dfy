/** The file-extension dispatch that `submit_file` and `write_tsvs_from_results` use to choose a reader. */
module FileFormat {
  import opened Wrappers
  import opened Strings

  datatype Format = Csv | Xlsx | Tsv

  /**
   * ".csv" and ".xlsx" are checked on the lower-cased base name, ".tsv" and ".txt" on the
   * lower-cased whole path; anything else is refused (Gen3UserError, or exit(1)). None of the
   * suffixes holds a '/', so the result is decided by the lower-cased whole path alone.
   */
  function FormatOf(filename: string): (r: Option<Format>)
    ensures var n := Lower(filename);
      && (r == Some(Csv) <==> IsSuffix(".csv", n))
      && (r == Some(Xlsx) <==> !IsSuffix(".csv", n) && IsSuffix(".xlsx", n))
      && (r == Some(Tsv) <==> !IsSuffix(".csv", n) && !IsSuffix(".xlsx", n) && (IsSuffix(".tsv", n) || IsSuffix(".txt", n)))
  {
    LowerSuffixOfBasename(".csv", filename);
    LowerSuffixOfBasename(".xlsx", filename);
    var f := Lower(Basename(filename));
    if IsSuffix(".csv", f) then Some(Csv)
    else if IsSuffix(".xlsx", f) then Some(Xlsx)
    else if IsSuffix(".tsv", Lower(filename)) || IsSuffix(".txt", Lower(filename)) then Some(Tsv)
    else None
  }

  lemma BasenameIdempotent(p: string)
    ensures Basename(Basename(p)) == Basename(p)
  {
    var r := Basename(p);
    SuffixOfBasename(r, r);
    assert IsSuffix(r, Basename(r));
  }

  lemma LowerIdempotent(s: string)
    ensures Lower(Lower(s)) == Lower(s)
  {
  }

  /** The test on the whole path and the one on the base name agree for a suffix without '/'. */
  lemma LowerSuffixOfBasename(x: string, p: string)
    requires '/' !in x
    ensures IsSuffix(x, Lower(p)) <==> IsSuffix(x, Lower(Basename(p)))
  {
    LowerBasename(p);
    SuffixOfBasename(x, Lower(p));
  }

  /** Only the file's own name decides its format, whatever directory it is in. */
  lemma FormatIgnoresDirectory(filename: string)
    ensures FormatOf(filename) == FormatOf(Basename(filename))
  {
    BasenameIdempotent(filename);
    LowerSuffixOfBasename(".tsv", filename);
    LowerSuffixOfBasename(".txt", filename);
  }

  /** The dispatch is case-insensitive: "DATA.TSV" is read like "data.tsv". */
  lemma FormatIgnoresCase(filename: string)
    ensures FormatOf(filename) == FormatOf(Lower(filename))
  {
    LowerBasename(filename);
    LowerIdempotent(Basename(filename));
    LowerIdempotent(filename);
  }
}
