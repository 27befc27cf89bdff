/**
 * Reading the names file (`GetNamesFromFile` in pkg/file/file.go; main.go holds
 * the same code). The file read is foreign; the model starts from its outcome.
 */
module NamesFile {
  import opened Wrappers
  import opened GoStrings

  /** Go's `([]string, error)` result pair; a nil slice is the empty sequence. */
  datatype NamesReturn = NamesReturn(names: seq<string>, err: Option<string>)

  /** The file content split at every '\n', or a nil slice and the read error. */
  function GetNamesFromFile(read: Result<string, string>): (r: NamesReturn)
    ensures read.Err? ==> r == NamesReturn([], Some(read.error))
    ensures read.Ok? ==> r.err.None?
    ensures read.Ok? ==> Join(r.names, '\n') == read.value
    ensures read.Ok? ==> |r.names| == multiset(read.value)['\n'] + 1
    ensures read.Ok? ==> forall k :: 0 <= k < |r.names| ==> '\n' !in r.names[k]
  {
    match read
    case Err(e) => NamesReturn([], Some(e))
    case Ok(content) =>
      JoinSplit(content, '\n');
      SplitCount(content, '\n');
      SplitPiecesFree(content, '\n');
      NamesReturn(Split(content, '\n'), None)
  }

  /** An empty file gives one empty line. */
  lemma EmptyFile()
    ensures GetNamesFromFile(Ok("")).names == [""]
  {
  }

  /** A final newline gives a final empty line after the lines before it. */
  lemma TrailingNewline(content: string)
    ensures GetNamesFromFile(Ok(content + "\n")).names == GetNamesFromFile(Ok(content)).names + [""]
  {
    SplitAround(content, '\n', "");
    assert content + "\n" == content + ['\n'] + "";
  }

  /**
   * Any lines free of '\n', written out one per line, are read back exactly,
   * carriage returns and surrounding spaces included.
   */
  lemma LinesRoundTrip(lines: seq<string>)
    requires |lines| >= 1
    requires forall k :: 0 <= k < |lines| ==> '\n' !in lines[k]
    ensures GetNamesFromFile(Ok(Join(lines, '\n'))).names == lines
  {
    SplitJoin(lines, '\n');
  }
}
