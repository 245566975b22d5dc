/**
 * The converter's driver: read the report as lines, take the last line for
 * the score and total, run the results extractor over the re-joined text,
 * and write the three tables to their derived paths, in order.
 */
module Report {
  import opened Basics
  import opened Extract
  import opened OutputNames

  /** A line as `readlines` returns it: non-empty, with a newline at most as its last character. */
  predicate IsLine(l: string)
  {
    |l| > 0 && forall k :: 0 <= k < |l| - 1 ==> l[k] != '\n'
  }

  /** A line that a newline ends. */
  predicate EndsWithNewline(l: string)
  {
    |l| > 0 && l[|l| - 1] == '\n'
  }

  /** The end of the line that starts at `i`: just past its newline, or the end of the text. */
  function LineEnd(text: string, i: nat): (e: nat)
    requires i < |text|
    ensures i < e <= |text|
    ensures IsLine(text[i..e])
    ensures e == |text| || text[e - 1] == '\n'
    decreases |text| - i
  {
    if text[i] == '\n' || i + 1 == |text| then i + 1
    else
      var e := LineEnd(text, i + 1);
      assert forall k :: 0 <= k < e - i - 1 ==> text[i..e][k] == (if k == 0 then text[i] else text[i + 1..e][k - 1]);
      e
  }

  /**
   * `l` is the final line of `text[i..]`: a line that is a suffix of the
   * text, starting at `i` or just after a newline.
   */
  predicate IsFinalLine(text: string, i: nat, l: string)
  {
    && IsLine(l)
    && i + |l| <= |text|
    && text[|text| - |l|..] == l
    && (i + |l| == |text| || text[|text| - |l| - 1] == '\n')
  }

  /** `l` is the last line of the whole text. */
  predicate IsLastLine(text: string, l: string)
  {
    IsFinalLine(text, 0, l)
  }

  /**
   * `readlines` from position `i`: the lines, each ending just after a
   * newline except possibly the last. Joining them gives the text back, and
   * the last line is a suffix that starts at `i` or just after a newline.
   */
  function ReadLinesFrom(text: string, i: nat): (lines: seq<string>)
    requires i <= |text|
    ensures Concat(lines) == text[i..]
    ensures lines == [] <==> i == |text|
    ensures forall k :: 0 <= k < |lines| ==> IsLine(lines[k])
    ensures forall k :: 0 <= k < |lines| - 1 ==> EndsWithNewline(lines[k])
    ensures lines != [] ==> IsFinalLine(text, i, lines[|lines| - 1])
    decreases |text| - i
  {
    if i == |text| then []
    else
      var e := LineEnd(text, i);
      var rest := ReadLinesFrom(text, e);
      var lines := [text[i..e]] + rest;
      assert lines[1..] == rest;
      assert text[i..e] + text[e..] == text[i..];
      assert forall k :: 1 <= k < |lines| ==> lines[k] == rest[k - 1];
      lines
  }

  /** `file.readlines()` of the whole report. */
  function ReadLines(text: string): (lines: seq<string>)
    ensures Concat(lines) == text
  {
    ReadLinesFrom(text, 0)
  }

  /** A text has at most one last line. */
  lemma LastLineUnique(text: string, a: string, b: string)
    requires IsLastLine(text, a) && IsLastLine(text, b)
    ensures a == b
  {
    if |a| < |b| {
      assert false;
    } else if |b| < |a| {
      assert false;
    }
  }

  /** Why the converter can stop before writing anything. */
  datatype Error =
    | EmptyReport   // `lines[-1]` on a report with no lines raises IndexError

  /** `lines[-1]`: the last line, or the error an empty report raises. */
  function LastLine(text: string): (r: Result<string, Error>)
    ensures r.Failure? <==> text == ""
    ensures r.Success? ==> IsLastLine(text, r.value)
  {
    var lines := ReadLinesFrom(text, 0);
    if lines == [] then Failure(EmptyReport) else Success(lines[|lines| - 1])
  }

  /** What one run produces: the three paths and the three tables. */
  datatype Outputs = Outputs(paths: OutputPaths, results: Table, score: Table, total: Table)

  /**
   * `main` for a report `file` in directory `dir` whose contents are `text`:
   * the results from the whole text, the score and total from its last line,
   * or the error an empty report raises before anything is written.
   */
  function Convert(dir: string, file: string, text: string): (r: Result<Outputs, Error>)
    ensures r.Failure? <==> text == ""
    ensures r.Success? ==> r.value.results == ResultsTable(text) && r.value.paths == DeriveOutputPaths(dir, file)
    ensures r.Success? ==> forall l :: IsLastLine(text, l) ==> r.value.score == ScoreTable(l) && r.value.total == TotalTable(l)
  {
    var last := LastLine(text);
    if last.Failure? then Failure(last.error)
    else
      var lines := ReadLines(text);
      assert forall l :: IsLastLine(text, l) ==> l == last.value by {
        forall l | IsLastLine(text, l)
          ensures l == last.value
        {
          LastLineUnique(text, l, last.value);
        }
      }
      Success(Outputs(DeriveOutputPaths(dir, file), ResultsTable(Concat(lines)), ScoreTable(last.value), TotalTable(last.value)))
  }

  /**
   * The files on disk after the three writes, in the order `main` makes them:
   * results, then score, then total. A later write to the same path replaces
   * the earlier file.
   */
  function Written(o: Outputs): (files: map<string, Table>)
    ensures files.Keys == {o.paths.results, o.paths.score, o.paths.total}
    ensures files[o.paths.total] == o.total
    ensures o.paths.score != o.paths.total ==> files[o.paths.score] == o.score
  {
    map[o.paths.results := o.results][o.paths.score := o.score][o.paths.total := o.total]
  }

  /**
   * After a successful run the score and total files hold their tables, and
   * the results file holds the results table exactly when the base name is
   * neither `score` nor `total`; otherwise a later write replaced it.
   */
  lemma WrittenFiles(dir: string, file: string, text: string)
    requires Convert(dir, file, text).Success?
    ensures var o := Convert(dir, file, text).value;
      && Written(o)[o.paths.score] == o.score
      && Written(o)[o.paths.total] == o.total
      && (Written(o)[o.paths.results] == o.results <==> BaseName(file) != "score" && BaseName(file) != "total")
  {
    var o := Convert(dir, file, text).value;
    FixedPathsIgnoreFile(dir, file, file);
    ResultsPathCollides(dir, file);
    // the results table starts with its header, the score and total tables never do
    assert o.results[0] == ResultsHeader;
    assert o.score == [] || o.score[0] == ScoreHeader;
    assert o.total == [] || o.total[0] == TotalHeader;
  }

  /** Nothing a successful run writes needs CSV quoting. */
  lemma ConvertWritesPlainCsv(dir: string, file: string, text: string)
    requires Convert(dir, file, text).Success?
    ensures var o := Convert(dir, file, text).value;
      IsPlainTable(o.results) && IsPlainTable(o.score) && IsPlainTable(o.total)
  {
    var o := Convert(dir, file, text).value;
    var l := LastLine(text).value;
    ResultsTableIsPlain(text);
    ScoreTableIsPlain(l);
    TotalTableIsPlain(l);
  }
}
