/**
 * The three extractors of the report converter: per-test results from the
 * whole report, and the score and total from its last line. Each builds a
 * table of rows of strings, the rows csv.writer later writes out.
 */
module Extract {
  import opened Basics
  import opened CharClasses
  import opened Pattern

  type Row = seq<string>
  type Table = seq<Row>

  /** The literal `\[RESULT\]` every result record starts with. */
  const Marker: string := "[RESULT]"

  /**
   * The results pattern after its `\[RESULT\].*?` prefix:
   * `(\w+(?:-\w+)+)\s+([\d.]+)\s+(GiB/s|kIOPS)\s+:\s+time\s+([\d.]+)`.
   * Its groups are tokens 0, 2, 4 and 10.
   */
  const ResultBody: seq<Piece> :=
    [TestName, Spaces, Number, Spaces, Choice(["GiB/s", "kIOPS"]), Spaces,
     Lit(":"), Spaces, Lit("time"), Spaces, Number]

  /**
   * `Bandwidth\s+([\d.]+)\s+(GiB/s)\s+:\s+IOPS\s+([\d.]+)\s+(kiops)`.
   * Its groups are tokens 2, 4, 10 and 12.
   */
  const ScorePattern: seq<Piece> :=
    [Lit("Bandwidth"), Spaces, Number, Spaces, Choice(["GiB/s"]), Spaces,
     Lit(":"), Spaces, Lit("IOPS"), Spaces, Number, Spaces, Choice(["kiops"])]

  /** `TOTAL\s+([\d.]+)`; its group is token 2. */
  const TotalPattern: seq<Piece> := [Lit("TOTAL"), Spaces, Number]

  const ResultsHeader: Row := ["Test", "Value", "Unit", "Time (seconds)"]
  const ScoreHeader: Row := ["Score", "Value", "Unit"]
  const TotalHeader: Row := ["Total"]

  /** The three patterns are ones the greedy scanner decides exactly, checked a few pieces at a time. */
  lemma ResultBodyGuarded()
    ensures Guarded(ResultBody)
  {
    ResultBodyGuardedUpTo6();
    ResultBodyGuardedFrom6();
  }

  lemma ResultBodyGuardedUpTo6()
    ensures forall n: nat :: n < 6 ==> GuardedAt(ResultBody, n)
  {
  }

  lemma ResultBodyGuardedFrom6()
    ensures forall n: nat :: 6 <= n < 11 ==> GuardedAt(ResultBody, n)
  {
  }

  lemma ScorePatternGuarded()
    ensures Guarded(ScorePattern)
  {
    ScorePatternGuardedUpTo7();
    ScorePatternGuardedFrom7();
  }

  lemma ScorePatternGuardedUpTo7()
    ensures forall n: nat :: n < 7 ==> GuardedAt(ScorePattern, n)
  {
  }

  lemma ScorePatternGuardedFrom7()
    ensures forall n: nat :: 7 <= n < 13 ==> GuardedAt(ScorePattern, n)
  {
  }

  lemma TotalPatternGuarded()
    ensures Guarded(TotalPattern)
  {
  }

  /** A results data row: test name, value, one of the two units, time. */
  predicate IsResultRow(row: Row)
  {
    && |row| == 4
    && IsTestName(row[0])
    && IsNumber(row[1])
    && (row[2] == "GiB/s" || row[2] == "kIOPS")
    && IsNumber(row[3])
  }

  /** One result record found by `finditer`: where its match starts and ends, and its groups. */
  datatype Record = Record(start: nat, end: nat, row: Row)

  /** `match.groups()` of the results pattern, from the tokens of its body. */
  function ResultGroups(toks: seq<string>): (row: Row)
    requires |toks| == |ResultBody|
    ensures (forall k :: 0 <= k < |toks| ==> Accepts(ResultBody[k], toks[k])) ==> IsResultRow(row)
  {
    assert ResultBody[0] == TestName && ResultBody[2] == Number && ResultBody[10] == Number;
    [toks[0], toks[2], toks[4], toks[10]]
  }

  /**
   * `match.groups()` of the results body, unpacked at line 32 as `test, value,
   * unit, time`: the tokens of its four captured pieces, in order.
   */
  lemma ResultGroupsAreGroups(toks: seq<string>)
    requires |toks| == |ResultBody|
    ensures ResultGroups(toks) == Groups(ResultBody, toks)
  {
    var g := GroupsFrom(ResultBody, toks, 10);
    assert g == [toks[10]];
    assert GroupsFrom(ResultBody, toks, 9) == g;
    assert GroupsFrom(ResultBody, toks, 8) == g;
    assert GroupsFrom(ResultBody, toks, 7) == g;
    assert GroupsFrom(ResultBody, toks, 6) == g;
    assert GroupsFrom(ResultBody, toks, 5) == g;
    assert GroupsFrom(ResultBody, toks, 4) == [toks[4]] + g;
    assert GroupsFrom(ResultBody, toks, 3) == [toks[4]] + g;
    assert GroupsFrom(ResultBody, toks, 2) == [toks[2], toks[4]] + g;
    assert GroupsFrom(ResultBody, toks, 1) == [toks[2], toks[4]] + g;
  }

  /** The score pattern captures tokens 2, 4, 10 and 12: bandwidth, its unit, IOPS and its unit. */
  lemma ScorePatternGroups(toks: seq<string>)
    requires |toks| == |ScorePattern|
    ensures Groups(ScorePattern, toks) == [toks[2], toks[4], toks[10], toks[12]]
  {
    var g := GroupsFrom(ScorePattern, toks, 12);
    assert g == [toks[12]];
    assert GroupsFrom(ScorePattern, toks, 11) == g;
    assert GroupsFrom(ScorePattern, toks, 10) == [toks[10]] + g;
    assert GroupsFrom(ScorePattern, toks, 9) == [toks[10]] + g;
    assert GroupsFrom(ScorePattern, toks, 8) == [toks[10]] + g;
    assert GroupsFrom(ScorePattern, toks, 7) == [toks[10]] + g;
    assert GroupsFrom(ScorePattern, toks, 6) == [toks[10]] + g;
    assert GroupsFrom(ScorePattern, toks, 5) == [toks[10]] + g;
    assert GroupsFrom(ScorePattern, toks, 4) == [toks[4], toks[10]] + g;
    assert GroupsFrom(ScorePattern, toks, 3) == [toks[4], toks[10]] + g;
    assert GroupsFrom(ScorePattern, toks, 2) == [toks[2], toks[4], toks[10]] + g;
    assert GroupsFrom(ScorePattern, toks, 1) == [toks[2], toks[4], toks[10]] + g;
  }

  /** The total pattern captures token 2, the number. */
  lemma TotalPatternGroups(toks: seq<string>)
    requires |toks| == |TotalPattern|
    ensures Groups(TotalPattern, toks) == [toks[2]]
  {
    assert GroupsFrom(TotalPattern, toks, 2) == [toks[2]];
  }

  /** The groups of any derivation of the results body form a results row. */
  lemma ResultGroupsFormRow(s: string, q: nat, toks: seq<string>, j: nat)
    requires Derives(s, q, ResultBody, 0, toks, j)
    ensures |toks| == |ResultBody| && IsResultRow(ResultGroups(toks))
  {
    DerivedTokensAccepted(s, q, ResultBody, 0, toks, j);
    assert Accepts(ResultBody[0], toks[0]) && Accepts(ResultBody[2], toks[2]);
    assert Accepts(ResultBody[4], toks[4]) && Accepts(ResultBody[10], toks[10]);
  }

  /**
   * The results pattern matched exactly as the regular expression would at
   * `p`: the marker, then a filler with no newline up to `q`, then the body.
   */
  ghost predicate IsResultMatch(s: string, p: nat, q: nat, toks: seq<string>, j: nat)
  {
    && LitAt(s, p, Marker)
    && p + |Marker| <= q
    && LineFree(s, p + |Marker|, q)
    && Derives(s, q, ResultBody, 0, toks, j)
  }

  /** The attempt of the results pattern anchored at `p`. */
  function ResultAt(s: string, p: nat): (r: Option<Record>)
    requires p <= |s|
    ensures r.Some? ==> r.value.start == p && LitAt(s, p, Marker)
    ensures r.Some? ==> p + |Marker| < r.value.end <= |s|
    ensures r.Some? ==> IsResultRow(r.value.row)
  {
    if !LitAt(s, p, Marker) then None
    else
      var m := Search(s, p + |Marker|, ResultBody, true);
      if m.None? then None
      else
        ScanSound(s, m.value.start, ResultBody, 0, m.value);
        ResultGroupsFormRow(s, m.value.start, m.value.toks, m.value.end);
        Some(Record(p, m.value.end, ResultGroups(m.value.toks)))
  }

  /** `ResultAt` fails exactly when no filler and body complete a marker at `p`. */
  lemma ResultAtFailsExactly(s: string, p: nat)
    requires p <= |s|
    ensures ResultAt(s, p).None? <==> forall q: nat, toks: seq<string>, j: nat :: !IsResultMatch(s, p, q, toks, j)
  {
    var r := ResultAt(s, p);
    if LitAt(s, p, Marker) {
      var from := p + |Marker|;
      var m := Search(s, from, ResultBody, true);
      if m.Some? {
        ScanSound(s, m.value.start, ResultBody, 0, m.value);
        SearchSkipsNothing(s, from, ResultBody, true);
        SearchStaysOnLine(s, from, ResultBody);
        assert IsResultMatch(s, p, m.value.start, m.value.toks, m.value.end);
      } else {
        ResultBodyGuarded();
        SearchIsLeftmost(s, from, ResultBody, true);
        forall q: nat, toks: seq<string>, j: nat | IsResultMatch(s, p, q, toks, j)
          ensures false
        {
          DerivedTokensAccepted(s, q, ResultBody, 0, toks, j);
        }
      }
    }
  }

  /**
   * The match Python's `re` reports at `p`: the body starts as early as
   * possible after the marker, and ends as late as possible from that start.
   */
  ghost predicate IsLeftmostLongest(s: string, p: nat, q: nat, toks: seq<string>, j: nat)
  {
    && IsResultMatch(s, p, q, toks, j)
    && (forall q': nat :: p + |Marker| <= q' < q ==> !MatchesAt(s, q', ResultBody))
    && (forall toks': seq<string>, j': nat :: Derives(s, q, ResultBody, 0, toks', j') ==> j' <= j)
  }

  /** A successful `ResultAt` is that match, and its row holds the body's groups. */
  lemma ResultAtIsRegexMatch(s: string, p: nat)
    requires p <= |s| && ResultAt(s, p).Some?
    ensures
      exists q: nat, toks: seq<string> ::
        IsLeftmostLongest(s, p, q, toks, ResultAt(s, p).value.end) && ResultAt(s, p).value.row == ResultGroups(toks)
  {
    var from := p + |Marker|;
    ResultBodyGuarded();
    SearchIsLeftmost(s, from, ResultBody, true);
    SearchStaysOnLine(s, from, ResultBody);
    var m := Search(s, from, ResultBody, true);
    var q, toks, j := m.value.start, m.value.toks, m.value.end;
    assert ResultAt(s, p) == Some(Record(p, j, ResultGroups(toks)));
    assert IsResultMatch(s, p, q, toks, j);
    BodyScanIsLongest(s, q);
    assert IsLeftmostLongest(s, p, q, toks, j);
  }

  /** No derivation of the results body from `q` ends after the one the scanner finds. */
  lemma BodyScanIsLongest(s: string, q: nat)
    requires q <= |s| && Scan(s, q, ResultBody, 0).Some?
    ensures forall toks: seq<string>, j: nat :: Derives(s, q, ResultBody, 0, toks, j) ==> j <= Scan(s, q, ResultBody, 0).value.end
  {
    ResultBodyGuarded();
    forall toks: seq<string>, j: nat | Derives(s, q, ResultBody, 0, toks, j)
      ensures j <= Scan(s, q, ResultBody, 0).value.end
    {
      var _ := ScanFindsLongest(s, q, ResultBody, 0, toks, j);
    }
  }

  /**
   * `finditer` from position `from`: the leftmost match, then the matches
   * from where it ended, so matches never overlap.
   */
  function FindAll(s: string, from: nat): (rs: seq<Record>)
    requires from <= |s|
    ensures forall k :: 0 <= k < |rs| ==>
      from <= rs[k].start < rs[k].end <= |s| && ResultAt(s, rs[k].start) == Some(rs[k])
    ensures forall k :: 0 <= k < |rs| - 1 ==> rs[k].end <= rs[k + 1].start
    decreases |s| - from
  {
    if from == |s| then []
    else
      var here := ResultAt(s, from);
      if here.Some? then
        var rest := FindAll(s, here.value.end);
        var rs := [here.value] + rest;
        assert forall k :: 0 < k < |rs| ==> rs[k] == rest[k - 1];
        rs
      else FindAll(s, from + 1)
  }

  /** Some record of `rs` spans position `p`. */
  predicate Covers(rs: seq<Record>, p: nat)
  {
    exists k :: 0 <= k < |rs| && rs[k].start <= p < rs[k].end
  }

  /** A list of records covers `p` when its first record or its remaining records do. */
  lemma CoversCons(h: Record, tail: seq<Record>, p: nat)
    requires h.start <= p < h.end || Covers(tail, p)
    ensures Covers([h] + tail, p)
  {
    var rs := [h] + tail;
    if !(h.start <= p < h.end) {
      var k :| 0 <= k < |tail| && tail[k].start <= p < tail[k].end;
      assert rs[k + 1] == tail[k];
    } else {
      assert rs[0] == h;
    }
  }

  /** Every position where the results pattern matches is a match `finditer` reports or lies inside one. */
  lemma {:induction false} FindAllMissesNothing(s: string, from: nat)
    requires from <= |s|
    ensures forall p: nat :: from <= p <= |s| && ResultAt(s, p).Some? ==> Covers(FindAll(s, from), p)
    decreases |s| - from
  {
    var rs := FindAll(s, from);
    if from == |s| {
      assert !LitAt(s, from, Marker);
      assert ResultAt(s, from).None?;
    } else {
      var here := ResultAt(s, from);
      if here.Some? {
        var e := here.value.end;
        FindAllMissesNothing(s, e);
        var tail := FindAll(s, e);
        assert rs == [here.value] + tail;
        forall p: nat | from <= p <= |s| && ResultAt(s, p).Some?
          ensures Covers(rs, p)
        {
          CoversCons(here.value, tail, p);
        }
      } else {
        forall p: nat | from <= p <= |s| && ResultAt(s, p).Some?
          ensures Covers(rs, p)
        {
          assert p != from;
          FindAllMissesNothing(s, from + 1);
        }
      }
    }
  }

  /** Text with no marker at or after `from` yields no records from there on. */
  lemma {:induction false} NoMarkerNoRecords(s: string, from: nat)
    requires from <= |s|
    requires forall p: nat :: from <= p <= |s| ==> !LitAt(s, p, Marker)
    ensures FindAll(s, from) == []
    decreases |s| - from
  {
    if from < |s| {
      NoMarkerNoRecords(s, from + 1);
    }
  }

  /** The rows of the records, in order. */
  function Rows(rs: seq<Record>): (rows: seq<Row>)
    ensures |rows| == |rs| && forall k :: 0 <= k < |rs| ==> rows[k] == rs[k].row
  {
    seq(|rs|, k requires 0 <= k < |rs| => rs[k].row)
  }

  /** `parse_results_to_csv`: the header, then one row per match in document order. */
  function ResultsTable(s: string): (t: Table)
    ensures |t| >= 1 && t[0] == ResultsHeader
    ensures forall k :: 1 <= k < |t| ==> IsResultRow(t[k])
    ensures |t| == |FindAll(s, 0)| + 1
    ensures forall k :: 0 <= k < |FindAll(s, 0)| ==> t[k + 1] == FindAll(s, 0)[k].row
  {
    var rs := FindAll(s, 0);
    var t := [ResultsHeader] + Rows(rs);
    assert forall k :: 0 <= k < |rs| ==> t[k + 1] == Rows(rs)[k];
    t
  }

  /** A report without any `[RESULT]` marker gives the header alone. */
  lemma ResultsHeaderOnly(s: string)
    requires forall p: nat :: 0 <= p <= |s| ==> !LitAt(s, p, Marker)
    ensures ResultsTable(s) == [ResultsHeader]
  {
    NoMarkerNoRecords(s, 0);
  }

  /** `parse_score_to_csv`: the three-row score table from the first match, or nothing. */
  function ScoreTable(line: string): (t: Table)
    ensures t == [] || (|t| == 3 && t[0] == ScoreHeader)
    ensures t != [] ==>
      && |t[1]| == 3 && t[1][0] == "Bandwidth" && IsNumber(t[1][1]) && t[1][2] == "GiB/s"
      && |t[2]| == 3 && t[2][0] == "IOPS" && IsNumber(t[2][1]) && t[2][2] == "kiops"
  {
    var m := Search(line, 0, ScorePattern, false);
    if m.None? then []
    else
      var toks := m.value.toks;
      ScanSound(line, m.value.start, ScorePattern, 0, m.value);
      DerivedTokensAccepted(line, m.value.start, ScorePattern, 0, toks, m.value.end);
      assert ScorePattern[2] == Number && ScorePattern[4] == Choice(["GiB/s"]);
      assert ScorePattern[10] == Number && ScorePattern[12] == Choice(["kiops"]);
      [ScoreHeader, ["Bandwidth", toks[2], toks[4]], ["IOPS", toks[10], toks[12]]]
  }

  /** The score table built from `bandwidth, bandwidth_unit, iops, iops_unit`. */
  function ScoreRows(g: seq<string>): Table
    requires |g| == 4
  {
    [ScoreHeader, ["Bandwidth", g[0], g[1]], ["IOPS", g[2], g[3]]]
  }

  /**
   * The score table is empty exactly when the score pattern matches nowhere
   * in the line; otherwise it is built from the groups of the leftmost match.
   */
  lemma ScoreTableIsFirstMatch(line: string)
    ensures ScoreTable(line) == [] <==> forall p: nat :: 0 <= p <= |line| ==> !MatchesAt(line, p, ScorePattern)
    ensures ScoreTable(line) != [] ==>
      exists p: nat, toks: seq<string>, j: nat ::
        && IsFirstMatch(line, ScorePattern, p, toks, j)
        && |Groups(ScorePattern, toks)| == 4
        && ScoreTable(line) == ScoreRows(Groups(ScorePattern, toks))
  {
    ScorePatternGuarded();
    SearchIsLeftmost(line, 0, ScorePattern, false);
    var m := Search(line, 0, ScorePattern, false);
    if m.Some? {
      var p, toks, j := m.value.start, m.value.toks, m.value.end;
      ScorePatternGroups(toks);
      assert ScoreTable(line) == ScoreRows([toks[2], toks[4], toks[10], toks[12]]);
      assert Derives(line, p, ScorePattern, 0, toks, j);
      assert IsFirstMatch(line, ScorePattern, p, toks, j);
    }
  }

  /** `parse_total_to_csv`: `[["Total"], [v]]` from the first match, or nothing. */
  function TotalTable(line: string): (t: Table)
    ensures t == [] || (|t| == 2 && t[0] == TotalHeader && |t[1]| == 1 && IsNumber(t[1][0]))
  {
    var m := Search(line, 0, TotalPattern, false);
    if m.None? then []
    else
      ScanSound(line, m.value.start, TotalPattern, 0, m.value);
      DerivedTokensAccepted(line, m.value.start, TotalPattern, 0, m.value.toks, m.value.end);
      assert TotalPattern[2] == Number;
      [TotalHeader, [m.value.toks[2]]]
  }

  /**
   * The total table is empty exactly when no `TOTAL`, white space and
   * digit/dot run occurs in the line; otherwise its value is the whole
   * digit/dot run of the leftmost occurrence.
   */
  lemma TotalTableIsFirstMatch(line: string)
    ensures TotalTable(line) == [] <==> forall p: nat :: 0 <= p <= |line| ==> !MatchesAt(line, p, TotalPattern)
    ensures TotalTable(line) != [] ==>
      exists p: nat, toks: seq<string>, j: nat ::
        && IsFirstMatch(line, TotalPattern, p, toks, j)
        && TotalTable(line) == [TotalHeader, [Groups(TotalPattern, toks)[0]]]
        && (j < |line| ==> !IsDigitOrDot(line[j]))
  {
    TotalPatternGuarded();
    SearchIsLeftmost(line, 0, TotalPattern, false);
    var m := Search(line, 0, TotalPattern, false);
    if m.Some? {
      var p, toks, j := m.value.start, m.value.toks, m.value.end;
      TotalPatternGroups(toks);
      assert TotalTable(line) == [TotalHeader, [toks[2]]];
      ScanEndsRun(line, p, TotalPattern, 0);
      assert TotalPattern[|TotalPattern| - 1] == Number;
      assert Derives(line, p, TotalPattern, 0, toks, j);
      assert j < |line| ==> !IsDigitOrDot(line[j]);
      assert IsFirstMatch(line, TotalPattern, p, toks, j);
    }
  }

  /** No field of the table needs quoting when written as CSV. */
  predicate IsPlainTable(t: Table)
  {
    forall k, f :: 0 <= k < |t| && 0 <= f < |t[k]| ==> IsPlainField(t[k][f])
  }

  /** Every field of the results table is a header literal, a test name, a number or a unit, none of which csv.writer quotes. */
  lemma ResultsTableIsPlain(report: string)
    ensures IsPlainTable(ResultsTable(report))
  {
    var t := ResultsTable(report);
    forall k, f | 0 <= k < |t| && 0 <= f < |t[k]|
      ensures IsPlainField(t[k][f])
    {
      if k > 0 {
        ResultRowIsPlain(t[k], f);
      }
    }
  }

  lemma ResultRowIsPlain(row: Row, f: nat)
    requires IsResultRow(row) && f < |row|
    ensures IsPlainField(row[f])
  {
    if f == 0 {
      TestNameIsPlain(row[0]);
    } else if f != 2 {
      NumberIsPlain(row[f]);
    }
  }

  /** Every field of the score table is a literal or a captured number. */
  lemma ScoreTableIsPlain(line: string)
    ensures IsPlainTable(ScoreTable(line))
  {
    var t := ScoreTable(line);
    if t != [] {
      NumberIsPlain(t[1][1]);
      NumberIsPlain(t[2][1]);
      assert IsPlainField(t[1][2]) && IsPlainField(t[2][2]);
    }
  }

  /** Every field of the total table is a literal or a captured number. */
  lemma TotalTableIsPlain(line: string)
    ensures IsPlainTable(TotalTable(line))
  {
    var t := TotalTable(line);
    if t != [] {
      NumberIsPlain(t[1][0]);
    }
  }
}
