/**
 * The names of the three CSV files the converter writes, derived from the
 * directory and the file name of the report. The report's base name is the
 * file name with `.txt` removed, and the per-test results go to
 * `<dir>/daos_io500_<base>.csv`; the score and total files have fixed names in
 * the same directory.
 */
module OutputNames {
  import opened Basics

  const Txt: string := ".txt"
  const Prefix: string := "/daos_io500_"
  const Csv: string := ".csv"

  /** `t` occurs in `s` at some position. */
  ghost predicate Occurs(s: string, t: string)
  {
    exists i: nat :: LitAt(s, i, t)
  }

  /** An occurrence in the tail of `s` is one in `s`, one position further on. */
  lemma OccursInTail(s: string, t: string, i: nat)
    requires |s| > 0 && LitAt(s[1..], i, t)
    ensures LitAt(s, i + 1, t)
  {
    assert s[i + 1..i + 1 + |t|] == s[1..][i..i + |t|];
  }

  /**
   * Python's `s.replace(t, '')`: scanning from the left, every occurrence of
   * `t` is dropped and the scan resumes after it, so occurrences never overlap.
   */
  function RemoveAll(s: string, t: string): (r: string)
    requires |t| > 0
    ensures |r| <= |s|
    decreases |s|
  {
    if |s| < |t| then s
    else if s[..|t|] == t then RemoveAll(s[|t|..], t)
    else [s[0]] + RemoveAll(s[1..], t)
  }

  /** Text in which `t` does not occur comes back unchanged. */
  lemma {:induction false} RemoveAllKeepsFreeText(s: string, t: string)
    requires |t| > 0 && !Occurs(s, t)
    ensures RemoveAll(s, t) == s
    decreases |s|
  {
    if |s| >= |t| {
      assert !LitAt(s, 0, t);
      assert !Occurs(s[1..], t) by {
        if Occurs(s[1..], t) {
          var i: nat :| LitAt(s[1..], i, t);
          OccursInTail(s, t, i);
        }
      }
      RemoveAllKeepsFreeText(s[1..], t);
      assert [s[0]] + s[1..] == s;
    }
  }

  /** Removing an occurring `t` shortens the text by at least `|t|`. */
  lemma {:induction false} RemoveAllShortens(s: string, t: string)
    requires |t| > 0 && Occurs(s, t)
    ensures |RemoveAll(s, t)| <= |s| - |t|
    decreases |s|
  {
    var i: nat :| LitAt(s, i, t);
    if s[..|t|] != t {
      assert i > 0;
      assert s[1..][i - 1..i - 1 + |t|] == s[i..i + |t|];
      assert LitAt(s[1..], i - 1, t);
      RemoveAllShortens(s[1..], t);
    }
  }

  /** `replace` leaves the text unchanged exactly when `t` does not occur in it. */
  lemma RemoveAllUnchanged(s: string, t: string)
    requires |t| > 0
    ensures RemoveAll(s, t) == s <==> !Occurs(s, t)
  {
    if Occurs(s, t) {
      RemoveAllShortens(s, t);
    } else {
      RemoveAllKeepsFreeText(s, t);
    }
  }

  /** The base name of the report: the file name with every `.txt` removed. */
  function BaseName(file: string): (base: string)
    ensures |base| <= |file|
    ensures base == file <==> !Occurs(file, Txt)
  {
    RemoveAllUnchanged(file, Txt);
    RemoveAll(file, Txt)
  }

  /** A name without `.txt` in it, with `.txt` appended, has exactly that suffix stripped. */
  lemma {:induction false} BaseNameStripsSuffix(name: string)
    requires !Occurs(name, Txt)
    ensures BaseName(name + Txt) == name
    decreases |name|
  {
    var u := name + Txt;
    if name == [] {
      assert u == Txt;
      assert u[|Txt|..] == [];
    } else {
      assert u[..|Txt|] != Txt by {
        if |name| >= |Txt| {
          assert u[..|Txt|] == name[0..|Txt|];
          assert !LitAt(name, 0, Txt);
        } else {
          // `.txt` has no proper border: its dot does not reappear inside it
          assert u[..|Txt|][|name|] == Txt[0] != Txt[|name|];
        }
      }
      assert !Occurs(name[1..], Txt) by {
        if Occurs(name[1..], Txt) {
          var i: nat :| LitAt(name[1..], i, Txt);
          OccursInTail(name, Txt, i);
        }
      }
      BaseNameStripsSuffix(name[1..]);
      assert u[1..] == name[1..] + Txt;
      assert [name[0]] + name[1..] == name;
    }
  }

  /** `<dir>/daos_io500_<stem>.csv`: a `.csv` file in `dir` whose name has the fixed prefix. */
  function CsvPath(dir: string, stem: string): (path: string)
    ensures LitAt(path, 0, dir + Prefix)
    ensures |Csv| <= |path| && path[|path| - |Csv|..] == Csv
  {
    var path := dir + Prefix + stem + Csv;
    assert path == (dir + Prefix) + (stem + Csv);
    path
  }

  /** The stem of a path in `dir` of the shape `CsvPath` builds, if it has that shape. */
  function CsvStem(dir: string, path: string): (r: Option<string>)
    ensures r.Some? ==> |r.value| + |dir| + |Prefix| + |Csv| == |path|
  {
    var pre := dir + Prefix;
    if |path| >= |pre| + |Csv| && path[..|pre|] == pre && path[|path| - |Csv|..] == Csv
    then Some(path[|pre|..|path| - |Csv|])
    else None
  }

  /** `CsvStem` undoes `CsvPath`. */
  lemma CsvStemOfPath(dir: string, stem: string)
    ensures CsvStem(dir, CsvPath(dir, stem)) == Some(stem)
  {
    var path := CsvPath(dir, stem);
    var pre := dir + Prefix;
    assert path == pre + stem + Csv;
    assert path[..|pre|] == pre;
    assert path[|path| - |Csv|..] == Csv;
    assert path[|pre|..|path| - |Csv|] == stem;
  }

  /** And `CsvPath` undoes `CsvStem`: a path with a stem is the path of that stem. */
  lemma CsvPathOfStem(dir: string, path: string)
    requires CsvStem(dir, path).Some?
    ensures CsvPath(dir, CsvStem(dir, path).value) == path
  {
    var pre := dir + Prefix;
    var stem := CsvStem(dir, path).value;
    assert path == path[..|pre|] + path[|pre|..|path| - |Csv|] + path[|path| - |Csv|..];
  }

  /** Two stems give the same path in the same directory only when they are equal. */
  lemma CsvPathInjective(dir: string, a: string, b: string)
    ensures CsvPath(dir, a) == CsvPath(dir, b) <==> a == b
  {
    CsvStemOfPath(dir, a);
    CsvStemOfPath(dir, b);
  }

  /** The three files the converter writes. */
  datatype OutputPaths = OutputPaths(results: string, score: string, total: string)

  /**
   * The output names for a report `file` in directory `dir`: the results
   * path carries the base name, the score and total paths carry the fixed
   * stems `score` and `total`.
   */
  function DeriveOutputPaths(dir: string, file: string): (paths: OutputPaths)
    ensures paths.score == dir + "/daos_io500_score.csv"
    ensures paths.total == dir + "/daos_io500_total.csv"
    ensures LitAt(paths.results, 0, dir + Prefix)
  {
    CsvPathInDir(dir, "score");
    CsvPathInDir(dir, "total");
    assert Prefix + "score" + Csv == "/daos_io500_score.csv";
    assert Prefix + "total" + Csv == "/daos_io500_total.csv";
    OutputPaths(CsvPath(dir, BaseName(file)), CsvPath(dir, "score"), CsvPath(dir, "total"))
  }

  /** Each derived path gives back its stem: the base name, `score` and `total`. */
  lemma DerivedStems(dir: string, file: string)
    ensures CsvStem(dir, DeriveOutputPaths(dir, file).results) == Some(BaseName(file))
    ensures CsvStem(dir, DeriveOutputPaths(dir, file).score) == Some("score")
    ensures CsvStem(dir, DeriveOutputPaths(dir, file).total) == Some("total")
  {
    CsvStemOfPath(dir, BaseName(file));
    CsvStemOfPath(dir, "score");
    CsvStemOfPath(dir, "total");
  }

  /** The score and total paths do not depend on the report's file name. */
  lemma FixedPathsIgnoreFile(dir: string, f: string, g: string)
    ensures DeriveOutputPaths(dir, f).score == DeriveOutputPaths(dir, g).score
    ensures DeriveOutputPaths(dir, f).total == DeriveOutputPaths(dir, g).total
    ensures DeriveOutputPaths(dir, f).score != DeriveOutputPaths(dir, f).total
  {
    CsvPathInjective(dir, "score", "total");
  }

  /**
   * The results file is written over the score file exactly when the base
   * name is `score`, and over the total file exactly when it is `total`.
   */
  lemma ResultsPathCollides(dir: string, file: string)
    ensures DeriveOutputPaths(dir, file).results == DeriveOutputPaths(dir, file).score <==> BaseName(file) == "score"
    ensures DeriveOutputPaths(dir, file).results == DeriveOutputPaths(dir, file).total <==> BaseName(file) == "total"
  {
    CsvPathInjective(dir, BaseName(file), "score");
    CsvPathInjective(dir, BaseName(file), "total");
  }

  /** `replace` keeps a first character that does not start an occurrence. */
  lemma RemoveAllKeepsFirst(s: string, t: string)
    requires |t| > 0 && |s| > 0 && !LitAt(s, 0, t)
    ensures RemoveAll(s, t) == [s[0]] + RemoveAll(s[1..], t)
  {
  }

  /** `replace` drops an occurrence at the start and carries on after it. */
  lemma RemoveAllDropsFirst(s: string, t: string)
    requires |t| > 0 && LitAt(s, 0, t)
    ensures RemoveAll(s, t) == RemoveAll(s[|t|..], t)
  {
  }

  /**
   * `replace` from the left: the text before the first occurrence of `t` is
   * kept, that occurrence is dropped, and the scan carries on after it.
   */
  lemma {:induction false} RemoveAllAtFirst(s: string, t: string, i: nat)
    requires |t| > 0 && LitAt(s, i, t)
    requires forall h: nat :: h < i ==> !LitAt(s, h, t)
    ensures RemoveAll(s, t) == s[..i] + RemoveAll(s[i + |t|..], t)
    decreases i
  {
    if i == 0 {
      RemoveAllDropsFirst(s, t);
      assert s[..0] + RemoveAll(s[|t|..], t) == RemoveAll(s[|t|..], t);
    } else {
      FirstOccurrenceInTail(s, t, i);
      RemoveAllAtFirst(s[1..], t, i - 1);
      assert s[1..][i - 1 + |t|..] == s[i + |t|..];
      RemoveAllKeepsPrefix(s, t, i, RemoveAll(s[i + |t|..], t));
    }
  }

  /** The first occurrence of `t` at `i > 0` is the first occurrence at `i - 1` in the tail. */
  lemma FirstOccurrenceInTail(s: string, t: string, i: nat)
    requires 0 < i && LitAt(s, i, t)
    requires forall h: nat :: h < i ==> !LitAt(s, h, t)
    ensures LitAt(s[1..], i - 1, t)
    ensures forall h: nat :: h < i - 1 ==> !LitAt(s[1..], h, t)
  {
    var u := s[1..];
    assert u[i - 1..i - 1 + |t|] == s[i..i + |t|];
    forall h: nat | h < i - 1
      ensures !LitAt(u, h, t)
    {
      assert !LitAt(s, h + 1, t);
      if h + |t| <= |u| {
        assert u[h..h + |t|] == s[h + 1..h + 1 + |t|];
      }
    }
  }

  /** A first character that starts no occurrence is kept in front of the tail's result. */
  lemma RemoveAllKeepsPrefix(s: string, t: string, i: nat, after: string)
    requires |t| > 0 && 0 < i <= |s| && !LitAt(s, 0, t)
    requires RemoveAll(s[1..], t) == s[1..][..i - 1] + after
    ensures RemoveAll(s, t) == s[..i] + after
  {
    var kept := s[1..][..i - 1];
    assert s[..i] == [s[0]] + kept;
    calc {
      RemoveAll(s, t);
      { RemoveAllKeepsFirst(s, t); }
      [s[0]] + RemoveAll(s[1..], t);
      [s[0]] + (kept + after);
      ([s[0]] + kept) + after;
    }
  }

  /** A name without a dot contains no `.txt`. */
  lemma NoDotNoTxt(name: string)
    requires forall k :: 0 <= k < |name| ==> name[k] != '.'
    ensures !Occurs(name, Txt)
  {
    forall i: nat
      ensures !LitAt(name, i, Txt)
    {
      if i + |Txt| <= |name| {
        assert name[i..i + |Txt|][0] == name[i];
      }
    }
  }

  /**
   * The example `run1.txt`, in any directory: results in
   * `daos_io500_run1.csv`, beside the fixed score and total files.
   */
  lemma ExampleRun1(dir: string, file: string)
    requires file == "run1.txt"
    ensures DeriveOutputPaths(dir, file)
      == OutputPaths(dir + "/daos_io500_run1.csv", dir + "/daos_io500_score.csv", dir + "/daos_io500_total.csv")
  {
    NoDotNoTxt("run1");
    BaseNameStripsSuffix("run1");
    assert file == "run1" + Txt;
    assert Prefix + "run1" + Csv == "/daos_io500_run1.csv";
    CsvPathInDir(dir, "run1");
  }

  /** A CSV path is the directory followed by the file name. */
  lemma CsvPathInDir(dir: string, stem: string)
    ensures CsvPath(dir, stem) == dir + (Prefix + stem + Csv)
  {
  }

  /** Every `.txt` goes, not only a trailing one. */
  lemma ExampleRemovesInnerTxt(file: string)
    requires file == "a.txt.b.txt"
    ensures BaseName(file) == "a.b"
  {
    assert file[0] != Txt[0] && file[6] != Txt[0];
    RemoveAllKeepsFirst(file, Txt);
    RemoveAllDropsFirst(file[1..], Txt);
    assert file[1..][4..] == file[5..];
    RemoveAllKeepsFirst(file[5..], Txt);
    RemoveAllKeepsFirst(file[6..], Txt);
    RemoveAllDropsFirst(file[7..], Txt);
    assert file[11..] == [];
  }

  /**
   * Removal can create a new `.txt`: `a..txttxt` becomes `a.txt`, and
   * removing again gives `a`, so a base name need not be its own base name.
   */
  lemma ExampleNotIdempotent(file: string)
    requires file == "a..txttxt"
    ensures BaseName(file) == "a.txt"
    ensures BaseName(BaseName(file)) == "a"
  {
    assert file[0] != Txt[0] && file[2] != Txt[1];
    RemoveAllKeepsFirst(file, Txt);
    RemoveAllKeepsFirst(file[1..], Txt);
    RemoveAllDropsFirst(file[2..], Txt);
    assert file[2..][4..] == file[6..] == "txt";
    var h := BaseName(file);
    assert h[0] != Txt[0];
    RemoveAllKeepsFirst(h, Txt);
    RemoveAllDropsFirst(h[1..], Txt);
    assert h[5..] == [];
  }

  /** A report given without a directory part gets its results path directly under the root directory. */
  lemma EmptyDirectoryMeansRoot(file: string)
    ensures DeriveOutputPaths("", file).results == Prefix + BaseName(file) + Csv
    ensures DeriveOutputPaths("", file).results[..1] == "/"
  {
    assert "" + Prefix == Prefix;
  }
}
