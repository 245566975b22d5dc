/**
 * The converter's regular expressions are linear sequences of pieces: literal
 * text, an alternation of literals, and greedy runs (`\s+`, `[\d.]+` and the
 * test name `\w+(?:-\w+)+`). This module gives such patterns two meanings:
 *
 *  - `Derives`, the declarative one: the text from position i to j splits into
 *    one token per piece, each token a text its piece matches;
 *  - `Scan`, the operational one: take each literal, or the longest run of the
 *    piece's class, and never go back.
 *
 * Python's engine backtracks, trying longer runs first. When every run is
 * followed by a piece that cannot start with a character of the run's class
 * (`Guarded`), no shorter run can lead to a match, so the engine's first
 * success is the one `Scan` finds: `ScanFindsLongest` proves that `Scan`
 * succeeds whenever any derivation exists, and returns the longest one.
 */
module Pattern {
  import opened Basics
  import opened CharClasses

  datatype Piece =
    | Lit(text: string)          // literal text, not captured
    | Choice(alts: seq<string>)  // `(a|b)`: one of the literals, captured
    | Spaces                     // `\s+`
    | Number                     // `([\d.]+)`, captured
    | TestName                   // `(\w+(?:-\w+)+)`, captured

  /** An attempt of a pattern anchored at `start` that succeeded, consuming up to `end`. */
  datatype Match = Match(start: nat, end: nat, toks: seq<string>)

  predicate IsRun(p: Piece)
  {
    p.Spaces? || p.Number? || p.TestName?
  }

  function ClassOf(p: Piece): Class
    requires IsRun(p)
  {
    match p
    case Spaces => Space
    case Number => DigitOrDot
    case TestName => NameChar
  }

  /** The texts a single piece matches. */
  predicate Accepts(p: Piece, t: string)
  {
    match p
    case Lit(x) => t == x
    case Choice(alts) => t in alts
    case Spaces => |t| > 0 && AllIn(Space, t)
    case Number => IsNumber(t)
    case TestName => IsTestName(t)
  }

  /** The pieces a pattern captures as groups: the alternations and the number and name runs. */
  predicate Captured(p: Piece)
  {
    p.Choice? || p.Number? || p.TestName?
  }

  /** `match.groups()` from piece `n` on: the tokens of the captured pieces, in pattern order. */
  function GroupsFrom(pat: seq<Piece>, toks: seq<string>, n: nat): (g: seq<string>)
    requires n <= |pat| && |toks| == |pat|
    ensures |g| <= |pat| - n
    decreases |pat| - n
  {
    if n == |pat| then []
    else (if Captured(pat[n]) then [toks[n]] else []) + GroupsFrom(pat, toks, n + 1)
  }

  /** `match.groups()` of a whole match. */
  function Groups(pat: seq<Piece>, toks: seq<string>): seq<string>
    requires |toks| == |pat|
  {
    GroupsFrom(pat, toks, 0)
  }

  /**
   * `s[i..j]` is the concatenation of `toks`, and each token is matched by its
   * piece: `toks[0]` by `pat[n]`, `toks[1]` by `pat[n + 1]`, and so on to the end
   * of the pattern. A whole pattern is derived from piece 0.
   */
  predicate Derives(s: string, i: nat, pat: seq<Piece>, n: nat, toks: seq<string>, j: nat)
    requires n <= |pat|
    decreases |toks|
  {
    && |toks| == |pat| - n
    && if n == |pat| then j == i <= |s|
       else LitAt(s, i, toks[0]) && Accepts(pat[n], toks[0])
            && Derives(s, i + |toks[0]|, pat, n + 1, toks[1..], j)
  }

  /** Some derivation of `pat` starts at `i`: the pattern matches when anchored there. */
  ghost predicate MatchesAt(s: string, i: nat, pat: seq<Piece>)
  {
    exists toks: seq<string>, j: nat :: Derives(s, i, pat, 0, toks, j)
  }

  /** A derivation from `p` where the pattern matches nowhere earlier: the match a leftmost search reports. */
  ghost predicate IsFirstMatch(s: string, pat: seq<Piece>, p: nat, toks: seq<string>, j: nat)
  {
    && Derives(s, p, pat, 0, toks, j)
    && forall q: nat :: q < p ==> !MatchesAt(s, q, pat)
  }

  /** A derivation covers the text it spans and respects every piece. */
  lemma {:induction false} DerivedTokensAccepted(s: string, i: nat, pat: seq<Piece>, n: nat, toks: seq<string>, j: nat)
    requires n <= |pat| && Derives(s, i, pat, n, toks, j)
    ensures i <= j <= |s|
    ensures |toks| == |pat| - n
    ensures forall h :: 0 <= h < |toks| ==> Accepts(pat[n + h], toks[h])
    decreases |pat| - n
  {
    if n < |pat| {
      DerivedTokensAccepted(s, i + |toks[0]|, pat, n + 1, toks[1..], j);
      forall h | 0 < h < |toks|
        ensures Accepts(pat[n + h], toks[h])
      {
        assert toks[h] == toks[1..][h - 1];
      }
    }
  }

  /** The end of the longest run of class `k` starting at `i`. */
  function RunEnd(s: string, i: nat, k: Class): (e: nat)
    requires i <= |s|
    ensures i <= e <= |s|
    ensures forall j {:trigger In(k, s[j])} :: i <= j < e ==> In(k, s[j])
    ensures e == |s| || !In(k, s[e])
    decreases |s| - i
  {
    if i < |s| && In(k, s[i]) then RunEnd(s, i + 1, k) else i
  }

  /** The first alternative occurring at `i`, as an alternation tries them. */
  function FirstAlt(s: string, i: nat, alts: seq<string>): (r: Option<string>)
    ensures r.Some? ==> r.value in alts && LitAt(s, i, r.value)
    ensures r.None? ==> forall a :: a in alts ==> !LitAt(s, i, a)
    decreases |alts|
  {
    if alts == [] then None
    else if LitAt(s, i, alts[0]) then Some(alts[0])
    else FirstAlt(s, i, alts[1..])
  }

  /** The token one piece takes at `i`: the literal, or the longest run, checked against the piece. */
  function TokenAt(s: string, i: nat, p: Piece): (r: Option<string>)
    requires i <= |s|
    ensures r.Some? ==> LitAt(s, i, r.value)
  {
    match p
    case Lit(t) => if LitAt(s, i, t) then Some(t) else None
    case Choice(alts) => FirstAlt(s, i, alts)
    case _ =>
      var e := RunEnd(s, i, ClassOf(p));
      if Accepts(p, s[i..e]) then Some(s[i..e]) else None
  }

  /** A token `TokenAt` returns is one its piece accepts. */
  lemma TokenAtAccepted(s: string, i: nat, p: Piece)
    requires i <= |s| && TokenAt(s, i, p).Some?
    ensures Accepts(p, TokenAt(s, i, p).value)
  {
  }

  /** Greedy scanning of the pieces of `pat` from `n` on, anchored at `i`, without backtracking. */
  function Scan(s: string, i: nat, pat: seq<Piece>, n: nat): (r: Option<Match>)
    requires i <= |s| && n <= |pat|
    ensures r.Some? ==> r.value.start == i && i <= r.value.end <= |s| && |r.value.toks| == |pat| - n
    decreases |pat| - n, |s| - i
  {
    if n == |pat| then Some(Match(i, i, []))
    else
      var tok := TokenAt(s, i, pat[n]);
      if tok.None? then None
      else
        var t := tok.value;
        var rest := Scan(s, i + |t|, pat, n + 1);
        if rest.None? then None
        else Some(Match(i, rest.value.end, [t] + rest.value.toks))
  }

  /** One step of `Scan`: a token at `i`, then the scan of the remaining pieces after it. */
  lemma ScanStep(s: string, i: nat, pat: seq<Piece>, n: nat, t: string)
    requires i <= |s| && n < |pat| && TokenAt(s, i, pat[n]) == Some(t)
    ensures Scan(s, i, pat, n).Some? <==> Scan(s, i + |t|, pat, n + 1).Some?
    ensures Scan(s, i, pat, n).Some? ==>
      var r := Scan(s, i + |t|, pat, n + 1).value;
      Scan(s, i, pat, n).value == Match(i, r.end, [t] + r.toks)
  {
  }

  /** Soundness of the scanner: what it returns is a derivation. */
  lemma {:induction false} ScanSound(s: string, i: nat, pat: seq<Piece>, n: nat, m: Match)
    requires i <= |s| && n <= |pat| && Scan(s, i, pat, n) == Some(m)
    ensures Derives(s, i, pat, n, m.toks, m.end)
    decreases |pat| - n
  {
    if n < |pat| {
      var t := TokenAt(s, i, pat[n]).value;
      TokenAtAccepted(s, i, pat[n]);
      ScanStep(s, i, pat, n, t);
      var r := Scan(s, i + |t|, pat, n + 1).value;
      ScanSound(s, i + |t|, pat, n + 1, r);
      assert m.toks[0] == t && m.toks[1..] == r.toks;
    }
  }

  /** Of two alternatives occurring at the same place, neither is a proper prefix of the other. */
  predicate PrefixFree(alts: seq<string>)
  {
    forall a, b :: a in alts && b in alts && |a| <= |b| && a == b[..|a|] ==> a == b
  }

  /** Every text `p` matches is non-empty and starts outside class `k`. */
  predicate StartsOutside(p: Piece, k: Class)
  {
    match p
    case Lit(t) => |t| > 0 && !In(k, t[0])
    case Choice(alts) => forall a :: a in alts ==> |a| > 0 && !In(k, a[0])
    case Spaces => k != Space
    case Number => k == Space
    case TestName => k == Space
  }

  /** Piece `n` of `pat` is one the greedy scanner decides exactly. */
  predicate GuardedAt(pat: seq<Piece>, n: nat)
    requires n < |pat|
  {
    && (pat[n].Choice? ==> PrefixFree(pat[n].alts))
    && (pat[n].TestName? ==> n + 1 < |pat|)
    && (IsRun(pat[n]) && n + 1 < |pat| ==> StartsOutside(pat[n + 1], ClassOf(pat[n])))
  }

  /**
   * Patterns the greedy scanner decides exactly, piece by piece:
   * alternations are prefix-free, a test name is never last, and each run is
   * followed by a piece that starts outside the run's class.
   */
  predicate Guarded(pat: seq<Piece>)
  {
    forall n: nat :: n < |pat| ==> GuardedAt(pat, n)
  }

  /** A derivation whose first piece starts outside `k` begins with a character outside `k`. */
  lemma FirstCharOutside(s: string, i: nat, pat: seq<Piece>, n: nat, toks: seq<string>, j: nat, k: Class)
    requires n < |pat| && Derives(s, i, pat, n, toks, j)
    requires StartsOutside(pat[n], k)
    ensures i < |s| && !In(k, s[i])
  {
    var t := toks[0];
    assert s[i..i + |t|] == t;
    match pat[n]
    case Lit(x) =>
      assert s[i] == t[0];
    case Choice(alts) =>
      assert t in alts;
      assert s[i] == t[0];
    case Spaces =>
      assert s[i] == t[0];
    case Number =>
      assert s[i] == t[0];
    case TestName =>
      assert s[i] == t[0];
  }

  /** Of two alternatives both occurring at `i` in a prefix-free alternation, they are the same. */
  lemma SameAlternative(s: string, i: nat, alts: seq<string>, a: string, b: string)
    requires PrefixFree(alts) && a in alts && b in alts
    requires LitAt(s, i, a) && LitAt(s, i, b)
    ensures a == b
  {
    if |a| <= |b| {
      assert b[..|a|] == s[i..i + |a|];
    }
  }

  /** A run token lies inside the longest run of its class. */
  lemma RunTokenWithinRun(s: string, i: nat, p: Piece, t: string)
    requires i <= |s| && IsRun(p) && LitAt(s, i, t) && Accepts(p, t)
    ensures i + |t| <= RunEnd(s, i, ClassOf(p))
  {
    var k := ClassOf(p);
    assert AllIn(k, t) by {
      if p.TestName? {
        assert forall h :: 0 <= h < |t| ==> IsNameChar(t[h]);
      }
    }
    forall x | i <= x < i + |t|
      ensures In(k, s[x])
    {
      assert s[x] == t[x - i];
    }
  }

  /**
   * On a guarded pattern, a derivation's first token is the one the scanner
   * takes, unless that token is a run that ends the pattern.
   */
  lemma FirstTokenTaken(s: string, i: nat, pat: seq<Piece>, n: nat, toks: seq<string>, j: nat)
    requires i <= |s| && n < |pat|
    requires GuardedAt(pat, n) && Derives(s, i, pat, n, toks, j)
    requires n + 1 < |pat| || !IsRun(pat[n])
    ensures TokenAt(s, i, pat[n]) == Some(toks[0])
  {
    var t := toks[0];
    var p := pat[n];
    assert LitAt(s, i, t) && Accepts(p, t);
    if p.Choice? {
      var a := FirstAlt(s, i, p.alts);
      SameAlternative(s, i, p.alts, a.value, t);
    } else if IsRun(p) {
      RunTokenTaken(s, i, pat, n, toks, j);
    }
  }

  /** A run followed by a piece that starts outside its class: the derivation's token is the whole run. */
  lemma RunTokenTaken(s: string, i: nat, pat: seq<Piece>, n: nat, toks: seq<string>, j: nat)
    requires i <= |s| && n + 1 < |pat| && IsRun(pat[n])
    requires GuardedAt(pat, n) && Derives(s, i, pat, n, toks, j)
    ensures RunEnd(s, i, ClassOf(pat[n])) == i + |toks[0]|
  {
    var t := toks[0];
    var k := ClassOf(pat[n]);
    RunTokenWithinRun(s, i, pat[n], t);
    assert Derives(s, i + |t|, pat, n + 1, toks[1..], j);
    FirstCharOutside(s, i + |t|, pat, n + 1, toks[1..], j, k);
  }

  /** A run that ends a pattern: the scanner takes the whole run, which covers any derivation's token. */
  lemma LastRunLongest(s: string, i: nat, pat: seq<Piece>, n: nat, toks: seq<string>, j: nat) returns (m: Match)
    requires i <= |s| && n + 1 == |pat| && IsRun(pat[n])
    requires GuardedAt(pat, n) && Derives(s, i, pat, n, toks, j)
    ensures Scan(s, i, pat, n) == Some(m)
    ensures j <= m.end
    ensures j == m.end ==> toks == m.toks
  {
    var t := toks[0];
    var e := RunEnd(s, i, ClassOf(pat[n]));
    RunTokenWithinRun(s, i, pat[n], t);
    assert s[i] == t[0];
    assert Accepts(pat[n], s[i..e]);
    assert TokenAt(s, i, pat[n]) == Some(s[i..e]);
    assert Scan(s, e, pat, n + 1) == Some(Match(e, e, []));
    m := Match(i, e, [s[i..e]]);
    assert [s[i..e]] + [] == [s[i..e]];
    if j == e {
      assert toks == [s[i..e]];
    }
  }

  /**
   * Completeness and maximality of the scanner on guarded patterns: whenever
   * some derivation starts at `i`, `Scan` succeeds, ends no earlier, and if it
   * ends at the same place it produced the same tokens.
   */
  lemma {:induction false} ScanFindsLongest(s: string, i: nat, pat: seq<Piece>, n: nat, toks: seq<string>, j: nat) returns (m: Match)
    requires i <= |s| && n <= |pat|
    requires Guarded(pat) && Derives(s, i, pat, n, toks, j)
    ensures Scan(s, i, pat, n) == Some(m)
    ensures j <= m.end
    ensures j == m.end ==> toks == m.toks
    decreases |pat| - n
  {
    if n == |pat| {
      m := Match(i, i, []);
    } else if n + 1 == |pat| && IsRun(pat[n]) {
      assert GuardedAt(pat, n);
      m := LastRunLongest(s, i, pat, n, toks, j);
    } else {
      assert GuardedAt(pat, n);
      var t, rest := FirstTokenSplit(s, i, pat, n, toks, j);
      var r := ScanFindsLongest(s, i + |t|, pat, n + 1, rest, j);
      assert Scan(s, i + |t|, pat, n + 1).value == r;
      m := Match(i, r.end, [t] + r.toks);
    }
  }

  /**
   * A derivation whose first token the scanner takes splits into that token
   * and a derivation of the remaining pieces, and the scan from `i` is that
   * token followed by the scan after it.
   */
  lemma FirstTokenSplit(s: string, i: nat, pat: seq<Piece>, n: nat, toks: seq<string>, j: nat) returns (t: string, rest: seq<string>)
    requires i <= |s| && n < |pat|
    requires GuardedAt(pat, n) && Derives(s, i, pat, n, toks, j)
    requires n + 1 < |pat| || !IsRun(pat[n])
    ensures toks == [t] + rest
    ensures i + |t| <= |s| && Derives(s, i + |t|, pat, n + 1, rest, j)
    ensures Scan(s, i + |t|, pat, n + 1).Some? ==>
      Scan(s, i, pat, n) == Some(Match(i, Scan(s, i + |t|, pat, n + 1).value.end, [t] + Scan(s, i + |t|, pat, n + 1).value.toks))
  {
    t, rest := toks[0], toks[1..];
    assert Derives(s, i + |t|, pat, n + 1, rest, j);
    FirstTokenTaken(s, i, pat, n, toks, j);
    ScanStep(s, i, pat, n, t);
  }

  /** A pattern ending in a run: what `Scan` matches cannot be extended by one more character of that run's class. */
  lemma {:induction false} ScanEndsRun(s: string, i: nat, pat: seq<Piece>, n: nat)
    requires i <= |s| && n < |pat| && IsRun(pat[|pat| - 1]) && Scan(s, i, pat, n).Some?
    ensures var e := Scan(s, i, pat, n).value.end; e == |s| || !In(ClassOf(pat[|pat| - 1]), s[e])
    decreases |pat| - n
  {
    var t := TokenAt(s, i, pat[n]).value;
    ScanStep(s, i, pat, n, t);
    if n + 1 < |pat| {
      ScanEndsRun(s, i + |t|, pat, n + 1);
    } else {
      assert i + |t| == RunEnd(s, i, ClassOf(pat[n]));
    }
  }

  /** The line-bounded filler `.*?` can move from `from` to `q`: no newline in between. */
  predicate LineFree(s: string, from: nat, q: nat)
  {
    forall h :: from <= h < q && h < |s| ==> s[h] != '\n'
  }

  /**
   * The leftmost position, at or after `from`, where `pat` scans successfully:
   * a regular-expression `search`. With `oneLine`, the positions tried are
   * those a lazy `.*?` reaches from `from`, which cannot cross a newline.
   */
  function Search(s: string, from: nat, pat: seq<Piece>, oneLine: bool): (r: Option<Match>)
    requires from <= |s|
    ensures r.Some? ==> from <= r.value.start <= |s| && Scan(s, r.value.start, pat, 0) == r
    decreases |s| - from
  {
    var here := Scan(s, from, pat, 0);
    if here.Some? then here
    else if from < |s| && (!oneLine || s[from] != '\n') then Search(s, from + 1, pat, oneLine)
    else None
  }

  /** A line-bounded `Search` that finds a match crossed no line break on its way. */
  lemma {:induction false} SearchStaysOnLine(s: string, from: nat, pat: seq<Piece>)
    requires from <= |s| && Search(s, from, pat, true).Some?
    ensures LineFree(s, from, Search(s, from, pat, true).value.start)
    decreases |s| - from
  {
    if Scan(s, from, pat, 0).None? {
      SearchStaysOnLine(s, from + 1, pat);
    }
  }

  /** When `Search` finds a match, every position it passed over fails to scan. */
  lemma {:induction false} SearchSkipsNothing(s: string, from: nat, pat: seq<Piece>, oneLine: bool)
    requires from <= |s| && Search(s, from, pat, oneLine).Some?
    ensures forall q: nat :: from <= q < Search(s, from, pat, oneLine).value.start ==> Scan(s, q, pat, 0).None?
    decreases |s| - from
  {
    forall q: nat | from <= q < Search(s, from, pat, oneLine).value.start
      ensures Scan(s, q, pat, 0).None?
    {
      if q > from {
        SearchSkipsNothing(s, from + 1, pat, oneLine);
      }
    }
  }

  /** When `Search` finds nothing, no position it could reach scans. */
  lemma {:induction false} SearchMissesNothing(s: string, from: nat, pat: seq<Piece>, oneLine: bool)
    requires from <= |s| && Search(s, from, pat, oneLine).None?
    ensures forall q: nat :: from <= q <= |s| && (!oneLine || LineFree(s, from, q)) ==> Scan(s, q, pat, 0).None?
    decreases |s| - from
  {
    assert Scan(s, from, pat, 0).None?;
    forall q: nat | from < q <= |s| && (!oneLine || LineFree(s, from, q))
      ensures Scan(s, q, pat, 0).None?
    {
      assert !oneLine || s[from] != '\n';
      SearchMissesNothing(s, from + 1, pat, oneLine);
      assert !oneLine || LineFree(s, from + 1, q);
    }
  }

  /**
   * `Search` in the declarative terms: it reports the leftmost start position
   * of any derivation within reach, and reports nothing exactly when no
   * position within reach has one.
   */
  lemma SearchIsLeftmost(s: string, from: nat, pat: seq<Piece>, oneLine: bool)
    requires from <= |s| && Guarded(pat)
    ensures Search(s, from, pat, oneLine).Some? ==>
      var m := Search(s, from, pat, oneLine).value;
      && Derives(s, m.start, pat, 0, m.toks, m.end)
      && forall q: nat :: from <= q < m.start ==> !MatchesAt(s, q, pat)
    ensures Search(s, from, pat, oneLine).None? <==>
      forall q: nat :: from <= q <= |s| && (!oneLine || LineFree(s, from, q)) ==> !MatchesAt(s, q, pat)
  {
    var r := Search(s, from, pat, oneLine);
    if r.Some? {
      SearchSkipsNothing(s, from, pat, oneLine);
      if oneLine {
        SearchStaysOnLine(s, from, pat);
      }
      ScanSound(s, r.value.start, pat, 0, r.value);
    } else {
      SearchMissesNothing(s, from, pat, oneLine);
    }
    forall q: nat, toks: seq<string>, j: nat | from <= q <= |s| && Derives(s, q, pat, 0, toks, j)
      ensures Scan(s, q, pat, 0).Some?
    {
      var _ := ScanFindsLongest(s, q, pat, 0, toks, j);
    }
    if r.Some? {
      assert MatchesAt(s, r.value.start, pat);
    }
  }
}
