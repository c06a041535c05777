/** What the tolerance for ties does to the choice of a cell in docmirror/ocr/grid_materialize.py. */
module GridTies {
  import opened GridAssign
  import opened OcrTokens
  import opened Options
  import opened Reals
  import opened Sequences
  import opened Sorting

  // ----- When the best cell is chosen -----

  ghost predicate IsTop(cs: seq<Candidate>, m: Candidate) {
    m in cs && forall c | c in cs :: c.found.score <= m.found.score
  }

  /** The running best has the highest score of all. */
  ghost predicate ChoosesTop(cs: seq<Candidate>) {
    forall c | c in cs :: c.found.score <= BestOf(cs).score
  }

  /** c is worse than m by at most the tolerance. */
  predicate Rivals(c: Candidate, m: Candidate) {
    m.found.score - EPSILON <= c.found.score < m.found.score
  }

  /** Some best-scoring cell is nearer than every cell that is worse by at most the tolerance. */
  ghost predicate TopIsNearest(cs: seq<Candidate>) {
    |cs| == 0 || exists m :: IsTop(cs, m) && forall c | c in cs && Rivals(c, m) :: m.found.distance < c.found.distance
  }

  ghost predicate Permuted<T(!new)>(s: seq<T>, t: seq<T>) {
    forall c :: Times(s, c) == Times(t, c)
  }

  function AsBest(c: Candidate): Best {
    Best(Some(c.key), c.found.score, Some(c.found.distance))
  }

  /** The running best is a candidate. */
  lemma {:induction false} BestIsCandidate(cs: seq<Candidate>) returns (c: Candidate)
    requires Scored(cs) && |cs| > 0
    ensures c in cs && BestOf(cs) == AsBest(c)
  {
    DriftBound(cs, 0);
    var i :| 0 <= i < |cs| && BestOf(cs) == AsBest(cs[i]);
    c := cs[i];
  }

  /** Once a best-scoring cell that is nearer than its rivals has been visited, a best-scoring cell is held. */
  lemma {:induction false} TopIsKept(cs: seq<Candidate>, m: Candidate, all: seq<Candidate>)
    requires Scored(cs) && m in cs && (forall c | c in cs :: c in all)
    requires IsTop(all, m) && forall c | c in all && Rivals(c, m) :: m.found.distance < c.found.distance
    ensures BestOf(cs).score == m.found.score && BestOf(cs).distance.Some? && BestOf(cs).distance.value <= m.found.distance
  {
    var front, last := cs[..|cs| - 1], cs[|cs| - 1];
    if m in front {
      TopIsKept(front, m, all);
    } else if |front| > 0 {
      var c := BestIsCandidate(front);
      assert c in all;
    }
  }

  lemma TopIsChosen(cs: seq<Candidate>)
    requires Scored(cs) && TopIsNearest(cs)
    ensures ChoosesTop(cs)
  {
    if |cs| > 0 {
      var m :| IsTop(cs, m) && forall c | c in cs && Rivals(c, m) :: m.found.distance < c.found.distance;
      TopIsKept(cs, m, cs);
    }
  }

  lemma PermutedMembers<T(!new)>(s: seq<T>, t: seq<T>)
    requires Permuted(s, t)
    ensures forall c :: c in s <==> c in t
  {
    forall c ensures c in s <==> c in t {
      TimesIn(s, c);
      TimesIn(t, c);
    }
  }

  lemma {:induction false} FindTop(cs: seq<Candidate>) returns (m: Candidate)
    requires |cs| > 0
    ensures IsTop(cs, m)
  {
    var front, last := cs[..|cs| - 1], cs[|cs| - 1];
    m := last;
    if |front| > 0 {
      var n := FindTop(front);
      m := if n.found.score >= last.found.score then n else last;
    }
  }

  /** The nearest of the best-scoring cells. */
  lemma {:induction false} FindNearestTop(cs: seq<Candidate>, top: real) returns (m: Candidate)
    requires exists c :: c in cs && c.found.score == top
    ensures m in cs && m.found.score == top
    ensures forall c | c in cs && c.found.score == top :: m.found.distance <= c.found.distance
  {
    var front, last := cs[..|cs| - 1], cs[|cs| - 1];
    if exists c :: c in front && c.found.score == top {
      var n := FindNearestTop(front, top);
      m := if last.found.score == top && last.found.distance < n.found.distance then last else n;
    } else {
      m := last;
    }
  }

  predicate HigherFirst(a: Candidate, b: Candidate) {
    a.found.score >= b.found.score
  }

  /** Visiting a rival first and then the others from the best down never reaches the best score. */
  lemma {:induction false} RivalFirst(c: Candidate, rest: seq<Candidate>, top: real)
    requires 0.0 <= c.found.score && top - EPSILON <= c.found.score < top
    requires SortedBy(HigherFirst, rest) && forall d | d in rest :: d.found.score <= top
    requires forall d | d in rest && d.found.score == top :: c.found.distance <= d.found.distance
    ensures BestOf([c] + rest).score < top
    ensures (forall d | d in rest :: d.found.score == top) ==> BestOf([c] + rest) == AsBest(c)
  {
    if |rest| == 0 {
      assert [c] + rest == [c] && [c][..0] == [];
    } else {
      var front, last := rest[..|rest| - 1], rest[|rest| - 1];
      RivalFirst(c, front, top);
      assert ([c] + rest)[..|rest|] == [c] + front;
      if last.found.score == top {
        forall d | d in front ensures d.found.score == top {
          var i :| 0 <= i < |front| && front[i] == d;
          assert HigherFirst(rest[i], rest[|rest| - 1]);
        }
      }
    }
  }

  lemma TakeOut<T(!new)>(cs: seq<T>, c: T) returns (rest: seq<T>)
    requires c in cs
    ensures Permuted([c] + rest, cs) && |rest| == |cs| - 1
  {
    var i :| 0 <= i < |cs| && cs[i] == c;
    rest := cs[..i] + cs[i + 1..];
    CutAt(cs, i);
    forall d ensures Times([c] + rest, d) == Times(cs, d) {
      TimesConcat(cs[..i] + [c], cs[i + 1..], d);
      TimesConcat(cs[..i], [c], d);
      TimesConcat(cs[..i], cs[i + 1..], d);
      TimesConcat([c], rest, d);
    }
  }

  lemma OccursSome<T(!new)>(s: seq<T>) returns (x: T)
    requires |s| > 0
    ensures Times(s, x) > 0
  {
    x := s[|s| - 1];
  }

  lemma {:induction false} PermutedLength<T(!new)>(s: seq<T>, t: seq<T>)
    requires Permuted(s, t)
    ensures |s| == |t|
  {
    if |s| == 0 {
      if |t| > 0 {
        var x := OccursSome(t);
        assert false;
      }
    } else {
      var front, last := s[..|s| - 1], s[|s| - 1];
      PermutedMembers(s, t);
      var rest := TakeOut(t, last);
      forall c ensures Times(front, c) == Times(rest, c) {
        TimesConcat([last], rest, c);
        assert Times([last] + rest, c) == Times(t, c);
        assert [last][..0] == [];
      }
      PermutedLength(front, rest);
    }
  }

  /** Otherwise some order of the cells misses the best score. */
  lemma SomeOrderMisses(cs: seq<Candidate>) returns (ds: seq<Candidate>)
    requires Scored(cs) && !TopIsNearest(cs)
    ensures Permuted(ds, cs) && !ChoosesTop(ds)
  {
    var top := FindTop(cs);
    var m := FindNearestTop(cs, top.found.score);
    assert IsTop(cs, m);
    var c :| c in cs && Rivals(c, m) && m.found.distance >= c.found.distance;
    var rest := TakeOut(cs, c);
    var sorted := Sort(HigherFirst, rest);
    ds := [c] + sorted;
    forall d ensures Times(ds, d) == Times(cs, d) {
      TimesConcat([c], rest, d);
      TimesConcat([c], sorted, d);
    }
    PermutedMembers(ds, cs);
    assert TotalPreorder(HigherFirst);
    SortSorts(HigherFirst, rest);
    assert forall d | d in sorted :: d in ds;
    RivalFirst(c, sorted, m.found.score);
    assert m in ds;
  }

  /** In every order of the candidates the running best has the highest score, if and only if some best-scoring cell is nearer
      than every cell that is worse by at most the tolerance. */
  lemma ChoosesTopIff(cs: seq<Candidate>)
    requires Scored(cs)
    ensures TopIsNearest(cs) <==> forall ds | Permuted(ds, cs) :: ChoosesTop(ds)
  {
    if TopIsNearest(cs) {
      forall ds | Permuted(ds, cs) ensures ChoosesTop(ds) {
        PermutedMembers(ds, cs);
        NearestPermuted(cs, ds);
        TopIsChosen(ds);
      }
    } else {
      var ds := SomeOrderMisses(cs);
    }
  }

  lemma NearestPermuted(cs: seq<Candidate>, ds: seq<Candidate>)
    requires TopIsNearest(cs) && forall c :: c in cs <==> c in ds
    ensures TopIsNearest(ds)
  {
    if |ds| > 0 {
      assert ds[0] in cs;
      var m :| IsTop(cs, m) && forall c | c in cs && Rivals(c, m) :: m.found.distance < c.found.distance;
      assert IsTop(ds, m);
    }
  }

  /** In particular it has it if any two scores are equal or more than the tolerance apart. */
  lemma SeparatedChoosesTop(cs: seq<Candidate>)
    requires Scored(cs)
    requires forall a, b | a in cs && b in cs ::
               a.found.score == b.found.score || a.found.score + EPSILON < b.found.score || b.found.score + EPSILON < a.found.score
    ensures ChoosesTop(cs)
  {
    if |cs| > 0 {
      var m := FindTop(cs);
      assert forall c | c in cs :: !Rivals(c, m);
      TopIsChosen(cs);
    }
  }

  /** A token with such a nearest best cell goes to a cell with the highest score of all that match. */
  lemma ChoiceIsBest(token: OcrToken, rows: seq<Band>, cols: seq<Band>, minOverlap: real, c: Candidate)
    requires TopIsNearest(Candidates(token, rows, cols, minOverlap))
    requires Matches(token, rows, cols, minOverlap, c) && Choice(token, rows, cols, minOverlap).Some?
    ensures exists d :: Matches(token, rows, cols, minOverlap, d) && Choice(token, rows, cols, minOverlap) == Some(d.key)
                        && c.found.score <= d.found.score
  {
    var cs := Candidates(token, rows, cols, minOverlap);
    CandidatesScored(token, rows, cols, minOverlap);
    CandidatesMatch(token, rows, cols, minOverlap, c);
    TopIsChosen(cs);
    var d := BestIsCandidate(cs);
    CandidatesMatch(token, rows, cols, minOverlap, d);
  }

  // ----- The order of the bands -----

  lemma {:induction false} RowCandidatesConcat(token: OcrToken, row: Band, a: seq<Band>, b: seq<Band>, minOverlap: real)
    ensures RowCandidates(token, row, a + b, minOverlap) == RowCandidates(token, row, a, minOverlap) + RowCandidates(token, row, b, minOverlap)
  {
    if |b| == 0 {
      assert a + b == a;
    } else {
      RowCandidatesConcat(token, row, a, b[..|b| - 1], minOverlap);
      assert (a + b)[..|a + b| - 1] == a + b[..|b| - 1];
    }
  }

  lemma OneColumn(token: OcrToken, row: Band, col: Band, minOverlap: real)
    ensures var m := CellMatch(token, row, col, minOverlap);
            RowCandidates(token, row, [col], minOverlap) == if m.Some? then [Candidate((row.index, col.index), m.value)] else []
  {
    assert [col][..0] == [];
  }

  /** Reordering the columns changes how often no candidate of the row occurs. */
  lemma {:induction false} ColumnsPermuted(token: OcrToken, row: Band, cols: seq<Band>, ds: seq<Band>, minOverlap: real)
    requires Permuted(ds, cols)
    ensures forall c :: c in RowCandidates(token, row, cols, minOverlap) <==> c in RowCandidates(token, row, ds, minOverlap)
  {
    PermutedMembers(ds, cols);
    forall c ensures c in RowCandidates(token, row, cols, minOverlap) <==> c in RowCandidates(token, row, ds, minOverlap) {
      RowCandidatesMatch(token, row, cols, minOverlap, c);
      RowCandidatesMatch(token, row, ds, minOverlap, c);
      if j :| 0 <= j < |cols| && IsMatch(token, row, cols[j], minOverlap, c) {
        assert cols[j] in ds;
      }
      if j :| 0 <= j < |ds| && IsMatch(token, row, ds[j], minOverlap, c) {
        assert ds[j] in cols;
      }
    }
  }

  /** Taking out a column takes out its candidate. */
  lemma WithoutColumn(token: OcrToken, row: Band, p: seq<Band>, col: Band, q: seq<Band>, minOverlap: real, c: Candidate)
    requires IsMatch(token, row, col, minOverlap, c)
    ensures forall d :: Times(RowCandidates(token, row, p + [col] + q, minOverlap), d)
                        == Times(RowCandidates(token, row, p + q, minOverlap), d) + if d == c then 1 else 0
  {
    RowCandidatesConcat(token, row, p + [col], q, minOverlap);
    RowCandidatesConcat(token, row, p, [col], minOverlap);
    RowCandidatesConcat(token, row, p, q, minOverlap);
    OneColumn(token, row, col, minOverlap);
    CountsWithout(RowCandidates(token, row, p, minOverlap), c, RowCandidates(token, row, q, minOverlap));
  }

  lemma MovedBack<T(!new)>(p: seq<T>, x: T, q: seq<T>)
    ensures Permuted(p + q + [x], p + [x] + q)
  {
    CountsWithout(p, x, q);
    forall y ensures Times(p + q + [x], y) == Times(p + [x] + q, y) {
      TimesConcat(p + q, [x], y);
      assert [x][..0] == [];
    }
  }

  lemma CountsWithout<T(!new)>(p: seq<T>, c: T, q: seq<T>)
    ensures forall d :: Times(p + [c] + q, d) == Times(p + q, d) + if d == c then 1 else 0
  {
    forall d ensures Times(p + [c] + q, d) == Times(p + q, d) + if d == c then 1 else 0 {
      TimesConcat(p + [c], q, d);
      TimesConcat(p, [c], d);
      TimesConcat(p, q, d);
      assert [c][..0] == [];
    }
  }

  /** A column with the last of the candidates, and the others. */
  lemma TakeColumn(token: OcrToken, row: Band, cols: seq<Band>, minOverlap: real, cs: seq<Candidate>) returns (rest: seq<Band>, col: Band)
    requires |cs| > 0 && Permuted(cs, RowCandidates(token, row, cols, minOverlap))
    ensures Permuted(cs[..|cs| - 1], RowCandidates(token, row, rest, minOverlap))
    ensures Permuted(rest + [col], cols) && IsMatch(token, row, col, minOverlap, cs[|cs| - 1])
  {
    var c := cs[|cs| - 1];
    PermutedMembers(cs, RowCandidates(token, row, cols, minOverlap));
    RowCandidatesMatch(token, row, cols, minOverlap, c);
    var i :| 0 <= i < |cols| && IsMatch(token, row, cols[i], minOverlap, c);
    var p, q := cols[..i], cols[i + 1..];
    rest, col := p + q, cols[i];
    CutAt(cols, i);
    WithoutColumn(token, row, p, col, q, minOverlap, c);
    MovedBack(p, col, q);
    WithoutLast(cs, RowCandidates(token, row, cols, minOverlap), RowCandidates(token, row, rest, minOverlap));
  }

  /** Every order of a row's candidates is that of some order of the columns. */
  lemma {:induction false} OrderTheColumns(token: OcrToken, row: Band, cols: seq<Band>, minOverlap: real, cs: seq<Candidate>)
    returns (ds: seq<Band>)
    requires Permuted(cs, RowCandidates(token, row, cols, minOverlap))
    ensures Permuted(ds, cols) && RowCandidates(token, row, ds, minOverlap) == cs
    decreases |cs|
  {
    if |cs| == 0 {
      ds := cols;
      PermutedLength(cs, RowCandidates(token, row, cols, minOverlap));
    } else {
      var front := cs[..|cs| - 1];
      var rest, col := TakeColumn(token, row, cols, minOverlap, cs);
      var es := OrderTheColumns(token, row, rest, minOverlap, front);
      ds := es + [col];
      RowCandidatesConcat(token, row, es, [col], minOverlap);
      OneColumn(token, row, col, minOverlap);
      AddedBack(es, rest, col, cols);
    }
  }

  lemma WithoutLast<T(!new)>(s: seq<T>, t: seq<T>, rest: seq<T>)
    requires |s| > 0 && Permuted(s, t)
    requires forall d :: Times(t, d) == Times(rest, d) + if d == s[|s| - 1] then 1 else 0
    ensures Permuted(s[..|s| - 1], rest)
  {
    forall d ensures Times(s[..|s| - 1], d) == Times(rest, d) {
      assert Times(s, d) == Times(t, d);
    }
  }

  lemma AddedBack<T(!new)>(s: seq<T>, rest: seq<T>, x: T, t: seq<T>)
    requires Permuted(s, rest) && Permuted(rest + [x], t)
    ensures Permuted(s + [x], t)
  {
    forall d ensures Times(s + [x], d) == Times(t, d) {
      TimesConcat(s, [x], d);
      TimesConcat(rest, [x], d);
      assert Times(rest + [x], d) == Times(t, d);
    }
  }

  /** In a grid of one row the choice has the highest score in every order of the columns, if and only if some best-scoring
      cell is nearer than every cell that is worse by at most the tolerance. */
  lemma OneRowIff(token: OcrToken, row: Band, cols: seq<Band>, minOverlap: real)
    ensures TopIsNearest(Candidates(token, [row], cols, minOverlap)) <==>
            forall ds | Permuted(ds, cols) :: ChoosesTop(Candidates(token, [row], ds, minOverlap))
  {
    var cs := RowCandidates(token, row, cols, minOverlap);
    OneRow(token, row, cols, minOverlap);
    CandidatesScored(token, [row], cols, minOverlap);
    if TopIsNearest(cs) {
      forall ds | Permuted(ds, cols) ensures ChoosesTop(Candidates(token, [row], ds, minOverlap)) {
        OneRow(token, row, ds, minOverlap);
        CandidatesScored(token, [row], ds, minOverlap);
        ColumnsPermuted(token, row, cols, ds, minOverlap);
        NearestPermuted(cs, RowCandidates(token, row, ds, minOverlap));
        TopIsChosen(RowCandidates(token, row, ds, minOverlap));
      }
    } else {
      var es := SomeOrderMisses(cs);
      var ds := OrderTheColumns(token, row, cols, minOverlap, es);
      OneRow(token, row, ds, minOverlap);
      assert !ChoosesTop(Candidates(token, [row], ds, minOverlap));
    }
  }

  /** With more rows the condition suffices for every order of the bands. */
  lemma EveryOrderChoosesTop(token: OcrToken, rows: seq<Band>, cols: seq<Band>, minOverlap: real, rs: seq<Band>, ds: seq<Band>)
    requires TopIsNearest(Candidates(token, rows, cols, minOverlap)) && Permuted(rs, rows) && Permuted(ds, cols)
    ensures ChoosesTop(Candidates(token, rs, ds, minOverlap))
  {
    PermutedMembers(rs, rows);
    PermutedMembers(ds, cols);
    forall c ensures c in Candidates(token, rows, cols, minOverlap) <==> c in Candidates(token, rs, ds, minOverlap) {
      CandidatesMatch(token, rows, cols, minOverlap, c);
      CandidatesMatch(token, rs, ds, minOverlap, c);
      if i, j :| 0 <= i < |rows| && 0 <= j < |cols| && IsMatch(token, rows[i], cols[j], minOverlap, c) {
        assert rows[i] in rs && cols[j] in ds;
        MatchesIn(token, rs, ds, minOverlap, c, rows[i], cols[j]);
      }
      if i, j :| 0 <= i < |rs| && 0 <= j < |ds| && IsMatch(token, rs[i], ds[j], minOverlap, c) {
        assert rs[i] in rows && ds[j] in cols;
        MatchesIn(token, rows, cols, minOverlap, c, rs[i], ds[j]);
      }
    }
    CandidatesScored(token, rs, ds, minOverlap);
    NearestPermuted(Candidates(token, rows, cols, minOverlap), Candidates(token, rs, ds, minOverlap));
    TopIsChosen(Candidates(token, rs, ds, minOverlap));
  }

  lemma MatchesIn(token: OcrToken, rows: seq<Band>, cols: seq<Band>, minOverlap: real, c: Candidate, row: Band, col: Band)
    requires row in rows && col in cols && IsMatch(token, row, col, minOverlap, c)
    ensures Matches(token, rows, cols, minOverlap, c)
  {
    var i :| 0 <= i < |rows| && rows[i] == row;
    var j :| 0 <= j < |cols| && cols[j] == col;
    assert IsMatch(token, rows[i], cols[j], minOverlap, c);
  }

  // ----- A slope of ties -----

  function UnitToken(): OcrToken {
    OcrToken("t", "t", BBox(0.0, 0.0, 1.0, 1.0), 1.0, None, false, false)
  }

  const UNIT_ROW := Band(0, BBox(0.0, 0.0, 1.0, 1.0))

  /** A column that misses k tolerances of the unit token, and whose center is the nearer the larger k is. */
  function SlopeColumn(n: nat, k: nat): Band
    requires k <= n
  {
    Band(k, BBox(k as real * EPSILON, 0.0, 1.0 + (n - k) as real, 1.0))
  }

  function SlopeColumns(n: nat, m: nat): (cols: seq<Band>)
    requires m <= n
    ensures |cols| == m && forall k | 0 <= k < m :: cols[k] == SlopeColumn(n, k)
  {
    seq(m, k requires 0 <= k < m => SlopeColumn(n, k))
  }

  function SlopeMatch(n: nat, k: nat): Match
    requires k <= n
  {
    Match(1.05 - k as real * EPSILON, (n as real - k as real * (1.0 - EPSILON)) / 2.0)
  }

  lemma UnitHeight(x: real, y: real)
    requires x <= y
    ensures Area(BBox(x, 0.0, y, 1.0)) == y - x
  {
    assert Max(0.0, y - x) == y - x && Max(0.0, 1.0 - 0.0) == 1.0;
    assert (y - x) * 1.0 == y - x;
  }

  lemma OverOne(x: real)
    ensures x / 1.0 == x
  {
  }

  lemma UnitOverlap(x: real, y: real)
    requires 0.0 <= x < 1.0 <= y
    ensures OverlapRatio(BBox(0.0, 0.0, 1.0, 1.0), BBox(x, 0.0, y, 1.0)) == 1.0 - x
  {
    var inner, outer := BBox(0.0, 0.0, 1.0, 1.0), BBox(x, 0.0, y, 1.0);
    assert Intersection(inner, outer) == BBox(x, 0.0, 1.0, 1.0);
    UnitHeight(x, 1.0);
    UnitHeight(0.0, 1.0);
    OverOne(1.0 - x);
  }

  lemma SlopeMatches(n: nat, k: nat, minOverlap: real)
    requires k < n && n as real * EPSILON <= 0.5
    ensures CellMatch(UnitToken(), UNIT_ROW, SlopeColumn(n, k), minOverlap) == Some(SlopeMatch(n, k))
  {
    var x, y := k as real * EPSILON, 1.0 + (n - k) as real;
    assert 0.0 <= x < 0.5 && 2.0 <= y;
    UnitOverlap(x, y);
    assert CellBBox(UNIT_ROW, SlopeColumn(n, k)) == BBox(x, 0.0, y, 1.0);
    assert (n - k) as real == n as real - k as real;
  }

  lemma {:induction false} SlopeBest(n: nat, m: nat, minOverlap: real)
    requires 0 < m <= n && n as real * EPSILON <= 0.5
    ensures BestOf(RowCandidates(UnitToken(), UNIT_ROW, SlopeColumns(n, m), minOverlap))
            == AsBest(Candidate((0, m - 1), SlopeMatch(n, m - 1)))
  {
    var cols := SlopeColumns(n, m);
    var before := RowCandidates(UnitToken(), UNIT_ROW, SlopeColumns(n, m - 1), minOverlap);
    var last := Candidate((0, m - 1), SlopeMatch(n, m - 1));
    assert cols[..m - 1] == SlopeColumns(n, m - 1) && cols[m - 1] == SlopeColumn(n, m - 1);
    SlopeMatches(n, m - 1, minOverlap);
    assert RowCandidates(UnitToken(), UNIT_ROW, cols, minOverlap) == before + [last];
    assert (before + [last])[..|before|] == before;
    if m > 1 {
      SlopeBest(n, m - 1, minOverlap);
      OneStepDown(n, m - 1);
    } else {
      assert before == [];
    }
  }

  /** The next column of the slope is worse by exactly the tolerance, and nearer. */
  lemma OneStepDown(n: nat, k: nat)
    requires 0 < k < n
    ensures SlopeMatch(n, k).score == SlopeMatch(n, k - 1).score - EPSILON
    ensures SlopeMatch(n, k).distance < SlopeMatch(n, k - 1).distance
  {
    assert k as real == (k - 1) as real + 1.0;
  }

  /** The drift is real: for every number of columns there is a grid in which a token goes to the worst matching cell, which
      is worse than the best one by a tolerance for every other cell. */
  lemma DriftIsReal(n: nat, minOverlap: real)
    requires n > 0 && n as real * EPSILON <= 0.5
    ensures var token, rows, cols := UnitToken(), [UNIT_ROW], SlopeColumns(n, n);
            && Choice(token, rows, cols, minOverlap) == Some((0, n - 1))
            && (forall k | 0 <= k < n :: CellMatch(token, rows[0], cols[k], minOverlap) == Some(SlopeMatch(n, k)))
            && SlopeMatch(n, n - 1).score == SlopeMatch(n, 0).score - (n - 1) as real * EPSILON
  {
    var token, cols := UnitToken(), SlopeColumns(n, n);
    SlopeBest(n, n, minOverlap);
    OneRow(token, UNIT_ROW, cols, minOverlap);
    forall k | 0 <= k < n ensures CellMatch(token, UNIT_ROW, cols[k], minOverlap) == Some(SlopeMatch(n, k)) {
      SlopeMatches(n, k, minOverlap);
    }
    assert (n - 1) as real * EPSILON <= 0.5;
  }

  lemma OneRow(token: OcrToken, row: Band, cols: seq<Band>, minOverlap: real)
    ensures Candidates(token, [row], cols, minOverlap) == RowCandidates(token, row, cols, minOverlap)
  {
    assert [row][..0] == [];
  }

  // ----- Two rows -----

  const TWO_ROWS := [UNIT_ROW, Band(1, UNIT_ROW.bbox)]

  const LEFT := Band(0, BBox(0.0, 0.0, 2.0, 1.0))
  const MIDDLE := Band(1, BBox(0.0000000005, 0.0, 1.9999999995, 1.0))
  const RIGHT := Band(2, BBox(0.0000000014, 0.0, 1.9, 1.0))
  const THREE_COLUMNS := [LEFT, MIDDLE, RIGHT]

  const BEST_MATCH := Match(1.05, 0.5)
  const TIED_MATCH := Match(1.0499999995, 0.5)
  const NEAR_MATCH := Match(1.0499999986, 0.4500000007)

  predicate OneOfThree(m: Match) {
    m == BEST_MATCH || m == TIED_MATCH || m == NEAR_MATCH
  }

  ghost predicate AllOfThree(cs: seq<Candidate>) {
    forall c | c in cs :: OneOfThree(c.found)
  }

  ghost predicate Holds(b: Best, m: Match) {
    b.score == m.score && b.distance == Some(m.distance)
  }

  ghost predicate HasFound(cs: seq<Candidate>, m: Match) {
    exists c :: c in cs && c.found == m
  }

  /** Once the near cell has been visited the tied one is not held any more: the near one beats it, and the best one the
      near one. */
  lemma {:induction false} AfterNear(cs: seq<Candidate>)
    requires |cs| > 0 && AllOfThree(cs)
    ensures var b := BestOf(cs);
            && (Holds(b, BEST_MATCH) || Holds(b, TIED_MATCH) || Holds(b, NEAR_MATCH))
            && (HasFound(cs, NEAR_MATCH) ==> !Holds(b, TIED_MATCH))
  {
    var front, last := cs[..|cs| - 1], cs[|cs| - 1];
    if |front| > 0 {
      AfterNear(front);
      assert HasFound(cs, NEAR_MATCH) ==> HasFound(front, NEAR_MATCH) || last.found == NEAR_MATCH;
    }
  }

  /** And when the best one is visited again it stays. */
  lemma {:induction false} AfterBest(first: seq<Candidate>, second: seq<Candidate>)
    requires AllOfThree(first) && AllOfThree(second) && HasFound(first, NEAR_MATCH) && HasFound(second, BEST_MATCH)
    ensures Holds(BestOf(first + second), BEST_MATCH)
  {
    var front, last := second[..|second| - 1], second[|second| - 1];
    assert (first + second)[..|first + second| - 1] == first + front;
    if HasFound(front, BEST_MATCH) {
      AfterBest(first, front);
    } else {
      assert last.found == BEST_MATCH;
      var c :| c in first && c.found == NEAR_MATCH;
      assert c in first + front;
      AfterNear(first + front);
    }
  }

  lemma ThreeMatches(row: Band, minOverlap: real)
    requires row.bbox == UNIT_ROW.bbox
    ensures CellMatch(UnitToken(), row, LEFT, minOverlap) == Some(BEST_MATCH)
    ensures CellMatch(UnitToken(), row, MIDDLE, minOverlap) == Some(TIED_MATCH)
    ensures CellMatch(UnitToken(), row, RIGHT, minOverlap) == Some(NEAR_MATCH)
  {
    UnitOverlap(0.0, 2.0);
    UnitOverlap(0.0000000005, 1.9999999995);
    UnitOverlap(0.0000000014, 1.9);
  }

  lemma RowOfThree(row: Band, cols: seq<Band>, minOverlap: real)
    requires row.bbox == UNIT_ROW.bbox && Permuted(cols, THREE_COLUMNS)
    ensures var cs := RowCandidates(UnitToken(), row, cols, minOverlap);
            AllOfThree(cs) && HasFound(cs, NEAR_MATCH) && HasFound(cs, BEST_MATCH)
  {
    var cs := RowCandidates(UnitToken(), row, cols, minOverlap);
    PermutedMembers(cols, THREE_COLUMNS);
    ThreeMatches(row, minOverlap);
    forall c | c in cs ensures OneOfThree(c.found) {
      RowCandidatesMatch(UnitToken(), row, cols, minOverlap, c);
      var j :| 0 <= j < |cols| && IsMatch(UnitToken(), row, cols[j], minOverlap, c);
      assert cols[j] in THREE_COLUMNS;
    }
    assert LEFT in cols && RIGHT in cols;
    ColumnFound(row, cols, minOverlap, LEFT, BEST_MATCH);
    ColumnFound(row, cols, minOverlap, RIGHT, NEAR_MATCH);
  }

  lemma ColumnFound(row: Band, cols: seq<Band>, minOverlap: real, col: Band, m: Match)
    requires col in cols && CellMatch(UnitToken(), row, col, minOverlap) == Some(m)
    ensures HasFound(RowCandidates(UnitToken(), row, cols, minOverlap), m)
  {
    var j :| 0 <= j < |cols| && cols[j] == col;
    var c := Candidate((row.index, col.index), m);
    assert IsMatch(UnitToken(), row, cols[j], minOverlap, c);
    RowCandidatesMatch(UnitToken(), row, cols, minOverlap, c);
  }

  lemma TwoRows(token: OcrToken, rows: seq<Band>, cols: seq<Band>, minOverlap: real)
    requires |rows| == 2
    ensures Candidates(token, rows, cols, minOverlap) == RowCandidates(token, rows[0], cols, minOverlap) + RowCandidates(token, rows[1], cols, minOverlap)
  {
    assert rows[..1] == [rows[0]];
    OneRow(token, rows[0], cols, minOverlap);
  }

  /** With two rows the condition is not necessary: on this grid a tied cell is as near as the best one, and yet the choice has
      the highest score in each of the twelve orders of the bands, since the loops visit the best cell again. */
  lemma TwoRowsNeedLess(minOverlap: real, rows: seq<Band>, cols: seq<Band>)
    requires Permuted(rows, TWO_ROWS) && Permuted(cols, THREE_COLUMNS)
    ensures !TopIsNearest(Candidates(UnitToken(), rows, cols, minOverlap))
    ensures ChoosesTop(Candidates(UnitToken(), rows, cols, minOverlap))
  {
    PermutedLength(rows, TWO_ROWS);
    PermutedMembers(rows, TWO_ROWS);
    assert rows[0] in TWO_ROWS && rows[1] in TWO_ROWS;
    TwoRows(UnitToken(), rows, cols, minOverlap);
    RowOfThree(rows[0], cols, minOverlap);
    RowOfThree(rows[1], cols, minOverlap);
    var first, second := RowCandidates(UnitToken(), rows[0], cols, minOverlap), RowCandidates(UnitToken(), rows[1], cols, minOverlap);
    AfterBest(first, second);
    ThreeMatches(rows[0], minOverlap);
    PermutedMembers(cols, THREE_COLUMNS);
    assert MIDDLE in cols;
    ColumnFound(rows[0], cols, minOverlap, MIDDLE, TIED_MATCH);
    NotNearest(first, second);
  }

  lemma NotNearest(first: seq<Candidate>, second: seq<Candidate>)
    requires AllOfThree(first) && AllOfThree(second) && HasFound(first, TIED_MATCH) && HasFound(second, BEST_MATCH)
    ensures !TopIsNearest(first + second)
  {
    var c :| c in first && c.found == TIED_MATCH;
    var b :| b in second && b.found == BEST_MATCH;
    var cs := first + second;
    forall m | IsTop(cs, m) ensures Rivals(c, m) && c.found.distance <= m.found.distance {
      BestIsTop(cs, m, b);
    }
    assert c in cs;
  }

  lemma BestIsTop(cs: seq<Candidate>, m: Candidate, b: Candidate)
    requires AllOfThree(cs) && IsTop(cs, m) && b in cs && b.found == BEST_MATCH
    ensures m.found == BEST_MATCH
  {
    assert b.found.score <= m.found.score;
  }

  // ----- A match that is lost -----

  /** A column that overlaps the unit token in a share of x at its right edge, and reaches far beyond it. */
  function SliverColumn(x: real): Band {
    Band(0, BBox(1.0 - x, 0.0, 10.0, 1.0))
  }

  /** A column that only touches the unit token. */
  const TOUCHING := Band(1, BBox(1.0, 0.0, 2.0, 1.0))

  lemma SliverMatches(x: real, minOverlap: real)
    requires 0.0 < x < 0.5 && minOverlap <= 0.0
    ensures CellMatch(UnitToken(), UNIT_ROW, SliverColumn(x), minOverlap) == Some(Match(x, 5.0 - x / 2.0))
    ensures CellMatch(UnitToken(), UNIT_ROW, TOUCHING, minOverlap) == Some(Match(0.0, 1.0))
  {
    UnitOverlap(1.0 - x, 10.0);
    assert CellBBox(UNIT_ROW, SliverColumn(x)) == BBox(1.0 - x, 0.0, 10.0, 1.0);
  }

  /** A positive score within the tolerance of zero is lost to a nearer cell with score zero, and the token gets no cell. */
  lemma TinyScoreIsLost(x: real, minOverlap: real)
    requires 0.0 < x <= EPSILON && minOverlap <= 0.0
    ensures Choice(UnitToken(), [UNIT_ROW], [SliverColumn(x), TOUCHING], minOverlap) == None
    ensures Matches(UnitToken(), [UNIT_ROW], [SliverColumn(x), TOUCHING], minOverlap, Candidate((0, 0), Match(x, 5.0 - x / 2.0)))
  {
    var token, cols := UnitToken(), [SliverColumn(x), TOUCHING];
    var first, second := Candidate((0, 0), Match(x, 5.0 - x / 2.0)), Candidate((0, 1), Match(0.0, 1.0));
    SliverMatches(x, minOverlap);
    OneRow(token, UNIT_ROW, cols, minOverlap);
    assert cols[..1] == [SliverColumn(x)] && cols[..1][..0] == [];
    assert RowCandidates(token, UNIT_ROW, cols[..1], minOverlap) == [first];
    assert RowCandidates(token, UNIT_ROW, cols, minOverlap) == [first, second];
    assert [first, second][..1] == [first] && [first][..0] == [];
    assert BestOf([first]) == AsBest(first);
    assert BestOf([first, second]) == AsBest(second);
    assert IsMatch(token, [UNIT_ROW][0], cols[0], minOverlap, first);
  }

  ghost predicate HasPositiveMatch(token: OcrToken, rows: seq<Band>, cols: seq<Band>, minOverlap: real) {
    exists c :: Matches(token, rows, cols, minOverlap, c) && c.found.score > 0.0
  }

  ghost predicate ChosenIfMatched(token: OcrToken, rows: seq<Band>, cols: seq<Band>, minOverlap: real) {
    Choice(token, rows, cols, minOverlap).Some? <==> HasPositiveMatch(token, rows, cols, minOverlap)
  }

  lemma PositiveIsChosen(token: OcrToken, rows: seq<Band>, cols: seq<Band>, minOverlap: real)
    requires minOverlap > 0.0
    ensures ChosenIfMatched(token, rows, cols, minOverlap)
  {
    ChosenIffMatched(token, rows, cols, minOverlap);
    MatchIsPositive(token, rows, cols, minOverlap);
  }

  lemma PositiveIsLost(minOverlap: real)
    requires minOverlap <= 0.0
    ensures !ChosenIfMatched(UnitToken(), [UNIT_ROW], [SliverColumn(EPSILON), TOUCHING], minOverlap)
  {
    TinyScoreIsLost(EPSILON, minOverlap);
  }

  ghost predicate AlwaysChosenIfMatched(minOverlap: real) {
    forall token, rows, cols :: ChosenIfMatched(token, rows, cols, minOverlap)
  }

  /** Every token gets a cell exactly when some cell matches it with a positive score, on all grids, if and only if the
      threshold is positive. */
  lemma ChosenIfMatchedIff(minOverlap: real)
    ensures AlwaysChosenIfMatched(minOverlap) <==> minOverlap > 0.0
  {
    if minOverlap > 0.0 {
      forall token, rows, cols ensures ChosenIfMatched(token, rows, cols, minOverlap) {
        PositiveIsChosen(token, rows, cols, minOverlap);
      }
    } else {
      PositiveIsLost(minOverlap);
    }
  }

  lemma MatchIsPositive(token: OcrToken, rows: seq<Band>, cols: seq<Band>, minOverlap: real)
    requires minOverlap > 0.0
    ensures forall c | Matches(token, rows, cols, minOverlap, c) :: c.found.score > 0.0
  {
  }
}
