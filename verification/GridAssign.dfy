/** The exclusive assignment of docmirror/ocr/grid_materialize.py, with the cell geometry it uses.
    Coordinates and scores are reals. */
module GridAssign {
  import opened OcrTokens
  import opened Options
  import opened Reals
  import opened Sequences

  datatype Band = Band(index: int, bbox: BBox)

  type GridKey = (int, int)

  const EPSILON: real := 0.000000001

  /** A row band gives the vertical extent of a cell, a column band the horizontal one. */
  function CellBBox(row: Band, col: Band): BBox {
    BBox(col.bbox.x0, row.bbox.y0, col.bbox.x1, row.bbox.y1)
  }

  datatype Match = Match(score: real, distance: real)

  /** `_cell_match_score`. */
  function CellMatch(token: OcrToken, row: Band, col: Band, minOverlap: real): (m: Option<Match>)
    ensures m.Some? ==> m.value.score >= 0.0 && (minOverlap > 0.0 ==> m.value.score > 0.0)
  {
    var cell := CellBBox(row, col);
    var overlap := OverlapRatio(token.bbox, cell);
    var cx, cy := (token.bbox.x0 + token.bbox.x1) / 2.0, (token.bbox.y0 + token.bbox.y1) / 2.0;
    var inside := cell.x0 <= cx <= cell.x1 && cell.y0 <= cy <= cell.y1;
    if overlap < minOverlap && !(inside && overlap > 0.0) then None
    else
      var distance := Abs(cx - (cell.x0 + cell.x1) / 2.0) + Abs(cy - (cell.y0 + cell.y1) / 2.0);
      Some(Match(overlap + if inside then 0.05 else 0.0, distance))
  }

  /** A cell that matched, in the order the loops visit them. */
  datatype Candidate = Candidate(key: GridKey, found: Match)

  function RowCandidates(token: OcrToken, row: Band, cols: seq<Band>, minOverlap: real): seq<Candidate> {
    if |cols| == 0 then []
    else
      var m := CellMatch(token, row, cols[|cols| - 1], minOverlap);
      RowCandidates(token, row, cols[..|cols| - 1], minOverlap) +
      if m.Some? then [Candidate((row.index, cols[|cols| - 1].index), m.value)] else []
  }

  function Candidates(token: OcrToken, rows: seq<Band>, cols: seq<Band>, minOverlap: real): seq<Candidate> {
    if |rows| == 0 then []
    else Candidates(token, rows[..|rows| - 1], cols, minOverlap) + RowCandidates(token, rows[|rows| - 1], cols, minOverlap)
  }

  /** The running best: no distance yet stands for the initial infinite one. */
  datatype Best = Best(key: Option<GridKey>, score: real, distance: Option<real>)

  const NOTHING := Best(None, -1.0, None)

  /** The update rule with its tolerance for ties. */
  function Better(b: Best, c: Candidate): Best {
    if c.found.score > b.score + EPSILON
       || (Abs(c.found.score - b.score) <= EPSILON && (b.distance.None? || c.found.distance < b.distance.value))
    then Best(Some(c.key), c.found.score, Some(c.found.distance))
    else b
  }

  function BestOf(cs: seq<Candidate>): Best {
    if |cs| == 0 then NOTHING else Better(BestOf(cs[..|cs| - 1]), cs[|cs| - 1])
  }

  ghost predicate Scored(cs: seq<Candidate>) {
    forall k | 0 <= k < |cs| :: cs[k].found.score >= 0.0
  }

  /** The chosen cell is one of the candidates, and it is less than the best score by at most one tolerance for every
      other candidate: each tie can lower the score a little, and ties add up. */
  lemma {:induction false} DriftBound(cs: seq<Candidate>, k: nat)
    requires Scored(cs) && k < |cs|
    ensures var b := BestOf(cs);
            && (exists i | 0 <= i < |cs| :: b == Best(Some(cs[i].key), cs[i].found.score, Some(cs[i].found.distance)))
            && b.score >= cs[k].found.score - (|cs| - 1) as real * EPSILON
    decreases |cs|
  {
    var front, last := cs[..|cs| - 1], cs[|cs| - 1];
    if |front| == 0 {
      assert BestOf(front) == NOTHING;
      assert BestOf(cs) == Best(Some(cs[0].key), cs[0].found.score, Some(cs[0].found.distance));
    } else {
      DriftBound(front, if k < |front| then k else 0);
      var before := BestOf(front);
      var i :| 0 <= i < |front| && before == Best(Some(front[i].key), front[i].found.score, Some(front[i].found.distance));
      assert (|cs| - 1) as real == (|front| - 1) as real + 1.0;
      assert (|cs| - 1) as real * EPSILON == (|front| - 1) as real * EPSILON + EPSILON;
      if BestOf(cs) == before {
        assert before == Best(Some(cs[i].key), cs[i].found.score, Some(cs[i].found.distance));
      } else {
        assert BestOf(cs) == Best(Some(cs[|front|].key), cs[|front|].found.score, Some(cs[|front|].found.distance));
      }
    }
  }

  // ----- Choosing a cell -----

  function Choice(token: OcrToken, rows: seq<Band>, cols: seq<Band>, minOverlap: real): Option<GridKey> {
    var b := BestOf(Candidates(token, rows, cols, minOverlap));
    if b.key.Some? && b.score > 0.0 then b.key else None
  }

  ghost predicate Matches(token: OcrToken, rows: seq<Band>, cols: seq<Band>, minOverlap: real, c: Candidate) {
    exists i, j | 0 <= i < |rows| && 0 <= j < |cols| :: IsMatch(token, rows[i], cols[j], minOverlap, c)
  }

  ghost predicate IsMatch(token: OcrToken, row: Band, col: Band, minOverlap: real, c: Candidate) {
    c.key == (row.index, col.index) && CellMatch(token, row, col, minOverlap) == Some(c.found)
  }

  lemma {:induction false} RowCandidatesMatch(token: OcrToken, row: Band, cols: seq<Band>, minOverlap: real, c: Candidate)
    ensures c in RowCandidates(token, row, cols, minOverlap) <==>
            exists j | 0 <= j < |cols| :: IsMatch(token, row, cols[j], minOverlap, c)
  {
    if |cols| > 0 {
      var front := cols[..|cols| - 1];
      RowCandidatesMatch(token, row, front, minOverlap, c);
      assert forall j | 0 <= j < |cols| :: cols[j] == if j < |front| then front[j] else cols[|cols| - 1];
      if j :| 0 <= j < |front| && IsMatch(token, row, front[j], minOverlap, c) {
        assert IsMatch(token, row, cols[j], minOverlap, c);
      }
    }
  }

  /** The candidates are exactly the matching cells. */
  lemma {:induction false} CandidatesMatch(token: OcrToken, rows: seq<Band>, cols: seq<Band>, minOverlap: real, c: Candidate)
    ensures c in Candidates(token, rows, cols, minOverlap) <==> Matches(token, rows, cols, minOverlap, c)
  {
    if |rows| > 0 {
      var front, last := rows[..|rows| - 1], rows[|rows| - 1];
      CandidatesMatch(token, front, cols, minOverlap, c);
      RowCandidatesMatch(token, last, cols, minOverlap, c);
      if Matches(token, front, cols, minOverlap, c) {
        var i, j :| 0 <= i < |front| && 0 <= j < |cols| && IsMatch(token, front[i], cols[j], minOverlap, c);
        assert IsMatch(token, rows[i], cols[j], minOverlap, c);
      }
      if j :| 0 <= j < |cols| && IsMatch(token, last, cols[j], minOverlap, c) {
        assert IsMatch(token, rows[|rows| - 1], cols[j], minOverlap, c);
      }
      if Matches(token, rows, cols, minOverlap, c) {
        var i, j :| 0 <= i < |rows| && 0 <= j < |cols| && IsMatch(token, rows[i], cols[j], minOverlap, c);
        if i < |front| {
          assert IsMatch(token, front[i], cols[j], minOverlap, c);
        }
      }
    }
  }

  lemma CandidatesScored(token: OcrToken, rows: seq<Band>, cols: seq<Band>, minOverlap: real)
    ensures Scored(Candidates(token, rows, cols, minOverlap))
  {
    var cs := Candidates(token, rows, cols, minOverlap);
    forall k | 0 <= k < |cs| ensures cs[k].found.score >= 0.0 {
      CandidatesMatch(token, rows, cols, minOverlap, cs[k]);
    }
  }

  /** The chosen cell matches, and its score is within the drift of every matching cell's score. */
  lemma ChoiceIsNearlyBest(token: OcrToken, rows: seq<Band>, cols: seq<Band>, minOverlap: real, c: Candidate)
    requires Matches(token, rows, cols, minOverlap, c) && Choice(token, rows, cols, minOverlap).Some?
    ensures exists d :: Matches(token, rows, cols, minOverlap, d)
              && Choice(token, rows, cols, minOverlap) == Some(d.key)
              && d.found.score >= c.found.score - (|Candidates(token, rows, cols, minOverlap)| - 1) as real * EPSILON
  {
    var cs := Candidates(token, rows, cols, minOverlap);
    CandidatesMatch(token, rows, cols, minOverlap, c);
    CandidatesScored(token, rows, cols, minOverlap);
    var k :| 0 <= k < |cs| && cs[k] == c;
    DriftBound(cs, k);
    var i :| 0 <= i < |cs| && BestOf(cs) == Best(Some(cs[i].key), cs[i].found.score, Some(cs[i].found.distance));
    CandidatesMatch(token, rows, cols, minOverlap, cs[i]);
  }

  /** A token is assigned if and only if some cell matches, provided a match needs some overlap. */
  lemma ChosenIffMatched(token: OcrToken, rows: seq<Band>, cols: seq<Band>, minOverlap: real)
    requires minOverlap > 0.0
    ensures Choice(token, rows, cols, minOverlap).Some? <==> exists c :: Matches(token, rows, cols, minOverlap, c)
  {
    var cs := Candidates(token, rows, cols, minOverlap);
    CandidatesScored(token, rows, cols, minOverlap);
    if |cs| > 0 {
      DriftBound(cs, 0);
      var i :| 0 <= i < |cs| && BestOf(cs) == Best(Some(cs[i].key), cs[i].found.score, Some(cs[i].found.distance));
      CandidatesMatch(token, rows, cols, minOverlap, cs[i]);
      assert Matches(token, rows, cols, minOverlap, cs[i]);
    }
    if c :| Matches(token, rows, cols, minOverlap, c) {
      CandidatesMatch(token, rows, cols, minOverlap, c);
    }
  }

  /** For any threshold: a match whose score exceeds the drift is never lost. */
  lemma ClearMatchIsChosen(token: OcrToken, rows: seq<Band>, cols: seq<Band>, minOverlap: real, c: Candidate)
    requires Matches(token, rows, cols, minOverlap, c)
    requires c.found.score > (|Candidates(token, rows, cols, minOverlap)| - 1) as real * EPSILON
    ensures Choice(token, rows, cols, minOverlap).Some?
  {
    var cs := Candidates(token, rows, cols, minOverlap);
    CandidatesMatch(token, rows, cols, minOverlap, c);
    CandidatesScored(token, rows, cols, minOverlap);
    var k :| 0 <= k < |cs| && cs[k] == c;
    DriftBound(cs, k);
  }

  // ----- The loops -----

  lemma NextCell(token: OcrToken, row: Band, cols: seq<Band>, minOverlap: real, before: seq<Candidate>, j: nat)
    requires j < |cols|
    ensures var m := CellMatch(token, row, cols[j], minOverlap);
            var best := BestOf(before + RowCandidates(token, row, cols[..j], minOverlap));
            BestOf(before + RowCandidates(token, row, cols[..j + 1], minOverlap))
            == if m.Some? then Better(best, Candidate((row.index, cols[j].index), m.value)) else best
  {
    var m, sofar := CellMatch(token, row, cols[j], minOverlap), RowCandidates(token, row, cols[..j], minOverlap);
    assert cols[..j + 1][..j] == cols[..j];
    if m.Some? {
      var c := Candidate((row.index, cols[j].index), m.value);
      assert before + (sofar + [c]) == before + sofar + [c];
      assert (before + sofar + [c])[..|before + sofar|] == before + sofar;
    } else {
      assert sofar + [] == sofar;
    }
  }

  lemma NextRow(token: OcrToken, rows: seq<Band>, cols: seq<Band>, minOverlap: real, i: nat)
    requires i < |rows|
    ensures Candidates(token, rows[..i + 1], cols, minOverlap)
            == Candidates(token, rows[..i], cols, minOverlap) + RowCandidates(token, rows[i], cols, minOverlap)
  {
    assert rows[..i + 1][..i] == rows[..i];
  }

  method BestCell(token: OcrToken, rows: seq<Band>, cols: seq<Band>, minOverlap: real) returns (best: Best)
    ensures best == BestOf(Candidates(token, rows, cols, minOverlap))
  {
    best := NOTHING;
    for i := 0 to |rows|
      invariant best == BestOf(Candidates(token, rows[..i], cols, minOverlap))
    {
      ghost var before := Candidates(token, rows[..i], cols, minOverlap);
      assert before + [] == before;
      for j := 0 to |cols|
        invariant best == BestOf(before + RowCandidates(token, rows[i], cols[..j], minOverlap))
      {
        NextCell(token, rows[i], cols, minOverlap, before, j);
        var m := CellMatch(token, rows[i], cols[j], minOverlap);
        if m.Some? {
          best := Better(best, Candidate((rows[i].index, cols[j].index), m.value));
        }
      }
      assert cols[..|cols|] == cols;
      NextRow(token, rows, cols, minOverlap, i);
    }
    assert rows[..|rows|] == rows;
  }

  /** The tokens whose choice is the given cell, in order. */
  function Bucket(tokens: seq<OcrToken>, rows: seq<Band>, cols: seq<Band>, minOverlap: real, key: GridKey): seq<OcrToken> {
    if |tokens| == 0 then []
    else
      var last := tokens[|tokens| - 1];
      Bucket(tokens[..|tokens| - 1], rows, cols, minOverlap, key) +
      if Choice(last, rows, cols, minOverlap) == Some(key) then [last] else []
  }

  function Keys(rows: seq<Band>, cols: seq<Band>): set<GridKey> {
    set i, j | 0 <= i < |rows| && 0 <= j < |cols| :: (rows[i].index, cols[j].index)
  }

  lemma ChoiceIsKey(token: OcrToken, rows: seq<Band>, cols: seq<Band>, minOverlap: real)
    requires Choice(token, rows, cols, minOverlap).Some?
    ensures Choice(token, rows, cols, minOverlap).value in Keys(rows, cols)
  {
    var cs := Candidates(token, rows, cols, minOverlap);
    CandidatesScored(token, rows, cols, minOverlap);
    if |cs| > 0 {
      DriftBound(cs, 0);
      var i :| 0 <= i < |cs| && BestOf(cs) == Best(Some(cs[i].key), cs[i].found.score, Some(cs[i].found.distance));
      CandidatesMatch(token, rows, cols, minOverlap, cs[i]);
    }
  }

  method ChooseCell(token: OcrToken, rows: seq<Band>, cols: seq<Band>, minOverlap: real) returns (choice: Option<GridKey>)
    ensures choice == Choice(token, rows, cols, minOverlap)
    ensures choice.Some? ==> choice.value in Keys(rows, cols)
  {
    var best := BestCell(token, rows, cols, minOverlap);
    choice := if best.key.Some? && best.score > 0.0 then best.key else None;
    if choice.Some? {
      ChoiceIsKey(token, rows, cols, minOverlap);
    }
  }

  lemma BucketNext(tokens: seq<OcrToken>, k: nat, rows: seq<Band>, cols: seq<Band>, minOverlap: real, key: GridKey)
    requires k < |tokens|
    ensures Bucket(tokens[..k + 1], rows, cols, minOverlap, key) ==
            Bucket(tokens[..k], rows, cols, minOverlap, key) +
            if Choice(tokens[k], rows, cols, minOverlap) == Some(key) then [tokens[k]] else []
  {
    TakeNext(tokens, k);
  }

  /** `exclusive_assign_tokens_to_grid` on the deduplicated tokens, before each bucket is coalesced. */
  method AssignTokens(tokens: seq<OcrToken>, rows: seq<Band>, cols: seq<Band>, minOverlap: real)
    returns (assignments: map<GridKey, seq<OcrToken>>)
    ensures assignments.Keys == Keys(rows, cols)
    ensures forall key | key in assignments :: assignments[key] == Bucket(tokens, rows, cols, minOverlap, key)
  {
    assignments := map key | key in Keys(rows, cols) :: [];
    for k := 0 to |tokens|
      invariant assignments.Keys == Keys(rows, cols)
      invariant forall key | key in assignments :: assignments[key] == Bucket(tokens[..k], rows, cols, minOverlap, key)
    {
      var choice := ChooseCell(tokens[k], rows, cols, minOverlap);
      forall key | key in assignments {
        BucketNext(tokens, k, rows, cols, minOverlap, key);
      }
      if choice.Some? {
        assignments := assignments[choice.value := assignments[choice.value] + [tokens[k]]];
      }
    }
    assert tokens[..|tokens|] == tokens;
  }

  /** Exclusive: a token occurs in the bucket of its chosen cell as often as it was given, and in no other bucket. */
  lemma {:induction false} BucketTimes(tokens: seq<OcrToken>, rows: seq<Band>, cols: seq<Band>, minOverlap: real, key: GridKey, t: OcrToken)
    ensures Times(Bucket(tokens, rows, cols, minOverlap, key), t) ==
            if Choice(t, rows, cols, minOverlap) == Some(key) then Times(tokens, t) else 0
  {
    if |tokens| > 0 {
      var front, last := tokens[..|tokens| - 1], tokens[|tokens| - 1];
      BucketTimes(front, rows, cols, minOverlap, key, t);
      var more := if Choice(last, rows, cols, minOverlap) == Some(key) then [last] else [];
      TimesConcat(Bucket(front, rows, cols, minOverlap, key), more, t);
      assert |more| == 1 ==> more[..0] == [];
    }
  }
}
