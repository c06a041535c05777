/** Deduplication, coalescing and cell scores said on the fields of tokens: which source wins over which, which fragments
    go, and what an overlap is worth. */
module TokenLaws {
  import opened Options
  import opened Reals
  import opened OcrTokens
  import opened Sequences
  import opened Sorting
  import opened TokenCoalescing
  import opened GridAssign

  // ----- Sources -----

  /** A token as recognised that is a single character, of neither kind of split. */
  ghost predicate IsSingle(t: OcrToken) {
    !t.lineSplit && !t.charSplit && t.origin == None && |t.text| == 1
  }

  ghost predicate IsCharSplit(t: OcrToken) {
    !t.lineSplit && t.charSplit
  }

  /** Single characters are the best source, then characters split from a token, then all else, and then what was split
      from a line. */
  ghost predicate BetterSource(a: OcrToken, b: OcrToken) {
    || (IsSingle(a) && !IsSingle(b))
    || (IsCharSplit(a) && !IsSingle(b) && !IsCharSplit(b))
    || (!a.lineSplit && b.lineSplit)
  }

  lemma PriorityIff(a: OcrToken, b: OcrToken)
    ensures Priority(a) > Priority(b) <==> BetterSource(a, b)
  {
  }

  /** a is tried before b, whatever else: it has the better source, or an equally good one and the higher confidence. */
  ghost predicate Beats(a: OcrToken, b: OcrToken) {
    BetterSource(a, b) || (!BetterSource(b, a) && a.confidence > b.confidence)
  }

  lemma BeatsIsRanked(a: OcrToken, b: OcrToken)
    requires Beats(a, b)
    ensures RankLe(a, b) && !RankLe(b, a)
  {
    PriorityIff(a, b);
    PriorityIff(b, a);
  }

  // ----- Duplicates -----

  /** Every token with text that is not returned has a duplicate that is, and that it does not beat. */
  lemma BestIsReturned(tokens: seq<OcrToken>, iou: real, t: OcrToken)
    requires t in tokens && t.text != "" && t !in Dedupe(tokens, iou)
    ensures exists k :: k in Dedupe(tokens, iou) && k in tokens && k.text == t.text && Iou(k.bbox, t.bbox) >= iou && !Beats(t, k)
  {
    DedupeKeepsOneEach(tokens, iou);
    var k :| k in Dedupe(tokens, iou) && StandsFor(k, t, iou);
    if Beats(t, k) {
      BeatsIsRanked(t, k);
    }
    WithinIn(Dedupe(tokens, iou), tokens, k);
  }

  /** Of two duplicates the one that beats the other is returned, in whatever order they are given. */
  lemma BetterOfTwo(a: OcrToken, b: OcrToken, iou: real)
    requires a.text == b.text != "" && Iou(a.bbox, b.bbox) >= iou && Beats(a, b)
    ensures Dedupe([a, b], iou) == Dedupe([b, a], iou) == [a]
  {
    BeatsIsRanked(a, b);
    RankOrder();
    SortsTwo(RankLe, a, b);
    assert [a, b][..1] == [a] && [a][..0] == [];
    assert Kept([a], iou) == [] + [a] == [a];
    assert Duplicate(a, b, iou) && a in [a];
    assert Kept([a, b], iou) == [a];
    SortsOne(PlaceLe, a);
  }

  lemma SortsOne<T(!new)>(le: (T, T) -> bool, a: T)
    ensures Sort(le, [a]) == [a]
  {
    assert [a][..0] == [];
    assert Sort(le, []) == [];
    assert Insert(le, a, []) == [a];
  }

  lemma SortsTwo<T(!new)>(le: (T, T) -> bool, a: T, b: T)
    requires le(a, b) && !le(b, a)
    ensures Sort(le, [a, b]) == Sort(le, [b, a]) == [a, b]
  {
    SortsOne(le, a);
    SortsOne(le, b);
    assert [a, b][..1] == [a] && [b, a][..1] == [b];
    assert [b][..0] == [];
    assert Insert(le, b, [a]) == [a] + [b];
    assert Insert(le, a, []) == [a];
    assert Insert(le, a, [b]) == [a] + [b];
  }

  /** What is returned stands in reading order: from top to bottom, then from left to right. */
  lemma ReadingOrder(tokens: seq<OcrToken>, iou: real, i: nat, j: nat)
    requires i < j < |Dedupe(tokens, iou)|
    ensures var s, t := Dedupe(tokens, iou)[i], Dedupe(tokens, iou)[j];
            s.bbox.y0 < t.bbox.y0 || (s.bbox.y0 == t.bbox.y0 && s.bbox.x0 <= t.bbox.x0)
  {
    PlaceOrder();
    var kept := Kept(Sort(RankLe, tokens), iou);
    SortSorts(PlaceLe, kept);
  }

  // ----- Fragments and groups -----

  /** A token as recognised, and not split from a line. */
  ghost predicate IsWhole(t: OcrToken) {
    t.origin == None && !t.lineSplit
  }

  lemma NativeIff(t: OcrToken)
    ensures IsNative(t) <==> IsWhole(t)
  {
  }

  /** No token is returned that was split from a whole token that was given. */
  lemma NoFragmentOfWhole(tokens: seq<OcrToken>, iou: real, t: OcrToken, parent: OcrToken)
    requires t in Coalesce(tokens, iou) && parent in tokens && IsWhole(parent) && parent.id != ""
    ensures t.origin != Some(parent.id)
  {
    CoalescedTokens(tokens, iou);
    NativeIff(parent);
    assert parent.id in NativeIds(tokens);
  }

  /** Two tokens were split from the same one, or one from the other, or have the same id. */
  ghost predicate SameGroup(a: OcrToken, b: OcrToken) {
    if a.origin == None || a.origin == Some("") then
      (if b.origin == None || b.origin == Some("") then a.id == b.id else b.origin == Some(a.id))
    else (if b.origin == None || b.origin == Some("") then a.origin == Some(b.id) else a.origin == b.origin)
  }

  lemma GroupIff(a: OcrToken, b: OcrToken)
    ensures GroupKey(a) == GroupKey(b) <==> SameGroup(a, b)
  {
  }

  /** At most one token of a group is returned, and none of the group that was given, but for fragments of whole tokens, has
      a better source. */
  lemma BestOfGroup(tokens: seq<OcrToken>, iou: real, t: OcrToken)
    requires t in Coalesce(tokens, iou)
    ensures forall u | u in Coalesce(tokens, iou) && SameGroup(t, u) :: u == t
    ensures forall u | u in tokens && SameGroup(t, u) && BetterSource(u, t) ::
              exists parent :: parent in tokens && IsWhole(parent) && u.origin == Some(parent.id)
  {
    var r, filtered := Coalesce(tokens, iou), WithoutFragments(tokens, NativeIds(tokens));
    CoalescedTokens(tokens, iou);
    forall u | u in r && SameGroup(t, u) ensures u == t {
      GroupIff(t, u);
      var i :| 0 <= i < |r| && r[i] == t;
      var j :| 0 <= j < |r| && r[j] == u;
    }
    forall u | u in tokens && SameGroup(t, u) && BetterSource(u, t)
      ensures exists parent :: parent in tokens && IsWhole(parent) && u.origin == Some(parent.id)
    {
      BetterIsFragment(tokens, filtered, t, u);
    }
  }

  lemma BetterIsFragment(tokens: seq<OcrToken>, filtered: seq<OcrToken>, t: OcrToken, u: OcrToken)
    requires filtered == WithoutFragments(tokens, NativeIds(tokens)) && IsBest(filtered, t)
    requires u in tokens && SameGroup(t, u) && BetterSource(u, t)
    ensures exists parent :: parent in tokens && IsWhole(parent) && u.origin == Some(parent.id)
  {
    GroupIff(t, u);
    PriorityIff(u, t);
    FragmentsGone(tokens, NativeIds(tokens), u);
    NoneIsBetter(filtered, t, u);
    var parent :| parent in tokens && IsNative(parent) && parent.id == u.origin.value;
    NativeIff(parent);
  }

  lemma NoneIsBetter(tokens: seq<OcrToken>, t: OcrToken, u: OcrToken)
    requires IsBest(tokens, t) && GroupKey(u) == GroupKey(t)
    ensures u in tokens ==> Priority(u) <= Priority(t)
  {
    if u in tokens {
      var i :| 0 <= i < |tokens| && tokens[i] == t && BestAt(tokens, i);
      var j :| 0 <= j < |tokens| && tokens[j] == u;
    }
  }

  // ----- Shares -----

  /** How much of the stretch from a to b lies between c and d. */
  ghost function Share(a: real, b: real, c: real, d: real): real
    requires a < b
  {
    var low, high := if a >= c then a else c, if b <= d then b else d;
    if high <= low then 0.0 else (high - low) / (b - a)
  }

  lemma ShareRange(a: real, b: real, c: real, d: real)
    requires a < b
    ensures 0.0 <= Share(a, b, c, d) <= 1.0
    ensures c <= a && b <= d ==> Share(a, b, c, d) == 1.0
    ensures d <= a || b <= c ==> Share(a, b, c, d) == 0.0
  {
    var low, high := if a >= c then a else c, if b <= d then b else d;
    if high > low {
      PartOfWhole(high - low, b - a);
    }
  }

  lemma PartOfWhole(p: real, w: real)
    requires 0.0 <= p <= w && w > 0.0
    ensures 0.0 <= p / w <= 1.0 && (p == w ==> p / w == 1.0)
  {
    var q := p / w;
    assert p == q * w;
  }

  /** A cut divides the share. */
  lemma ShareAdds(a: real, b: real, c: real, m: real, d: real)
    requires a < b && c <= m <= d
    ensures Share(a, b, c, m) + Share(a, b, m, d) == Share(a, b, c, d)
  {
    var low, high := if a >= c then a else c, if b <= d then b else d;
    if low < m < high {
      SumOfQuotients(m - low, high - m, b - a);
    }
  }

  lemma SumOfQuotients(p: real, q: real, w: real)
    requires w > 0.0
    ensures p / w + q / w == (p + q) / w
  {
  }

  lemma Quotient(p: real, q: real, w: real, h: real)
    requires w > 0.0 && h > 0.0
    ensures w * h > 0.0 && (p * q) / (w * h) == (p / w) * (q / h)
  {
    var x, y := p / w, q / h;
    assert p == x * w && q == y * h;
    assert p * q == (x * y) * (w * h);
  }

  /** A box with some extent in both directions. */
  ghost predicate HasArea(b: BBox) {
    b.x0 < b.x1 && b.y0 < b.y1
  }

  /** The overlap ratio is the share of the width times the share of the height. */
  lemma OverlapIsShares(inner: BBox, outer: BBox)
    requires HasArea(inner)
    ensures OverlapRatio(inner, outer)
            == Share(inner.x0, inner.x1, outer.x0, outer.x1) * Share(inner.y0, inner.y1, outer.y0, outer.y1)
  {
    var inter := Intersection(inner, outer);
    var x, y := Share(inner.x0, inner.x1, outer.x0, outer.x1), Share(inner.y0, inner.y1, outer.y0, outer.y1);
    if IsEmpty(inter) {
      assert x == 0.0 || y == 0.0;
      ZeroFactor(x, y);
    } else {
      var p, q, w, h := inter.x1 - inter.x0, inter.y1 - inter.y0, inner.x1 - inner.x0, inner.y1 - inner.y0;
      AreaIs(inner, w, h);
      AreaIs(inter, p, q);
      SharesAre(inner, outer, p, q, w, h, x, y);
      Quotient(p, q, w, h);
      RatioIs(inner, outer, inter, p * q, w * h);
    }
  }

  lemma ZeroFactor(x: real, y: real)
    requires x == 0.0 || y == 0.0
    ensures x * y == 0.0
  {
  }

  lemma SharesAre(inner: BBox, outer: BBox, p: real, q: real, w: real, h: real, x: real, y: real)
    requires HasArea(inner) && !IsEmpty(Intersection(inner, outer))
    requires p == Intersection(inner, outer).x1 - Intersection(inner, outer).x0 && w == inner.x1 - inner.x0
    requires q == Intersection(inner, outer).y1 - Intersection(inner, outer).y0 && h == inner.y1 - inner.y0
    requires x == Share(inner.x0, inner.x1, outer.x0, outer.x1) && y == Share(inner.y0, inner.y1, outer.y0, outer.y1)
    ensures x == p / w && y == q / h
  {
  }

  lemma RatioIs(inner: BBox, outer: BBox, inter: BBox, common: real, whole: real)
    requires inter == Intersection(inner, outer) && !IsEmpty(inter) && Area(inter) == common && Area(inner) == whole > 0.0
    ensures OverlapRatio(inner, outer) == common / whole
  {
  }

  lemma AreaIs(b: BBox, w: real, h: real)
    requires HasArea(b) && w == b.x1 - b.x0 && h == b.y1 - b.y0
    ensures Area(b) == w * h && w * h > 0.0
  {
  }

  /** The token's middle lies in the stretch. */
  ghost predicate Centered(a: real, b: real, c: real, d: real) {
    c + c <= a + b <= d + d
  }

  /** What a cell is worth to a token: the overlap, and a bonus of 0.05 for the middle of the token; a cell with too little
      overlap counts only with the middle and some overlap. The distance is that of the middles, along both axes. */
  lemma MatchIs(token: OcrToken, row: Band, col: Band, minOverlap: real)
    requires HasArea(token.bbox)
    ensures var t := token.bbox;
            var share := Share(t.x0, t.x1, col.bbox.x0, col.bbox.x1) * Share(t.y0, t.y1, row.bbox.y0, row.bbox.y1);
            var inside := Centered(t.x0, t.x1, col.bbox.x0, col.bbox.x1) && Centered(t.y0, t.y1, row.bbox.y0, row.bbox.y1);
            var m := CellMatch(token, row, col, minOverlap);
            && (m.Some? <==> share >= minOverlap || (inside && share > 0.0))
            && (m.Some? ==>
                  && m.value.score == share + (if inside then 0.05 else 0.0)
                  && 2.0 * m.value.distance == Abs(t.x0 + t.x1 - col.bbox.x0 - col.bbox.x1) + Abs(t.y0 + t.y1 - row.bbox.y0 - row.bbox.y1))
  {
    OverlapIsShares(token.bbox, CellBBox(row, col));
    MatchFrom(token, row, col, minOverlap, OverlapRatio(token.bbox, CellBBox(row, col)));
  }

  lemma MatchFrom(token: OcrToken, row: Band, col: Band, minOverlap: real, share: real)
    requires share == OverlapRatio(token.bbox, CellBBox(row, col))
    ensures var t := token.bbox;
            var inside := Centered(t.x0, t.x1, col.bbox.x0, col.bbox.x1) && Centered(t.y0, t.y1, row.bbox.y0, row.bbox.y1);
            var m := CellMatch(token, row, col, minOverlap);
            && (m.Some? <==> share >= minOverlap || (inside && share > 0.0))
            && (m.Some? ==>
                  && m.value.score == share + (if inside then 0.05 else 0.0)
                  && 2.0 * m.value.distance == Abs(t.x0 + t.x1 - col.bbox.x0 - col.bbox.x1) + Abs(t.y0 + t.y1 - row.bbox.y0 - row.bbox.y1))
  {
  }

  /** A token within its cell scores 1.05, the most there is, and one outside scores nothing. */
  lemma ScoreRange(token: OcrToken, row: Band, col: Band, minOverlap: real)
    requires HasArea(token.bbox)
    ensures var t, m := token.bbox, CellMatch(token, row, col, minOverlap);
            && (m.Some? ==> 0.0 <= m.value.score <= 1.05)
            && (col.bbox.x0 <= t.x0 && t.x1 <= col.bbox.x1 && row.bbox.y0 <= t.y0 && t.y1 <= row.bbox.y1 && minOverlap <= 1.0 ==>
                  m.Some? && m.value.score == 1.05)
            && ((t.x1 <= col.bbox.x0 || col.bbox.x1 <= t.x0 || t.y1 <= row.bbox.y0 || row.bbox.y1 <= t.y0) && minOverlap > 0.0 ==>
                  m.None?)
  {
    var t := token.bbox;
    var x, y := Share(t.x0, t.x1, col.bbox.x0, col.bbox.x1), Share(t.y0, t.y1, row.bbox.y0, row.bbox.y1);
    MatchIs(token, row, col, minOverlap);
    ShareRange(t.x0, t.x1, col.bbox.x0, col.bbox.x1);
    ShareRange(t.y0, t.y1, row.bbox.y0, row.bbox.y1);
    ProductRange(x, y);
  }

  lemma NonNegative(x: real, y: real)
    requires x >= 0.0 && y >= 0.0
    ensures x * y >= 0.0
  {
  }

  lemma ProductRange(x: real, y: real)
    requires 0.0 <= x <= 1.0 && 0.0 <= y <= 1.0
    ensures 0.0 <= x * y <= 1.0 && (x == 1.0 && y == 1.0 ==> x * y == 1.0) && (x == 0.0 || y == 0.0 ==> x * y == 0.0)
  {
    NonNegative(x, y);
    NonNegative(1.0 - x, y);
    assert (1.0 - x) * y == y - x * y;
  }

  /** The length of what two stretches have in common; not positive when they are apart. */
  ghost function Common(a: real, b: real, c: real, d: real): real {
    (if b <= d then b else d) - (if a >= c then a else c)
  }

  /** Intersection over union, as a threshold, for boxes of these widths and heights: the common part, if there is one, is
      at least that share of all that the boxes cover together. */
  lemma IouAtLeast(a: BBox, b: BBox, p: real, q: real, w: real, h: real, w': real, h': real, all: real, r: real)
    requires HasArea(a) && HasArea(b) && r > 0.0
    requires p == Common(a.x0, a.x1, b.x0, b.x1) && q == Common(a.y0, a.y1, b.y0, b.y1)
    requires w == a.x1 - a.x0 && h == a.y1 - a.y0 && w' == b.x1 - b.x0 && h' == b.y1 - b.y0
    requires all == w * h + w' * h' - p * q
    ensures Iou(a, b) >= r <==> p > 0.0 && q > 0.0 && p * q >= r * all
  {
    CommonIff(a, b, p, q);
    if p > 0.0 && q > 0.0 {
      var inter := Intersection(a, b);
      AreasAre(a, b, inter, p, q, w, h, w', h');
      CommonIsPart(p, q, w, h);
      IouFrom(a, b, inter, p * q, all);
      AtLeastIff(p * q, all, r);
    }
  }

  lemma AreasAre(a: BBox, b: BBox, c: BBox, p: real, q: real, w: real, h: real, w': real, h': real)
    requires HasArea(a) && HasArea(b) && HasArea(c) && p == c.x1 - c.x0 && q == c.y1 - c.y0
    requires w == a.x1 - a.x0 && h == a.y1 - a.y0 && w' == b.x1 - b.x0 && h' == b.y1 - b.y0
    ensures Area(a) == w * h > 0.0 && Area(b) == w' * h' > 0.0 && Area(c) == p * q
  {
    AreaIs(a, w, h);
    AreaIs(b, w', h');
    AreaIs(c, p, q);
  }

  lemma CommonIff(a: BBox, b: BBox, p: real, q: real)
    requires p == Common(a.x0, a.x1, b.x0, b.x1) && q == Common(a.y0, a.y1, b.y0, b.y1)
    ensures var inter := Intersection(a, b);
            && p == inter.x1 - inter.x0 && q == inter.y1 - inter.y0 && (IsEmpty(inter) <==> p <= 0.0 || q <= 0.0)
            && (IsEmpty(inter) ==> Iou(a, b) == 0.0)
  {
  }

  lemma IouFrom(a: BBox, b: BBox, inter: BBox, common: real, all: real)
    requires inter == Intersection(a, b) && !IsEmpty(inter)
    requires Area(inter) == common && Area(a) + Area(b) - common == all > 0.0
    ensures Iou(a, b) == common / all
  {
  }

  lemma CommonIsPart(p: real, q: real, w: real, h: real)
    requires 0.0 < p <= w && 0.0 < q <= h
    ensures 0.0 < p * q <= w * h
  {
    NonNegative(w - p, q);
    NonNegative(w, h - q);
    assert (w - p) * q == w * q - p * q && w * (h - q) == w * h - w * q;
  }

  lemma AtLeastIff(p: real, w: real, r: real)
    requires w > 0.0
    ensures p / w >= r <==> p >= r * w
  {
    var q := p / w;
    assert p == q * w;
    if q >= r {
      assert q * w >= r * w;
    } else {
      assert (r - q) * w > 0.0;
    }
  }

  // ----- Ties -----

  /** Of equally good cells the first is held. */
  lemma {:induction false} FirstIsHeld(cs: seq<Candidate>)
    requires |cs| > 0 && cs[0].found.score >= 0.0 && forall k | 0 <= k < |cs| :: cs[k].found == cs[0].found
    ensures BestOf(cs) == Best(Some(cs[0].key), cs[0].found.score, Some(cs[0].found.distance))
  {
    var front := cs[..|cs| - 1];
    if |front| > 0 {
      FirstIsHeld(front);
    }
  }

  /** The cell in row i and column j matches, and none before it does, in this row or an earlier one. */
  ghost predicate IsFirstMatch(token: OcrToken, rows: seq<Band>, cols: seq<Band>, minOverlap: real, i: nat, j: nat) {
    && i < |rows| && j < |cols| && CellMatch(token, rows[i], cols[j], minOverlap).Some?
    && (forall l | 0 <= l < j :: CellMatch(token, rows[i], cols[l], minOverlap).None?)
    && (forall k, l | 0 <= k < i && 0 <= l < |cols| :: CellMatch(token, rows[k], cols[l], minOverlap).None?)
  }

  lemma {:induction false} NoRowCandidates(token: OcrToken, row: Band, cols: seq<Band>, minOverlap: real)
    requires forall l | 0 <= l < |cols| :: CellMatch(token, row, cols[l], minOverlap).None?
    ensures RowCandidates(token, row, cols, minOverlap) == []
  {
    if |cols| > 0 {
      NoRowCandidates(token, row, cols[..|cols| - 1], minOverlap);
    }
  }

  lemma {:induction false} NoCandidates(token: OcrToken, rows: seq<Band>, cols: seq<Band>, minOverlap: real)
    requires forall k, l | 0 <= k < |rows| && 0 <= l < |cols| :: CellMatch(token, rows[k], cols[l], minOverlap).None?
    ensures Candidates(token, rows, cols, minOverlap) == []
  {
    if |rows| > 0 {
      NoCandidates(token, rows[..|rows| - 1], cols, minOverlap);
      NoRowCandidates(token, rows[|rows| - 1], cols, minOverlap);
    }
  }

  lemma {:induction false} FirstInRow(token: OcrToken, row: Band, cols: seq<Band>, minOverlap: real, j: nat)
    requires j < |cols| && CellMatch(token, row, cols[j], minOverlap).Some?
    requires forall l | 0 <= l < j :: CellMatch(token, row, cols[l], minOverlap).None?
    ensures var cs := RowCandidates(token, row, cols, minOverlap);
            |cs| > 0 && cs[0] == Candidate((row.index, cols[j].index), CellMatch(token, row, cols[j], minOverlap).value)
  {
    if j < |cols| - 1 {
      FirstInRow(token, row, cols[..|cols| - 1], minOverlap, j);
    } else {
      NoRowCandidates(token, row, cols[..|cols| - 1], minOverlap);
    }
  }

  lemma {:induction false} FirstInGrid(token: OcrToken, rows: seq<Band>, cols: seq<Band>, minOverlap: real, i: nat, j: nat)
    requires IsFirstMatch(token, rows, cols, minOverlap, i, j)
    ensures var cs := Candidates(token, rows, cols, minOverlap);
            |cs| > 0 && cs[0] == Candidate((rows[i].index, cols[j].index), CellMatch(token, rows[i], cols[j], minOverlap).value)
  {
    if i < |rows| - 1 {
      FirstInGrid(token, rows[..|rows| - 1], cols, minOverlap, i, j);
    } else {
      NoCandidates(token, rows[..|rows| - 1], cols, minOverlap);
      FirstInRow(token, rows[i], cols, minOverlap, j);
    }
  }

  /** If all matching cells are equally good, the token goes to the first of them, row by row and from left to right. */
  lemma FirstOfEqualCells(token: OcrToken, rows: seq<Band>, cols: seq<Band>, minOverlap: real, i: nat, j: nat, found: Match)
    requires IsFirstMatch(token, rows, cols, minOverlap, i, j) && found.score > 0.0
    requires forall k, l | 0 <= k < |rows| && 0 <= l < |cols| ::
               CellMatch(token, rows[k], cols[l], minOverlap) in [None, Some(found)]
    ensures Choice(token, rows, cols, minOverlap) == Some((rows[i].index, cols[j].index))
  {
    var cs := Candidates(token, rows, cols, minOverlap);
    FirstInGrid(token, rows, cols, minOverlap, i, j);
    forall k | 0 <= k < |cs| ensures cs[k].found == found {
      CandidatesMatch(token, rows, cols, minOverlap, cs[k]);
    }
    FirstIsHeld(cs);
  }
}
