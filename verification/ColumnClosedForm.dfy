/** What the recursion of docmirror/layout/columns.py amounts to on well-formed pages: the sub-calls keep page coordinates, so
    the only gap they can see is the margin left of their column, and they never split anything. */
module ColumnClosedForm {
  import opened Options
  import opened Reals
  import opened Sequences
  import opened Columns
  import opened ColumnRecursion

  /** Every block has a box that starts on the page and does not end before it starts. */
  ghost predicate WellFormed(blocks: seq<Block>, pageWidth: real) {
    forall k | 0 <= k < |blocks| :: StartsOnPage(blocks[k], pageWidth)
  }

  ghost function PageGaps(blocks: seq<Block>, pageWidth: real, minGap: real): seq<Gap> {
    GapsFrom(Profile(blocks, Width(pageWidth)), minGap, 0)
  }

  ghost function PageColumns(blocks: seq<Block>, pageWidth: real, minGap: real): (columns: seq<seq<nat>>)
    ensures ValidColumns(columns, |blocks|)
  {
    var b := Boundaries(PageGaps(blocks, pageWidth, minGap), pageWidth);
    SplitIsValid(blocks, b);
    Split(blocks, b)
  }

  // ----- One side of every gap -----

  lemma MidpointsIncrease(gaps: seq<Gap>, i: nat, j: nat)
    requires i < j < |gaps| && forall a, b | 0 <= a < b < |gaps| :: gaps[a].end < gaps[b].start
    requires forall g | g in gaps :: g.start < g.end
    ensures Midpoints(gaps)[i] < Midpoints(gaps)[j]
  {
    assert gaps[i] in gaps && gaps[j] in gaps;
  }

  /** Blocks of one column are on the same side of every gap. */
  lemma SameSide(gaps: seq<Gap>, pageWidth: real, left: Block, right: Block, j: nat)
    requires |left.bbox| >= 4 && |right.bbox| >= 4 && 0.0 <= Center(left) && 0.0 <= Center(right)
    requires forall a, b | 0 <= a < b < |gaps| :: gaps[a].end < gaps[b].start
    requires forall g | g in gaps :: g.start < g.end
    requires j < |gaps| && Center(left) < Midpoints(gaps)[j] <= Center(right)
    ensures ColumnOf(left, Boundaries(gaps, pageWidth)) != ColumnOf(right, Boundaries(gaps, pageWidth))
  {
    var b := Boundaries(gaps, pageWidth);
    var c := ColumnOf(left, b);
    EnclosedOrBeyond(Center(left), b, 0);
    EnclosedOrBeyond(Center(right), b, 0);
    assert b[j + 1] == Midpoints(gaps)[j];
    assert c <= j && b[c + 1] == Midpoints(gaps)[c];
    if c < j {
      MidpointsIncrease(gaps, c, j);
    }
    if Center(right) >= b[ColumnOf(right, b) + 1] {
      BeyondIsLast(Center(right), b, 0);
    }
  }

  // ----- The run of zeros around a stretch of zeros -----

  /** The start of the run of zeros that ends at i. */
  ghost function RunStart(p: seq<int>, i: nat): (s: nat)
    requires i <= |p|
    ensures s <= i && (forall x | s <= x < i :: p[x] == 0) && (s > 0 ==> p[s - 1] != 0)
  {
    if i > 0 && p[i - 1] == 0 then RunStart(p, i - 1) else i
  }

  /** A stretch of zeros of at least the minimum gap lies in a gap of the page. */
  lemma StretchInGap(p: seq<int>, minGap: real, s: nat, e: nat) returns (g: Gap)
    requires s < e <= |p| && (forall x | s <= x < e :: p[x] == 0) && (e - s) as real >= minGap
    ensures g in GapsFrom(p, minGap, 0) && IsMaximalRun(p, g) && g.start <= s && e <= g.end
  {
    g := Gap(RunStart(p, s), RunEnd(p, e));
    assert forall x | g.start <= x < g.end :: p[x] == 0;
    GapsAreMaximalRuns(p, minGap, 0);
  }

  lemma PageGapsAreRuns(blocks: seq<Block>, pageWidth: real, minGap: real)
    ensures var p, gaps := Profile(blocks, Width(pageWidth)), PageGaps(blocks, pageWidth, minGap);
            && (forall g :: g in gaps <==> IsMaximalRun(p, g) && (g.end - g.start) as real >= minGap)
            && (forall a, b | 0 <= a < b < |gaps| :: gaps[a].end < gaps[b].start)
            && forall g | g in gaps :: g.start < g.end
  {
    GapsAreMaximalRuns(Profile(blocks, Width(pageWidth)), minGap, 0);
  }

  // ----- A column and the rest of the page -----

  /** A column of a page, cut out of it. */
  ghost predicate IsColumn(blocks: seq<Block>, pageWidth: real, minGap: real, c: nat, members: seq<Block>) {
    var columns := PageColumns(blocks, pageWidth, minGap);
    c < |columns| && members == Select(blocks, columns[c])
  }

  lemma InColumn(blocks: seq<Block>, pageWidth: real, minGap: real, c: nat, members: seq<Block>, k: nat) returns (i: nat)
    requires IsColumn(blocks, pageWidth, minGap, c, members) && k < |members|
    ensures i < |blocks| && blocks[i] == members[k]
    ensures ColumnOf(blocks[i], Boundaries(PageGaps(blocks, pageWidth, minGap), pageWidth)) == c
  {
    var b := Boundaries(PageGaps(blocks, pageWidth, minGap), pageWidth);
    i := PageColumns(blocks, pageWidth, minGap)[c][k];
    MembersAscending(blocks, b, c, |blocks|);
    assert i in Members(blocks, b, c, |blocks|);
  }

  lemma IsMember(blocks: seq<Block>, pageWidth: real, minGap: real, c: nat, members: seq<Block>, i: nat)
    requires IsColumn(blocks, pageWidth, minGap, c, members) && i < |blocks|
    requires ColumnOf(blocks[i], Boundaries(PageGaps(blocks, pageWidth, minGap), pageWidth)) == c
    ensures blocks[i] in members
  {
    var b := Boundaries(PageGaps(blocks, pageWidth, minGap), pageWidth);
    MembersAscending(blocks, b, c, |blocks|);
    var k :| 0 <= k < |Members(blocks, b, c, |blocks|)| && Members(blocks, b, c, |blocks|)[k] == i;
    assert members[k] == blocks[i];
  }

  /** Blocks of different columns are on different sides of a gap. */
  lemma Beside(blocks: seq<Block>, pageWidth: real, minGap: real, i: nat, j: nat) returns (g: Gap)
    requires WellFormed(blocks, pageWidth) && i < |blocks| && j < |blocks|
    requires var b := Boundaries(PageGaps(blocks, pageWidth, minGap), pageWidth); ColumnOf(blocks[i], b) < ColumnOf(blocks[j], b)
    ensures g.start < g.end && blocks[i].bbox[2] < g.start as real && g.end as real <= blocks[j].bbox[0]
  {
    var gaps := PageGaps(blocks, pageWidth, minGap);
    PageGapsAreRuns(blocks, pageWidth, minGap);
    GapBetween(gaps, pageWidth, blocks[i], blocks[j]);
    g := gaps[ColumnOf(blocks[i], Boundaries(gaps, pageWidth))];
    assert g in gaps;
    BesideGap(blocks, i, pageWidth, g);
    BesideGap(blocks, j, pageWidth, g);
  }

  /** Between two blocks of a column only blocks of the column can cover a point. */
  lemma OnlyOwnBlocks(blocks: seq<Block>, pageWidth: real, minGap: real, c: nat, members: seq<Block>, l: nat, r: nat, x: nat, i: nat)
    requires WellFormed(blocks, pageWidth) && IsColumn(blocks, pageWidth, minGap, c, members)
    requires l < |members| && r < |members| && i < |blocks| && x < Width(pageWidth)
    requires Truncate(members[l].bbox[0]) <= x <= Truncate(members[r].bbox[2]) && Covers(blocks[i], Width(pageWidth), x)
    ensures blocks[i] in members
  {
    var a := InColumn(blocks, pageWidth, minGap, c, members, l);
    var b := InColumn(blocks, pageWidth, minGap, c, members, r);
    var d := ColumnOf(blocks[i], Boundaries(PageGaps(blocks, pageWidth, minGap), pageWidth));
    if d < c {
      var g := Beside(blocks, pageWidth, minGap, i, a);
      assert false;
    } else if d > c {
      var g := Beside(blocks, pageWidth, minGap, b, i);
      assert false;
    } else {
      IsMember(blocks, pageWidth, minGap, c, members, i);
    }
  }

  // ----- The sub-call -----

  /** The sub-call of a column sees no gap of its size but the margin left of the column. */
  lemma OnlyTheMargin(blocks: seq<Block>, pageWidth: real, minGap: real, c: nat, members: seq<Block>, width: real, s: nat, e: nat)
    requires WellFormed(blocks, pageWidth) && IsColumn(blocks, pageWidth, minGap, c, members)
    requires |members| > 0 && Measured(members) && width == Span(members) && 0.0 < width < pageWidth
    requires 0 < s < e <= Width(width) && IsMaximalRun(Profile(members, Width(width)), Gap(s, e))
    ensures (e - s) as real < minGap
  {
    var w := Width(width);
    var l := LeftOf(members, w, s - 1);
    var r := Rightmost(members);
    RightmostReaches(blocks, pageWidth, minGap, c, members, width);
    NarrowerPage(width, pageWidth);
    var p := Profile(blocks, Width(pageWidth));
    forall x | s <= x < e ensures p[x] == 0 {
      StaysUncovered(blocks, pageWidth, minGap, c, members, width, l, r, s, e, x);
    }
    if (e - s) as real >= minGap {
      var g := StretchInGap(p, minGap, s, e);
      Straddles(blocks, pageWidth, minGap, c, members, g, l, r, s, e);
      ReachesPoint(members[r], width, e - 1);
      assert false;
    }
  }

  /** A member that covers a point of the sub-call's profile. */
  lemma LeftOf(members: seq<Block>, w: nat, x: nat) returns (l: nat)
    requires x < w && Profile(members, w)[x] != 0
    ensures l < |members| && Covers(members[l], w, x)
  {
    l :| 0 <= l < |members| && Covers(members[l], w, x);
  }

  /** The member that reaches farthest to the right. */
  lemma {:induction false} Rightmost(members: seq<Block>) returns (r: nat)
    requires |members| > 0 && Measured(members)
    ensures r < |members| && members[r].bbox[2] == Rights(members)
  {
    if |members| == 1 {
      r := 0;
    } else {
      var front := members[..|members| - 1];
      r := Rightmost(front);
      if Rights(members) != Rights(front) {
        r := |members| - 1;
      }
    }
  }

  lemma {:induction false} LeftsIsLeft(members: seq<Block>, k: nat)
    requires Measured(members) && k < |members|
    ensures Lefts(members) <= members[k].bbox[0]
  {
    if |members| > 1 && k < |members| - 1 {
      LeftsIsLeft(members[..|members| - 1], k);
    }
  }

  lemma {:induction false} LeftsIsSome(members: seq<Block>) returns (k: nat)
    requires |members| > 0 && Measured(members)
    ensures k < |members| && members[k].bbox[0] == Lefts(members)
  {
    if |members| == 1 {
      k := 0;
    } else {
      var front := members[..|members| - 1];
      k := LeftsIsSome(front);
      if Lefts(members) != Lefts(front) {
        k := |members| - 1;
      }
    }
  }

  lemma MembersAreWellFormed(blocks: seq<Block>, pageWidth: real, minGap: real, c: nat, members: seq<Block>)
    requires WellFormed(blocks, pageWidth) && IsColumn(blocks, pageWidth, minGap, c, members)
    ensures forall k | 0 <= k < |members| :: StartsOnPage(members[k], pageWidth)
  {
    forall k: nat | k < |members| ensures StartsOnPage(members[k], pageWidth) {
      var i := InColumn(blocks, pageWidth, minGap, c, members, k);
    }
  }

  lemma NarrowerPage(width: real, pageWidth: real)
    requires width < pageWidth
    ensures Width(width) <= Width(pageWidth)
  {
  }

  /** The column reaches at least as far to the right as it is wide, as it does not start left of the page. */
  lemma RightmostReaches(blocks: seq<Block>, pageWidth: real, minGap: real, c: nat, members: seq<Block>, width: real)
    requires WellFormed(blocks, pageWidth) && IsColumn(blocks, pageWidth, minGap, c, members)
    requires |members| > 0 && Measured(members) && width == Span(members)
    ensures width <= Rights(members)
  {
    MembersAreWellFormed(blocks, pageWidth, minGap, c, members);
    var k := LeftsIsSome(members);
  }

  lemma MemberCovers(members: seq<Block>, block: Block, pageWidth: nat, width: nat, x: nat)
    requires block in members && Covers(block, pageWidth, x) && x < width
    ensures Profile(members, width)[x] == 1
  {
    var k :| 0 <= k < |members| && members[k] == block;
    assert Covers(members[k], width, x);
  }

  lemma StaysUncovered(blocks: seq<Block>, pageWidth: real, minGap: real, c: nat, members: seq<Block>, width: real,
                       l: nat, r: nat, s: nat, e: nat, x: nat)
    requires WellFormed(blocks, pageWidth) && IsColumn(blocks, pageWidth, minGap, c, members)
    requires l < |members| && r < |members| && Measured(members)
    requires 0 < s <= x < e <= Width(width) <= Width(pageWidth) && IsMaximalRun(Profile(members, Width(width)), Gap(s, e))
    requires Covers(members[l], Width(width), s - 1) && members[r].bbox[2] >= width > 0.0
    ensures Profile(blocks, Width(pageWidth))[x] == 0
  {
    var w, p := Width(width), Profile(blocks, Width(pageWidth));
    if p[x] != 0 {
      var i :| 0 <= i < |blocks| && Covers(blocks[i], Width(pageWidth), x);
      ReachesPoint(members[r], width, x);
      OnlyOwnBlocks(blocks, pageWidth, minGap, c, members, l, r, x, i);
      MemberCovers(members, blocks[i], Width(pageWidth), w, x);
      assert false;
    }
  }

  /** A block that ends at the page width or beyond reaches every point of the profile. */
  lemma ReachesPoint(block: Block, width: real, x: nat)
    requires |block.bbox| >= 3 && block.bbox[2] >= width > 0.0 && x < Width(width)
    ensures x <= Truncate(block.bbox[2])
  {
  }

  /** A column with a block left of a gap has none that reaches the gap's points. */
  lemma Straddles(blocks: seq<Block>, pageWidth: real, minGap: real, c: nat, members: seq<Block>, g: Gap, l: nat, r: nat, s: nat, e: nat)
    requires WellFormed(blocks, pageWidth) && IsColumn(blocks, pageWidth, minGap, c, members)
    requires g in PageGaps(blocks, pageWidth, minGap) && IsMaximalRun(Profile(blocks, Width(pageWidth)), g)
    requires l < |members| && r < |members| && 0 < s < e && g.start <= s && e <= g.end
    requires |members[l].bbox| >= 4 && |members[r].bbox| >= 4
    requires Truncate(members[l].bbox[0]) <= s - 1
    ensures Truncate(members[r].bbox[2]) < e - 1
  {
    if Truncate(members[r].bbox[2]) >= e - 1 {
      var gaps := PageGaps(blocks, pageWidth, minGap);
      PageGapsAreRuns(blocks, pageWidth, minGap);
      var a := InColumn(blocks, pageWidth, minGap, c, members, l);
      var b := InColumn(blocks, pageWidth, minGap, c, members, r);
      BesideGap(blocks, a, pageWidth, g);
      BesideGap(blocks, b, pageWidth, g);
      var j :| 0 <= j < |gaps| && gaps[j] == g;
      SameSide(gaps, pageWidth, blocks[a], blocks[b], j);
      assert false;
    }
  }

  /** The columns of the sub-call: all blocks together, possibly after an empty column. */
  ghost predicate Unsplit(columns: seq<seq<nat>>, n: nat) {
    columns == [Iota(n)] || columns == [[], Iota(n)]
  }

  lemma SubGapCovers(minGap: real, width: real, length: int)
    requires width > 0.0 && length > 0 && (length as real) < minGap
    ensures (length as real) < SubGap(minGap, width)
  {
  }

  /** All gaps the sub-call finds start at the left edge, so there is at most one. */
  lemma SubGaps(blocks: seq<Block>, pageWidth: real, minGap: real, c: nat, members: seq<Block>, width: real)
    requires WellFormed(blocks, pageWidth) && IsColumn(blocks, pageWidth, minGap, c, members)
    requires |members| > 0 && Measured(members) && width == Span(members) && 0.0 < width < pageWidth
    ensures var gaps := PageGaps(members, width, SubGap(minGap, width));
            gaps == [] || (|gaps| == 1 && gaps[0].start == 0 && IsMaximalRun(Profile(members, Width(width)), gaps[0]))
  {
    var sub := SubGap(minGap, width);
    var gaps := PageGaps(members, width, sub);
    PageGapsAreRuns(members, width, sub);
    var j := if |gaps| > 1 then 1 else 0;
    if j < |gaps| {
      var g := gaps[j];
      assert g in gaps && (j > 0 ==> gaps[0].end < gaps[1].start);
      if g.start > 0 {
        OnlyTheMargin(blocks, pageWidth, minGap, c, members, width, g.start, g.end);
        SubGapCovers(minGap, width, g.end - g.start);
        assert false;
      }
    }
  }

  /** Every member is right of the margin. */
  lemma BeyondMargin(members: seq<Block>, width: real, g: Gap, k: nat)
    requires k < |members| && |members[k].bbox| >= 4 && 0.0 <= members[k].bbox[0] <= members[k].bbox[2]
    requires g.start == 0 && IsMaximalRun(Profile(members, Width(width)), g)
    ensures Center(members[k]) >= g.end as real
  {
    var x := Truncate(members[k].bbox[0]);
    if x < g.end {
      MemberCovers(members, members[k], Width(width), Width(width), x);
      assert false;
    }
  }

  lemma AllInSecond(members: seq<Block>, b: seq<real>, n: nat)
    requires |b| == 3 && n <= |members| && forall k | 0 <= k < |members| :: ColumnOf(members[k], b) == 1
    ensures Members(members, b, 0, n) == [] && Members(members, b, 1, n) == Iota(n)
  {
    if n > 0 {
      AllInSecond(members, b, n - 1);
      assert Iota(n) == Iota(n - 1) + [n - 1];
    }
  }

  /** With a margin the split of the sub-call is an empty column and all blocks. */
  lemma MarginSplit(members: seq<Block>, width: real, g: Gap)
    requires (forall k | 0 <= k < |members| :: |members[k].bbox| >= 4 && 0.0 <= members[k].bbox[0] <= members[k].bbox[2])
    requires g.start == 0 && IsMaximalRun(Profile(members, Width(width)), g)
    ensures Split(members, Boundaries([g], width)) == [[], Iota(|members|)]
  {
    var b := Boundaries([g], width);
    assert b == [0.0, (g.start + g.end) as real / 2.0, width];
    forall k | 0 <= k < |members| ensures ColumnOf(members[k], b) == 1 {
      BeyondMargin(members, width, g, k);
      var x := Center(members[k]);
      assert FirstEnclosing(x, b, 2) == 1;
      assert FirstEnclosing(x, b, 1) == 1;
      assert FirstEnclosing(x, b, 0) == FirstEnclosing(x, b, 1);
    }
    AllInSecond(members, b, |members|);
  }

  /** Neither column of such a split is split further: the second is as wide as the page. */
  lemma MarginRefined(members: seq<Block>, width: real, gap: real, p: Params, columns: seq<seq<nat>>)
    requires |members| > 0 && Measured(members) && width == Span(members) && width > 0.0 && p.minBlockCount >= 1
    requires columns == [[], Iota(|members|)]
    ensures ValidColumns(columns, |members|) && Refine(members, width, gap, p, columns, 2) == Some(Carry(columns, None))
  {
    assert Select(members, columns[1]) == members;
    var before := columns[..1];
    assert before == [] + [columns[0]] && columns == before + [columns[1]];
    assert Refine(members, width, gap, p, columns, 0) == Some(Carry([], None));
    assert Step(members, width, gap, p, Carry([], None), columns[0]) == Some(Carry(before, None));
    assert Refine(members, width, gap, p, columns, 1) == Some(Carry(before, None));
    assert Step(members, width, gap, p, Carry(before, None), columns[1]) == Some(Carry(columns, None));
  }

  /** A sub-call never splits its column: it returns all blocks together, at most with an empty column in front. */
  lemma SubCallNeverSplits(blocks: seq<Block>, pageWidth: real, minGap: real, p: Params, c: nat, members: seq<Block>, width: real)
    requires WellFormed(blocks, pageWidth) && IsColumn(blocks, pageWidth, minGap, c, members) && p.minBlockCount >= 1
    requires |members| > 0 && Measured(members) && width == Span(members) && 0.0 < width < pageWidth
    ensures var r := Detect(members, width, SubGap(minGap, width), p);
            r.Some? && Unsplit(r.value.columns, |members|)
  {
    var sub := SubGap(minGap, width);
    var gaps := PageGaps(members, width, sub);
    SubGaps(blocks, pageWidth, minGap, c, members, width);
    MembersAreWellFormed(blocks, pageWidth, minGap, c, members);
    if |members| >= p.minBlockCount && gaps != [] {
      assert gaps == [gaps[0]];
      MarginSplit(members, width, gaps[0]);
      MarginRefined(members, width, sub, p, Split(members, Boundaries(gaps, width)));
    }
  }

  // ----- The closed form -----

  /** At every column that passes the outer guard the inner one holds, or one before it passed both and has as many blocks. */
  ghost predicate InnerGuardHolds(blocks: seq<Block>, pageWidth: real, minGap: real, p: Params) {
    var columns := PageColumns(blocks, pageWidth, minGap);
    forall k | 0 <= k < |columns| && PassesOuter(blocks, pageWidth, p, columns[k]) ::
      SubGapFits(minGap, Span(Select(blocks, columns[k]))) || HasTwin(blocks, pageWidth, minGap, p, columns, k)
  }

  ghost predicate HasTwin(blocks: seq<Block>, pageWidth: real, minGap: real, p: Params, columns: seq<seq<nat>>, k: nat)
    requires k < |columns| && ValidColumns(columns, |blocks|)
  {
    var last := LastSplit(blocks, pageWidth, minGap, p, columns, k);
    last.Some? && |columns[last.value]| == |columns[k]|
  }

  lemma ColumnsAreMeasured(blocks: seq<Block>, pageWidth: real, minGap: real, k: nat)
    requires WellFormed(blocks, pageWidth) && k < |PageColumns(blocks, pageWidth, minGap)|
    ensures Measured(Select(blocks, PageColumns(blocks, pageWidth, minGap)[k]))
  {
    MembersAreWellFormed(blocks, pageWidth, minGap, k, Select(blocks, PageColumns(blocks, pageWidth, minGap)[k]));
  }

  /** At a column that passes both guards the sub-call keeps its blocks. */
  lemma SubCallKeeps(blocks: seq<Block>, pageWidth: real, minGap: real, p: Params, k: nat)
    requires WellFormed(blocks, pageWidth) && p.minBlockCount >= 1 && k < |PageColumns(blocks, pageWidth, minGap)|
    requires PassesOuter(blocks, pageWidth, p, PageColumns(blocks, pageWidth, minGap)[k])
    requires SubGapFits(minGap, Span(Select(blocks, PageColumns(blocks, pageWidth, minGap)[k])))
    ensures var members := Select(blocks, PageColumns(blocks, pageWidth, minGap)[k]);
            var r := Detect(members, Span(members), SubGap(minGap, Span(members)), p);
            r.Some? && Unsplit(r.value.columns, |members|)
  {
    var members := Select(blocks, PageColumns(blocks, pageWidth, minGap)[k]);
    SubCallNeverSplits(blocks, pageWidth, minGap, p, k, members, Span(members));
  }

  /** What is carried after k columns: the same columns but for empty ones, and the unsplit columns of the last sub-call. */
  ghost predicate CarriesSplit(blocks: seq<Block>, pageWidth: real, minGap: real, p: Params, k: nat, carry: Carry)
    requires k <= |PageColumns(blocks, pageWidth, minGap)|
  {
    var columns := PageColumns(blocks, pageWidth, minGap);
    var last := LastSplit(blocks, pageWidth, minGap, p, columns, k);
    && NonEmpty(carry.final) == NonEmpty(columns[..k])
    && (last.None? <==> carry.sub.None?)
    && (last.Some? ==> Unsplit(carry.sub.value, |columns[last.value]|))
  }

  function NonEmpty(columns: seq<seq<nat>>): seq<seq<nat>> {
    if |columns| == 0 then []
    else NonEmpty(columns[..|columns| - 1]) + if columns[|columns| - 1] == [] then [] else [columns[|columns| - 1]]
  }

  lemma {:induction false} NonEmptyConcat(a: seq<seq<nat>>, b: seq<seq<nat>>)
    ensures NonEmpty(a + b) == NonEmpty(a) + NonEmpty(b)
  {
    if |b| == 0 {
      assert a + b == a;
    } else {
      NonEmptyConcat(a, b[..|b| - 1]);
      assert (a + b)[..|a + b| - 1] == a + b[..|b| - 1];
    }
  }

  lemma NonEmptyOne(column: seq<nat>)
    ensures NonEmpty([column]) == if column == [] then [] else [column]
    ensures NonEmpty([[], column]) == NonEmpty([column])
  {
    var none: seq<nat> := [];
    assert [column][..0] == [] && [none][..0] == [];
    assert [none, column][..1] == [none];
    assert NonEmpty([none]) == [];
  }

  /** Mapping an unsplit result back gives the column itself. */
  lemma MapsToItself(column: seq<nat>, sub: seq<seq<nat>>)
    requires Unsplit(sub, |column|)
    ensures InRange(sub, |column|) && NonEmpty(Mapped(column, sub)) == NonEmpty([column])
  {
    assert MapOne(column, Iota(|column|)) == column;
    var none: seq<nat> := [];
    assert MapOne(column, none) == [];
    if sub == [Iota(|column|)] {
      assert Mapped(column, sub) == [column];
    } else {
      assert Mapped(column, sub) == [[], column];
      NonEmptyOne(column);
    }
  }

  /** A column that does not pass the outer guard is taken over as it is. */
  lemma StepTakesOver(blocks: seq<Block>, pageWidth: real, minGap: real, p: Params, columns: seq<seq<nat>>, k: nat, carry: Carry)
    requires k < |columns| && ValidColumns(columns, |blocks|) && p.minBlockCount >= 1
    requires Measured(Select(blocks, columns[k])) && !PassesOuter(blocks, pageWidth, p, columns[k])
    ensures Step(blocks, pageWidth, minGap, p, carry, columns[k]) == Some(Carry(carry.final + [columns[k]], carry.sub))
    ensures LastSplit(blocks, pageWidth, minGap, p, columns, k + 1) == LastSplit(blocks, pageWidth, minGap, p, columns, k)
  {
  }

  /** A column with a sub-call of its own. */
  lemma StepCalls(blocks: seq<Block>, pageWidth: real, minGap: real, p: Params, columns: seq<seq<nat>>, k: nat, carry: Carry,
                  sub: Layout)
    requires k < |columns| && ValidColumns(columns, |blocks|) && PassesOuter(blocks, pageWidth, p, columns[k])
    requires SubGapFits(minGap, Span(Select(blocks, columns[k]))) && InRange(sub.columns, |columns[k]|)
    requires var width := Span(Select(blocks, columns[k]));
             Detect(Select(blocks, columns[k]), width, SubGap(minGap, width), p) == Some(sub)
    ensures Step(blocks, pageWidth, minGap, p, carry, columns[k])
            == Some(Carry(carry.final + Mapped(columns[k], sub.columns), Some(sub.columns)))
    ensures LastSplit(blocks, pageWidth, minGap, p, columns, k + 1) == Some(k)
  {
    SubCallSmaller(blocks, columns[k], pageWidth, minGap, p);
  }

  /** A column that reads what an earlier one has left behind. */
  lemma StepReads(blocks: seq<Block>, pageWidth: real, minGap: real, p: Params, columns: seq<seq<nat>>, k: nat, carry: Carry)
    requires k < |columns| && ValidColumns(columns, |blocks|) && PassesOuter(blocks, pageWidth, p, columns[k])
    requires !SubGapFits(minGap, Span(Select(blocks, columns[k]))) && carry.sub.Some? && InRange(carry.sub.value, |columns[k]|)
    ensures Step(blocks, pageWidth, minGap, p, carry, columns[k])
            == Some(Carry(carry.final + Mapped(columns[k], carry.sub.value), carry.sub))
    ensures LastSplit(blocks, pageWidth, minGap, p, columns, k + 1) == LastSplit(blocks, pageWidth, minGap, p, columns, k)
  {
  }

  lemma StepKeepsSplit(blocks: seq<Block>, pageWidth: real, minGap: real, p: Params, columns: seq<seq<nat>>, k: nat, carry: Carry)
    requires WellFormed(blocks, pageWidth) && p.minBlockCount >= 1
    requires columns == PageColumns(blocks, pageWidth, minGap) && k < |columns|
    requires InnerGuardHolds(blocks, pageWidth, minGap, p) && CarriesSplit(blocks, pageWidth, minGap, p, k, carry)
    ensures var r := Step(blocks, pageWidth, minGap, p, carry, columns[k]);
            r.Some? && CarriesSplit(blocks, pageWidth, minGap, p, k + 1, r.value)
  {
    var column := columns[k];
    ColumnsAreMeasured(blocks, pageWidth, minGap, k);
    if !PassesOuter(blocks, pageWidth, p, column) {
      StepTakesOver(blocks, pageWidth, minGap, p, columns, k, carry);
      AddedKeeps(columns, k, carry.final, [column]);
    } else if SubGapFits(minGap, Span(Select(blocks, column))) {
      SubCallKeeps(blocks, pageWidth, minGap, p, k);
      var width := Span(Select(blocks, column));
      var sub := Detect(Select(blocks, column), width, SubGap(minGap, width), p).value;
      MapsToItself(column, sub.columns);
      StepCalls(blocks, pageWidth, minGap, p, columns, k, carry, sub);
      AddedKeeps(columns, k, carry.final, Mapped(column, sub.columns));
    } else {
      assert HasTwin(blocks, pageWidth, minGap, p, columns, k);
      MapsToItself(column, carry.sub.value);
      StepReads(blocks, pageWidth, minGap, p, columns, k, carry);
      AddedKeeps(columns, k, carry.final, Mapped(column, carry.sub.value));
    }
  }

  lemma AddedKeeps(columns: seq<seq<nat>>, k: nat, final: seq<seq<nat>>, added: seq<seq<nat>>)
    requires k < |columns| && NonEmpty(final) == NonEmpty(columns[..k]) && NonEmpty(added) == NonEmpty([columns[k]])
    ensures NonEmpty(final + added) == NonEmpty(columns[..k + 1])
  {
    assert columns[..k + 1] == columns[..k] + [columns[k]];
    NonEmptyConcat(columns[..k], [columns[k]]);
    NonEmptyConcat(final, added);
  }

  lemma {:induction false} RefineKeepsSplit(blocks: seq<Block>, pageWidth: real, minGap: real, p: Params, k: nat)
    requires WellFormed(blocks, pageWidth) && p.minBlockCount >= 1 && k <= |PageColumns(blocks, pageWidth, minGap)|
    requires InnerGuardHolds(blocks, pageWidth, minGap, p)
    ensures var r := Refine(blocks, pageWidth, minGap, p, PageColumns(blocks, pageWidth, minGap), k);
            r.Some? && CarriesSplit(blocks, pageWidth, minGap, p, k, r.value)
  {
    if k > 0 {
      RefineKeepsSplit(blocks, pageWidth, minGap, p, k - 1);
      var carry := Refine(blocks, pageWidth, minGap, p, PageColumns(blocks, pageWidth, minGap), k - 1).value;
      StepKeepsSplit(blocks, pageWidth, minGap, p, PageColumns(blocks, pageWidth, minGap), k - 1, carry);
    }
  }

  /** On a well-formed page the recursion changes nothing: the columns are those of the top-level split, with at most empty
      ones added. */
  lemma RecursionAddsNothing(blocks: seq<Block>, pageWidth: real, minGap: real, p: Params)
    requires WellFormed(blocks, pageWidth) && p.minBlockCount >= 1
    requires |blocks| >= p.minBlockCount && PageGaps(blocks, pageWidth, minGap) != []
    requires InnerGuardHolds(blocks, pageWidth, minGap, p)
    ensures var r := Detect(blocks, pageWidth, minGap, p);
            r.Some? && NonEmpty(r.value.columns) == NonEmpty(PageColumns(blocks, pageWidth, minGap))
  {
    var columns := PageColumns(blocks, pageWidth, minGap);
    RefineKeepsSplit(blocks, pageWidth, minGap, p, |columns|);
    assert columns[..|columns|] == columns;
  }

  // ----- When every block is kept -----

  lemma UnsplitIsPartition(columns: seq<seq<nat>>, n: nat)
    requires Unsplit(columns, n)
    ensures Partition(columns, n)
  {
    IotaIsPartition(n);
    var none: seq<nat> := [];
    var one := [Iota(n)];
    assert [none, Iota(n)] == [none] + one;
    FlattenConcat([none], one);
    FlattenSingle(none);
    assert Flatten([none, Iota(n)]) == Flatten(one);
  }

  /** At a column of a well-formed page the recursive condition is the inner guard, or a column with as many blocks. */
  lemma GuardAt(blocks: seq<Block>, pageWidth: real, minGap: real, p: Params, k: nat)
    requires WellFormed(blocks, pageWidth) && p.minBlockCount >= 1 && k < |PageColumns(blocks, pageWidth, minGap)|
    ensures var columns := PageColumns(blocks, pageWidth, minGap);
            GuardHoldsAt(blocks, pageWidth, minGap, p, columns, k) <==>
            (PassesOuter(blocks, pageWidth, p, columns[k]) ==>
               SubGapFits(minGap, Span(Select(blocks, columns[k]))) || HasTwin(blocks, pageWidth, minGap, p, columns, k))
  {
    var column := PageColumns(blocks, pageWidth, minGap)[k];
    ColumnsAreMeasured(blocks, pageWidth, minGap, k);
    if PassesOuter(blocks, pageWidth, p, column) && SubGapFits(minGap, Span(Select(blocks, column))) {
      var members := Select(blocks, column);
      var width := Span(members);
      SubCallKeeps(blocks, pageWidth, minGap, p, k);
      UnsplitIsPartition(Detect(members, width, SubGap(minGap, width), p).value.columns, |members|);
      DetectIff(members, width, SubGap(minGap, width), p);
    }
  }

  lemma {:induction false} GuardsUpToAt(blocks: seq<Block>, pageWidth: real, minGap: real, p: Params, columns: seq<seq<nat>>, k: nat, j: nat)
    requires j < k <= |columns| && ValidColumns(columns, |blocks|)
    requires GuardsHoldUpTo(blocks, pageWidth, minGap, p, columns, k)
    ensures GuardHoldsAt(blocks, pageWidth, minGap, p, columns, j)
  {
    if j < k - 1 {
      GuardsUpToAt(blocks, pageWidth, minGap, p, columns, k - 1, j);
    }
  }

  lemma {:induction false} GuardsUpToAll(blocks: seq<Block>, pageWidth: real, minGap: real, p: Params, k: nat)
    requires k <= |PageColumns(blocks, pageWidth, minGap)|
    requires WellFormed(blocks, pageWidth) && p.minBlockCount >= 1 && InnerGuardHolds(blocks, pageWidth, minGap, p)
    ensures GuardsHoldUpTo(blocks, pageWidth, minGap, p, PageColumns(blocks, pageWidth, minGap), k)
  {
    if k > 0 {
      GuardsUpToAll(blocks, pageWidth, minGap, p, k - 1);
      GuardAt(blocks, pageWidth, minGap, p, k - 1);
    }
  }

  /** On a well-formed page every block ends up in exactly one column, and nothing is raised, if and only if the inner guard
      holds for the columns of the top-level split. */
  lemma KeepsBlocksIff(blocks: seq<Block>, pageWidth: real, minGap: real, p: Params)
    requires WellFormed(blocks, pageWidth) && p.minBlockCount >= 1
    ensures Faithful(Detect(blocks, pageWidth, minGap, p), |blocks|) <==>
            (|blocks| >= p.minBlockCount && PageGaps(blocks, pageWidth, minGap) != [] ==> InnerGuardHolds(blocks, pageWidth, minGap, p))
  {
    if |blocks| < p.minBlockCount || PageGaps(blocks, pageWidth, minGap) == [] {
      IotaIsPartition(|blocks|);
    } else {
      SplitKeepsBlocksIff(blocks, pageWidth, minGap, p);
    }
  }

  lemma SplitKeepsBlocksIff(blocks: seq<Block>, pageWidth: real, minGap: real, p: Params)
    requires WellFormed(blocks, pageWidth) && p.minBlockCount >= 1
    requires |blocks| >= p.minBlockCount && PageGaps(blocks, pageWidth, minGap) != []
    ensures Faithful(Detect(blocks, pageWidth, minGap, p), |blocks|) <==> InnerGuardHolds(blocks, pageWidth, minGap, p)
  {
    var columns := PageColumns(blocks, pageWidth, minGap);
    DetectIff(blocks, pageWidth, minGap, p);
    assert GuardsHold(blocks, pageWidth, minGap, p) <==> GuardsHoldUpTo(blocks, pageWidth, minGap, p, columns, |columns|);
    if GuardsHold(blocks, pageWidth, minGap, p) {
      forall k: nat | k < |columns| && PassesOuter(blocks, pageWidth, p, columns[k])
        ensures SubGapFits(minGap, Span(Select(blocks, columns[k]))) || HasTwin(blocks, pageWidth, minGap, p, columns, k)
      {
        GuardsUpToAt(blocks, pageWidth, minGap, p, columns, |columns|, k);
        GuardAt(blocks, pageWidth, minGap, p, k);
      }
    }
    if InnerGuardHolds(blocks, pageWidth, minGap, p) {
      GuardsUpToAll(blocks, pageWidth, minGap, p, |columns|);
    }
  }

  /** With a minimum column width of at least 2.5 times the minimum gap, as in the defaults of 60 and 15 points, no
      well-formed page loses a block, and its columns are those of the top-level split. */
  lemma DefaultsAreSafe(blocks: seq<Block>, pageWidth: real, minGap: real, p: Params)
    requires WellFormed(blocks, pageWidth) && p.minBlockCount >= 1
    requires p.minColumnWidth >= 0.0 && p.minColumnWidth >= 2.5 * minGap
    ensures var r := Detect(blocks, pageWidth, minGap, p);
            && Faithful(r, |blocks|)
            && NonEmpty(r.value.columns) == NonEmpty(if |blocks| < p.minBlockCount then [Iota(|blocks|)]
                                                     else PageColumns(blocks, pageWidth, minGap))
  {
    if |blocks| < p.minBlockCount {
      IotaIsPartition(|blocks|);
    } else if PageGaps(blocks, pageWidth, minGap) == [] {
      IotaIsPartition(|blocks|);
      NoGaps(blocks, pageWidth, minGap);
    } else {
      InnerFollows(blocks, pageWidth, minGap, p);
      KeepsBlocksIff(blocks, pageWidth, minGap, p);
      RecursionAddsNothing(blocks, pageWidth, minGap, p);
    }
  }

  lemma InnerFollows(blocks: seq<Block>, pageWidth: real, minGap: real, p: Params)
    requires p.minColumnWidth >= 0.0 && p.minColumnWidth >= 2.5 * minGap
    ensures InnerGuardHolds(blocks, pageWidth, minGap, p)
  {
    var columns := PageColumns(blocks, pageWidth, minGap);
    forall k | 0 <= k < |columns| && PassesOuter(blocks, pageWidth, p, columns[k])
      ensures SubGapFits(minGap, Span(Select(blocks, columns[k])))
    {
      OuterGuardSuffices(Span(Select(blocks, columns[k])), pageWidth, minGap, p);
    }
  }

  /** Without a gap there is one column. */
  lemma NoGaps(blocks: seq<Block>, pageWidth: real, minGap: real)
    requires PageGaps(blocks, pageWidth, minGap) == []
    ensures PageColumns(blocks, pageWidth, minGap) == [Iota(|blocks|)]
  {
    var b := Boundaries([], pageWidth);
    AllInFirst(blocks, b, |blocks|);
    assert Split(blocks, b)[0] == Iota(|blocks|);
  }

  lemma {:induction false} AllInFirst(blocks: seq<Block>, b: seq<real>, n: nat)
    requires |b| == 2 && n <= |blocks|
    ensures Members(blocks, b, 0, n) == Iota(n)
  {
    if n > 0 {
      AllInFirst(blocks, b, n - 1);
      assert Iota(n) == Iota(n - 1) + [n - 1];
    }
  }

  // ----- A page that is not well-formed -----

  ghost predicate Boxless(blocks: seq<Block>) {
    forall k | 0 <= k < |blocks| :: blocks[k].bbox == []
  }

  lemma {:induction false} AllZero(p: seq<int>, i: nat)
    requires i <= |p| && forall x | 0 <= x < |p| :: p[x] == 0
    ensures RunEnd(p, i) == |p|
    decreases |p| - i
  {
    if i < |p| {
      AllZero(p, i + 1);
    }
  }

  lemma {:induction false} BoxlessMembers(blocks: seq<Block>, b: seq<real>, n: nat)
    requires Boxless(blocks) && |b| >= 2 && n <= |blocks|
    ensures Members(blocks, b, 0, n) == Iota(n)
  {
    if n > 0 {
      BoxlessMembers(blocks, b, n - 1);
      assert Iota(n) == Iota(n - 1) + [n - 1];
    }
  }

  /** Enough blocks without a box on a page as wide as the minimum gap: the whole page is one gap, the first column holds
      all blocks, and reading their boxes raises. At the defaults four such blocks on a page of 15 points will do. */
  lemma BoxlessPageRaises(blocks: seq<Block>, pageWidth: real, minGap: real, p: Params)
    requires Boxless(blocks) && |blocks| >= p.minBlockCount && |blocks| > 0 && Width(pageWidth) as real >= minGap
    ensures Detect(blocks, pageWidth, minGap, p) == None
  {
    var profile := Profile(blocks, Width(pageWidth));
    AllZero(profile, 0);
    assert GapsFrom(profile, minGap, |profile|) == [];
    var gaps := GapsFrom(profile, minGap, 0);
    assert gaps == [Gap(0, |profile|)];
    var b := Boundaries(gaps, pageWidth);
    BoxlessMembers(blocks, b, |blocks|);
    var columns := Split(blocks, b);
    SplitIsValid(blocks, b);
    assert columns[0] == Iota(|blocks|);
    assert !Measured(Select(blocks, columns[0])) by {
      assert Select(blocks, columns[0])[0].bbox == [];
    }
    assert Refine(blocks, pageWidth, minGap, p, columns, 0) == Some(Carry([], None));
    assert Refine(blocks, pageWidth, minGap, p, columns, 1) == None;
    RaisedStays(blocks, pageWidth, minGap, p, columns, 1, |columns|);
  }
}
