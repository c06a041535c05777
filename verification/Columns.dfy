/** The XY-cut column detector of docmirror/layout/columns.py. Coordinates are reals. */
module Columns {
  import opened Reals
  import opened Sequences

  /** A block's bounding box as given: x0, y0, x1, y1, or fewer numbers when it is missing or malformed. */
  datatype Block = Block(bbox: seq<real>)

  datatype Layout = Layout(columns: seq<seq<nat>>, gapPositions: seq<real>)

  datatype Params = Params(minColumnWidth: real, minBlockCount: int)

  function Width(pageWidth: real): (w: nat)
    ensures w >= 1
  {
    if Truncate(pageWidth) >= 1 then Truncate(pageWidth) else 1
  }

  // ----- Step 1: the projection profile -----

  /** Block b covers the unit x of a profile of the given width. */
  predicate Covers(b: Block, width: nat, x: int) {
    && |b.bbox| >= 4
    && 0 <= x < width && Truncate(b.bbox[0]) <= x <= Truncate(b.bbox[2])
  }

  predicate Covered(blocks: seq<Block>, width: nat, x: int) {
    exists k | 0 <= k < |blocks| :: Covers(blocks[k], width, x)
  }

  function Profile(blocks: seq<Block>, width: nat): (p: seq<int>)
    ensures |p| == width
  {
    seq(width, x => if Covered(blocks, width, x) then 1 else 0)
  }

  method BuildProfile(blocks: seq<Block>, width: nat) returns (profile: array<int>)
    ensures fresh(profile) && profile[..] == Profile(blocks, width)
  {
    profile := new int[width](_ => 0);
    for k := 0 to |blocks|
      invariant forall x | 0 <= x < width :: profile[x] == if Covered(blocks[..k], width, x) then 1 else 0
    {
      var bbox := blocks[k].bbox;
      CoveredNext(blocks, k, width);
      if |bbox| >= 4 {
        var x0 := if Truncate(bbox[0]) > 0 then Truncate(bbox[0]) else 0;
        var x1 := if Truncate(bbox[2]) < width - 1 then Truncate(bbox[2]) else width - 1;
        var x := x0;
        while x <= x1
          invariant x0 <= x
          invariant forall y | 0 <= y < width ::
            profile[y] == if Covered(blocks[..k], width, y) || (x0 <= y < x && y <= x1) then 1 else 0
          decreases x1 - x
        {
          profile[x] := 1;
          x := x + 1;
        }
      }
    }
    assert blocks[..|blocks|] == blocks;
  }

  lemma CoveredNext(blocks: seq<Block>, k: nat, width: nat)
    requires k < |blocks|
    ensures forall x :: Covered(blocks[..k + 1], width, x) <==> Covered(blocks[..k], width, x) || Covers(blocks[k], width, x)
  {
    var now, next := blocks[..k], blocks[..k + 1];
    forall x ensures Covered(next, width, x) <==> Covered(now, width, x) || Covers(blocks[k], width, x) {
      if Covered(now, width, x) {
        var j :| 0 <= j < k && Covers(now[j], width, x);
        assert Covers(next[j], width, x);
      }
      if Covers(blocks[k], width, x) {
        assert next[k] == blocks[k];
      }
      if Covered(next, width, x) {
        var j :| 0 <= j < k + 1 && Covers(next[j], width, x);
        assert j < k ==> Covers(now[j], width, x);
      }
    }
  }

  // ----- Step 2: the gaps -----

  datatype Gap = Gap(start: nat, end: nat)

  /** The end of the run of zeros starting at i. */
  function RunEnd(p: seq<int>, i: nat): (e: nat)
    requires i <= |p|
    ensures i <= e <= |p| && (forall x | i <= x < e :: p[x] == 0) && (e < |p| ==> p[e] != 0)
    decreases |p| - i
  {
    if i < |p| && p[i] == 0 then RunEnd(p, i + 1) else i
  }

  /** The gaps from position i on, taken run by run. */
  function GapsFrom(p: seq<int>, minGap: real, i: nat): seq<Gap>
    requires i <= |p|
    decreases |p| - i
  {
    if i == |p| then []
    else if p[i] != 0 then GapsFrom(p, minGap, i + 1)
    else
      var e := RunEnd(p, i);
      (if (e - i) as real >= minGap then [Gap(i, e)] else []) + GapsFrom(p, minGap, e)
  }

  /** A longest stretch of zeros. */
  ghost predicate IsMaximalRun(p: seq<int>, g: Gap) {
    && g.start < g.end <= |p|
    && (forall x | g.start <= x < g.end :: p[x] == 0)
    && (g.start > 0 ==> p[g.start - 1] != 0)
    && (g.end < |p| ==> p[g.end] != 0)
  }

  /** The scan finds the wide enough maximal zero runs, all of them, from left to right. */
  lemma {:induction false} GapsAreMaximalRuns(p: seq<int>, minGap: real, i: nat)
    requires i <= |p| && (0 < i < |p| ==> p[i - 1] != 0 || p[i] != 0)
    ensures var gaps := GapsFrom(p, minGap, i);
            && (forall g :: g in gaps <==> IsMaximalRun(p, g) && g.start >= i && (g.end - g.start) as real >= minGap)
            && (forall j, k | 0 <= j < k < |gaps| :: gaps[j].end < gaps[k].start)
    decreases |p| - i
  {
    if i < |p| {
      var e := if p[i] != 0 then i + 1 else RunEnd(p, i);
      GapsAreMaximalRuns(p, minGap, e);
      var rest := GapsFrom(p, minGap, e);
      forall g ensures IsMaximalRun(p, g) && g.start >= i <==> (p[i] == 0 && g == Gap(i, e)) || (IsMaximalRun(p, g) && g.start >= e) {
        FirstRun(p, i, e, g);
      }
      if p[i] == 0 && (e - i) as real >= minGap {
        FirstInOrder(p, Gap(i, e), rest);
      }
    }
  }

  /** From position i on, the first run of zeros is the one that starts there, if there is a zero. */
  lemma FirstRun(p: seq<int>, i: nat, e: nat, g: Gap)
    requires i < |p| && (0 < i ==> p[i - 1] != 0 || p[i] != 0)
    requires e == if p[i] != 0 then i + 1 else RunEnd(p, i)
    ensures IsMaximalRun(p, g) && g.start >= i <==> (p[i] == 0 && g == Gap(i, e)) || (IsMaximalRun(p, g) && g.start >= e)
  {
    if IsMaximalRun(p, g) && g.start >= i && p[i] == 0 {
      assert g.start == i || g.start >= e;
      assert g.start == i ==> g.end == e;
    }
  }

  lemma FirstInOrder(p: seq<int>, first: Gap, rest: seq<Gap>)
    requires forall g | g in rest :: IsMaximalRun(p, g) && g.start >= first.end
    requires IsMaximalRun(p, first) && forall j, k | 0 <= j < k < |rest| :: rest[j].end < rest[k].start
    ensures var gaps := [first] + rest; forall j, k | 0 <= j < k < |gaps| :: gaps[j].end < gaps[k].start
  {
    var gaps := [first] + rest;
    forall j, k | 0 <= j < k < |gaps| ensures gaps[j].end < gaps[k].start {
      assert gaps[k] == rest[k - 1] && rest[k - 1] in rest;
      if j > 0 {
        assert gaps[j] == rest[j - 1];
      } else {
        assert gaps[k].start != first.end;
      }
    }
  }

  /** The scan with its in-gap flag. */
  method FindGaps(profile: array<int>, minGap: real) returns (gaps: seq<Gap>)
    ensures gaps == GapsFrom(profile[..], minGap, 0)
  {
    gaps := [];
    var inGap := false;
    var gapStart := 0;
    ghost var p := profile[..];
    for x := 0 to profile.Length
      invariant 0 <= gapStart <= x
      invariant inGap ==> gapStart < x && RunEnd(p, gapStart) == RunEnd(p, x) && p[gapStart] == 0
      invariant gaps + GapsFrom(p, minGap, if inGap then gapStart else x) == GapsFrom(p, minGap, 0)
    {
      if profile[x] == 0 {
        if !inGap {
          gapStart := x;
          inGap := true;
        }
      } else {
        if inGap {
          var gapWidth := x - gapStart;
          assert GapsFrom(p, minGap, x) == GapsFrom(p, minGap, x + 1);
          if gapWidth as real >= minGap {
            gaps := gaps + [Gap(gapStart, x)];
          }
          inGap := false;
        }
      }
    }
    if inGap {
      var gapWidth := profile.Length - gapStart;
      if gapWidth as real >= minGap {
        gaps := gaps + [Gap(gapStart, profile.Length)];
      }
    }
  }

  // ----- Step 3: the split -----

  function Center(b: Block): real
    requires |b.bbox| >= 3
  {
    (b.bbox[0] + b.bbox[2]) / 2.0
  }

  function Boundaries(gaps: seq<Gap>, pageWidth: real): (r: seq<real>)
    ensures |r| == |gaps| + 2
  {
    [0.0] + Midpoints(gaps) + [pageWidth]
  }

  function Midpoints(gaps: seq<Gap>): (r: seq<real>)
    ensures |r| == |gaps|
  {
    seq(|gaps|, k requires 0 <= k < |gaps| => (gaps[k].start + gaps[k].end) as real / 2.0)
  }

  /** The first column from i on whose boundaries enclose x, or the last one. */
  function FirstEnclosing(x: real, b: seq<real>, i: nat): (c: nat)
    requires i <= |b| - 1 && |b| >= 2
    ensures c <= |b| - 2
    decreases |b| - i
  {
    if i == |b| - 1 then |b| - 2
    else if x >= b[i] && x < b[i + 1] then i
    else FirstEnclosing(x, b, i + 1)
  }

  /** Blocks without a box go to the first column. */
  function ColumnOf(block: Block, b: seq<real>): (c: nat)
    requires |b| >= 2
    ensures c <= |b| - 2
  {
    if |block.bbox| < 4 then 0 else FirstEnclosing(Center(block), b, 0)
  }

  /** The indices below n of the blocks in column c, in order. */
  function Members(blocks: seq<Block>, b: seq<real>, c: nat, n: nat): seq<nat>
    requires |b| >= 2 && n <= |blocks|
  {
    if n == 0 then []
    else Members(blocks, b, c, n - 1) + if ColumnOf(blocks[n - 1], b) == c then [n - 1] else []
  }

  function Split(blocks: seq<Block>, b: seq<real>): (columns: seq<seq<nat>>)
    requires |b| >= 2
    ensures |columns| == |b| - 1
  {
    seq(|b| - 1, c requires 0 <= c < |b| - 1 => Members(blocks, b, c, |blocks|))
  }

  method AssignColumns(blocks: seq<Block>, b: seq<real>) returns (columns: seq<seq<nat>>)
    requires |b| >= 2
    ensures columns == Split(blocks, b)
  {
    columns := seq(|b| - 1, _ => []);
    for k := 0 to |blocks|
      invariant |columns| == |b| - 1
      invariant forall c | 0 <= c < |columns| :: columns[c] == Members(blocks, b, c, k)
    {
      var idx := 0;
      if |blocks[k].bbox| >= 4 {
        idx := LocateColumn(Center(blocks[k]), b);
      }
      columns := columns[idx := columns[idx] + [k]];
    }
  }

  method LocateColumn(x: real, b: seq<real>) returns (idx: nat)
    requires |b| >= 2
    ensures idx == FirstEnclosing(x, b, 0)
  {
    for i := 0 to |b| - 1
      invariant FirstEnclosing(x, b, 0) == FirstEnclosing(x, b, i)
    {
      if x >= b[i] && x < b[i + 1] {
        return i;
      }
    }
    return |b| - 2;
  }

  // ----- What the split guarantees -----

  /** Strictly increasing indices below n. */
  ghost predicate Ascending(s: seq<nat>, n: nat) {
    (forall i | 0 <= i < |s| :: s[i] < n) && (forall i, j | 0 <= i < j < |s| :: s[i] < s[j])
  }

  lemma {:induction false} MembersAscending(blocks: seq<Block>, b: seq<real>, c: nat, n: nat)
    requires |b| >= 2 && n <= |blocks|
    ensures Ascending(Members(blocks, b, c, n), n)
    ensures forall k: nat :: k in Members(blocks, b, c, n) <==> k < n && ColumnOf(blocks[k], b) == c
  {
    if n > 0 {
      MembersAscending(blocks, b, c, n - 1);
    }
  }

  lemma {:induction false} MembersTimes(blocks: seq<Block>, b: seq<real>, c: nat, n: nat, k: nat)
    requires |b| >= 2 && n <= |blocks|
    ensures Times(Members(blocks, b, c, n), k) == if k < n && ColumnOf(blocks[k], b) == c then 1 else 0
  {
    if n > 0 {
      MembersTimes(blocks, b, c, n - 1, k);
      var last: seq<nat> := if ColumnOf(blocks[n - 1], b) == c then [n - 1] else [];
      TimesConcat(Members(blocks, b, c, n - 1), last, k);
      assert Times(last, k) == if k == n - 1 && ColumnOf(blocks[k], b) == c then 1 else 0;
    }
  }

  /** Every block is in exactly one column. */
  lemma {:induction false} SplitTimes(blocks: seq<Block>, b: seq<real>, c: nat, k: nat)
    requires |b| >= 2 && c <= |b| - 1
    ensures Times(Flatten(Split(blocks, b)[..c]), k) == if k < |blocks| && ColumnOf(blocks[k], b) < c then 1 else 0
  {
    if c > 0 {
      SplitTimes(blocks, b, c - 1, k);
      FlattenNext(Split(blocks, b), c - 1);
      TimesConcat(Flatten(Split(blocks, b)[..c - 1]), Split(blocks, b)[c - 1], k);
      MembersTimes(blocks, b, c - 1, |blocks|, k);
    }
  }

  lemma {:induction false} EnclosedOrBeyond(x: real, b: seq<real>, i: nat)
    requires i <= |b| - 1 && |b| >= 2 && x >= b[i]
    ensures var c := FirstEnclosing(x, b, i);
            && (forall k | i <= k <= c :: x >= b[k])
            && (x < b[c + 1] || forall k | i <= k < |b| :: x >= b[k])
    decreases |b| - i
  {
    if i < |b| - 1 && !(x >= b[i] && x < b[i + 1]) {
      EnclosedOrBeyond(x, b, i + 1);
    }
  }

  ghost predicate StartsOnPage(b: Block, pageWidth: real) {
    |b.bbox| >= 4 && 0.0 <= b.bbox[0] <= b.bbox[2] && Truncate(b.bbox[0]) < Width(pageWidth)
  }

  /** A block lies on the side of a gap on which its center is. */
  lemma BesideGap(blocks: seq<Block>, k: nat, pageWidth: real, g: Gap)
    requires k < |blocks| && StartsOnPage(blocks[k], pageWidth)
    requires IsMaximalRun(Profile(blocks, Width(pageWidth)), g)
    ensures Center(blocks[k]) < (g.start + g.end) as real / 2.0 ==> blocks[k].bbox[2] < g.start as real
    ensures Center(blocks[k]) >= (g.start + g.end) as real / 2.0 ==> blocks[k].bbox[0] >= g.end as real
  {
    var w, p := Width(pageWidth), Profile(blocks, Width(pageWidth));
    var x0, x1 := Truncate(blocks[k].bbox[0]), Truncate(blocks[k].bbox[2]);
    var x := if x0 >= g.start then x0 else g.start;
    if x < g.end {
      assert p[x] == 0;
      assert !Covers(blocks[k], w, x);
      assert x1 < g.start;
    } else {
      assert x0 >= g.end;
    }
  }

  /** A left and a right column have a gap between them. */
  lemma GapBetween(gaps: seq<Gap>, pageWidth: real, left: Block, right: Block)
    requires |left.bbox| >= 4 && |right.bbox| >= 4 && Center(left) >= 0.0 && Center(right) >= 0.0
    requires ColumnOf(left, Boundaries(gaps, pageWidth)) < ColumnOf(right, Boundaries(gaps, pageWidth))
    ensures var c := ColumnOf(left, Boundaries(gaps, pageWidth));
            c < |gaps| && Center(left) < (gaps[c].start + gaps[c].end) as real / 2.0 <= Center(right)
  {
    var b := Boundaries(gaps, pageWidth);
    var c := ColumnOf(left, b);
    EnclosedOrBeyond(Center(left), b, 0);
    EnclosedOrBeyond(Center(right), b, 0);
    assert b[c + 1] == Midpoints(gaps)[c];
    if Center(left) >= b[c + 1] {
      BeyondIsLast(Center(left), b, 0);
    }
  }

  lemma {:induction false} BeyondIsLast(x: real, b: seq<real>, i: nat)
    requires i <= |b| - 1 && |b| >= 2
    requires x >= b[FirstEnclosing(x, b, i) + 1]
    ensures FirstEnclosing(x, b, i) == |b| - 2
    decreases |b| - i
  {
    if i < |b| - 1 && !(x >= b[i] && x < b[i + 1]) {
      BeyondIsLast(x, b, i + 1);
    }
  }

  /** Two blocks that start on the page and are put into different columns by the top-level split
      are more than the minimum gap apart. */
  lemma ColumnsAreSeparated(blocks: seq<Block>, pageWidth: real, minGap: real, i: nat, j: nat)
    requires i < |blocks| && j < |blocks|
    requires StartsOnPage(blocks[i], pageWidth) && StartsOnPage(blocks[j], pageWidth)
    requires var b := Boundaries(GapsFrom(Profile(blocks, Width(pageWidth)), minGap, 0), pageWidth);
             ColumnOf(blocks[i], b) < ColumnOf(blocks[j], b)
    ensures blocks[i].bbox[2] + minGap < blocks[j].bbox[0]
  {
    var p := Profile(blocks, Width(pageWidth));
    var gaps := GapsFrom(p, minGap, 0);
    GapBetween(gaps, pageWidth, blocks[i], blocks[j]);
    var g := gaps[ColumnOf(blocks[i], Boundaries(gaps, pageWidth))];
    GapsAreMaximalRuns(p, minGap, 0);
    assert g in gaps;
    BesideGap(blocks, i, pageWidth, g);
    BesideGap(blocks, j, pageWidth, g);
  }
}
