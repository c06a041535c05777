/** Which blocks end up in different columns, said on the boxes alone: those with a wide enough stripe between them that
    no box of the page reaches into. */
module ColumnStripes {
  import opened Options
  import opened Reals
  import opened Sequences
  import opened Columns
  import opened ColumnRecursion
  import opened ColumnClosedForm

  /** The stripe from s up to e lies on the page, is at least as wide as the minimum gap, and every box ends before it or
      starts at its end or later. */
  ghost predicate IsStripe(blocks: seq<Block>, pageWidth: real, minGap: real, s: nat, e: nat) {
    && s < e && (e as real <= pageWidth || e == 1) && (e - s) as real >= minGap
    && forall k | 0 <= k < |blocks| && |blocks[k].bbox| >= 4 :: blocks[k].bbox[2] < s as real || blocks[k].bbox[0] >= e as real
  }

  /** Block i lies left of such a stripe and block j right of it. */
  ghost predicate Apart(blocks: seq<Block>, pageWidth: real, minGap: real, i: nat, j: nat)
    requires i < |blocks| && j < |blocks| && |blocks[i].bbox| >= 4 && |blocks[j].bbox| >= 4
  {
    exists s: nat, e: nat :: IsStripe(blocks, pageWidth, minGap, s, e) && blocks[i].bbox[2] < s as real && blocks[j].bbox[0] >= e as real
  }

  ghost function PageColumnOf(blocks: seq<Block>, pageWidth: real, minGap: real, i: nat): nat
    requires i < |blocks|
  {
    ColumnOf(blocks[i], Boundaries(PageGaps(blocks, pageWidth, minGap), pageWidth))
  }

  lemma OnPage(pageWidth: real, e: nat)
    requires e > 0
    ensures e <= Width(pageWidth) <==> e as real <= pageWidth || e == 1
  {
  }

  /** A stripe is a stretch of zeros in the projection. */
  lemma StripeIsZero(blocks: seq<Block>, pageWidth: real, minGap: real, s: nat, e: nat, x: nat)
    requires WellFormed(blocks, pageWidth) && IsStripe(blocks, pageWidth, minGap, s, e) && s <= x < e <= Width(pageWidth)
    ensures Profile(blocks, Width(pageWidth))[x] == 0
  {
    forall k | 0 <= k < |blocks| ensures !Covers(blocks[k], Width(pageWidth), x) {
      assert StartsOnPage(blocks[k], pageWidth);
    }
  }

  /** What lies apart is split. */
  lemma ApartAreSplit(blocks: seq<Block>, pageWidth: real, minGap: real, i: nat, j: nat, s: nat, e: nat)
    requires WellFormed(blocks, pageWidth) && i < |blocks| && j < |blocks| && IsStripe(blocks, pageWidth, minGap, s, e)
    requires blocks[i].bbox[2] < s as real && blocks[j].bbox[0] >= e as real
    ensures PageColumnOf(blocks, pageWidth, minGap, i) < PageColumnOf(blocks, pageWidth, minGap, j)
  {
    var gaps := PageGaps(blocks, pageWidth, minGap);
    OnPage(pageWidth, e);
    forall x | s <= x < e ensures Profile(blocks, Width(pageWidth))[x] == 0 {
      StripeIsZero(blocks, pageWidth, minGap, s, e, x);
    }
    var g := StretchInGap(Profile(blocks, Width(pageWidth)), minGap, s, e);
    assert StartsOnPage(blocks[i], pageWidth) && StartsOnPage(blocks[j], pageWidth);
    BesideGap(blocks, i, pageWidth, g);
    BesideGap(blocks, j, pageWidth, g);
    PageGapsAreRuns(blocks, pageWidth, minGap);
    var a :| 0 <= a < |gaps| && gaps[a] == g;
    SameSide(gaps, pageWidth, blocks[i], blocks[j], a);
    if PageColumnOf(blocks, pageWidth, minGap, j) < PageColumnOf(blocks, pageWidth, minGap, i) {
      GapBetween(gaps, pageWidth, blocks[j], blocks[i]);
    }
  }

  /** What is split lies apart. */
  lemma SplitAreApart(blocks: seq<Block>, pageWidth: real, minGap: real, i: nat, j: nat)
    requires WellFormed(blocks, pageWidth) && i < |blocks| && j < |blocks|
    requires PageColumnOf(blocks, pageWidth, minGap, i) < PageColumnOf(blocks, pageWidth, minGap, j)
    ensures Apart(blocks, pageWidth, minGap, i, j)
  {
    var gaps := PageGaps(blocks, pageWidth, minGap);
    assert StartsOnPage(blocks[i], pageWidth) && StartsOnPage(blocks[j], pageWidth);
    GapBetween(gaps, pageWidth, blocks[i], blocks[j]);
    var g := gaps[PageColumnOf(blocks, pageWidth, minGap, i)];
    PageGapsAreRuns(blocks, pageWidth, minGap);
    assert g in gaps;
    OnPage(pageWidth, g.end);
    forall k: nat | k < |blocks| ensures blocks[k].bbox[2] < g.start as real || blocks[k].bbox[0] >= g.end as real {
      assert StartsOnPage(blocks[k], pageWidth);
      BesideGap(blocks, k, pageWidth, g);
    }
    BesideGap(blocks, i, pageWidth, g);
    BesideGap(blocks, j, pageWidth, g);
    assert IsStripe(blocks, pageWidth, minGap, g.start, g.end);
  }

  /** On a well-formed page the split puts a block further left than another exactly if there is a stripe between them. */
  lemma SplitIffApart(blocks: seq<Block>, pageWidth: real, minGap: real, i: nat, j: nat)
    requires WellFormed(blocks, pageWidth) && i < |blocks| && j < |blocks|
    ensures PageColumnOf(blocks, pageWidth, minGap, i) < PageColumnOf(blocks, pageWidth, minGap, j) <==>
            Apart(blocks, pageWidth, minGap, i, j)
  {
    if PageColumnOf(blocks, pageWidth, minGap, i) < PageColumnOf(blocks, pageWidth, minGap, j) {
      SplitAreApart(blocks, pageWidth, minGap, i, j);
    }
    if Apart(blocks, pageWidth, minGap, i, j) {
      var s: nat, e: nat :| IsStripe(blocks, pageWidth, minGap, s, e) && blocks[i].bbox[2] < s as real && blocks[j].bbox[0] >= e as real;
      ApartAreSplit(blocks, pageWidth, minGap, i, j, s, e);
    }
  }

  // ----- The result of the detector -----

  /** Where a column is among those that are not empty. */
  ghost function Place(columns: seq<seq<nat>>, c: nat): nat
    requires c < |columns|
  {
    |NonEmpty(columns[..c])|
  }

  lemma PlaceHolds(columns: seq<seq<nat>>, c: nat)
    requires c < |columns| && columns[c] != []
    ensures Place(columns, c) < |NonEmpty(columns)| && NonEmpty(columns)[Place(columns, c)] == columns[c]
  {
    assert columns == columns[..c] + ([columns[c]] + columns[c + 1..]);
    NonEmptyOne(columns[c]);
    NextPlace(columns[..c], columns[c], [columns[c]], columns[c + 1..]);
  }

  lemma NextPlace(front: seq<seq<nat>>, column: seq<nat>, one: seq<seq<nat>>, rest: seq<seq<nat>>)
    requires |NonEmpty(one)| == 1 && NonEmpty(one)[0] == column
    ensures |NonEmpty(front)| < |NonEmpty(front + (one + rest))| && NonEmpty(front + (one + rest))[|NonEmpty(front)|] == column
  {
    NonEmptyConcat(front, one + rest);
    NonEmptyConcat(one, rest);
  }

  lemma PlacesIncrease(columns: seq<seq<nat>>, c: nat, d: nat)
    requires c < d < |columns| && columns[c] != []
    ensures Place(columns, c) < Place(columns, d)
  {
    PlaceHolds(columns[..d], c);
    assert columns[..d][..c] == columns[..c];
  }

  lemma {:induction false} PlaceOf(columns: seq<seq<nat>>, q: nat) returns (c: nat)
    requires q < |NonEmpty(columns)|
    ensures c < |columns| && columns[c] != [] && Place(columns, c) == q && NonEmpty(columns)[q] == columns[c]
  {
    var n := |columns| - 1;
    var front := columns[..n];
    if q < |NonEmpty(front)| {
      c := PlaceOf(front, q);
      assert front[..c] == columns[..c];
    } else {
      c := n;
    }
  }

  /** The place of a block's column in the result is the place of its column in the split. */
  lemma SamePlace(blocks: seq<Block>, pageWidth: real, minGap: real, columns: seq<seq<nat>>, c: nat, i: nat)
    requires NonEmpty(columns) == NonEmpty(PageColumns(blocks, pageWidth, minGap)) && c < |columns| && i in columns[c]
    ensures i < |blocks| && PageColumnOf(blocks, pageWidth, minGap, i) < |PageColumns(blocks, pageWidth, minGap)|
    ensures PageColumns(blocks, pageWidth, minGap)[PageColumnOf(blocks, pageWidth, minGap, i)] != []
    ensures Place(columns, c) == Place(PageColumns(blocks, pageWidth, minGap), PageColumnOf(blocks, pageWidth, minGap, i))
  {
    var page := PageColumns(blocks, pageWidth, minGap);
    var b := Boundaries(PageGaps(blocks, pageWidth, minGap), pageWidth);
    PlaceHolds(columns, c);
    var d := PlaceOf(page, Place(columns, c));
    assert i in page[d] && page[d] == Members(blocks, b, d, |blocks|);
    MembersAscending(blocks, b, d, |blocks|);
  }

  lemma PlacesIff(columns: seq<seq<nat>>, c: nat, d: nat)
    requires c < |columns| && d < |columns| && columns[c] != [] && columns[d] != []
    ensures Place(columns, c) < Place(columns, d) <==> c < d
  {
    if c < d {
      PlacesIncrease(columns, c, d);
    } else if d < c {
      PlacesIncrease(columns, d, c);
    }
  }

  lemma OrderIffApart(blocks: seq<Block>, pageWidth: real, minGap: real, columns: seq<seq<nat>>, c: nat, d: nat, i: nat, j: nat)
    requires WellFormed(blocks, pageWidth) && NonEmpty(columns) == NonEmpty(PageColumns(blocks, pageWidth, minGap))
    requires c < |columns| && d < |columns| && i in columns[c] && j in columns[d]
    ensures i < |blocks| && j < |blocks| && (c < d <==> Apart(blocks, pageWidth, minGap, i, j))
  {
    SamePlace(blocks, pageWidth, minGap, columns, c, i);
    SamePlace(blocks, pageWidth, minGap, columns, d, j);
    PlacesIff(columns, c, d);
    PlacesIff(PageColumns(blocks, pageWidth, minGap), PageColumnOf(blocks, pageWidth, minGap, i), PageColumnOf(blocks, pageWidth, minGap, j));
    SplitIffApart(blocks, pageWidth, minGap, i, j);
  }

  /** On a well-formed page with enough blocks, where the inner guard holds, `detect_columns` puts a block into an earlier
      column than another exactly if there is a stripe between them, and so into the same one exactly if there is none. */
  lemma ColumnsIffApart(blocks: seq<Block>, pageWidth: real, minGap: real, p: Params, c: nat, d: nat, i: nat, j: nat)
    requires WellFormed(blocks, pageWidth) && p.minBlockCount >= 1 && |blocks| >= p.minBlockCount
    requires InnerGuardHolds(blocks, pageWidth, minGap, p)
    ensures var r := Detect(blocks, pageWidth, minGap, p);
            && r.Some?
            && (c < |r.value.columns| && d < |r.value.columns| && i in r.value.columns[c] && j in r.value.columns[d] ==>
                  && i < |blocks| && j < |blocks|
                  && (c < d <==> Apart(blocks, pageWidth, minGap, i, j))
                  && (c == d <==> !Apart(blocks, pageWidth, minGap, i, j) && !Apart(blocks, pageWidth, minGap, j, i)))
  {
    if PageGaps(blocks, pageWidth, minGap) == [] {
      NoGaps(blocks, pageWidth, minGap);
    } else {
      RecursionAddsNothing(blocks, pageWidth, minGap, p);
    }
    var r := Detect(blocks, pageWidth, minGap, p);
    if c < |r.value.columns| && d < |r.value.columns| && i in r.value.columns[c] && j in r.value.columns[d] {
      OrderIffApart(blocks, pageWidth, minGap, r.value.columns, c, d, i, j);
      OrderIffApart(blocks, pageWidth, minGap, r.value.columns, d, c, j, i);
    }
  }

  /** At the defaults: gaps of 15 points, columns of 60 points and 4 blocks. */
  lemma DefaultColumns(blocks: seq<Block>, pageWidth: real, c: nat, d: nat, i: nat, j: nat)
    requires WellFormed(blocks, pageWidth) && |blocks| >= 4
    ensures var r := Detect(blocks, pageWidth, 15.0, Params(60.0, 4));
            && Faithful(r, |blocks|)
            && (c < |r.value.columns| && d < |r.value.columns| && i in r.value.columns[c] && j in r.value.columns[d] ==>
                  i < |blocks| && j < |blocks| && (c < d <==> Apart(blocks, pageWidth, 15.0, i, j)))
  {
    InnerFollows(blocks, pageWidth, 15.0, Params(60.0, 4));
    DefaultsAreSafe(blocks, pageWidth, 15.0, Params(60.0, 4));
    ColumnsIffApart(blocks, pageWidth, 15.0, Params(60.0, 4), c, d, i, j);
  }

  // ----- Where the gaps are -----

  /** A stripe that no box, and not the edge of the page, lets grow to either side. */
  ghost predicate MaximalStripe(blocks: seq<Block>, pageWidth: real, minGap: real, s: nat, e: nat) {
    && IsStripe(blocks, pageWidth, minGap, s, e)
    && (s > 0 ==> !IsStripe(blocks, pageWidth, minGap, s - 1, e)) && !IsStripe(blocks, pageWidth, minGap, s, e + 1)
  }

  /** A wide run of zeros is a stripe. */
  lemma RunIsStripe(blocks: seq<Block>, pageWidth: real, minGap: real, s: nat, e: nat)
    requires WellFormed(blocks, pageWidth) && s < e <= Width(pageWidth) && (e - s) as real >= minGap
    requires forall x | s <= x < e :: Profile(blocks, Width(pageWidth))[x] == 0
    ensures IsStripe(blocks, pageWidth, minGap, s, e)
  {
    OnPage(pageWidth, e);
    forall k: nat | k < |blocks| ensures blocks[k].bbox[2] < s as real || blocks[k].bbox[0] >= e as real {
      assert StartsOnPage(blocks[k], pageWidth);
      MissesRun(blocks, pageWidth, s, e, k);
    }
  }

  lemma MissesRun(blocks: seq<Block>, pageWidth: real, s: nat, e: nat, k: nat)
    requires k < |blocks| && StartsOnPage(blocks[k], pageWidth) && s < e <= Width(pageWidth)
    requires forall x | s <= x < e :: Profile(blocks, Width(pageWidth))[x] == 0
    ensures blocks[k].bbox[2] < s as real || blocks[k].bbox[0] >= e as real
  {
    var x0 := Truncate(blocks[k].bbox[0]);
    var x := if x0 >= s then x0 else s;
    if x < e {
      assert Profile(blocks, Width(pageWidth))[x] == 0;
      assert !Covers(blocks[k], Width(pageWidth), x);
    }
  }

  lemma NoStripe(blocks: seq<Block>, pageWidth: real, minGap: real, s: nat, e: nat)
    requires WellFormed(blocks, pageWidth) && s < e <= Width(pageWidth) && (e - s) as real >= minGap
    requires !IsStripe(blocks, pageWidth, minGap, s, e)
    ensures exists x | s <= x < e :: Profile(blocks, Width(pageWidth))[x] != 0
  {
    if forall x | s <= x < e :: Profile(blocks, Width(pageWidth))[x] == 0 {
      RunIsStripe(blocks, pageWidth, minGap, s, e);
    }
  }

  lemma StripeIsRun(blocks: seq<Block>, pageWidth: real, minGap: real, s: nat, e: nat)
    requires WellFormed(blocks, pageWidth) && IsStripe(blocks, pageWidth, minGap, s, e)
    ensures e <= Width(pageWidth) && forall x | s <= x < e :: Profile(blocks, Width(pageWidth))[x] == 0
  {
    OnPage(pageWidth, e);
    forall x | s <= x < e ensures Profile(blocks, Width(pageWidth))[x] == 0 {
      StripeIsZero(blocks, pageWidth, minGap, s, e, x);
    }
  }

  lemma MaximalIff(blocks: seq<Block>, pageWidth: real, minGap: real, s: nat, e: nat)
    requires WellFormed(blocks, pageWidth)
    ensures MaximalStripe(blocks, pageWidth, minGap, s, e) <==>
            IsMaximalRun(Profile(blocks, Width(pageWidth)), Gap(s, e)) && (e - s) as real >= minGap
  {
    var p := Profile(blocks, Width(pageWidth));
    if MaximalStripe(blocks, pageWidth, minGap, s, e) {
      StripeIsRun(blocks, pageWidth, minGap, s, e);
      if s > 0 {
        NoStripe(blocks, pageWidth, minGap, s - 1, e);
      }
      if e < |p| {
        NoStripe(blocks, pageWidth, minGap, s, e + 1);
      }
    }
    if IsMaximalRun(p, Gap(s, e)) && (e - s) as real >= minGap {
      RunIsStripe(blocks, pageWidth, minGap, s, e);
      forall l: nat, r: nat | l <= s && e <= r && IsStripe(blocks, pageWidth, minGap, l, r) ensures l == s && r == e {
        StripeIsRun(blocks, pageWidth, minGap, l, r);
      }
    }
  }

  ghost predicate IsMiddle(blocks: seq<Block>, pageWidth: real, minGap: real, x: real) {
    exists s: nat, e: nat :: MaximalStripe(blocks, pageWidth, minGap, s, e) && x == (s as real + e as real) / 2.0
  }

  /** The reported gap positions are the middles of the maximal stripes, from left to right. */
  lemma PositionsIff(blocks: seq<Block>, pageWidth: real, minGap: real, p: Params)
    requires WellFormed(blocks, pageWidth) && |blocks| >= p.minBlockCount && Detect(blocks, pageWidth, minGap, p).Some?
    ensures var xs := Detect(blocks, pageWidth, minGap, p).value.gapPositions;
            && (forall x :: x in xs <==> IsMiddle(blocks, pageWidth, minGap, x))
            && (forall j, k | 0 <= j < k < |xs| :: xs[j] < xs[k])
  {
    var gaps := PageGaps(blocks, pageWidth, minGap);
    var xs := Midpoints(gaps);
    PageGapsAreRuns(blocks, pageWidth, minGap);
    forall j, k | 0 <= j < k < |xs| ensures xs[j] < xs[k] {
      MidpointsIncrease(gaps, j, k);
    }
    forall x | x in xs ensures IsMiddle(blocks, pageWidth, minGap, x) {
      var k: nat :| k < |xs| && xs[k] == x;
      GapHasMiddle(blocks, pageWidth, minGap, k);
    }
    forall x | IsMiddle(blocks, pageWidth, minGap, x) ensures x in xs {
      MiddleHasGap(blocks, pageWidth, minGap, x);
    }
  }

  lemma GapHasMiddle(blocks: seq<Block>, pageWidth: real, minGap: real, k: nat)
    requires WellFormed(blocks, pageWidth) && k < |PageGaps(blocks, pageWidth, minGap)|
    ensures IsMiddle(blocks, pageWidth, minGap, Midpoints(PageGaps(blocks, pageWidth, minGap))[k])
  {
    var g := PageGaps(blocks, pageWidth, minGap)[k];
    PageGapsAreRuns(blocks, pageWidth, minGap);
    assert g in PageGaps(blocks, pageWidth, minGap);
    MaximalIff(blocks, pageWidth, minGap, g.start, g.end);
  }

  lemma MiddleHasGap(blocks: seq<Block>, pageWidth: real, minGap: real, x: real)
    requires WellFormed(blocks, pageWidth) && IsMiddle(blocks, pageWidth, minGap, x)
    ensures x in Midpoints(PageGaps(blocks, pageWidth, minGap))
  {
    var gaps := PageGaps(blocks, pageWidth, minGap);
    var s: nat, e: nat :| MaximalStripe(blocks, pageWidth, minGap, s, e) && x == (s as real + e as real) / 2.0;
    MaximalIff(blocks, pageWidth, minGap, s, e);
    PageGapsAreRuns(blocks, pageWidth, minGap);
    assert Gap(s, e) in gaps;
    var k :| 0 <= k < |gaps| && gaps[k] == Gap(s, e);
    assert Midpoints(gaps)[k] == x;
  }
}
