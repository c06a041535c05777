/** Step 4 of the column detector: the recursion into columns, with the variable that survives from one
    column to the next. */
module ColumnRecursion {
  import opened Options
  import opened Reals
  import opened Sequences
  import opened Columns

  // ----- The width of a column -----

  function Lefts(blocks: seq<Block>): real
    requires |blocks| > 0 && Measured(blocks)
  {
    if |blocks| == 1 then blocks[0].bbox[0] else Min(Lefts(blocks[..|blocks| - 1]), blocks[|blocks| - 1].bbox[0])
  }

  function Rights(blocks: seq<Block>): real
    requires |blocks| > 0 && Measured(blocks)
  {
    if |blocks| == 1 then blocks[0].bbox[2] else Max(Rights(blocks[..|blocks| - 1]), blocks[|blocks| - 1].bbox[2])
  }

  /** Every box reaches at least its third number; otherwise reading it raises an IndexError. */
  predicate Measured(blocks: seq<Block>) {
    forall k | 0 <= k < |blocks| :: |blocks[k].bbox| >= 3
  }

  function Span(blocks: seq<Block>): real
    requires |blocks| > 0 && Measured(blocks)
  {
    Rights(blocks) - Lefts(blocks)
  }

  function Select(blocks: seq<Block>, indices: seq<nat>): (r: seq<Block>)
    requires forall k | 0 <= k < |indices| :: indices[k] < |blocks|
    ensures |r| == |indices|
  {
    seq(|indices|, k requires 0 <= k < |indices| => blocks[indices[k]])
  }

  // ----- The detector -----

  function SubGap(minGap: real, width: real): real {
    Max(minGap * 2.0, width * 0.15)
  }

  /** The outer guard: wide enough, but clearly narrower than the page. */
  predicate Recurses(width: real, pageWidth: real, p: Params) {
    width > p.minColumnWidth && width < pageWidth * 0.95
  }

  /** The inner guard. */
  predicate SubGapFits(minGap: real, width: real) {
    SubGap(minGap, width) < width * 0.8
  }

  function Iota(n: nat): (r: seq<nat>)
    ensures |r| == n && forall k | 0 <= k < n :: r[k] == k
  {
    seq(n, k requires 0 <= k < n => k)
  }

  /** `[[indices[s] for s in column] for column in columns]`. */
  function Mapped(indices: seq<nat>, columns: seq<seq<nat>>): seq<seq<nat>>
    requires InRange(columns, |indices|)
  {
    seq(|columns|, c requires 0 <= c < |columns| => MapOne(indices, columns[c]))
  }

  function MapOne(indices: seq<nat>, column: seq<nat>): (r: seq<nat>)
    requires forall k | 0 <= k < |column| :: column[k] < |indices|
    ensures |r| == |column|
  {
    seq(|column|, k requires 0 <= k < |column| => indices[column[k]])
  }

  predicate InRange(columns: seq<seq<nat>>, n: nat) {
    forall c | 0 <= c < |columns| :: forall k | 0 <= k < |columns[c]| :: columns[c][k] < n
  }

  ghost predicate ValidColumns(columns: seq<seq<nat>>, n: nat) {
    forall c | 0 <= c < |columns| :: Ascending(columns[c], n)
  }

  /** What step 4 carries from column to column: the final columns and the last sub-assignment, if there was one. */
  datatype Carry = Carry(final: seq<seq<nat>>, sub: Option<seq<seq<nat>>>)

  ghost function Shape(blocks: seq<Block>, pageWidth: real): nat {
    if |blocks| > 0 && Measured(blocks) && Span(blocks) == pageWidth then 0 else 1
  }

  /** `detect_columns`; None is an exception. */
  ghost function Detect(blocks: seq<Block>, pageWidth: real, minGap: real, p: Params): Option<Layout>
    decreases |blocks|, Shape(blocks, pageWidth), 1, 0
  {
    if |blocks| < p.minBlockCount then Some(Layout([Iota(|blocks|)], []))
    else
      var gaps := GapsFrom(Profile(blocks, Width(pageWidth)), minGap, 0);
      if gaps == [] then Some(Layout([Iota(|blocks|)], []))
      else
        var columns := Split(blocks, Boundaries(gaps, pageWidth));
        SplitIsValid(blocks, Boundaries(gaps, pageWidth));
        match Refine(blocks, pageWidth, minGap, p, columns, |columns|)
        case None => None
        case Some(carry) => Some(Layout(carry.final, Midpoints(gaps)))
  }

  /** Step 4 after the first k columns. */
  ghost function Refine(blocks: seq<Block>, pageWidth: real, minGap: real, p: Params, columns: seq<seq<nat>>, k: nat): Option<Carry>
    requires k <= |columns| && ValidColumns(columns, |blocks|)
    decreases |blocks|, Shape(blocks, pageWidth), 0, k + 1
  {
    if k == 0 then Some(Carry([], None))
    else match Refine(blocks, pageWidth, minGap, p, columns, k - 1)
      case None => None
      case Some(carry) => Step(blocks, pageWidth, minGap, p, carry, columns[k - 1])
  }

  /** One column of step 4. */
  ghost function Step(blocks: seq<Block>, pageWidth: real, minGap: real, p: Params, carry: Carry, column: seq<nat>): Option<Carry>
    requires Ascending(column, |blocks|)
    decreases |blocks|, Shape(blocks, pageWidth), 0, 0
  {
    if |column| < p.minBlockCount then Some(carry.(final := carry.final + [column]))
    else
      var members := Select(blocks, column);
      if |column| == 0 || !Measured(members) then None
      else
        var width := Span(members);
        if !Recurses(width, pageWidth, p) then Some(carry.(final := carry.final + [column]))
        else
          var sub :=
            if SubGapFits(minGap, width) then
              SubCallSmaller(blocks, column, pageWidth, minGap, p);
              match Detect(members, width, SubGap(minGap, width), p)
              case None => None
              case Some(layout) => Some(layout.columns)
            else carry.sub;
          if sub.None? || !InRange(sub.value, |column|) then None
          else Some(Carry(carry.final + Mapped(column, sub.value), sub))
  }

  lemma SplitIsValid(blocks: seq<Block>, b: seq<real>)
    requires |b| >= 2
    ensures ValidColumns(Split(blocks, b), |blocks|)
  {
    forall c | 0 <= c < |b| - 1 ensures Ascending(Split(blocks, b)[c], |blocks|) {
      MembersAscending(blocks, b, c, |blocks|);
    }
  }

  lemma {:induction false} AscendingBound(s: seq<nat>, n: nat, k: nat)
    requires Ascending(s, n) && k < |s|
    ensures k <= s[k] && s[k] + (|s| - k) <= n
    decreases |s| - k
  {
    if k + 1 < |s| {
      AscendingBound(s, n, k + 1);
    }
    AscendingAtLeast(s, n, k);
  }

  lemma {:induction false} AscendingAtLeast(s: seq<nat>, n: nat, k: nat)
    requires Ascending(s, n) && k < |s|
    ensures k <= s[k]
  {
    if k > 0 {
      AscendingAtLeast(s, n, k - 1);
    }
  }

  /** The recursion ends: a sub-call has fewer blocks, or the same blocks and for the first time their own width
      as the page width, and then the 0.95 guard stops it. */
  lemma SubCallSmaller(blocks: seq<Block>, column: seq<nat>, pageWidth: real, minGap: real, p: Params)
    requires Ascending(column, |blocks|) && |column| > 0 && Measured(Select(blocks, column))
    requires Recurses(Span(Select(blocks, column)), pageWidth, p) && SubGapFits(minGap, Span(Select(blocks, column)))
    ensures var members := Select(blocks, column);
            |members| < |blocks|
            || (members == blocks && Shape(members, Span(members)) < Shape(blocks, pageWidth)
                && forall q :: !Recurses(Span(members), Span(members), q))
  {
    AscendingBound(column, |blocks|, 0);
    if |column| == |blocks| {
      forall k | 0 <= k < |column| ensures column[k] == k {
        AscendingBound(column, |blocks|, k);
      }
      assert Select(blocks, column) == blocks;
    }
  }

  method MeasureColumn(members: seq<Block>) returns (width: real)
    requires |members| > 0 && Measured(members)
    ensures width == Span(members)
  {
    var x0, x1 := members[0].bbox[0], members[0].bbox[2];
    assert members[..1] == [members[0]];
    for k := 1 to |members|
      invariant x0 == Lefts(members[..k]) && x1 == Rights(members[..k])
    {
      assert members[..k + 1][..k] == members[..k];
      x0, x1 := Min(x0, members[k].bbox[0]), Max(x1, members[k].bbox[2]);
    }
    assert members[..|members|] == members;
    width := x1 - x0;
  }

  /** `detect_columns` with its loop over the columns. */
  method DetectColumns(blocks: seq<Block>, pageWidth: real, minGap: real, p: Params) returns (r: Option<Layout>)
    ensures r == Detect(blocks, pageWidth, minGap, p)
    decreases |blocks|, Shape(blocks, pageWidth)
  {
    if |blocks| < p.minBlockCount {
      return Some(Layout([Iota(|blocks|)], []));
    }
    var profile := BuildProfile(blocks, Width(pageWidth));
    var gaps := FindGaps(profile, minGap);
    if gaps == [] {
      return Some(Layout([Iota(|blocks|)], []));
    }
    var columns := AssignColumns(blocks, Boundaries(gaps, pageWidth));
    SplitIsValid(blocks, Boundaries(gaps, pageWidth));
    var carry := Carry([], None);
    for k := 0 to |columns|
      invariant Refine(blocks, pageWidth, minGap, p, columns, k) == Some(carry)
    {
      var next := RefineColumn(blocks, pageWidth, minGap, p, carry, columns[k]);
      if next.None? {
        RaisedStays(blocks, pageWidth, minGap, p, columns, k + 1, |columns|);
        return None;
      }
      carry := next.value;
    }
    r := Some(Layout(carry.final, Midpoints(gaps)));
  }

  /** The loop body: `final_columns` and `sub_assignment` are the variables it updates. */
  method RefineColumn(blocks: seq<Block>, pageWidth: real, minGap: real, p: Params, carry: Carry, column: seq<nat>)
    returns (r: Option<Carry>)
    requires Ascending(column, |blocks|)
    ensures r == Step(blocks, pageWidth, minGap, p, carry, column)
    decreases |blocks|, Shape(blocks, pageWidth), 0
  {
    var final, sub := carry.final, carry.sub;
    if |column| < p.minBlockCount {
      return Some(Carry(final + [column], sub));
    }
    var members := Select(blocks, column);
    if |column| == 0 || !Measured(members) {
      return None;
    }
    var width := MeasureColumn(members);
    if !Recurses(width, pageWidth, p) {
      return Some(Carry(final + [column], sub));
    }
    if SubGapFits(minGap, width) {
      SubCallSmaller(blocks, column, pageWidth, minGap, p);
      var layout := DetectColumns(members, width, SubGap(minGap, width), p);
      if layout.None? {
        return None;
      }
      sub := Some(layout.value.columns);
    }
    if sub.None? || !InRange(sub.value, |column|) {
      return None;
    }
    r := Some(Carry(final + Mapped(column, sub.value), sub));
  }

  lemma {:induction false} RaisedStays(blocks: seq<Block>, pageWidth: real, minGap: real, p: Params, columns: seq<seq<nat>>, j: nat, k: nat)
    requires j <= k <= |columns| && ValidColumns(columns, |blocks|)
    requires Refine(blocks, pageWidth, minGap, p, columns, j) == None
    ensures Refine(blocks, pageWidth, minGap, p, columns, k) == None
    decreases k - j
  {
    if j < k {
      RaisedStays(blocks, pageWidth, minGap, p, columns, j, k - 1);
    }
  }

  // ----- When the result is a partition -----

  /** Each of the n blocks is in exactly one column, and nothing else is. */
  ghost predicate Partition(columns: seq<seq<nat>>, n: nat) {
    forall k: nat :: Times(Flatten(columns), k) == if k < n then 1 else 0
  }

  /** The call neither raises nor loses or repeats a block. */
  ghost predicate Faithful(r: Option<Layout>, n: nat) {
    r.Some? && Partition(r.value.columns, n)
  }

  /** The column the sub-assignment stems from after k columns: the last one that passed both guards. */
  ghost function LastSplit(blocks: seq<Block>, pageWidth: real, minGap: real, p: Params, columns: seq<seq<nat>>, k: nat): (r: Option<nat>)
    requires k <= |columns| && ValidColumns(columns, |blocks|)
    ensures r.Some? ==> r.value < k
  {
    if k == 0 then None
    else if PassesOuter(blocks, pageWidth, p, columns[k - 1]) && SubGapFits(minGap, Span(Select(blocks, columns[k - 1]))) then Some(k - 1)
    else LastSplit(blocks, pageWidth, minGap, p, columns, k - 1)
  }

  ghost predicate PassesOuter(blocks: seq<Block>, pageWidth: real, p: Params, column: seq<nat>)
    requires Ascending(column, |blocks|)
  {
    && |column| >= p.minBlockCount && |column| > 0 && Measured(Select(blocks, column))
    && Recurses(Span(Select(blocks, column)), pageWidth, p)
  }

  /** The condition for a faithful result: in every column that passes the outer guard, either the inner guard holds and
      the guards hold in the sub-call, or the last column for which it held has just as many blocks. */
  ghost predicate GuardsHold(blocks: seq<Block>, pageWidth: real, minGap: real, p: Params)
    decreases |blocks|, Shape(blocks, pageWidth), 1
  {
    var gaps := GapsFrom(Profile(blocks, Width(pageWidth)), minGap, 0);
    var columns := Split(blocks, Boundaries(gaps, pageWidth));
    SplitIsValid(blocks, Boundaries(gaps, pageWidth));
    |blocks| >= p.minBlockCount && gaps != [] ==> GuardsHoldUpTo(blocks, pageWidth, minGap, p, columns, |columns|)
  }

  ghost predicate GuardsHoldUpTo(blocks: seq<Block>, pageWidth: real, minGap: real, p: Params, columns: seq<seq<nat>>, k: nat)
    requires k <= |columns| && ValidColumns(columns, |blocks|)
    decreases |blocks|, Shape(blocks, pageWidth), 0, k + 1
  {
    k == 0 || (GuardsHoldUpTo(blocks, pageWidth, minGap, p, columns, k - 1) && GuardHoldsAt(blocks, pageWidth, minGap, p, columns, k - 1))
  }

  ghost predicate GuardHoldsAt(blocks: seq<Block>, pageWidth: real, minGap: real, p: Params, columns: seq<seq<nat>>, k: nat)
    requires k < |columns| && ValidColumns(columns, |blocks|)
    decreases |blocks|, Shape(blocks, pageWidth), 0, 0
  {
    var column := columns[k];
    |column| >= p.minBlockCount ==>
      && |column| > 0 && Measured(Select(blocks, column))
      && (Recurses(Span(Select(blocks, column)), pageWidth, p) ==>
            if SubGapFits(minGap, Span(Select(blocks, column))) then
              SubCallSmaller(blocks, column, pageWidth, minGap, p);
              GuardsHold(Select(blocks, column), Span(Select(blocks, column)), SubGap(minGap, Span(Select(blocks, column))), p)
            else
              var last := LastSplit(blocks, pageWidth, minGap, p, columns, k);
              last.Some? && |columns[last.value]| == |column|)
  }

  // ----- Counting through the index map -----

  lemma {:induction false} MapOneTimes(indices: seq<nat>, n: nat, column: seq<nat>, s: nat)
    requires Ascending(indices, n) && (forall k | 0 <= k < |column| :: column[k] < |indices|) && s < |indices|
    ensures Times(MapOne(indices, column), indices[s]) == Times(column, s)
  {
    if |column| > 0 {
      var front := column[..|column| - 1];
      MapOneTimes(indices, n, front, s);
      assert MapOne(indices, column)[..|column| - 1] == MapOne(indices, front);
    }
  }

  lemma {:induction false} MappedTimes(indices: seq<nat>, n: nat, columns: seq<seq<nat>>, s: nat)
    requires Ascending(indices, n) && InRange(columns, |indices|) && s < |indices|
    ensures Times(Flatten(Mapped(indices, columns)), indices[s]) == Times(Flatten(columns), s)
  {
    if |columns| > 0 {
      var front, last := columns[..|columns| - 1], columns[|columns| - 1];
      MappedTimes(indices, n, front, s);
      MapOneTimes(indices, n, last, s);
      assert Mapped(indices, columns)[..|columns| - 1] == Mapped(indices, front);
      TimesConcat(Flatten(Mapped(indices, front)), MapOne(indices, last), indices[s]);
      TimesConcat(Flatten(front), last, s);
    }
  }

  /** Mapping only yields elements of the column. */
  lemma {:induction false} MappedInside(indices: seq<nat>, columns: seq<seq<nat>>, x: nat)
    requires InRange(columns, |indices|) && x !in indices
    ensures Times(Flatten(Mapped(indices, columns)), x) == 0
  {
    if |columns| > 0 {
      var front, last := columns[..|columns| - 1], columns[|columns| - 1];
      MappedInside(indices, front, x);
      assert Mapped(indices, columns)[..|columns| - 1] == Mapped(indices, front);
      TimesConcat(Flatten(Mapped(indices, front)), MapOne(indices, last), x);
      TimesIn(MapOne(indices, last), x);
    }
  }

  lemma {:induction false} AscendingTimes(s: seq<nat>, n: nat, x: nat)
    requires Ascending(s, n)
    ensures Times(s, x) == if x in s then 1 else 0
  {
    if |s| > 0 {
      AscendingTimes(s[..|s| - 1], n, x);
      assert s == s[..|s| - 1] + [s[|s| - 1]];
    }
  }

  /** The same elements, each as often. */
  ghost predicate SameCounts(a: seq<nat>, b: seq<nat>) {
    forall x: nat :: Times(a, x) == Times(b, x)
  }

  lemma {:induction false} FlattenBelow(columns: seq<seq<nat>>, n: nat, x: nat)
    requires InRange(columns, n) && x >= n
    ensures Times(Flatten(columns), x) == 0
  {
    if |columns| > 0 {
      FlattenBelow(columns[..|columns| - 1], n, x);
      TimesConcat(Flatten(columns[..|columns| - 1]), columns[|columns| - 1], x);
      TimesIn(columns[|columns| - 1], x);
    }
  }

  lemma {:induction false} PartitionInRange(columns: seq<seq<nat>>, n: nat)
    requires Partition(columns, n)
    ensures InRange(columns, n)
  {
    forall c, k | 0 <= c < |columns| && 0 <= k < |columns[c]| ensures columns[c][k] < n {
      InFlatten(columns, c, columns[c][k]);
    }
  }

  lemma {:induction false} InFlatten(columns: seq<seq<nat>>, c: nat, x: nat)
    requires c < |columns| && x in columns[c]
    ensures Times(Flatten(columns), x) > 0
  {
    TimesConcat(Flatten(columns[..|columns| - 1]), columns[|columns| - 1], x);
    if c < |columns| - 1 {
      InFlatten(columns[..|columns| - 1], c, x);
    } else {
      TimesIn(columns[c], x);
    }
  }

  /** Replacing a column by the image of some columns keeps its blocks exactly when those are a partition of its size. */
  lemma MappedKeeps(column: seq<nat>, n: nat, columns: seq<seq<nat>>)
    requires Ascending(column, n)
    ensures InRange(columns, |column|) && SameCounts(Flatten(Mapped(column, columns)), column) <==> Partition(columns, |column|)
  {
    if Partition(columns, |column|) {
      PartitionInRange(columns, |column|);
      forall x: nat ensures Times(Flatten(Mapped(column, columns)), x) == Times(column, x) {
        AscendingTimes(column, n, x);
        if x in column {
          var s :| 0 <= s < |column| && column[s] == x;
          MappedTimes(column, n, columns, s);
        } else {
          MappedInside(column, columns, x);
        }
      }
    }
    if InRange(columns, |column|) && SameCounts(Flatten(Mapped(column, columns)), column) {
      forall s: nat ensures Times(Flatten(columns), s) == if s < |column| then 1 else 0 {
        if s < |column| {
          MappedTimes(column, n, columns, s);
          AscendingTimes(column, n, column[s]);
          assert Times(Flatten(Mapped(column, columns)), column[s]) == Times(column, column[s]);
        } else {
          FlattenBelow(columns, |column|, s);
        }
      }
    }
  }

  /** A partition has one size. */
  lemma PartitionSize(columns: seq<seq<nat>>, m: nat, n: nat)
    requires Partition(columns, m)
    ensures Partition(columns, n) <==> m == n
  {
    if m < n {
      assert Times(Flatten(columns), m) == 0;
    } else if n < m {
      assert Times(Flatten(columns), n) == 1;
    }
  }

  // ----- The exact condition -----

  /** The carried sub-assignment is the partition its column was given. */
  ghost predicate Carries(blocks: seq<Block>, pageWidth: real, minGap: real, p: Params, columns: seq<seq<nat>>, k: nat, carry: Carry)
    requires k <= |columns| && ValidColumns(columns, |blocks|)
  {
    var last := LastSplit(blocks, pageWidth, minGap, p, columns, k);
    && (carry.sub.Some? <==> last.Some?)
    && (last.Some? ==> Partition(carry.sub.value, |columns[last.value]|))
  }

  /** What one step adds to the final columns lies inside its column. */
  lemma StepInside(blocks: seq<Block>, pageWidth: real, minGap: real, p: Params, carry: Carry, column: seq<nat>) returns (added: seq<seq<nat>>)
    requires Ascending(column, |blocks|)
    ensures var r := Step(blocks, pageWidth, minGap, p, carry, column);
            r.Some? ==> r.value.final == carry.final + added
                        && (forall x: nat | x !in column :: Times(Flatten(added), x) == 0)
                        && (added == [column] || (r.value.sub.Some? && InRange(r.value.sub.value, |column|) && added == Mapped(column, r.value.sub.value)))
                        && (|column| >= p.minBlockCount && PassesOuter(blocks, pageWidth, p, column) ==>
                              r.value.sub.Some? && InRange(r.value.sub.value, |column|) && added == Mapped(column, r.value.sub.value))
                        && (!PassesOuter(blocks, pageWidth, p, column) ==> added == [column])
  {
    var r := Step(blocks, pageWidth, minGap, p, carry, column);
    added := [];
    if r.Some? {
      if PassesOuter(blocks, pageWidth, p, column) {
        added := Mapped(column, r.value.sub.value);
        forall x: nat | x !in column ensures Times(Flatten(added), x) == 0 {
          MappedInside(column, r.value.sub.value, x);
        }
      } else {
        added := [column];
        FlattenSingle(column);
        forall x: nat | x !in column ensures Times(Flatten(added), x) == 0 {
          TimesIn(column, x);
        }
      }
    }
  }

  lemma FlattenSingle(column: seq<nat>)
    ensures Flatten([column]) == column
  {
    assert [column][..0] == [];
    assert Flatten([column]) == Flatten<nat>([]) + column;
  }

  /** One step keeps its column's blocks exactly when the guard holds at it. */
  lemma {:induction false} StepKeeps(blocks: seq<Block>, pageWidth: real, minGap: real, p: Params, columns: seq<seq<nat>>, k: nat, carry: Carry)
    returns (added: seq<seq<nat>>)
    requires k < |columns| && ValidColumns(columns, |blocks|)
    requires Carries(blocks, pageWidth, minGap, p, columns, k, carry)
    ensures var r := Step(blocks, pageWidth, minGap, p, carry, columns[k]);
            && (r.Some? ==> r.value.final == carry.final + added && (forall x: nat | x !in columns[k] :: Times(Flatten(added), x) == 0))
            && (r.Some? && SameCounts(Flatten(added), columns[k]) <==> GuardHoldsAt(blocks, pageWidth, minGap, p, columns, k))
            && (r.Some? && GuardHoldsAt(blocks, pageWidth, minGap, p, columns, k) ==>
                  Carries(blocks, pageWidth, minGap, p, columns, k + 1, r.value))
    decreases |blocks|, Shape(blocks, pageWidth), 0, 0
  {
    var column := columns[k];
    added := StepInside(blocks, pageWidth, minGap, p, carry, column);
    if !PassesOuter(blocks, pageWidth, p, column) {
      FlattenSingle(column);
    } else if SubGapFits(minGap, Span(Select(blocks, column))) {
      SubCallSmaller(blocks, column, pageWidth, minGap, p);
      DetectIff(Select(blocks, column), Span(Select(blocks, column)), SubGap(minGap, Span(Select(blocks, column))), p);
      StepSplits(blocks, pageWidth, minGap, p, columns, k, carry);
    } else {
      StepReuses(blocks, pageWidth, minGap, p, columns, k, carry);
    }
  }

  /** A column that is split by a sub-call of its own. */
  lemma StepSplits(blocks: seq<Block>, pageWidth: real, minGap: real, p: Params, columns: seq<seq<nat>>, k: nat, carry: Carry)
    requires k < |columns| && ValidColumns(columns, |blocks|)
    requires PassesOuter(blocks, pageWidth, p, columns[k])
    requires var width := Span(Select(blocks, columns[k]));
             && SubGapFits(minGap, width)
             && SubGap(minGap, width) >= 0.0
             && (Faithful(Detect(Select(blocks, columns[k]), width, SubGap(minGap, width), p), |columns[k]|) <==>
                 GuardsHold(Select(blocks, columns[k]), width, SubGap(minGap, width), p))
    ensures var r := Step(blocks, pageWidth, minGap, p, carry, columns[k]);
            && (r.Some? && SameCounts(Flatten(Mapped(columns[k], r.value.sub.value)), columns[k]) <==>
                GuardHoldsAt(blocks, pageWidth, minGap, p, columns, k))
            && (r.Some? && GuardHoldsAt(blocks, pageWidth, minGap, p, columns, k) ==>
                  Carries(blocks, pageWidth, minGap, p, columns, k + 1, r.value))
  {
    var width := Span(Select(blocks, columns[k]));
    var sub := Detect(Select(blocks, columns[k]), width, SubGap(minGap, width), p);
    if sub.Some? {
      MappedKeeps(columns[k], |blocks|, sub.value.columns);
    }
  }

  /** A column that reuses what an earlier one left behind. */
  lemma StepReuses(blocks: seq<Block>, pageWidth: real, minGap: real, p: Params, columns: seq<seq<nat>>, k: nat, carry: Carry)
    requires k < |columns| && ValidColumns(columns, |blocks|)
    requires Carries(blocks, pageWidth, minGap, p, columns, k, carry)
    requires PassesOuter(blocks, pageWidth, p, columns[k]) && !SubGapFits(minGap, Span(Select(blocks, columns[k])))
    ensures var r := Step(blocks, pageWidth, minGap, p, carry, columns[k]);
            && (r.Some? && SameCounts(Flatten(Mapped(columns[k], r.value.sub.value)), columns[k]) <==>
                GuardHoldsAt(blocks, pageWidth, minGap, p, columns, k))
            && (r.Some? && GuardHoldsAt(blocks, pageWidth, minGap, p, columns, k) ==>
                  Carries(blocks, pageWidth, minGap, p, columns, k + 1, r.value))
  {
    if carry.sub.Some? {
      var last := LastSplit(blocks, pageWidth, minGap, p, columns, k);
      MappedKeeps(columns[k], |blocks|, carry.sub.value);
      PartitionSize(carry.sub.value, |columns[last.value]|, |columns[k]|);
    }
  }

  /** Parts that lie inside disjoint wholes can be counted separately. */
  lemma CountSeparately(a: seq<nat>, b: seq<nat>, p: seq<nat>, c: seq<nat>)
    requires forall x: nat :: Times(p, x) == 0 || Times(c, x) == 0
    requires forall x: nat :: Times(p, x) == 0 ==> Times(a, x) == 0
    requires forall x: nat :: Times(c, x) == 0 ==> Times(b, x) == 0
    ensures SameCounts(a + b, p + c) <==> SameCounts(a, p) && SameCounts(b, c)
  {
    forall x: nat ensures Times(a + b, x) == Times(a, x) + Times(b, x) && Times(p + c, x) == Times(p, x) + Times(c, x) {
      TimesConcat(a, b, x);
      TimesConcat(p, c, x);
    }
    if SameCounts(a + b, p + c) {
      forall x: nat ensures Times(a, x) == Times(p, x) && Times(b, x) == Times(c, x) {
        assert Times(a + b, x) == Times(p + c, x);
      }
    }
  }

  /** What is known of step 4 after k columns: its columns have no blocks but theirs, and it has them all, each once, exactly
      if the guards hold so far. */
  ghost predicate RefinedIff(blocks: seq<Block>, pageWidth: real, minGap: real, p: Params, columns: seq<seq<nat>>, k: nat, r: Option<Carry>)
    requires k <= |columns| && ValidColumns(columns, |blocks|)
  {
    && (r.Some? ==> forall x: nat :: Times(Flatten(columns[..k]), x) == 0 ==> Times(Flatten(r.value.final), x) == 0)
    && (r.Some? && SameCounts(Flatten(r.value.final), Flatten(columns[..k])) <==> GuardsHoldUpTo(blocks, pageWidth, minGap, p, columns, k))
    && (r.Some? && GuardsHoldUpTo(blocks, pageWidth, minGap, p, columns, k) ==> Carries(blocks, pageWidth, minGap, p, columns, k, r.value))
  }

  lemma {:induction false} RefineNext(blocks: seq<Block>, pageWidth: real, minGap: real, p: Params, columns: seq<seq<nat>>, k: nat, carry: Carry)
    requires k < |columns| && ValidColumns(columns, |blocks|)
    requires forall j, x: nat | 0 <= j <= |columns| :: Times(Flatten(columns[..j]), x) <= 1
    requires RefinedIff(blocks, pageWidth, minGap, p, columns, k, Some(carry))
    ensures RefinedIff(blocks, pageWidth, minGap, p, columns, k + 1, Step(blocks, pageWidth, minGap, p, carry, columns[k]))
    decreases |blocks|, Shape(blocks, pageWidth), 0, 1
  {
    var r := Step(blocks, pageWidth, minGap, p, carry, columns[k]);
    if GuardsHoldUpTo(blocks, pageWidth, minGap, p, columns, k) {
      var added := StepKeeps(blocks, pageWidth, minGap, p, columns, k, carry);
      if r.Some? {
        StepCounts(blocks, columns, k, carry.final, added);
      }
    } else {
      var added := StepInside(blocks, pageWidth, minGap, p, carry, columns[k]);
      if r.Some? {
        StepCounts(blocks, columns, k, carry.final, added);
      }
    }
  }

  lemma {:induction false} RefineIff(blocks: seq<Block>, pageWidth: real, minGap: real, p: Params, columns: seq<seq<nat>>, k: nat)
    requires k <= |columns| && ValidColumns(columns, |blocks|)
    requires forall j, x: nat | 0 <= j <= |columns| :: Times(Flatten(columns[..j]), x) <= 1
    ensures RefinedIff(blocks, pageWidth, minGap, p, columns, k, Refine(blocks, pageWidth, minGap, p, columns, k))
    decreases |blocks|, Shape(blocks, pageWidth), 1, k
  {
    if k > 0 {
      RefineIff(blocks, pageWidth, minGap, p, columns, k - 1);
      var before := Refine(blocks, pageWidth, minGap, p, columns, k - 1);
      if before.Some? {
        RefineNext(blocks, pageWidth, minGap, p, columns, k - 1, before.value);
      }
    }
  }

  lemma StepCounts(blocks: seq<Block>, columns: seq<seq<nat>>, k: nat, final: seq<seq<nat>>, added: seq<seq<nat>>)
    requires k < |columns| && ValidColumns(columns, |blocks|)
    requires forall j, x: nat | 0 <= j <= |columns| :: Times(Flatten(columns[..j]), x) <= 1
    requires forall x: nat :: Times(Flatten(columns[..k]), x) == 0 ==> Times(Flatten(final), x) == 0
    requires forall x: nat | x !in columns[k] :: Times(Flatten(added), x) == 0
    ensures SameCounts(Flatten(final + added), Flatten(columns[..k + 1])) <==>
            SameCounts(Flatten(final), Flatten(columns[..k])) && SameCounts(Flatten(added), columns[k])
    ensures forall x: nat :: Times(Flatten(columns[..k + 1]), x) == 0 ==> Times(Flatten(final + added), x) == 0
  {
    var done, column := Flatten(columns[..k]), columns[k];
    FlattenNext(columns, k);
    FlattenConcat(final, added);
    forall x: nat
      ensures (Times(done, x) == 0 || Times(column, x) == 0) && (Times(column, x) == 0 ==> Times(Flatten(added), x) == 0)
      ensures Times(done + column, x) == Times(done, x) + Times(column, x)
      ensures Times(Flatten(final + added), x) == Times(Flatten(final), x) + Times(Flatten(added), x)
    {
      TimesConcat(done, column, x);
      TimesConcat(Flatten(final), Flatten(added), x);
      TimesIn(column, x);
      assert Times(Flatten(columns[..k + 1]), x) <= 1;
    }
    CountSeparately(Flatten(final), Flatten(added), done, column);
  }

  lemma IotaIsPartition(n: nat)
    ensures Partition([Iota(n)], n)
  {
    FlattenSingle(Iota(n));
    forall k: nat ensures Times(Flatten([Iota(n)]), k) == if k < n then 1 else 0 {
      AscendingTimes(Iota(n), n, k);
      if k < n {
        assert Iota(n)[k] == k;
      }
    }
  }

  /** `detect_columns` returns every block in exactly one column if and only if the guards hold. */
  lemma {:induction false} DetectIff(blocks: seq<Block>, pageWidth: real, minGap: real, p: Params)
    ensures Faithful(Detect(blocks, pageWidth, minGap, p), |blocks|) <==> GuardsHold(blocks, pageWidth, minGap, p)
    decreases |blocks|, Shape(blocks, pageWidth), 2
  {
    var gaps := GapsFrom(Profile(blocks, Width(pageWidth)), minGap, 0);
    if |blocks| < p.minBlockCount || gaps == [] {
      IotaIsPartition(|blocks|);
    } else {
      var b := Boundaries(gaps, pageWidth);
      var columns := Split(blocks, b);
      SplitIsValid(blocks, b);
      forall j, x: nat | 0 <= j <= |columns| ensures Times(Flatten(columns[..j]), x) <= 1 {
        SplitTimes(blocks, b, j, x);
      }
      RefineIff(blocks, pageWidth, minGap, p, columns, |columns|);
      forall x: nat ensures Times(Flatten(columns[..|columns|]), x) == if x < |blocks| then 1 else 0 {
        SplitTimes(blocks, b, |columns|, x);
      }
      var all := Flatten(columns[..|columns|]);
      var r := Refine(blocks, pageWidth, minGap, p, columns, |columns|);
      if r.Some? {
        assert SameCounts(Flatten(r.value.final), all) <==> Partition(r.value.final, |blocks|) by {
          forall x: nat ensures Times(all, x) == if x < |blocks| then 1 else 0 {
            assert Times(Flatten(columns[..|columns|]), x) == if x < |blocks| then 1 else 0;
          }
        }
      }
    }
  }

  /** With a minimum column width of at least 2.5 times the minimum gap, as in the defaults, the inner guard follows from
      the outer one, so only a sub-call, whose gap has doubled, can reach the stale variable. */
  lemma OuterGuardSuffices(width: real, pageWidth: real, minGap: real, p: Params)
    requires Recurses(width, pageWidth, p) && p.minColumnWidth >= 0.0
    ensures p.minColumnWidth >= 2.5 * minGap ==> SubGapFits(minGap, width)
  {
  }

  /** The widths that pass the outer guard and fail the inner one, in numbers. */
  lemma BetweenTheGuards(width: real, pageWidth: real, minGap: real, p: Params)
    ensures Recurses(width, pageWidth, p) && !SubGapFits(minGap, width) <==>
            p.minColumnWidth < width < 0.95 * pageWidth && (width <= 2.5 * minGap || width <= 0.0)
  {
  }

  lemma TinyPageGaps(blocks: seq<Block>)
    requires blocks == [Block([0.0, 0.0, 0.9, 1.0])]
    ensures GapsFrom(Profile(blocks, Width(2.0)), 0.5, 0) == [Gap(1, 2)]
  {
    assert Covers(blocks[0], 2, 0);
    var profile := Profile(blocks, 2);
    assert profile == [1, 0];
    assert RunEnd(profile, 1) == 2;
    assert GapsFrom(profile, 0.5, 2) == [];
    assert GapsFrom(profile, 0.5, 1) == [Gap(1, 2)];
  }

  lemma TinyPageSplit(blocks: seq<Block>, b: seq<real>)
    requires blocks == [Block([0.0, 0.0, 0.9, 1.0])] && b == [0.0, 1.5, 2.0]
    ensures Split(blocks, b)[0] == [0] && Select(blocks, [0]) == blocks && Span(blocks) == 0.9
  {
    assert Center(blocks[0]) == 0.45;
    assert FirstEnclosing(0.45, b, 0) == 0;
    assert Members(blocks, b, 0, 0) == [];
    assert Members(blocks, b, 0, 1) == [0];
  }

  /** An input for which they do not hold: one block, and its column passes the outer guard but not the inner one, so the
      sub-assignment is read before it was ever set. */
  lemma UnsetSubAssignmentRaises(blocks: seq<Block>, p: Params)
    requires blocks == [Block([0.0, 0.0, 0.9, 1.0])] && p == Params(0.1, 1)
    ensures Detect(blocks, 2.0, 0.5, p) == None
  {
    TinyPageGaps(blocks);
    var b := Boundaries([Gap(1, 2)], 2.0);
    assert b == [0.0, 1.5, 2.0];
    TinyPageSplit(blocks, b);
    var columns := Split(blocks, b);
    SplitIsValid(blocks, b);
    assert Step(blocks, 2.0, 0.5, p, Carry([], None), columns[0]) == None;
    assert Refine(blocks, 2.0, 0.5, p, columns, 0) == Some(Carry([], None));
    assert Refine(blocks, 2.0, 0.5, p, columns, 1) == None;
    RaisedStays(blocks, 2.0, 0.5, p, columns, 1, 2);
  }
}
