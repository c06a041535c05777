/** Coalescing tokens: `dedupe_visual_tokens` of docmirror/ocr/field_grid/tokens.py and `coalesce_tokens_prefer_native` of
    docmirror/ocr/grid_materialize.py. */
module TokenCoalescing {
  import opened OcrTokens
  import opened Options
  import opened Reals
  import opened Sequences
  import opened Sorting

  predicate Duplicate(a: OcrToken, b: OcrToken, iou: real) {
    a.text == b.text && Iou(a.bbox, b.bbox) >= iou
  }

  lemma DuplicateSymmetric(a: OcrToken, b: OcrToken, iou: real)
    ensures Duplicate(a, b, iou) <==> Duplicate(b, a, iou)
  {
    assert Max(a.bbox.x0, b.bbox.x0) == Max(b.bbox.x0, a.bbox.x0);
    assert Max(a.bbox.y0, b.bbox.y0) == Max(b.bbox.y0, a.bbox.y0);
  }

  // ----- The orders -----

  /** The order in which tokens are tried: best source, highest confidence, smallest box, topmost, leftmost. */
  predicate RankLe(a: OcrToken, b: OcrToken) {
    if Priority(a) != Priority(b) then Priority(a) > Priority(b)
    else if a.confidence != b.confidence then a.confidence > b.confidence
    else if Area(a.bbox) != Area(b.bbox) then Area(a.bbox) < Area(b.bbox)
    else if a.bbox.y0 != b.bbox.y0 then a.bbox.y0 < b.bbox.y0
    else a.bbox.x0 <= b.bbox.x0
  }

  /** The order of the result: reading order, then ids. */
  predicate PlaceLe(a: OcrToken, b: OcrToken) {
    if a.bbox.y0 != b.bbox.y0 then a.bbox.y0 < b.bbox.y0
    else if a.bbox.x0 != b.bbox.x0 then a.bbox.x0 < b.bbox.x0
    else StringLe(a.id, b.id)
  }

  lemma RankOrder()
    ensures TotalPreorder(RankLe)
  {
  }

  lemma PlaceOrder()
    ensures TotalPreorder(PlaceLe)
  {
    StringOrder();
  }

  // ----- Visual duplicates -----

  predicate HasDuplicate(kept: seq<OcrToken>, t: OcrToken, iou: real) {
    exists k | k in kept :: Duplicate(k, t, iou)
  }

  /** The tokens with text that duplicate none kept before them. */
  function Kept(ordered: seq<OcrToken>, iou: real): seq<OcrToken> {
    if |ordered| == 0 then []
    else
      var kept, t := Kept(ordered[..|ordered| - 1], iou), ordered[|ordered| - 1];
      if t.text == "" || HasDuplicate(kept, t, iou) then kept else kept + [t]
  }

  function Dedupe(tokens: seq<OcrToken>, iou: real): seq<OcrToken> {
    Sort(PlaceLe, Kept(Sort(RankLe, tokens), iou))
  }

  /** `dedupe_visual_tokens`. */
  method DedupeVisualTokens(tokens: seq<OcrToken>, iou: real) returns (result: seq<OcrToken>)
    ensures result == Dedupe(tokens, iou)
  {
    var ordered := Sort(RankLe, tokens);
    var kept: seq<OcrToken> := [];
    for i := 0 to |ordered|
      invariant kept == Kept(ordered[..i], iou)
    {
      assert ordered[..i + 1][..i] == ordered[..i];
      var t := ordered[i];
      if t.text == "" {
        continue;
      }
      var duplicate := false;
      for j := 0 to |kept|
        invariant !duplicate && !HasDuplicate(kept[..j], t, iou)
      {
        if Duplicate(kept[j], t, iou) {
          duplicate := true;
          break;
        }
        assert forall k :: k in kept[..j + 1] <==> k in kept[..j] || k == kept[j];
      }
      assert kept[..|kept|] == kept;
      if !duplicate {
        kept := kept + [t];
      }
    }
    assert ordered[..|ordered|] == ordered;
    result := Sort(PlaceLe, kept);
  }

  /** All have text, and no two are duplicates of each other; a token may stand there twice only if it is none of itself. */
  ghost predicate Apart(s: seq<OcrToken>, iou: real) {
    && (forall t | t in s :: t.text != "")
    && forall i, j | 0 <= i < j < |s| :: !Duplicate(s[i], s[j], iou)
  }

  lemma {:induction false} KeptApart(ordered: seq<OcrToken>, iou: real)
    ensures Apart(Kept(ordered, iou), iou)
    ensures forall t :: Times(Kept(ordered, iou), t) <= Times(ordered, t)
  {
    if |ordered| > 0 {
      KeptApart(ordered[..|ordered| - 1], iou);
      var kept, t := Kept(ordered[..|ordered| - 1], iou), ordered[|ordered| - 1];
      assert (kept + [t])[..|kept|] == kept;
      forall u ensures Times(kept + [t], u) == Times(kept, u) + if t == u then 1 else 0 {
      }
    }
  }

  lemma {:induction false} KeptSorted(ordered: seq<OcrToken>, iou: real)
    requires SortedBy(RankLe, ordered)
    ensures SortedBy(RankLe, Kept(ordered, iou))
  {
    if |ordered| > 0 {
      var front, t := ordered[..|ordered| - 1], ordered[|ordered| - 1];
      KeptSorted(front, iou);
      forall k | k in Kept(front, iou) ensures RankLe(k, t) {
        KeptOf(front, iou, k);
      }
    }
  }

  lemma KeptOf(ordered: seq<OcrToken>, iou: real, k: OcrToken)
    requires k in Kept(ordered, iou)
    ensures k in ordered
  {
    KeptApart(ordered, iou);
    TimesIn(Kept(ordered, iou), k);
    TimesIn(ordered, k);
  }

  /** k stands for t: it is t, or a duplicate of it that is tried no later. */
  ghost predicate StandsFor(k: OcrToken, t: OcrToken, iou: real) {
    k == t || (Duplicate(k, t, iou) && RankLe(k, t))
  }

  lemma {:induction false} KeptCovers(ordered: seq<OcrToken>, iou: real, t: OcrToken) returns (k: OcrToken)
    requires SortedBy(RankLe, ordered) && t in ordered && t.text != ""
    ensures k in Kept(ordered, iou) && StandsFor(k, t, iou)
  {
    var front, last := ordered[..|ordered| - 1], ordered[|ordered| - 1];
    if t in front {
      k := KeptCovers(front, iou, t);
    } else if HasDuplicate(Kept(front, iou), t, iou) {
      k :| k in Kept(front, iou) && Duplicate(k, t, iou);
      KeptOf(front, iou, k);
    } else {
      k := t;
    }
  }

  // ----- Order does not matter beyond counting -----

  ghost predicate Permuted(s: seq<OcrToken>, t: seq<OcrToken>) {
    forall x :: Times(s, x) == Times(t, x)
  }

  lemma PermutedIn(s: seq<OcrToken>, t: seq<OcrToken>, x: OcrToken)
    requires Permuted(s, t)
    ensures x in s <==> x in t
  {
    TimesIn(s, x);
    TimesIn(t, x);
  }

  /** Being apart does not depend on the order. */
  lemma ApartPermuted(s: seq<OcrToken>, t: seq<OcrToken>, iou: real)
    requires Permuted(s, t) && Apart(s, iou)
    ensures Apart(t, iou)
  {
    forall x | x in t ensures x.text != "" {
      PermutedIn(s, t, x);
    }
    forall i, j | 0 <= i < j < |t| ensures !Duplicate(t[i], t[j], iou) {
      PairApart(s, t, iou, i, j);
    }
  }

  lemma PairApart(s: seq<OcrToken>, t: seq<OcrToken>, iou: real, i: nat, j: nat)
    requires Permuted(s, t) && Apart(s, iou) && i < j < |t|
    ensures !Duplicate(t[i], t[j], iou)
  {
    var a, b := t[i], t[j];
    if a == b {
      TimesTwice(t, a);
      TimesTwice(s, a);
      var k, l :| 0 <= k < l < |s| && s[k] == a && s[l] == a;
    } else {
      PermutedIn(s, t, a);
      PermutedIn(s, t, b);
      var k :| 0 <= k < |s| && s[k] == a;
      var l :| 0 <= l < |s| && s[l] == b;
      DuplicateSymmetric(a, b, iou);
    }
  }

  lemma {:induction false} ApartKept(s: seq<OcrToken>, iou: real)
    requires Apart(s, iou)
    ensures Kept(s, iou) == s
  {
    if |s| > 0 {
      var front := s[..|s| - 1];
      ApartKept(front, iou);
      assert s == front + [s[|s| - 1]];
    }
  }

  // ----- What deduplication promises -----

  /** The result is part of the input, its tokens are apart, and every token with text has one that stands for it. */
  lemma DedupeKeepsOneEach(tokens: seq<OcrToken>, iou: real)
    ensures Apart(Dedupe(tokens, iou), iou)
    ensures forall t :: Times(Dedupe(tokens, iou), t) <= Times(tokens, t)
    ensures forall t | t in tokens && t.text != "" :: exists k :: k in Dedupe(tokens, iou) && StandsFor(k, t, iou)
  {
    RankOrder();
    var ordered := Sort(RankLe, tokens);
    var kept := Kept(ordered, iou);
    SortSorts(RankLe, tokens);
    KeptApart(ordered, iou);
    ApartPermuted(kept, Sort(PlaceLe, kept), iou);
    forall t | t in tokens && t.text != "" ensures exists k :: k in Dedupe(tokens, iou) && StandsFor(k, t, iou) {
      PermutedIn(tokens, ordered, t);
      var k := KeptCovers(ordered, iou, t);
      PermutedIn(kept, Sort(PlaceLe, kept), k);
      assert k in Dedupe(tokens, iou);
    }
  }

  /** The order of the input shows only among tokens of equal rank. */
  lemma DedupeForgetsOrder(s: seq<OcrToken>, t: seq<OcrToken>, iou: real)
    requires SameClasses(RankLe, s, t)
    ensures Dedupe(s, iou) == Dedupe(t, iou)
  {
    RankOrder();
    SortEqualIff(RankLe, s, t);
  }

  /** A second deduplication changes nothing. */
  lemma DedupeTwice(tokens: seq<OcrToken>, iou: real)
    ensures Dedupe(Dedupe(tokens, iou), iou) == Dedupe(tokens, iou)
  {
    RankOrder();
    var kept := Kept(Sort(RankLe, tokens), iou);
    var result := Sort(PlaceLe, kept);
    KeptApart(Sort(RankLe, tokens), iou);
    ApartPermuted(kept, result, iou);
    ApartPermuted(result, Sort(RankLe, result), iou);
    ApartKept(Sort(RankLe, result), iou);
    SortSorts(RankLe, tokens);
    KeptSorted(Sort(RankLe, tokens), iou);
    SortedTwice(kept);
  }

  /** Sorting by rank in between leaves a list in place that is first sorted by rank and then by place. */
  lemma SortedTwice(s: seq<OcrToken>)
    requires SortedBy(RankLe, s)
    ensures Sort(PlaceLe, Sort(RankLe, Sort(PlaceLe, s))) == Sort(PlaceLe, s)
  {
    RankOrder();
    PlaceOrder();
    var placed := Sort(PlaceLe, s);
    forall x ensures Class(PlaceLe, x, Sort(RankLe, placed)) == Class(PlaceLe, x, s) {
      SortClass(RankLe, PlaceLe, x, placed);
      SortIsStable(PlaceLe, x, s);
      ClassIsSorted(RankLe, PlaceLe, x, s);
      SortSorted(RankLe, Class(PlaceLe, x, s));
    }
    SortEqualIff(PlaceLe, Sort(RankLe, placed), s);
  }

  // ----- Coalescing -----

  predicate IsNative(t: OcrToken) {
    t.origin.None? && Priority(t) >= 60
  }

  function NativeIds(tokens: seq<OcrToken>): set<string> {
    set t | t in tokens && IsNative(t) :: t.id
  }

  /** An empty origin counts as none. */
  predicate IsFragmentOf(t: OcrToken, ids: set<string>) {
    t.origin.Some? && t.origin.value != "" && t.origin.value in ids
  }

  function GroupKey(t: OcrToken): string {
    if t.origin.Some? && t.origin.value != "" then t.origin.value else t.id
  }

  function WithoutFragments(tokens: seq<OcrToken>, ids: set<string>): seq<OcrToken> {
    if |tokens| == 0 then []
    else
      WithoutFragments(tokens[..|tokens| - 1], ids)
      + if IsFragmentOf(tokens[|tokens| - 1], ids) then [] else [tokens[|tokens| - 1]]
  }

  /** The position of the group with the given key, or the number of groups. */
  function Find(groups: seq<OcrToken>, key: string): (i: nat)
    ensures i <= |groups| && (i < |groups| ==> GroupKey(groups[i]) == key)
    ensures forall j | 0 <= j < i :: GroupKey(groups[j]) != key
  {
    if |groups| == 0 then 0
    else
      var i := Find(groups[..|groups| - 1], key);
      if i < |groups| - 1 || GroupKey(groups[|groups| - 1]) == key then i else |groups|
  }

  /** The dictionary of the groups in the order of insertion, after one more token. */
  function Put(groups: seq<OcrToken>, t: OcrToken): seq<OcrToken> {
    var i := Find(groups, GroupKey(t));
    if i == |groups| then groups + [t]
    else if Priority(t) > Priority(groups[i]) then groups[i := t]
    else groups
  }

  function Grouped(tokens: seq<OcrToken>): seq<OcrToken> {
    if |tokens| == 0 then [] else Put(Grouped(tokens[..|tokens| - 1]), tokens[|tokens| - 1])
  }

  function Coalesce(tokens: seq<OcrToken>, iou: real): seq<OcrToken> {
    Dedupe(Grouped(WithoutFragments(tokens, NativeIds(tokens))), iou)
  }

  /** `coalesce_tokens_prefer_native`. */
  method CoalesceTokensPreferNative(tokens: seq<OcrToken>, iou: real) returns (result: seq<OcrToken>)
    ensures result == Coalesce(tokens, iou)
  {
    var filtered := DropFragments(tokens, NativeIds(tokens));
    var grouped := GroupTokens(filtered);
    result := DedupeVisualTokens(grouped, iou);
  }

  /** The loop that skips fragments. */
  method DropFragments(tokens: seq<OcrToken>, ids: set<string>) returns (filtered: seq<OcrToken>)
    ensures filtered == WithoutFragments(tokens, ids)
  {
    filtered := [];
    for i := 0 to |tokens|
      invariant filtered == WithoutFragments(tokens[..i], ids)
    {
      assert tokens[..i + 1][..i] == tokens[..i];
      if IsFragmentOf(tokens[i], ids) {
        continue;
      }
      filtered := filtered + [tokens[i]];
    }
    assert tokens[..|tokens|] == tokens;
  }

  /** The loop over the dictionary of groups. */
  method GroupTokens(tokens: seq<OcrToken>) returns (grouped: seq<OcrToken>)
    ensures grouped == Grouped(tokens)
  {
    grouped := [];
    for i := 0 to |tokens|
      invariant grouped == Grouped(tokens[..i])
    {
      assert tokens[..i + 1][..i] == tokens[..i];
      var at := Find(grouped, GroupKey(tokens[i]));
      if at == |grouped| {
        grouped := grouped + [tokens[i]];
      } else if Priority(tokens[i]) > Priority(grouped[at]) {
        grouped := grouped[at := tokens[i]];
      }
    }
    assert tokens[..|tokens|] == tokens;
  }

  ghost predicate DistinctKeys(s: seq<OcrToken>) {
    forall i, j | 0 <= i < j < |s| :: GroupKey(s[i]) != GroupKey(s[j])
  }

  /** g is the first of the tokens with its key that has the highest priority among them. */
  ghost predicate IsBest(tokens: seq<OcrToken>, g: OcrToken) {
    exists i | 0 <= i < |tokens| :: tokens[i] == g && BestAt(tokens, i)
  }

  ghost predicate BestAt(tokens: seq<OcrToken>, i: nat)
    requires i < |tokens|
  {
    forall j | 0 <= j < |tokens| && GroupKey(tokens[j]) == GroupKey(tokens[i]) ::
      Priority(tokens[j]) < Priority(tokens[i]) || (Priority(tokens[j]) == Priority(tokens[i]) && i <= j)
  }

  ghost predicate HasGroup(groups: seq<OcrToken>, key: string) {
    exists g | g in groups :: GroupKey(g) == key
  }

  ghost predicate GroupsOf(groups: seq<OcrToken>, tokens: seq<OcrToken>) {
    && DistinctKeys(groups) && (forall g | g in groups :: IsBest(tokens, g))
    && forall t | t in tokens :: HasGroup(groups, GroupKey(t))
  }

  lemma BestStays(tokens: seq<OcrToken>, g: OcrToken, t: OcrToken)
    requires IsBest(tokens, g) && (GroupKey(g) != GroupKey(t) || Priority(t) <= Priority(g))
    ensures IsBest(tokens + [t], g)
  {
    var i :| 0 <= i < |tokens| && tokens[i] == g && BestAt(tokens, i);
    var next := tokens + [t];
    assert next[i] == g;
    forall j | 0 <= j < |next| && GroupKey(next[j]) == GroupKey(g)
      ensures Priority(next[j]) < Priority(g) || (Priority(next[j]) == Priority(g) && i <= j)
    {
      if j < |tokens| {
        assert next[j] == tokens[j];
      }
    }
  }

  lemma NewBest(tokens: seq<OcrToken>, t: OcrToken)
    requires forall u | u in tokens && GroupKey(u) == GroupKey(t) :: Priority(u) < Priority(t)
    ensures IsBest(tokens + [t], t)
  {
    var next := tokens + [t];
    assert next[|tokens|] == t;
    forall j | 0 <= j < |next| && GroupKey(next[j]) == GroupKey(t)
      ensures Priority(next[j]) < Priority(t) || (Priority(next[j]) == Priority(t) && |tokens| <= j)
    {
      if j < |tokens| {
        assert next[j] == tokens[j] && tokens[j] in tokens;
      }
    }
    assert BestAt(next, |tokens|);
  }

  /** The token that a better one of its group replaces was the best so far. */
  lemma BetterThanAll(tokens: seq<OcrToken>, g: OcrToken, t: OcrToken)
    requires IsBest(tokens, g) && GroupKey(g) == GroupKey(t) && Priority(t) > Priority(g)
    ensures forall u | u in tokens && GroupKey(u) == GroupKey(t) :: Priority(u) < Priority(t)
  {
    var i :| 0 <= i < |tokens| && tokens[i] == g && BestAt(tokens, i);
    forall u | u in tokens && GroupKey(u) == GroupKey(t) ensures Priority(u) < Priority(t) {
      var j :| 0 <= j < |tokens| && tokens[j] == u;
    }
  }

  lemma PutBest(groups: seq<OcrToken>, tokens: seq<OcrToken>, t: OcrToken)
    requires GroupsOf(groups, tokens)
    ensures forall g | g in Put(groups, t) :: IsBest(tokens + [t], g)
  {
    var i := Find(groups, GroupKey(t));
    forall g | g in Put(groups, t) ensures IsBest(tokens + [t], g) {
      if i == |groups| && g == t {
        forall u | u in tokens ensures GroupKey(u) != GroupKey(t) {
          assert HasGroup(groups, GroupKey(u));
        }
        NewBest(tokens, t);
      } else if i < |groups| && Priority(t) > Priority(groups[i]) && g == t {
        BetterThanAll(tokens, groups[i], t);
        NewBest(tokens, t);
      } else {
        var j :| 0 <= j < |groups| && groups[j] == g;
        assert i == |groups| || Priority(t) <= Priority(groups[i]) || j != i;
        BestStays(tokens, g, t);
      }
    }
  }

  lemma PutKeys(groups: seq<OcrToken>, t: OcrToken)
    requires DistinctKeys(groups)
    ensures DistinctKeys(Put(groups, t)) && HasGroup(Put(groups, t), GroupKey(t))
    ensures forall key :: HasGroup(groups, key) ==> HasGroup(Put(groups, t), key)
  {
    var i, next := Find(groups, GroupKey(t)), Put(groups, t);
    assert forall j | 0 <= j < |groups| :: GroupKey(next[j]) == GroupKey(groups[j]);
    forall key | HasGroup(groups, key) ensures HasGroup(next, key) {
      var j :| 0 <= j < |groups| && GroupKey(groups[j]) == key;
      assert next[j] in next;
    }
    assert GroupKey(next[i]) == GroupKey(t) && next[i] in next;
  }

  /** The grouping leaves for every group its first token of the highest priority, once. */
  lemma {:induction false} GroupedIsBest(tokens: seq<OcrToken>)
    ensures GroupsOf(Grouped(tokens), tokens)
  {
    if |tokens| > 0 {
      var front, t := tokens[..|tokens| - 1], tokens[|tokens| - 1];
      GroupedIsBest(front);
      PutBest(Grouped(front), front, t);
      PutKeys(Grouped(front), t);
      assert tokens == front + [t];
    }
  }

  lemma {:induction false} FragmentsGone(tokens: seq<OcrToken>, ids: set<string>, t: OcrToken)
    ensures t in WithoutFragments(tokens, ids) <==> t in tokens && !IsFragmentOf(t, ids)
  {
    if |tokens| > 0 {
      FragmentsGone(tokens[..|tokens| - 1], ids, t);
      assert t in tokens <==> t in tokens[..|tokens| - 1] || t == tokens[|tokens| - 1];
    }
  }

  lemma BestIsGiven(tokens: seq<OcrToken>, g: OcrToken)
    requires IsBest(tokens, g)
    ensures g in tokens
  {
  }

  /** At most as often as in s. */
  ghost predicate Within(r: seq<OcrToken>, s: seq<OcrToken>) {
    forall t :: Times(r, t) <= Times(s, t)
  }

  lemma WithinIn(r: seq<OcrToken>, s: seq<OcrToken>, t: OcrToken)
    requires Within(r, s) && t in r
    ensures t in s
  {
    TimesIn(r, t);
    TimesIn(s, t);
  }

  lemma WithinDistinct(r: seq<OcrToken>, s: seq<OcrToken>)
    requires Within(r, s) && DistinctKeys(s)
    ensures DistinctKeys(r)
  {
    forall i, j | 0 <= i < j < |r| ensures GroupKey(r[i]) != GroupKey(r[j]) {
      KeysApart(r, s, i, j);
    }
  }

  lemma KeysApart(r: seq<OcrToken>, s: seq<OcrToken>, i: nat, j: nat)
    requires Within(r, s) && DistinctKeys(s) && i < j < |r|
    ensures GroupKey(r[i]) != GroupKey(r[j])
  {
    var a, b := r[i], r[j];
    if a == b {
      TimesTwice(r, a);
      TimesTwice(s, a);
    } else {
      WithinIn(r, s, a);
      WithinIn(r, s, b);
      var k :| 0 <= k < |s| && s[k] == a;
      var l :| 0 <= l < |s| && s[l] == b;
    }
  }

  /** What coalescing returns: tokens of the input that are no fragments of a native one, the best of their groups, from
      different groups, with text, and apart. */
  lemma CoalescedTokens(tokens: seq<OcrToken>, iou: real)
    ensures var r, filtered := Coalesce(tokens, iou), WithoutFragments(tokens, NativeIds(tokens));
            && Apart(r, iou) && DistinctKeys(r)
            && forall t | t in r :: t in tokens && !IsFragmentOf(t, NativeIds(tokens)) && IsBest(filtered, t)
  {
    var filtered := WithoutFragments(tokens, NativeIds(tokens));
    var r := Coalesce(tokens, iou);
    GroupedIsBest(filtered);
    DedupeKeepsOneEach(Grouped(filtered), iou);
    WithinDistinct(r, Grouped(filtered));
    forall t | t in r ensures t in tokens && !IsFragmentOf(t, NativeIds(tokens)) && IsBest(filtered, t) {
      WithinIn(r, Grouped(filtered), t);
      BestIsGiven(filtered, t);
      FragmentsGone(tokens, NativeIds(tokens), t);
    }
  }

  /** The key of the group that answers for a token: a fragment of a native token is answered for by that token's group. */
  lemma GroupExists(tokens: seq<OcrToken>, t: OcrToken) returns (g: OcrToken)
    requires t in tokens
    ensures g in Grouped(WithoutFragments(tokens, NativeIds(tokens))) && GroupKey(g) == GroupKey(t)
  {
    var ids := NativeIds(tokens);
    var filtered := WithoutFragments(tokens, ids);
    GroupedIsBest(filtered);
    var u := t;
    if IsFragmentOf(t, ids) {
      u :| u in tokens && IsNative(u) && u.id == t.origin.value;
    }
    FragmentsGone(tokens, ids, u);
    assert HasGroup(Grouped(filtered), GroupKey(u));
    g :| g in Grouped(filtered) && GroupKey(g) == GroupKey(u);
  }

  /** Nothing is lost: for every token the best one of its group, if that has text, has one in the result that stands for it. */
  lemma CoalescedCovers(tokens: seq<OcrToken>, iou: real, t: OcrToken) returns (g: OcrToken)
    requires t in tokens
    ensures IsBest(WithoutFragments(tokens, NativeIds(tokens)), g) && GroupKey(g) == GroupKey(t)
    ensures g.text != "" ==> exists k :: k in Coalesce(tokens, iou) && StandsFor(k, g, iou)
  {
    var filtered := WithoutFragments(tokens, NativeIds(tokens));
    g := GroupExists(tokens, t);
    GroupedIsBest(filtered);
    DedupeKeepsOneEach(Grouped(filtered), iou);
  }

  // ----- Coalescing twice -----

  lemma {:induction false} NoFragments(s: seq<OcrToken>, ids: set<string>)
    requires forall t | t in s :: !IsFragmentOf(t, ids)
    ensures WithoutFragments(s, ids) == s
  {
    if |s| > 0 {
      assert s[|s| - 1] in s;
      NoFragments(s[..|s| - 1], ids);
      SplitLast([], s);
    }
  }

  lemma {:induction false} GroupedDistinct(s: seq<OcrToken>)
    requires DistinctKeys(s)
    ensures Grouped(s) == s
  {
    if |s| > 0 {
      var front, t := s[..|s| - 1], s[|s| - 1];
      GroupedDistinct(front);
      assert s == front + [t];
      assert Find(front, GroupKey(t)) == |front|;
    }
  }

  /** A second coalescing changes nothing. */
  lemma CoalesceTwice(tokens: seq<OcrToken>, iou: real)
    ensures Coalesce(Coalesce(tokens, iou), iou) == Coalesce(tokens, iou)
  {
    var r := Coalesce(tokens, iou);
    CoalescedTokens(tokens, iou);
    assert NativeIds(r) <= NativeIds(tokens);
    NoFragments(r, NativeIds(r));
    GroupedDistinct(r);
    DedupeTwice(Grouped(WithoutFragments(tokens, NativeIds(tokens))), iou);
  }
}
