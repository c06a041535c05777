/** The leftmost-longest selection of docmirror/layout/vocabulary.py:
    a reference scan over the text, and the sorted greedy filter that computes it. */
module LeftmostLongest {
  import opened Sequences
  import opened Sorting
  import opened AhoCorasickSpec
  import opened Automaton

  /** The largest end in (p, e] at which a pattern starting at p stops, or p when there is none. */
  ghost function LongestEnd(pats: seq<string>, text: string, p: nat, e: nat): (r: nat)
    requires p <= e <= |text|
    ensures p <= r <= e
    ensures r > p ==> text[p..r] in pats
    ensures forall x | r < x <= e :: text[p..x] !in pats
  {
    if e == p then p else if text[p..e] in pats then e else LongestEnd(pats, text, p, e - 1)
  }

  /** The reference: walk the text, take the longest pattern that starts here and jump behind it, else move on. */
  ghost function Scan(pats: seq<string>, text: string, p: nat): seq<Match>
    requires p <= |text|
    decreases |text| - p
  {
    if p == |text| then []
    else
      var e := LongestEnd(pats, text, p, |text|);
      if e > p then [Match(text[p..e], p, e)] + Scan(pats, text, e) else Scan(pats, text, p + 1)
  }

  ghost predicate Overlap(a: Match, b: Match) {
    a.start < b.end && b.start < a.end
  }

  /** An occurrence than which none from the same start is longer. */
  ghost predicate IsLongest(pats: seq<string>, text: string, m: Match) {
    Found(pats, text, m) && forall e | m.end < e <= |text| :: text[m.start..e] !in pats
  }

  /** Occurrences from position p on, in order and pairwise disjoint, each the longest at its start. */
  ghost predicate Disjoint(pats: seq<string>, text: string, p: nat, s: seq<Match>) {
    && (forall i | 0 <= i < |s| :: IsLongest(pats, text, s[i]) && p <= s[i].start < s[i].end)
    && (forall i, j | 0 <= i < j < |s| :: s[i].end <= s[j].start)
  }

  lemma LongestFits(pats: seq<string>, text: string, p: nat, e: nat)
    requires p < e <= |text| && e == LongestEnd(pats, text, p, |text|)
    ensures IsLongest(pats, text, Match(text[p..e], p, e))
  {
  }

  lemma FirstDisjoint(pats: seq<string>, text: string, p: nat, first: Match, rest: seq<Match>)
    requires IsLongest(pats, text, first) && p <= first.start < first.end && Disjoint(pats, text, first.end, rest)
    ensures Disjoint(pats, text, p, [first] + rest)
  {
    assert forall i | 0 < i < |[first] + rest| :: ([first] + rest)[i] == rest[i - 1];
  }

  /** What the scan selects. */
  lemma {:induction false} ScanDisjoint(pats: seq<string>, text: string, p: nat)
    requires p <= |text|
    ensures Disjoint(pats, text, p, Scan(pats, text, p))
    decreases |text| - p
  {
    if p < |text| {
      var e := LongestEnd(pats, text, p, |text|);
      if e > p {
        ScanDisjoint(pats, text, e);
        LongestFits(pats, text, p, e);
        FirstDisjoint(pats, text, p, Match(text[p..e], p, e), Scan(pats, text, e));
      } else {
        ScanDisjoint(pats, text, p + 1);
      }
    }
  }

  /** What the scan leaves out: every non-empty occurrence overlaps a selected one that starts no later
      and, from the same start, is no shorter. */
  lemma {:induction false} ScanComplete(pats: seq<string>, text: string, p: nat, m: Match) returns (kept: Match)
    requires p <= |text| && Found(pats, text, m) && p <= m.start < m.end
    ensures kept in Scan(pats, text, p) && Overlap(kept, m)
    ensures kept.start <= m.start && (kept.start == m.start ==> kept.end >= m.end)
    decreases |text| - p
  {
    var e := LongestEnd(pats, text, p, |text|);
    assert m.start == p ==> text[p..m.end] in pats;
    if e > p && m.start < e {
      kept := Match(text[p..e], p, e);
    } else if e > p {
      kept := ScanComplete(pats, text, e, m);
    } else {
      kept := ScanComplete(pats, text, p + 1, m);
    }
  }

  /** The scan passes over positions where nothing starts. */
  lemma {:induction false} ScanSkip(pats: seq<string>, text: string, p: nat, q: nat)
    requires p <= q <= |text|
    requires forall x, e | p <= x < q && x < e <= |text| :: text[x..e] !in pats
    ensures Scan(pats, text, p) == Scan(pats, text, q)
    decreases q - p
  {
    if p < q {
      assert LongestEnd(pats, text, p, |text|) == p;
      ScanSkip(pats, text, p + 1, q);
    }
  }

  /** One selection: the longest occurrence at its start. */
  lemma ScanTake(pats: seq<string>, text: string, m: Match)
    requires IsLongest(pats, text, m) && m.start < m.end
    ensures Scan(pats, text, m.start) == [m] + Scan(pats, text, m.end)
  {
    assert LongestEnd(pats, text, m.start, |text|) == m.end;
  }

  /** The order of the first sort: by start, longest first. */
  predicate LongestFirst(a: Match, b: Match) {
    a.start < b.start || (a.start == b.start && a.end - a.start >= b.end - b.start)
  }

  /** The order of the final sort. */
  predicate ByStart(a: Match, b: Match) {
    a.start <= b.start
  }

  function Range(a: int, b: int): (r: set<int>)
    ensures forall p :: p in r <==> a <= p < b
    decreases b - a
  {
    if a >= b then {} else Range(a, b - 1) + {b - 1}
  }

  /** The state of the greedy filter before the k-th sorted match: the result so far is the part of the reference
      scan that precedes `last`, everything processed starts before `last`, and from the start of the
      current match on the used positions are those before `last`. */
  ghost predicate Greedy(pats: seq<string>, text: string, all: seq<Match>, k: nat, result: seq<Match>, used: set<int>, last: nat)
    requires k <= |all|
  {
    && last <= |text|
    && result + Scan(pats, text, last) == Scan(pats, text, 0)
    && (forall j | 0 <= j < k :: all[j].start < last)
    && (forall p | p in used :: p < last)
    && (forall p, j | k <= j < |all| && all[j].start <= p < last :: p in used)
  }

  ghost predicate AllMatches(pats: seq<string>, text: string, all: seq<Match>) {
    && SortedBy(LongestFirst, all)
    && (forall j | 0 <= j < |all| :: Found(pats, text, all[j]) && all[j].start < all[j].end)
    && (forall m | Found(pats, text, m) :: m in all)
  }

  lemma StartsHere(pats: seq<string>, text: string, all: seq<Match>, x: nat, e: nat) returns (j: nat)
    requires AllMatches(pats, text, all) && x < e <= |text| && text[x..e] in pats
    ensures j < |all| && all[j].start == x && all[j].end == e
  {
    var m := Match(text[x..e], x, e);
    assert Found(pats, text, m);
    j :| 0 <= j < |all| && all[j] == m;
  }

  /** Keeping a match whose positions are all free. */
  lemma GreedyKeep(pats: seq<string>, text: string, all: seq<Match>, k: nat, result: seq<Match>, used: set<int>, last: nat)
    requires AllMatches(pats, text, all) && k < |all| && Greedy(pats, text, all, k, result, used, last)
    requires last <= all[k].start
    ensures Greedy(pats, text, all, k + 1, result + [all[k]], used + Range(all[k].start, all[k].end), all[k].end)
  {
    var m := all[k];
    forall x, e | last <= x < m.start && x < e <= |text| ensures text[x..e] !in pats {
      if text[x..e] in pats {
        var j := StartsHere(pats, text, all, x, e);
      }
    }
    ScanSkip(pats, text, last, m.start);
    forall e | m.end < e <= |text| ensures text[m.start..e] !in pats {
      if text[m.start..e] in pats {
        var j := StartsHere(pats, text, all, m.start, e);
      }
    }
    ScanTake(pats, text, m);
    assert result + [m] + Scan(pats, text, m.end) == result + ([m] + Scan(pats, text, m.end));
    forall j | k + 1 <= j < |all| ensures m.start <= all[j].start {
      assert LongestFirst(all[k], all[j]);
    }
  }

  /** After the last match nothing is left to select. */
  lemma GreedyEnd(pats: seq<string>, text: string, all: seq<Match>, result: seq<Match>, used: set<int>, last: nat)
    requires AllMatches(pats, text, all) && Greedy(pats, text, all, |all|, result, used, last)
    ensures result == Scan(pats, text, 0)
  {
    forall x, e | last <= x < |text| && x < e <= |text| ensures text[x..e] !in pats {
      if text[x..e] in pats {
        var j := StartsHere(pats, text, all, x, e);
      }
    }
    ScanSkip(pats, text, last, |text|);
    assert result + [] == result;
  }

  lemma NothingFound(pats: seq<string>, text: string, found: seq<Match>)
    requires forall pi | 0 <= pi < |pats| :: |pats[pi]| > 0
    requires found == Named(pats, Hits(pats, text)) && |found| == 0
    ensures forall x, e | 0 <= x < |text| && x < e <= |text| :: text[x..e] !in pats
  {
    forall x, e | 0 <= x < |text| && x < e <= |text| ensures text[x..e] !in pats {
      ReportedIffFound(pats, text, Match(text[x..e], x, e));
    }
  }

  /** Sorting keeps the members. */
  lemma SortedMembers(found: seq<Match>, m: Match)
    ensures m in Sort(LongestFirst, found) <==> m in found
  {
    TimesIn(Sort(LongestFirst, found), m);
    TimesIn(found, m);
  }

  lemma SortedMatches(pats: seq<string>, text: string, found: seq<Match>)
    requires forall pi | 0 <= pi < |pats| :: |pats[pi]| > 0
    requires found == Named(pats, Hits(pats, text))
    ensures AllMatches(pats, text, Sort(LongestFirst, found))
  {
    forall m: Match ensures m in found <==> Found(pats, text, m) {
      ReportedIffFound(pats, text, m);
    }
    SortedFound(pats, text, found);
  }

  lemma SortedFound(pats: seq<string>, text: string, found: seq<Match>)
    requires forall pi | 0 <= pi < |pats| :: |pats[pi]| > 0
    requires forall m: Match :: m in found <==> Found(pats, text, m)
    ensures AllMatches(pats, text, Sort(LongestFirst, found))
  {
    var all := Sort(LongestFirst, found);
    SortSorts(LongestFirst, found);
    forall j | 0 <= j < |all| ensures Found(pats, text, all[j]) && all[j].start < all[j].end {
      SortedMembers(found, all[j]);
      NotEmpty(pats, text, all[j]);
    }
    forall m | Found(pats, text, m) ensures m in all {
      SortedMembers(found, m);
    }
  }

  lemma NotEmpty(pats: seq<string>, text: string, m: Match)
    requires Found(pats, text, m) && forall pi | 0 <= pi < |pats| :: |pats[pi]| > 0
    ensures m.start < m.end
  {
    assert |text[m.start..m.end]| > 0;
  }

  /** `search_longest_non_overlapping` returns the leftmost-longest scan. */
  method SearchLongestNonOverlapping(ac: AhoCorasick, text: string) returns (kept: seq<Match>)
    requires ac.Valid() && forall pi | 0 <= pi < |ac.patterns| :: |ac.patterns[pi]| > 0
    ensures kept == Scan(ac.patterns, text, 0)
  {
    var found, _ := ac.Search(text);
    if |found| == 0 {
      NothingFound(ac.patterns, text, found);
      ScanSkip(ac.patterns, text, 0, |text|);
      return [];
    }
    SortedMatches(ac.patterns, text, found);
    var result := KeepFree(Sort(LongestFirst, found), ac.patterns, text);
    ScanDisjoint(ac.patterns, text, 0);
    SortSorted(ByStart, result);
    return Sort(ByStart, result);
  }

  /** The greedy loop: skip a match when one of its positions is used, else keep it and use its positions. */
  method KeepFree(all: seq<Match>, ghost pats: seq<string>, ghost text: string) returns (result: seq<Match>)
    requires AllMatches(pats, text, all)
    ensures result == Scan(pats, text, 0)
  {
    var used: set<int> := {};
    result := [];
    ghost var last: nat := 0;
    for k := 0 to |all|
      invariant last <= |text| && Greedy(pats, text, all, k, result, used, last)
    {
      var m := all[k];
      if exists p | m.start <= p < m.end :: p in used {
        continue;
      }
      assert m.start !in used;
      GreedyKeep(pats, text, all, k, result, used, last);
      result := result + [m];
      used := used + Range(m.start, m.end);
      last := m.end;
    }
    GreedyEnd(pats, text, all, result, used, last);
  }
}
