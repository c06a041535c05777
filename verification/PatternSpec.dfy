/** The pattern matcher of docmirror/layout/vocabulary.py, specified by strings:
    a state of the automaton stands for the string spelled on the way to it. */
module AhoCorasickSpec {
  import opened Sequences

  /** w is a path of the trie: a prefix of some pattern (the root is always one). */
  ghost predicate InTrie(pats: seq<string>, w: string) {
    w == [] || exists pi | 0 <= pi < |pats| :: w <= pats[pi]
  }

  /** The longest suffix of w that starts at position k or later and is a trie path. */
  ghost function Longest(pats: seq<string>, w: string, k: nat): (r: string)
    requires k <= |w|
    ensures InTrie(pats, r) && |r| <= |w| - k && r == w[|w| - |r|..]
    ensures forall i | k <= i < |w| - |r| :: !InTrie(pats, w[i..])
    decreases |w| - k
  {
    if k == |w| || InTrie(pats, w[k..]) then w[k..] else Longest(pats, w, k + 1)
  }

  /** The string of the failure state: the longest proper suffix that is a trie path. */
  ghost function Border(pats: seq<string>, w: string): (r: string)
    requires w != []
    ensures |r| < |w|
  {
    Longest(pats, w, 1)
  }

  lemma PrefixClosed(pats: seq<string>, v: string, w: string)
    requires InTrie(pats, w) && v <= w
    ensures InTrie(pats, v)
  {
    if v != [] {
      var pi :| 0 <= pi < |pats| && w <= pats[pi];
      assert v <= pats[pi];
    }
  }

  /** Dropping the first m characters shifts the positions. */
  lemma {:induction false} ShiftBy(pats: seq<string>, w: string, m: nat, j: nat)
    requires m + j <= |w|
    ensures Longest(pats, w, m + j) == Longest(pats, w[m..], j)
    decreases |w| - j
  {
    assert w[m..][j..] == w[m + j..];
    if m + j < |w| {
      ShiftBy(pats, w, m, j + 1);
    }
  }

  /** Positions below m that start no trie path can be skipped. */
  lemma {:induction false} SkipTo(pats: seq<string>, w: string, k: nat, m: nat)
    requires k <= m <= |w|
    requires forall i | k <= i < m :: !InTrie(pats, w[i..])
    ensures Longest(pats, w, k) == Longest(pats, w[m..], 0)
    decreases m - k
  {
    if k < m {
      SkipTo(pats, w, k + 1, m);
    } else {
      ShiftBy(pats, w, m, 0);
    }
  }

  /** Reading one more character from the longest suffix loses nothing: the
      automaton only ever has to remember one state. */
  lemma LongestExtends(pats: seq<string>, w: string, k: nat, c: char)
    requires k <= |w|
    ensures Longest(pats, w + [c], k) == Longest(pats, Longest(pats, w, k) + [c], 0)
  {
    var v := Longest(pats, w, k);
    var m := |w| - |v|;
    assert (w + [c])[m..] == v + [c];
    forall i | k <= i < m ensures !InTrie(pats, (w + [c])[i..]) {
      if InTrie(pats, (w + [c])[i..]) {
        PrefixClosed(pats, w[i..], (w + [c])[i..]);
      }
    }
    SkipTo(pats, w + [c], k, m);
  }

  /** One failure step: when w cannot be extended by c, its border can be tried instead. */
  lemma FailureStep(pats: seq<string>, w: string, c: char)
    requires w != [] && !InTrie(pats, w + [c])
    ensures Longest(pats, w + [c], 0) == Longest(pats, Border(pats, w) + [c], 0)
  {
    assert (w + [c])[0..] == w + [c];
    LongestExtends(pats, w, 1, c);
  }

  /** The indices below n of the patterns equal to w, in order. */
  ghost function Own(pats: seq<string>, w: string, n: nat): (r: seq<nat>)
    requires n <= |pats|
    ensures forall k | 0 <= k < |r| :: r[k] < n && pats[r[k]] == w
  {
    if n == 0 then [] else Own(pats, w, n - 1) + if pats[n - 1] == w then [n - 1] else []
  }

  lemma {:induction false} OwnTimes(pats: seq<string>, w: string, n: nat, pi: nat)
    requires n <= |pats|
    ensures Times(Own(pats, w, n), pi) == if pi < n && pats[pi] == w then 1 else 0
  {
    if n > 0 {
      OwnTimes(pats, w, n - 1, pi);
      var last: seq<nat> := if pats[n - 1] == w then [n - 1] else [];
      TimesConcat(Own(pats, w, n - 1), last, pi);
      assert Times(last, pi) == if pi == n - 1 && pats[pi] == w then 1 else 0;
    }
  }

  lemma OwnNone(pats: seq<string>, w: string, n: nat)
    requires n <= |pats|
    requires forall j | 0 <= j < n :: pats[j] != w
    ensures Own(pats, w, n) == []
  {
  }

  ghost predicate ValidIndices(pats: seq<string>, s: seq<nat>) {
    forall k | 0 <= k < |s| :: s[k] < |pats|
  }

  /** The output list of the state spelled w: its own patterns, then those of its
      failure state. The root's list is never merged into a state of depth one. */
  ghost function Out(pats: seq<string>, w: string): (r: seq<nat>)
    ensures ValidIndices(pats, r)
    decreases |w|
  {
    var own := Own(pats, w, |pats|);
    if |w| <= 1 then own else own + Out(pats, Border(pats, w))
  }

  ghost predicate IsSuffix(u: string, w: string) {
    |u| <= |w| && u == w[|w| - |u|..]
  }

  /** The trie paths that are proper suffixes of w are the suffixes of its border. */
  lemma SuffixOfBorder(pats: seq<string>, w: string, p: string)
    requires InTrie(pats, p) && |w| > 1
    ensures IsSuffix(p, Border(pats, w)) <==> IsSuffix(p, w) && p != w
  {
    var b := Border(pats, w);
    if IsSuffix(p, w) && p != w {
      assert InTrie(pats, w[|w| - |p|..]);
      assert |p| <= |b|;
      assert p == b[|b| - |p|..];
    }
    if IsSuffix(p, b) {
      assert p == w[|w| - |p|..];
    }
  }

  /** Every non-empty pattern is listed exactly once if it is a suffix of w, and not at all otherwise. */
  lemma {:induction false} OutExact(pats: seq<string>, w: string, pi: nat)
    requires pi < |pats| && |pats[pi]| > 0
    ensures Times(Out(pats, w), pi) == if IsSuffix(pats[pi], w) then 1 else 0
    decreases |w|
  {
    OwnTimes(pats, w, |pats|, pi);
    if |w| > 1 {
      TimesConcat(Own(pats, w, |pats|), Out(pats, Border(pats, w)), pi);
      OutExact(pats, Border(pats, w), pi);
      assert InTrie(pats, pats[pi]);
      SuffixOfBorder(pats, w, pats[pi]);
    }
  }

  datatype Hit = Hit(pattern: nat, start: int, end: int)

  ghost function ToHits(pats: seq<string>, out: seq<nat>, end: nat): seq<Hit>
    requires ValidIndices(pats, out)
  {
    seq(|out|, k requires 0 <= k < |out| => Hit(out[k], end - |pats[out[k]]|, end))
  }

  /** What `search` reports on reaching the state spelled w after `end` characters. */
  ghost function HitsAt(pats: seq<string>, w: string, end: nat): seq<Hit> {
    ToHits(pats, Out(pats, w), end)
  }

  /** What `search` reports after each character of the text. */
  ghost function Rows(pats: seq<string>, text: string): (r: seq<seq<Hit>>)
    ensures |r| == |text|
  {
    seq(|text|, i requires 0 <= i < |text| => HitsAt(pats, Longest(pats, text[..i + 1], 0), i + 1))
  }

  /** Everything `search` reports, in its order. */
  ghost function Hits(pats: seq<string>, text: string): seq<Hit> {
    Flatten(Rows(pats, text))
  }

  datatype Match = Match(text: string, start: int, end: int)

  /** The triples `search` returns: each hit under its pattern's text. */
  ghost function Named(pats: seq<string>, hits: seq<Hit>): seq<Match> {
    seq(|hits|, k requires 0 <= k < |hits| => NameOf(pats, hits[k]))
  }

  ghost function NameOf(pats: seq<string>, h: Hit): Match {
    Match(if h.pattern < |pats| then pats[h.pattern] else "", h.start, h.end)
  }

  lemma NamedConcat(pats: seq<string>, a: seq<Hit>, b: seq<Hit>)
    ensures Named(pats, a + b) == Named(pats, a) + Named(pats, b)
  {
  }

  lemma NamedNext(pats: seq<string>, hits: seq<Hit>, k: nat)
    requires k < |hits|
    ensures Named(pats, hits[..k + 1]) == Named(pats, hits[..k]) + [NameOf(pats, hits[k])]
  {
  }

  ghost predicate Occurs(pats: seq<string>, text: string, h: Hit) {
    h.pattern < |pats| && 0 <= h.start <= h.end <= |text| && text[h.start..h.end] == pats[h.pattern]
  }

  lemma {:induction false} ToHitsTimes(pats: seq<string>, out: seq<nat>, end: nat, h: Hit)
    requires ValidIndices(pats, out) && h.pattern < |pats|
    requires h.end == end && h.start == end - |pats[h.pattern]|
    ensures Times(ToHits(pats, out, end), h) == Times(out, h.pattern)
  {
    if |out| > 0 {
      ToHitsTimes(pats, out[..|out| - 1], end, h);
      assert ToHits(pats, out, end)[..|out| - 1] == ToHits(pats, out[..|out| - 1], end);
    }
  }

  lemma ToHitsOnly(pats: seq<string>, out: seq<nat>, end: nat, h: Hit)
    requires ValidIndices(pats, out)
    requires h in ToHits(pats, out, end)
    ensures h.pattern < |pats| && h.end == end && h.start == end - |pats[h.pattern]|
  {
    var hits := ToHits(pats, out, end);
    var k :| 0 <= k < |hits| && hits[k] == h;
  }

  /** A hit that fits the end and its pattern's length is reported as often as its pattern is listed. */
  lemma FittingHit(pats: seq<string>, text: string, n: nat, w: string, h: Hit)
    requires 0 < n <= |text| && w == Longest(pats, text[..n], 0)
    requires h.pattern < |pats| && |pats[h.pattern]| > 0 && h.end == n && h.start == n - |pats[h.pattern]|
    ensures Times(HitsAt(pats, w, n), h) == if Occurs(pats, text, h) then 1 else 0
  {
    ToHitsTimes(pats, Out(pats, w), n, h);
    OutExact(pats, w, h.pattern);
    SuffixOfLongest(pats, text[..n], pats[h.pattern]);
    OccursAtEnd(pats, text, n, h);
  }

  lemma OccursAtEnd(pats: seq<string>, text: string, n: nat, h: Hit)
    requires n <= |text| && h.pattern < |pats| && h.end == n && h.start == n - |pats[h.pattern]|
    ensures Occurs(pats, text, h) <==> IsSuffix(pats[h.pattern], text[..n])
  {
    if h.start >= 0 {
      assert text[..n][h.start..] == text[h.start..n];
    }
  }

  /** Any other hit is not reported. */
  lemma UnfittingHit(pats: seq<string>, w: string, n: nat, h: Hit)
    requires !(h.pattern < |pats| && h.end == n && h.start == n - |pats[h.pattern]|)
    ensures Times(HitsAt(pats, w, n), h) == 0
  {
    TimesIn(HitsAt(pats, w, n), h);
    if h in HitsAt(pats, w, n) {
      ToHitsOnly(pats, Out(pats, w), n, h);
      assert false;
    }
  }

  /** What one character adds: the occurrences that end just after it, once each. */
  lemma HitsAtExact(pats: seq<string>, text: string, n: nat, w: string, h: Hit)
    requires 0 < n <= |text| && w == Longest(pats, text[..n], 0)
    requires forall pi | 0 <= pi < |pats| :: |pats[pi]| > 0
    ensures Times(HitsAt(pats, w, n), h) == if Occurs(pats, text, h) && h.end == n then 1 else 0
  {
    if h.pattern < |pats| && h.end == n && h.start == n - |pats[h.pattern]| {
      FittingHit(pats, text, n, w, h);
    } else {
      UnfittingHit(pats, w, n, h);
      OccurrenceFits(pats, text, h);
    }
  }

  lemma OccurrenceFits(pats: seq<string>, text: string, h: Hit)
    ensures Occurs(pats, text, h) ==> h.pattern < |pats| && h.start == h.end - |pats[h.pattern]|
  {
  }

  lemma {:induction false} FlattenTimes(rows: seq<seq<Hit>>, h: Hit, occurs: bool)
    requires forall i | 0 <= i < |rows| :: Times(rows[i], h) == if occurs && h.end == i + 1 then 1 else 0
    ensures Times(Flatten(rows), h) == if occurs && 0 < h.end <= |rows| then 1 else 0
  {
    if |rows| > 0 {
      FlattenTimes(rows[..|rows| - 1], h, occurs);
      TimesConcat(Flatten(rows[..|rows| - 1]), rows[|rows| - 1], h);
    }
  }

  lemma RowExact(pats: seq<string>, text: string, i: nat, h: Hit)
    requires (forall pi | 0 <= pi < |pats| :: |pats[pi]| > 0) && i < |Rows(pats, text)|
    ensures Times(Rows(pats, text)[i], h) == if Occurs(pats, text, h) && h.end == i + 1 then 1 else 0
  {
    var w := Longest(pats, text[..i + 1], 0);
    assert Rows(pats, text)[i] == HitsAt(pats, w, i + 1);
    HitsAtExact(pats, text, i + 1, w, h);
  }

  /** Against the naive definition: every occurrence of every pattern is reported exactly once,
      and nothing else is. */
  lemma SearchExact(pats: seq<string>, text: string, h: Hit)
    requires forall pi | 0 <= pi < |pats| :: |pats[pi]| > 0
    ensures Times(Hits(pats, text), h) == if Occurs(pats, text, h) then 1 else 0
  {
    var rows := Rows(pats, text);
    forall i: nat | i < |rows|
      ensures Times(rows[i], h) == if Occurs(pats, text, h) && h.end == i + 1 then 1 else 0
    {
      RowExact(pats, text, i, h);
    }
    FlattenTimes(rows, h, Occurs(pats, text, h));
  }

  ghost predicate Found(pats: seq<string>, text: string, m: Match) {
    m.text in pats && 0 <= m.start <= m.end <= |text| && text[m.start..m.end] == m.text
  }

  /** The triples returned are the occurrences, whatever pattern index they came from. */
  lemma ReportedIffFound(pats: seq<string>, text: string, m: Match)
    requires forall pi | 0 <= pi < |pats| :: |pats[pi]| > 0
    ensures m in Named(pats, Hits(pats, text)) <==> Found(pats, text, m)
  {
    var hits := Hits(pats, text);
    if m in Named(pats, hits) {
      var k :| 0 <= k < |hits| && Named(pats, hits)[k] == m;
      SearchExact(pats, text, hits[k]);
      TimesIn(hits, hits[k]);
    }
    if Found(pats, text, m) {
      var pi :| 0 <= pi < |pats| && pats[pi] == m.text;
      var h := Hit(pi, m.start, m.end);
      SearchExact(pats, text, h);
      TimesIn(hits, h);
      var k :| 0 <= k < |hits| && hits[k] == h;
      assert Named(pats, hits)[k] == m;
    }
  }

  /** A trie path ends the text read so far exactly when it ends the current state's string. */
  lemma SuffixOfLongest(pats: seq<string>, read: string, p: string)
    requires InTrie(pats, p)
    ensures IsSuffix(p, read) <==> IsSuffix(p, Longest(pats, read, 0))
  {
    var w := Longest(pats, read, 0);
    if IsSuffix(p, read) {
      assert InTrie(pats, read[|read| - |p|..]);
      assert |p| <= |w|;
      assert p == w[|w| - |p|..];
    }
    if IsSuffix(p, w) {
      assert p == read[|read| - |p|..];
    }
  }

  lemma NoEmptyHit(pats: seq<string>, w: string, end: nat, h: Hit)
    requires |w| == 1 && h in HitsAt(pats, w, end)
    ensures h.pattern < |pats| && pats[h.pattern] == w
  {
    var k :| 0 <= k < |HitsAt(pats, w, end)| && HitsAt(pats, w, end)[k] == h;
    assert h.pattern == Out(pats, w)[k];
  }

  /** Without the loader's promise of non-empty patterns the search is not exact: wherever the first
      character begins some pattern, an empty pattern's occurrence right after it goes unreported. */
  lemma {:induction false} EmptyPatternIsMissed(pats: seq<string>, text: string, h: Hit)
    requires |text| > 0 && InTrie(pats, text[..1])
    requires h.pattern < |pats| && pats[h.pattern] == [] && h == Hit(h.pattern, 1, 1)
    ensures Occurs(pats, text, h) && Times(Hits(pats, text), h) == 0
  {
    var rows := Rows(pats, text);
    assert text[..1][0..] == text[..1];
    forall i | 0 <= i < |rows| ensures Times(rows[i], h) == 0 {
      var w := Longest(pats, text[..i + 1], 0);
      TimesIn(rows[i], h);
      if h in rows[i] {
        ToHitsOnly(pats, Out(pats, w), i + 1, h);
        NoEmptyHit(pats, w, 1, h);
      }
    }
    FlattenTimes(rows, h, false);
  }

  /** The search is exact on all texts if and only if no pattern is empty: nothing is reported before the first character. */
  lemma ExactIffNoEmptyPattern(pats: seq<string>)
    ensures (forall text, h :: ExactAt(pats, text, h)) <==> forall pi | 0 <= pi < |pats| :: |pats[pi]| > 0
  {
    if forall pi | 0 <= pi < |pats| :: |pats[pi]| > 0 {
      forall text, h ensures ExactAt(pats, text, h) {
        SearchExact(pats, text, h);
      }
    } else {
      var pi :| 0 <= pi < |pats| && |pats[pi]| == 0;
      assert Hits(pats, []) == [];
      assert Occurs(pats, [], Hit(pi, 0, 0)) && !ExactAt(pats, [], Hit(pi, 0, 0));
    }
  }

  ghost predicate ExactAt(pats: seq<string>, text: string, h: Hit) {
    Times(Hits(pats, text), h) == if Occurs(pats, text, h) then 1 else 0
  }
}
