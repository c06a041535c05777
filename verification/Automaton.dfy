/** The class AhoCorasick of docmirror/layout/vocabulary.py: trie growth, breadth-first
    failure links and the scan, each proved against AhoCorasickSpec. */
module Automaton {
  import opened Sequences
  import opened AhoCorasickSpec
  import opened LinkCost

  /** A trie whose state t is reached from parent[t] by the last character of spelled[t]. */
  ghost predicate TrieOK(goto: seq<map<char, int>>, spelled: seq<string>, parent: seq<int>) {
    && |goto| == |spelled| == |parent| > 0 && |spelled[0]| == 0
    && (forall s, c | 0 <= s < |goto| && c in goto[s] :: 0 < goto[s][c] < |goto| && spelled[goto[s][c]] == spelled[s] + [c])
    && (forall t | 0 < t < |goto| :: IsEdge(goto, spelled, parent, t))
    && (forall s, t | 0 <= s < t < |goto| :: spelled[s] != spelled[t])
  }

  ghost predicate IsEdge(goto: seq<map<char, int>>, spelled: seq<string>, parent: seq<int>, t: nat)
    requires t < |goto| == |spelled| == |parent|
  {
    && |spelled[t]| > 0 && 0 <= parent[t] < t
    && spelled[t] == spelled[parent[t]] + [Last(spelled[t])]
    && Last(spelled[t]) in goto[parent[t]] && goto[parent[t]][Last(spelled[t])] == t
  }

  ghost function Last(w: string): char
    requires |w| > 0
  {
    w[|w| - 1]
  }

  /** If the trie has a state for w + [c], then the state for w has that edge. */
  lemma EdgeExists(goto: seq<map<char, int>>, spelled: seq<string>, parent: seq<int>, s: nat, c: char, t: nat)
    requires TrieOK(goto, spelled, parent) && s < |goto| && t < |goto|
    requires spelled[t] == spelled[s] + [c]
    ensures c in goto[s] && goto[s][c] == t
  {
    assert IsEdge(goto, spelled, parent, t);
    assert spelled[parent[t]] == spelled[t][..|spelled[t]| - 1] == spelled[s];
  }

  /** The states spell exactly the prefixes of the patterns. */
  ghost predicate Covers(pats: seq<string>, spelled: seq<string>) {
    && (forall t | 0 <= t < |spelled| :: InTrie(pats, spelled[t]))
    && (forall pi | 0 <= pi < |pats| :: pats[pi] in spelled)
  }

  lemma {:induction false} PrefixSpelled(goto: seq<map<char, int>>, spelled: seq<string>, parent: seq<int>, t: nat, w: string)
    requires TrieOK(goto, spelled, parent) && t < |goto|
    requires w <= spelled[t]
    ensures w in spelled
    decreases t
  {
    if w != spelled[t] {
      assert IsEdge(goto, spelled, parent, t);
      PrefixSpelled(goto, spelled, parent, parent[t], w);
    }
  }

  /** Every trie path is spelled by a state. */
  lemma PathSpelled(pats: seq<string>, goto: seq<map<char, int>>, spelled: seq<string>, parent: seq<int>, w: string)
    requires TrieOK(goto, spelled, parent) && Covers(pats, spelled)
    requires InTrie(pats, w)
    ensures w in spelled
  {
    if w != [] {
      var pi :| 0 <= pi < |pats| && w <= pats[pi];
      var t :| 0 <= t < |spelled| && spelled[t] == pats[pi];
      PrefixSpelled(goto, spelled, parent, t, w);
    } else {
      assert spelled[0] == w;
    }
  }

  /** The dictionary of a state answers whether its string can be extended. */
  lemma GotoIffInTrie(pats: seq<string>, goto: seq<map<char, int>>, spelled: seq<string>, parent: seq<int>, s: nat, c: char)
    requires TrieOK(goto, spelled, parent) && Covers(pats, spelled) && s < |goto|
    ensures c in goto[s] <==> InTrie(pats, spelled[s] + [c])
  {
    if InTrie(pats, spelled[s] + [c]) {
      PathSpelled(pats, goto, spelled, parent, spelled[s] + [c]);
      var t :| 0 <= t < |spelled| && spelled[t] == spelled[s] + [c];
      EdgeExists(goto, spelled, parent, s, c, t);
    }
  }

  /** One step along an automaton whose dictionary has no entry: the failure state stands for the same suffix. */
  lemma StepFails(pats: seq<string>, goto: seq<map<char, int>>, spelled: seq<string>, parent: seq<int>, s: nat, c: char)
    requires TrieOK(goto, spelled, parent) && Covers(pats, spelled) && s < |goto|
    requires c !in goto[s] && |spelled[s]| > 0
    ensures Longest(pats, spelled[s] + [c], 0) == Longest(pats, Border(pats, spelled[s]) + [c], 0)
  {
    GotoIffInTrie(pats, goto, spelled, parent, s, c);
    FailureStep(pats, spelled[s], c);
  }

  /** Where the walk ends: at an edge it takes the edge, at the root without one it stays. */
  lemma StepLands(pats: seq<string>, goto: seq<map<char, int>>, spelled: seq<string>, parent: seq<int>, s: nat, c: char)
    requires TrieOK(goto, spelled, parent) && Covers(pats, spelled) && s < |goto|
    requires s == 0 || c in goto[s]
    ensures Longest(pats, spelled[s] + [c], 0) == spelled[if c in goto[s] then goto[s][c] else 0]
  {
    GotoIffInTrie(pats, goto, spelled, parent, s, c);
    assert (spelled[s] + [c])[0..] == spelled[s] + [c];
    if c !in goto[s] {
      assert Longest(pats, spelled[s] + [c], 0) == Longest(pats, spelled[s] + [c], 1);
    }
  }

  lemma ChildSpelled(goto: seq<map<char, int>>, spelled: seq<string>, parent: seq<int>, r: nat, c: char)
    requires TrieOK(goto, spelled, parent) && 0 < r < |goto| && c in goto[r]
    ensures 0 <= goto[r][c] < |goto| && spelled[goto[r][c]] == spelled[r] + [c] && |spelled[goto[r][c]]| > 1
  {
    assert IsEdge(goto, spelled, parent, r);
  }

  /** Adding a fresh edge (s, c) keeps the trie well formed. */
  lemma GrowTrie(goto: seq<map<char, int>>, spelled: seq<string>, parent: seq<int>, s: nat, c: char)
    requires TrieOK(goto, spelled, parent) && s < |goto| && c !in goto[s]
    ensures TrieOK(goto[s := goto[s][c := |goto|]] + [map[]], spelled + [spelled[s] + [c]], parent + [s])
    ensures spelled[s] + [c] !in spelled
  {
    var n := |goto|;
    var goto', spelled', parent' := goto[s := goto[s][c := n]] + [map[]], spelled + [spelled[s] + [c]], parent + [s];
    forall t | 0 <= t < n ensures spelled[t] != spelled[s] + [c] {
      if spelled[t] == spelled[s] + [c] {
        EdgeExists(goto, spelled, parent, s, c, t);
      }
    }
    forall t | 0 < t < n + 1 ensures IsEdge(goto', spelled', parent', t) {
      if t < n {
        assert IsEdge(goto, spelled, parent, t);
      }
    }
    forall x, d | 0 <= x < n + 1 && d in goto'[x]
      ensures 0 < goto'[x][d] < n + 1 && spelled'[goto'[x][d]] == spelled'[x] + [d]
    {
      if x < n && !(x == s && d == c) {
        assert d in goto[x] && goto'[x][d] == goto[x][d];
      }
    }
  }

  /** The breadth-first frontier while state r is expanded: `done` states have all children seen, except that
      r still has the characters in `todo` to visit; the queue holds the other seen states by depth. */
  ghost predicate Frontier(goto: seq<map<char, int>>, spelled: seq<string>, parent: seq<int>,
                           done: set<int>, seen: set<int>, q: seq<int>, r: int, todo: set<char>)
  {
    && TrieOK(goto, spelled, parent)
    && 0 in done && r in done && done <= seen
    && (forall x | x in seen :: 0 <= x < |goto| && (x in done || x in q))
    && QueueOK(spelled, done, seen, q, |spelled[r]|)
    && todo <= goto[r].Keys
    && (forall t | 0 < t < |goto| :: t in seen <==> parent[t] in done && !(parent[t] == r && Last(spelled[t]) in todo))
  }

  /** The queue holds seen states other than the root, each once, by depth, and none more than one level below. */
  ghost predicate QueueOK(spelled: seq<string>, done: set<int>, seen: set<int>, q: seq<int>, depth: nat)
    requires forall x | x in seen :: 0 <= x < |spelled|
  {
    && (forall i | 0 <= i < |q| :: q[i] in seen && q[i] !in done && q[i] != 0 && depth <= |spelled[q[i]]| <= depth + 1)
    && (forall i, j | 0 <= i < j < |q| :: q[i] != q[j] && |spelled[q[i]]| <= |spelled[q[j]]|)
  }

  lemma QueuePush(spelled: seq<string>, done: set<int>, seen: set<int>, q: seq<int>, depth: nat, s: int)
    requires (forall x | x in seen :: 0 <= x < |spelled|) && QueueOK(spelled, done, seen, q, depth)
    requires 0 < s < |spelled| && s !in seen && done <= seen && |spelled[s]| == depth + 1
    ensures QueueOK(spelled, done, seen + {s}, q + [s], depth)
    ensures forall x :: x in q + [s] <==> x in q || x == s
  {
    forall i, j | 0 <= i < j < |q + [s]| ensures (q + [s])[i] != (q + [s])[j] && |spelled[(q + [s])[i]]| <= |spelled[(q + [s])[j]]| {
      assert q[i] in seen;
    }
  }

  lemma QueuePop(spelled: seq<string>, done: set<int>, seen: set<int>, q: seq<int>, depth: nat)
    requires (forall x | x in seen :: 0 <= x < |spelled|) && QueueOK(spelled, done, seen, q, depth) && |q| > 0
    ensures QueueOK(spelled, done + {q[0]}, seen, q[1..], |spelled[q[0]]|)
    ensures forall x :: x in q <==> x == q[0] || x in q[1..]
  {
    assert q == [q[0]] + q[1..];
    assert forall i | 0 <= i < |q[1..]| :: q[1..][i] == q[i + 1];
  }

  /** Every state no deeper than the one being expanded has been seen. */
  lemma {:induction false} LevelSeen(goto: seq<map<char, int>>, spelled: seq<string>, parent: seq<int>,
                                     done: set<int>, seen: set<int>, q: seq<int>, r: int, todo: set<char>, t: nat)
    requires Frontier(goto, spelled, parent, done, seen, q, r, todo)
    requires t < |goto| && |spelled[t]| <= |spelled[r]|
    ensures t in seen
    decreases t
  {
    if t > 0 {
      assert IsEdge(goto, spelled, parent, t);
      LevelSeen(goto, spelled, parent, done, seen, q, r, todo, parent[t]);
    }
  }

  lemma LevelsSeen(goto: seq<map<char, int>>, spelled: seq<string>, parent: seq<int>,
                   done: set<int>, seen: set<int>, q: seq<int>, r: int, todo: set<char>)
    requires Frontier(goto, spelled, parent, done, seen, q, r, todo)
    ensures forall t | 0 <= t < |goto| && |spelled[t]| <= |spelled[r]| :: t in seen
  {
    forall t: nat | t < |goto| && |spelled[t]| <= |spelled[r]| ensures t in seen {
      LevelSeen(goto, spelled, parent, done, seen, q, r, todo, t);
    }
  }

  lemma FrontierStart(goto: seq<map<char, int>>, spelled: seq<string>, parent: seq<int>)
    requires TrieOK(goto, spelled, parent)
    ensures Frontier(goto, spelled, parent, {0}, {0}, [], 0, goto[0].Keys)
  {
    forall t | 0 < t < |goto| && parent[t] == 0 ensures Last(spelled[t]) in goto[0].Keys {
      assert IsEdge(goto, spelled, parent, t);
    }
  }

  lemma FrontierVisit(goto: seq<map<char, int>>, spelled: seq<string>, parent: seq<int>,
                      done: set<int>, seen: set<int>, q: seq<int>, r: int, todo: set<char>, c: char)
    requires Frontier(goto, spelled, parent, done, seen, q, r, todo) && c in todo
    ensures goto[r][c] !in seen && goto[r][c] > 0
    ensures Frontier(goto, spelled, parent, done, seen + {goto[r][c]}, q + [goto[r][c]], r, todo - {c})
  {
    var s := goto[r][c];
    assert IsEdge(goto, spelled, parent, s);
    assert spelled[s] == spelled[r] + [c];
    assert spelled[parent[s]] == spelled[s][..|spelled[s]| - 1] == spelled[r];
    assert parent[s] == r && Last(spelled[s]) == c;
    forall t | 0 < t < |goto| && parent[t] == r && Last(spelled[t]) == c ensures t == s {
      assert IsEdge(goto, spelled, parent, t);
    }
    QueuePush(spelled, done, seen, q, |spelled[r]|, s);
  }

  lemma FrontierPop(goto: seq<map<char, int>>, spelled: seq<string>, parent: seq<int>,
                    done: set<int>, seen: set<int>, q: seq<int>, r: int)
    requires Frontier(goto, spelled, parent, done, seen, q, r, {}) && |q| > 0
    ensures Frontier(goto, spelled, parent, done + {q[0]}, seen, q[1..], q[0], goto[q[0]].Keys)
  {
    QueuePop(spelled, done, seen, q, |spelled[r]|);
    forall t | 0 < t < |goto| && parent[t] == q[0] ensures Last(spelled[t]) in goto[q[0]].Keys && t !in seen {
      assert IsEdge(goto, spelled, parent, t);
      assert q[0] !in done;
    }
  }

  /** When the queue runs empty every state has been seen. */
  lemma {:induction false} FrontierEnd(goto: seq<map<char, int>>, spelled: seq<string>, parent: seq<int>,
                                       done: set<int>, seen: set<int>, r: int, t: nat)
    requires Frontier(goto, spelled, parent, done, seen, [], r, {}) && t < |goto|
    ensures t in seen
    decreases t
  {
    if t > 0 {
      assert IsEdge(goto, spelled, parent, t);
      FrontierEnd(goto, spelled, parent, done, seen, r, parent[t]);
    }
  }

  /** State s has its final failure link and output list. */
  ghost predicate Linked(pats: seq<string>, spelled: seq<string>, fail: seq<int>, output: seq<seq<nat>>, s: int)
    requires |spelled| == |fail| == |output|
  {
    && 0 <= s < |spelled|
    && output[s] == Out(pats, spelled[s])
    && 0 <= fail[s] < |fail|
    && (|spelled[s]| > 0 ==> spelled[fail[s]] == Border(pats, spelled[s]))
  }

  /** During phase 2: the states seen so far are final, the others still have their own patterns only. */
  ghost predicate LinkedSoFar(pats: seq<string>, spelled: seq<string>, fail: seq<int>, output: seq<seq<nat>>, seen: set<int>) {
    && |spelled| == |fail| == |output|
    && (forall s | s in seen :: Linked(pats, spelled, fail, output, s))
    && (forall t | 0 <= t < |spelled| && t !in seen :: output[t] == Own(pats, spelled[t], |pats|))
  }

  lemma AllLinked(pats: seq<string>, goto: seq<map<char, int>>, spelled: seq<string>, parent: seq<int>,
                  done: set<int>, seen: set<int>, r: int, fail: seq<int>, output: seq<seq<nat>>)
    requires Frontier(goto, spelled, parent, done, seen, [], r, {}) && LinkedSoFar(pats, spelled, fail, output, seen)
    ensures forall t | 0 <= t < |goto| :: Linked(pats, spelled, fail, output, t)
  {
    forall t: nat | t < |goto| ensures Linked(pats, spelled, fail, output, t) {
      FrontierEnd(goto, spelled, parent, done, seen, r, t);
    }
  }

  /** Giving one more state its link to a seen state that spells its border completes that state. */
  lemma LinkOne(pats: seq<string>, spelled: seq<string>, fail: seq<int>, output: seq<seq<nat>>, seen: set<int>, s: int, link: int,
                fail': seq<int>, output': seq<seq<nat>>)
    requires LinkedSoFar(pats, spelled, fail, output, seen) && link in seen
    requires 0 <= s < |spelled| && s !in seen && |spelled[s]| > 0 && spelled[link] == Border(pats, spelled[s])
    requires fail' == fail[s := link]
    requires output' == if |spelled[s]| > 1 then output[s := output[s] + output[link]] else output
    ensures LinkedSoFar(pats, spelled, fail', output', seen + {s})
  {
    assert Linked(pats, spelled, fail, output, link);
    forall x | x in seen ensures x != s && Linked(pats, spelled, fail', output', x) {
      assert Linked(pats, spelled, fail, output, x);
    }
  }

  /** Recording the next pattern at the state that spells it extends every state's list as specified. */
  lemma OwnNext(pats: seq<string>, spelled: seq<string>, pi: nat)
    requires pi < |pats|
    ensures forall t | 0 <= t < |spelled| ::
              Own(pats, spelled[t], pi + 1) == Own(pats, spelled[t], pi) + if pats[pi] == spelled[t] then [pi] else []
  {
  }

  ghost function StateSet(n: nat): (r: set<int>)
    ensures forall x :: x in r <==> 0 <= x < n
  {
    if n == 0 then {} else StateSet(n - 1) + {n - 1}
  }

  class AhoCorasick {
    const patterns: seq<string>
    var goto: seq<map<char, int>>
    var output: seq<seq<nat>>
    var fail: seq<int>
    ghost var spelled: seq<string>
    ghost var parent: seq<int>

    ghost predicate IsTrie()
      reads this
    {
      TrieOK(goto, spelled, parent) && |output| == |fail| == |goto|
    }

    /** The automaton invariant: states spell the prefixes of the patterns, each failure link leads to the longest
        proper suffix that is a state, each output list holds the patterns that end there. */
    ghost predicate Valid()
      reads this
    {
      && IsTrie() && Covers(patterns, spelled)
      && forall s | 0 <= s < |goto| :: Linked(patterns, spelled, fail, output, s)
    }

    constructor (patterns: seq<string>)
      ensures Valid() && this.patterns == patterns
    {
      this.patterns := patterns;
      goto, output, fail := [map[]], [[]], [0];
      spelled, parent := [[]], [0];
      new;
      BuildTrie();
      ghost var steps := BuildFailureLinks();
    }

    /** After n patterns: every state spells a prefix of a pattern, and its output lists those of the n that it spells. */
    ghost predicate Grown(n: nat)
      requires n <= |patterns|
      reads this
    {
      && IsTrie() && fail[0] == 0
      && (forall t | 0 <= t < |goto| :: InTrie(patterns, spelled[t]))
      && (forall j | 0 <= j < n :: patterns[j] in spelled)
      && (forall t | 0 <= t < |goto| :: output[t] == Own(patterns, spelled[t], n))
    }

    /** Phase 1: grow the trie, one pattern after the other. */
    method BuildTrie()
      requires IsTrie() && |goto| == 1 && goto[0] == map[] && output[0] == [] && fail[0] == 0
      modifies this
      ensures Grown(|patterns|)
    {
      for pi := 0 to |patterns|
        invariant Grown(pi)
      {
        var state := SpellPattern(pi);
        RecordPattern(state, pi);
      }
    }

    /** The state at the end of the pattern's path, with the missing part of the path added. */
    method SpellPattern(pi: nat) returns (state: int)
      requires pi < |patterns| && Grown(pi)
      modifies this
      ensures Grown(pi) && 0 <= state < |goto| && spelled[state] == patterns[pi]
    {
      var pat := patterns[pi];
      state := 0;
      for k := 0 to |pat|
        invariant Grown(pi) && 0 <= state < |goto| && spelled[state] == pat[..k]
      {
        TakeNext(pat, k);
        state := Descend(state, pat[k], pi);
      }
      assert pat[..|pat|] == pat;
    }

    method RecordPattern(state: int, pi: nat)
      requires pi < |patterns| && Grown(pi) && 0 <= state < |goto| && spelled[state] == patterns[pi]
      modifies this`output
      ensures Grown(pi + 1)
    {
      OwnNext(patterns, spelled, pi);
      output := output[state := output[state] + [pi]];
    }

    /** Follow the edge for ch, creating it first if there is none. */
    method Descend(from: int, ch: char, ghost pi: nat) returns (state: int)
      requires pi < |patterns| && Grown(pi) && 0 <= from < |goto|
      requires spelled[from] + [ch] <= patterns[pi]
      modifies this
      ensures Grown(pi) && 0 <= state < |goto| && spelled[state] == old(spelled[from]) + [ch]
    {
      if ch !in goto[from] {
        GrowTrie(goto, spelled, parent, from, ch);
        OwnNone(patterns, spelled[from] + [ch], pi);
        var newState := |goto|;
        spelled, parent := spelled + [spelled[from] + [ch]], parent + [from];
        goto := goto[from := goto[from][ch := newState]] + [map[]];
        output := output + [[]];
        fail := fail + [0];
      }
      state := goto[from][ch];
    }

    ghost predicate Linking(seen: set<int>)
      reads this
    {
      IsTrie() && Covers(patterns, spelled) && LinkedSoFar(patterns, spelled, fail, output, seen)
    }

    /** Phase 2: breadth-first search from the root. A dictionary is traversed in no particular order. `steps` counts the
        failure links followed on the way: no more than the patterns have characters. */
    method BuildFailureLinks() returns (ghost steps: nat)
      requires Grown(|patterns|)
      modifies this`fail, this`output
      ensures Valid() && steps <= TotalLength(patterns, |patterns|)
    {
      ghost var done, seen := {0}, {0};
      var q: seq<int>;
      q, seen := LinkRootChildren();
      ghost var spent := Nothing(|spelled|);
      steps := 0;
      PaidAtStart(patterns, spelled, seen);
      ghost var last := 0;
      while |q| > 0
        invariant Linking(seen) && Frontier(goto, spelled, parent, done, seen, q, last, {})
        invariant Paid(patterns, spelled, seen, spent, steps)
        decreases StateSet(|goto|) - done
      {
        FrontierPop(goto, spelled, parent, done, seen, q, last);
        assert q[0] in seen && q[0] !in done;
        var r := q[0];
        last, done, q := r, done + {r}, q[1..];
        q, seen, spent, steps := ExpandState(r, q, done, seen, spent, steps);
      }
      BillIsSmall(patterns, spelled, seen, spent, steps);
      AllLinked(patterns, goto, spelled, parent, done, seen, last, fail, output);
    }

    method ExpandState(r: int, q0: seq<int>, ghost done: set<int>, ghost seen0: set<int>, ghost spent0: seq<nat>, ghost steps0: nat)
      returns (q: seq<int>, ghost seen: set<int>, ghost spent: seq<nat>, ghost steps: nat)
      requires Linking(seen0) && 0 < r < |goto| && Frontier(goto, spelled, parent, done, seen0, q0, r, goto[r].Keys)
      requires Paid(patterns, spelled, seen0, spent0, steps0)
      modifies this`fail, this`output
      ensures Linking(seen) && Frontier(goto, spelled, parent, done, seen, q, r, {})
      ensures Paid(patterns, spelled, seen, spent, steps)
    {
      q, seen, spent, steps := q0, seen0, spent0, steps0;
      var todo := goto[r].Keys;
      while todo != {}
        invariant Linking(seen) && Frontier(goto, spelled, parent, done, seen, q, r, todo)
        invariant Paid(patterns, spelled, seen, spent, steps)
      {
        var ch :| ch in todo;
        var s := goto[r][ch];
        spent, steps := VisitChild(r, ch, done, seen, q, todo, spent, steps);
        q, todo, seen := q + [s], todo - {ch}, seen + {s};
      }
    }

    /** The first level: its states link to the root and start the queue. */
    method LinkRootChildren() returns (q: seq<int>, ghost seen: set<int>)
      requires Grown(|patterns|)
      modifies this`fail
      ensures Linking(seen) && Frontier(goto, spelled, parent, {0}, seen, q, 0, {})
    {
      seen, q := {0}, [];
      FrontierStart(goto, spelled, parent);
      var todo := goto[0].Keys;
      while todo != {}
        invariant Linking(seen) && Frontier(goto, spelled, parent, {0}, seen, q, 0, todo)
      {
        var ch :| ch in todo;
        var s := goto[0][ch];
        FrontierVisit(goto, spelled, parent, {0}, seen, q, 0, todo, ch);
        LinkToRoot(ch, seen);
        q, todo, seen := q + [s], todo - {ch}, seen + {s};
      }
    }

    method LinkToRoot(ch: char, ghost seen: set<int>)
      requires Linking(seen) && 0 in seen && ch in goto[0] && goto[0][ch] !in seen
      modifies this`fail
      ensures Linking(seen + {goto[0][ch]})
    {
      var s := goto[0][ch];
      assert spelled[s] == spelled[0] + [ch];
      ghost var before := fail;
      fail := fail[s := 0];
      LinkOne(patterns, spelled, before, output, seen, s, 0, fail, output);
    }

    /** One child: it is linked, and the links followed are added to the bill. */
    method VisitChild(r: int, ch: char, ghost done: set<int>, ghost seen: set<int>, q: seq<int>, ghost todo: set<char>,
                      ghost spent0: seq<nat>, ghost steps0: nat)
      returns (ghost spent: seq<nat>, ghost steps: nat)
      requires Linking(seen) && 0 < r < |goto| && Frontier(goto, spelled, parent, done, seen, q, r, todo) && ch in todo
      requires Paid(patterns, spelled, seen, spent0, steps0)
      modifies this`fail, this`output
      ensures Linking(seen + {goto[r][ch]}) && Paid(patterns, spelled, seen + {goto[r][ch]}, spent, steps)
      ensures Frontier(goto, spelled, parent, done, seen + {goto[r][ch]}, q + [goto[r][ch]], r, todo - {ch})
    {
      LevelsSeen(goto, spelled, parent, done, seen, q, r, todo);
      FrontierVisit(goto, spelled, parent, done, seen, q, r, todo, ch);
      spent, steps := LinkAndPay(r, ch, seen, spent0, steps0);
    }

    method LinkAndPay(r: int, ch: char, ghost seen: set<int>, ghost spent0: seq<nat>, ghost steps0: nat)
      returns (ghost spent: seq<nat>, ghost steps: nat)
      requires Linking(seen) && 0 < r < |goto| && ch in goto[r] && goto[r][ch] !in seen
      requires forall t | 0 <= t < |goto| && |spelled[t]| <= |spelled[r]| :: t in seen
      requires Paid(patterns, spelled, seen, spent0, steps0)
      modifies this`fail, this`output
      ensures Linking(seen + {goto[r][ch]}) && Paid(patterns, spelled, seen + {goto[r][ch]}, spent, steps)
    {
      ghost var c := LinkChild(r, ch, seen);
      PayOne(patterns, spelled, seen, spent0, steps0, goto[r][ch], c);
      spent, steps := spent0[goto[r][ch] := c], steps0 + c;
    }

    method LinkChild(r: int, ch: char, ghost seen: set<int>) returns (ghost steps: nat)
      requires Linking(seen) && 0 < r < |goto| && ch in goto[r] && goto[r][ch] !in seen
      requires forall t | 0 <= t < |goto| && |spelled[t]| <= |spelled[r]| :: t in seen
      modifies this`fail, this`output
      ensures Linking(seen + {goto[r][ch]}) && steps <= Room(patterns, spelled[goto[r][ch]])
    {
      ChildSpelled(goto, spelled, parent, r, ch);
      var link;
      link, steps := FindLink(r, ch, seen);
      SetLink(goto[r][ch], link, seen);
    }

    /** Links a state and merges the output list of its link into its own. */
    method SetLink(s: int, link: int, ghost seen: set<int>)
      requires Linking(seen) && link in seen && 0 <= s < |goto| && s !in seen
      requires |spelled[s]| > 1 && spelled[link] == Border(patterns, spelled[s])
      modifies this`fail, this`output
      ensures Linking(seen + {s})
    {
      ghost var fail0, output0 := fail, output;
      fail, output := fail[s := link], output[s := output[s] + output[link]];
      LinkOne(patterns, spelled, fail0, output0, seen, s, link, fail, output);
    }

    /** The failure link for the child of r along ch: follow r's own links until ch can be read. The result is strictly
        shallower than the child, so its output list is already final and the self-link guard of the source never fires.
        `steps` counts the links followed: each makes the state shallower, so there is room for them. */
    method FindLink(r: int, ch: char, ghost seen: set<int>) returns (link: int, ghost steps: nat)
      requires Linking(seen) && 0 < r < |goto|
      requires forall t | 0 <= t < |goto| && |spelled[t]| <= |spelled[r]| :: t in seen
      ensures 0 <= link < |goto| && |spelled[link]| <= |spelled[r]| && link in seen
      ensures spelled[link] == Border(patterns, spelled[r] + [ch])
      ensures steps <= Room(patterns, spelled[r] + [ch])
    {
      ghost var w := spelled[r];
      steps := 0;
      assert IsEdge(goto, spelled, parent, r);
      LongestExtends(patterns, w, 1, ch);
      assert Linked(patterns, spelled, fail, output, r);
      var state := fail[r];
      while state != 0 && ch !in goto[state]
        invariant 0 <= state < |goto| && |spelled[state]| < |w|
        invariant Longest(patterns, spelled[state] + [ch], 0) == Border(patterns, w + [ch])
        invariant steps + |spelled[state]| <= |Border(patterns, w)|
        decreases |spelled[state]|
      {
        assert IsEdge(goto, spelled, parent, state);
        StepFails(patterns, goto, spelled, parent, state, ch);
        assert Linked(patterns, spelled, fail, output, state);
        state, steps := fail[state], steps + 1;
      }
      StepLands(patterns, goto, spelled, parent, state, ch);
      link := if ch in goto[state] then goto[state][ch] else 0;
      RoomFor(patterns, w, ch, spelled[link], spelled[state], steps);
    }

    /** One character: follow failure links until the character can be read, then read it. `steps` counts
        the links followed; each one pays for itself by making the state shallower. */
    method Advance(from: int, ch: char, ghost read: string) returns (state: int, ghost steps: nat)
      requires Valid() && 0 <= from < |goto| && spelled[from] == Longest(patterns, read, 0)
      ensures 0 <= state < |goto| && spelled[state] == Longest(patterns, read + [ch], 0)
      ensures steps + |spelled[state]| <= |spelled[from]| + 1
    {
      state, steps := from, 0;
      LongestExtends(patterns, read, 0, ch);
      while state != 0 && ch !in goto[state]
        invariant 0 <= state < |goto|
        invariant Longest(patterns, spelled[state] + [ch], 0) == Longest(patterns, read + [ch], 0)
        invariant steps + |spelled[state]| <= |spelled[from]|
        decreases |spelled[state]|
      {
        assert IsEdge(goto, spelled, parent, state);
        StepFails(patterns, goto, spelled, parent, state, ch);
        assert Linked(patterns, spelled, fail, output, state);
        state := fail[state];
        steps := steps + 1;
      }
      StepLands(patterns, goto, spelled, parent, state, ch);
      state := if ch in goto[state] then goto[state][ch] else 0;
    }

    /** The matches reported on reaching a state. */
    method Report(state: int, end: nat) returns (found: seq<Match>)
      requires Valid() && 0 <= state < |goto|
      ensures found == Named(patterns, HitsAt(patterns, spelled[state], end))
    {
      assert Linked(patterns, spelled, fail, output, state);
      found := [];
      ghost var hits := HitsAt(patterns, spelled[state], end);
      for k := 0 to |output[state]|
        invariant found == Named(patterns, hits[..k])
      {
        NamedNext(patterns, hits, k);
        var pi := output[state][k];
        var pat := patterns[pi];
        var start := end - 1 - |pat| + 1;
        assert NameOf(patterns, hits[k]) == Match(pat, start, end);
        found := found + [Match(pat, start, end)];
        assert found == Named(patterns, hits[..k]) + [NameOf(patterns, hits[k])];
      }
      assert hits[..|hits|] == hits;
    }

    /** All occurrences in the order of the scan; `steps` counts the failure links followed. */
    method Search(text: string) returns (results: seq<Match>, ghost steps: nat)
      requires Valid()
      ensures results == Named(patterns, Hits(patterns, text))
      ensures steps <= |text|
    {
      results, steps := [], 0;
      var state := 0;
      ghost var rows := Rows(patterns, text);
      ghost var hits: seq<Hit> := [];
      for i := 0 to |text|
        invariant 0 <= state < |goto| && spelled[state] == Longest(patterns, text[..i], 0)
        invariant steps + |spelled[state]| <= i
        invariant hits == Flatten(rows[..i]) && results == Named(patterns, hits)
      {
        ghost var s;
        TakeNext(text, i);
        state, s := Advance(state, text[i], text[..i]);
        steps := steps + s;
        var found := Report(state, i + 1);
        assert found == Named(patterns, rows[i]);
        FlattenNext(rows, i);
        NamedConcat(patterns, hits, rows[i]);
        results, hits := results + found, hits + rows[i];
      }
      assert rows[..|text|] == rows;
    }
  }
}
