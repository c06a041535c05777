/** What building the failure links of docmirror/layout/vocabulary.py costs: the links followed for a state are paid for by
    the depth its failure state does not gain, and along a pattern these gains are at most one per character. */
module LinkCost {
  import opened Sequences
  import opened AhoCorasickSpec

  /** How many links may be followed to find the link of the state spelled v from that of its parent. */
  ghost function Room(pats: seq<string>, v: string): (n: nat)
    ensures |v| <= 1 ==> n == 0
  {
    if |v| <= 1 then 0
    else
      BorderGrows(pats, v);
      |Border(pats, v[..|v| - 1])| + 1 - |Border(pats, v)|
  }

  /** The border of a state is at most one character longer than its parent's. */
  lemma BorderGrows(pats: seq<string>, v: string)
    requires |v| > 1
    ensures |Border(pats, v)| <= |Border(pats, v[..|v| - 1])| + 1
  {
    var w := v[..|v| - 1];
    assert v == w + [v[|v| - 1]];
    LongestExtends(pats, w, 1, v[|v| - 1]);
  }

  lemma RoomFor(pats: seq<string>, w: string, c: char, link: string, last: string, steps: nat)
    requires w != "" && link == Border(pats, w + [c]) && |link| <= |last| + 1 && steps + |last| <= |Border(pats, w)|
    ensures steps <= Room(pats, w + [c])
  {
    assert (w + [c])[..|w|] == w;
  }

  ghost function Total(xs: seq<nat>): nat {
    if |xs| == 0 then 0 else Total(xs[..|xs| - 1]) + xs[|xs| - 1]
  }

  lemma {:induction false} TotalAtMost(xs: seq<nat>, ys: seq<nat>)
    requires |xs| == |ys| && forall i | 0 <= i < |xs| :: xs[i] <= ys[i]
    ensures Total(xs) <= Total(ys)
  {
    if |xs| > 0 {
      TotalAtMost(xs[..|xs| - 1], ys[..|ys| - 1]);
    }
  }

  lemma {:induction false} TotalSum(xs: seq<nat>, ys: seq<nat>, zs: seq<nat>)
    requires |xs| == |ys| == |zs| && forall i | 0 <= i < |xs| :: zs[i] == xs[i] + ys[i]
    ensures Total(zs) == Total(xs) + Total(ys)
  {
    if |xs| > 0 {
      var n := |xs| - 1;
      TotalSum(xs[..n], ys[..n], zs[..n]);
    }
  }

  /** A list with at most one entry that is not zero. */
  lemma {:induction false} TotalOne(xs: seq<nat>, c: nat)
    requires forall i | 0 <= i < |xs| :: xs[i] <= c
    requires forall i, j | 0 <= i < j < |xs| :: xs[i] == 0 || xs[j] == 0
    ensures Total(xs) <= c
  {
    if |xs| > 0 {
      var n := |xs| - 1;
      if xs[n] == 0 {
        TotalOne(xs[..n], c);
      } else {
        TotalZero(xs[..n]);
      }
    }
  }

  lemma {:induction false} TotalZero(xs: seq<nat>)
    requires forall i | 0 <= i < |xs| :: xs[i] == 0
    ensures Total(xs) == 0
  {
    if |xs| > 0 {
      TotalZero(xs[..|xs| - 1]);
    }
  }

  lemma {:induction false} TotalUpdate(xs: seq<nat>, s: nat, c: nat)
    requires s < |xs| && xs[s] == 0
    ensures Total(xs[s := c]) == Total(xs) + c
  {
    var n := |xs| - 1;
    if s < n {
      TotalUpdate(xs[..n], s, c);
      assert xs[s := c][..n] == xs[..n][s := c];
    } else {
      assert xs[s := c][..n] == xs[..n];
    }
  }

  // ----- The bill of the construction -----

  /** What has been spent on each state so far: nothing on states not seen, no more than its room on any. */
  ghost predicate Paid(pats: seq<string>, spelled: seq<string>, seen: set<int>, spent: seq<nat>, steps: nat) {
    && |spent| == |spelled| && steps == Total(spent)
    && forall s | 0 <= s < |spelled| :: spent[s] <= Room(pats, spelled[s]) && (s !in seen ==> spent[s] == 0)
  }

  ghost function Nothing(n: nat): (r: seq<nat>)
    ensures |r| == n && forall i | 0 <= i < n :: r[i] == 0
  {
    seq(n, i => 0)
  }

  lemma PaidAtStart(pats: seq<string>, spelled: seq<string>, seen: set<int>)
    ensures Paid(pats, spelled, seen, Nothing(|spelled|), 0)
  {
    TotalZero(Nothing(|spelled|));
  }

  lemma PayOne(pats: seq<string>, spelled: seq<string>, seen: set<int>, spent: seq<nat>, steps: nat, s: nat, c: nat)
    requires Paid(pats, spelled, seen, spent, steps) && s < |spelled| && s !in seen && c <= Room(pats, spelled[s])
    ensures Paid(pats, spelled, seen + {s}, spent[s := c], steps + c)
  {
    TotalUpdate(spent, s, c);
  }

  ghost function TotalLength(pats: seq<string>, n: nat): nat
    requires n <= |pats|
  {
    if n == 0 then 0 else TotalLength(pats, n - 1) + |pats[n - 1]|
  }

  /** v is a prefix of one of the first n patterns. */
  ghost predicate OnSome(pats: seq<string>, n: nat, v: string)
    requires n <= |pats|
  {
    exists pi | 0 <= pi < n :: v <= pats[pi]
  }

  /** The room of the states on the paths of the first n patterns. */
  ghost function Rooms(pats: seq<string>, spelled: seq<string>, n: nat): (r: seq<nat>)
    requires n <= |pats|
    ensures |r| == |spelled|
    ensures forall s | 0 <= s < |r| :: r[s] == if OnSome(pats, n, spelled[s]) then Room(pats, spelled[s]) else 0
  {
    seq(|spelled|, s requires 0 <= s < |spelled| => if OnSome(pats, n, spelled[s]) then Room(pats, spelled[s]) else 0)
  }

  /** The room of the states on the path of one string. */
  ghost function OnPath(pats: seq<string>, spelled: seq<string>, p: string): (r: seq<nat>)
    ensures |r| == |spelled|
    ensures forall s | 0 <= s < |r| :: r[s] == if spelled[s] <= p then Room(pats, spelled[s]) else 0
  {
    seq(|spelled|, s requires 0 <= s < |spelled| => if spelled[s] <= p then Room(pats, spelled[s]) else 0)
  }

  /** The room of the states spelled p. */
  ghost function AtEnd(pats: seq<string>, spelled: seq<string>, p: string): (r: seq<nat>)
    ensures |r| == |spelled|
    ensures forall s | 0 <= s < |r| :: r[s] == if spelled[s] == p then Room(pats, spelled[s]) else 0
  {
    seq(|spelled|, s requires 0 <= s < |spelled| => if spelled[s] == p then Room(pats, spelled[s]) else 0)
  }

  ghost function BorderLength(pats: seq<string>, p: string): nat {
    if p == "" then 0 else |Border(pats, p)|
  }

  /** Along a path the room and the length of the border together grow by at most one per character. */
  lemma {:induction false} PathRoom(pats: seq<string>, spelled: seq<string>, p: string)
    requires forall s, t | 0 <= s < t < |spelled| :: spelled[s] != spelled[t]
    ensures Total(OnPath(pats, spelled, p)) + BorderLength(pats, p) <= |p|
    decreases |p|
  {
    if |p| == 0 {
      TotalZero(OnPath(pats, spelled, p));
    } else {
      var front := p[..|p| - 1];
      PathRoom(pats, spelled, front);
      forall s | 0 <= s < |spelled| ensures spelled[s] <= p <==> spelled[s] <= front || spelled[s] == p {
        PrefixOfFront(spelled[s], p);
      }
      TotalSum(OnPath(pats, spelled, front), AtEnd(pats, spelled, p), OnPath(pats, spelled, p));
      TotalOne(AtEnd(pats, spelled, p), Room(pats, p));
    }
  }

  lemma PrefixOfFront(v: string, p: string)
    requires |p| > 0
    ensures v <= p <==> v <= p[..|p| - 1] || v == p
    ensures !(p <= p[..|p| - 1])
  {
    if v <= p && v != p {
      assert v == p[..|v|] == p[..|p| - 1][..|v|];
    }
  }

  ghost predicate Distinct(spelled: seq<string>) {
    forall s, t | 0 <= s < t < |spelled| :: spelled[s] != spelled[t]
  }

  lemma {:induction false} AllRoom(pats: seq<string>, spelled: seq<string>, n: nat)
    requires n <= |pats| && Distinct(spelled)
    ensures Total(Rooms(pats, spelled, n)) <= TotalLength(pats, n)
  {
    if n == 0 {
      NoRoomYet(pats, spelled);
    } else {
      AllRoom(pats, spelled, n - 1);
      OneMorePath(pats, spelled, n - 1);
    }
  }

  lemma OneMorePath(pats: seq<string>, spelled: seq<string>, n: nat)
    requires n < |pats| && Distinct(spelled)
    ensures Total(Rooms(pats, spelled, n + 1)) <= Total(Rooms(pats, spelled, n)) + |pats[n]|
  {
    PathRoom(pats, spelled, pats[n]);
    RoomsNext(pats, spelled, n);
    TotalAtMostSum(Rooms(pats, spelled, n), OnPath(pats, spelled, pats[n]), Rooms(pats, spelled, n + 1));
  }

  lemma NoRoomYet(pats: seq<string>, spelled: seq<string>)
    ensures Total(Rooms(pats, spelled, 0)) == 0
  {
    TotalZero(Rooms(pats, spelled, 0));
  }

  lemma RoomsNext(pats: seq<string>, spelled: seq<string>, n: nat)
    requires n < |pats|
    ensures forall s | 0 <= s < |spelled| ::
              Rooms(pats, spelled, n + 1)[s] <= Rooms(pats, spelled, n)[s] + OnPath(pats, spelled, pats[n])[s]
  {
    forall s | 0 <= s < |spelled| ensures OnSome(pats, n + 1, spelled[s]) ==> OnSome(pats, n, spelled[s]) || spelled[s] <= pats[n] {
    }
  }

  lemma {:induction false} TotalAtMostSum(xs: seq<nat>, ys: seq<nat>, zs: seq<nat>)
    requires |xs| == |ys| == |zs| && forall i | 0 <= i < |xs| :: zs[i] <= xs[i] + ys[i]
    ensures Total(zs) <= Total(xs) + Total(ys)
  {
    if |xs| > 0 {
      var n := |xs| - 1;
      TotalAtMostSum(xs[..n], ys[..n], zs[..n]);
    }
  }

  /** The links followed for all states are at most as many as the patterns have characters. */
  lemma BillIsSmall(pats: seq<string>, spelled: seq<string>, seen: set<int>, spent: seq<nat>, steps: nat)
    requires Paid(pats, spelled, seen, spent, steps)
    requires forall s, t | 0 <= s < t < |spelled| :: spelled[s] != spelled[t]
    requires forall s | 0 <= s < |spelled| :: InTrie(pats, spelled[s])
    ensures steps <= TotalLength(pats, |pats|)
  {
    var rooms := Rooms(pats, spelled, |pats|);
    forall s | 0 <= s < |spelled| ensures spent[s] <= rooms[s] {
      assert spelled[s] == "" || OnSome(pats, |pats|, spelled[s]);
    }
    TotalAtMost(spent, rooms);
    AllRoom(pats, spelled, |pats|);
  }
}
