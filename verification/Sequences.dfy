/** Counting and flattening, shared by the models. */
module Sequences {

  /** How often x occurs in s. */
  ghost function Times<T>(s: seq<T>, x: T): nat {
    if |s| == 0 then 0 else Times(s[..|s| - 1], x) + if s[|s| - 1] == x then 1 else 0
  }

  lemma {:induction false} TimesConcat<T>(s: seq<T>, t: seq<T>, x: T)
    ensures Times(s + t, x) == Times(s, x) + Times(t, x)
  {
    if |t| == 0 {
      assert s + t == s;
    } else {
      TimesConcat(s, t[..|t| - 1], x);
      assert (s + t)[..|s + t| - 1] == s + t[..|t| - 1];
    }
  }

  lemma {:induction false} TimesIn<T>(s: seq<T>, x: T)
    ensures Times(s, x) > 0 <==> x in s
  {
    if |s| > 0 {
      TimesIn(s[..|s| - 1], x);
      assert s == s[..|s| - 1] + [s[|s| - 1]];
    }
  }

  /** An element occurs twice exactly if it is at two places. */
  lemma {:induction false} TimesTwice<T>(s: seq<T>, x: T)
    ensures Times(s, x) >= 2 <==> OccursTwice(s, x)
  {
    if |s| > 0 {
      var front, n := s[..|s| - 1], |s| - 1;
      TimesTwice(front, x);
      TimesIn(front, x);
      if s[n] == x && x in front {
        var i :| 0 <= i < n && front[i] == x;
        assert s[i] == x && s[n] == x;
      }
      if i, j :| 0 <= i < j < n && front[i] == x && front[j] == x {
        assert s[i] == x && s[j] == x;
      }
      if i, j :| 0 <= i < j < |s| && s[i] == x && s[j] == x {
        assert front[i] == x;
        if j < n {
          assert front[j] == x;
        }
      }
    }
  }

  /** s has the elements of the set, each once. */
  ghost predicate Lists<T(!new)>(s: seq<T>, all: set<T>) {
    (forall x :: x in all <==> x in s) && forall i, j | 0 <= i < j < |s| :: s[i] != s[j]
  }

  lemma ListsNext<T(!new)>(s: seq<T>, all: set<T>, todo: set<T>, x: T)
    requires todo <= all && Lists(s, all - todo) && x in todo
    ensures Lists(s + [x], all - (todo - {x}))
  {
  }

  lemma ListsTimes<T(!new)>(s: seq<T>, all: set<T>)
    ensures Lists(s, all) <==> forall x :: Times(s, x) == if x in all then 1 else 0
  {
    forall x ensures (Times(s, x) > 0 <==> x in s) && (Times(s, x) >= 2 <==> OccursTwice(s, x)) {
      TimesIn(s, x);
      TimesTwice(s, x);
    }
    if forall x :: Times(s, x) == if x in all then 1 else 0 {
      forall x ensures x in all <==> x in s {
        assert Times(s, x) == if x in all then 1 else 0;
      }
      forall i, j | 0 <= i < j < |s| ensures s[i] != s[j] {
        assert Times(s, s[i]) == if s[i] in all then 1 else 0;
        assert s[i] == s[j] ==> OccursTwice(s, s[i]);
      }
    }
  }

  ghost predicate OccursTwice<T>(s: seq<T>, x: T) {
    exists i, j | 0 <= i < j < |s| :: s[i] == x && s[j] == x
  }

  ghost function Flatten<T>(rows: seq<seq<T>>): seq<T> {
    if |rows| == 0 then [] else Flatten(rows[..|rows| - 1]) + rows[|rows| - 1]
  }

  lemma TakeNext<T>(s: seq<T>, i: nat)
    requires i < |s|
    ensures s[..i + 1] == s[..i] + [s[i]] && s[..i + 1][..i] == s[..i]
  {
  }

  lemma SplitLast<T>(p: seq<T>, q: seq<T>)
    requires |q| > 0
    ensures q == q[..|q| - 1] + [q[|q| - 1]] && p + q == p + q[..|q| - 1] + [q[|q| - 1]]
  {
  }

  lemma CutAt<T>(q: seq<T>, i: nat)
    requires i < |q|
    ensures q == q[..i] + [q[i]] + q[i + 1..]
  {
  }

  lemma FlattenNext<T>(rows: seq<seq<T>>, i: nat)
    requires i < |rows|
    ensures Flatten(rows[..i + 1]) == Flatten(rows[..i]) + rows[i]
  {
    TakeNext(rows, i);
  }

  lemma {:induction false} FlattenConcat<T>(a: seq<seq<T>>, b: seq<seq<T>>)
    ensures Flatten(a + b) == Flatten(a) + Flatten(b)
  {
    if |b| == 0 {
      assert a + b == a;
    } else {
      FlattenConcat(a, b[..|b| - 1]);
      assert (a + b)[..|a + b| - 1] == a + b[..|b| - 1];
    }
  }
}
