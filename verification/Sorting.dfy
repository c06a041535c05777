/** Stable sorting, standing for the built-in sort. */
module Sorting {
  import opened Sequences

  ghost predicate SortedBy<T(!new)>(le: (T, T) -> bool, s: seq<T>) {
    forall i, j | 0 <= i < j < |s| :: le(s[i], s[j])
  }

  ghost predicate TotalPreorder<T(!new)>(le: (T, T) -> bool) {
    && (forall a, b :: le(a, b) || le(b, a))
    && (forall a, b, c :: le(a, b) && le(b, c) ==> le(a, c))
  }

  /** Elements of s that the order cannot tell apart are equal. */
  ghost predicate DecidesOn<T(!new)>(le: (T, T) -> bool, s: seq<T>) {
    forall a, b | a in s && b in s && le(a, b) && le(b, a) :: a == b
  }

  function Insert<T(!new)>(le: (T, T) -> bool, m: T, s: seq<T>): (r: seq<T>)
    ensures forall x :: Times(r, x) == Times(s, x) + if x == m then 1 else 0
  {
    if |s| == 0 || le(s[|s| - 1], m) then s + [m] else Insert(le, m, s[..|s| - 1]) + [s[|s| - 1]]
  }

  function Sort<T(!new)>(le: (T, T) -> bool, s: seq<T>): (r: seq<T>)
    ensures forall x :: Times(r, x) == Times(s, x)
  {
    if |s| == 0 then [] else Insert(le, s[|s| - 1], Sort(le, s[..|s| - 1]))
  }

  lemma {:induction false} InsertSorts<T(!new)>(le: (T, T) -> bool, m: T, s: seq<T>)
    requires TotalPreorder(le) && SortedBy(le, s)
    ensures SortedBy(le, Insert(le, m, s))
  {
    if |s| > 0 && !le(s[|s| - 1], m) {
      var front, last := s[..|s| - 1], s[|s| - 1];
      InsertSorts(le, m, front);
      var r := Insert(le, m, front);
      forall i | 0 <= i < |r| ensures le(r[i], last) {
        TimesIn(r, r[i]);
        TimesIn(front, r[i]);
      }
    } else if |s| > 0 {
      assert forall i | 0 <= i < |s| - 1 :: le(s[i], s[|s| - 1]);
    }
  }

  lemma {:induction false} SortSorts<T(!new)>(le: (T, T) -> bool, s: seq<T>)
    requires TotalPreorder(le)
    ensures SortedBy(le, Sort(le, s))
  {
    if |s| > 0 {
      SortSorts(le, s[..|s| - 1]);
      InsertSorts(le, s[|s| - 1], Sort(le, s[..|s| - 1]));
    }
  }

  /** Sorting a sorted list changes nothing. */
  lemma {:induction false} SortSorted<T(!new)>(le: (T, T) -> bool, s: seq<T>)
    requires SortedBy(le, s)
    ensures Sort(le, s) == s
  {
    if |s| > 0 {
      SortSorted(le, s[..|s| - 1]);
    }
  }

  /** Sorted lists of the same elements are equal where the order decides. */
  lemma {:induction false} SortedUnique<T(!new)>(le: (T, T) -> bool, s: seq<T>, t: seq<T>)
    requires SortedBy(le, s) && SortedBy(le, t) && DecidesOn(le, s)
    requires forall x :: Times(s, x) == Times(t, x)
    ensures s == t
  {
    if |s| == 0 {
      if |t| > 0 {
        assert false;
      }
    } else {
      var a := s[|s| - 1];
      TimesIn(s, a);
      TimesIn(t, a);
      var b := t[|t| - 1];
      TimesIn(s, b);
      TimesIn(t, b);
      assert a == b;
      var s', t' := s[..|s| - 1], t[..|t| - 1];
      forall x ensures Times(s', x) == Times(t', x) {
        assert Times(s, x) == Times(s', x) + if a == x then 1 else 0;
        assert Times(t, x) == Times(t', x) + if a == x then 1 else 0;
      }
      SortedUnique(le, s', t');
      assert s == s' + [a] && t == t' + [b];
    }
  }

  /** A sort forgets the order of its input where the order decides. */
  lemma SortForgetsOrder<T(!new)>(le: (T, T) -> bool, s: seq<T>, t: seq<T>)
    requires TotalPreorder(le) && DecidesOn(le, s) && forall x :: Times(s, x) == Times(t, x)
    ensures Sort(le, s) == Sort(le, t)
  {
    SortSorts(le, s);
    SortSorts(le, t);
    var r := Sort(le, s);
    forall a, b | a in r && b in r && le(a, b) && le(b, a) ensures a == b {
      TimesIn(r, a);
      TimesIn(s, a);
      TimesIn(r, b);
      TimesIn(s, b);
    }
    SortedUnique(le, r, Sort(le, t));
  }

  // ----- What a stable sort remembers -----

  predicate Alike<T(!new)>(le: (T, T) -> bool, x: T, y: T) {
    le(x, y) && le(y, x)
  }

  /** The elements the order cannot tell from x, in their order. */
  function Class<T(!new)>(le: (T, T) -> bool, x: T, s: seq<T>): seq<T> {
    if |s| == 0 then []
    else Class(le, x, s[..|s| - 1]) + if Alike(le, x, s[|s| - 1]) then [s[|s| - 1]] else []
  }

  /** Elements that the order cannot tell apart come in the same order in both lists. */
  ghost predicate SameClasses<T(!new)>(le: (T, T) -> bool, s: seq<T>, t: seq<T>) {
    forall x :: Class(le, x, s) == Class(le, x, t)
  }

  lemma ClassOfLast<T(!new)>(le: (T, T) -> bool, s: seq<T>)
    requires TotalPreorder(le) && |s| > 0
    ensures Class(le, s[|s| - 1], s) != []
  {
    assert le(s[|s| - 1], s[|s| - 1]);
  }

  lemma ClassNext<T(!new)>(le: (T, T) -> bool, x: T, s: seq<T>, m: T)
    ensures Class(le, x, s + [m]) == Class(le, x, s) + if Alike(le, x, m) then [m] else []
  {
    assert (s + [m])[..|s|] == s;
  }

  lemma {:induction false} InsertIsStable<T(!new)>(le: (T, T) -> bool, x: T, m: T, s: seq<T>)
    requires TotalPreorder(le)
    ensures Class(le, x, Insert(le, m, s)) == Class(le, x, s) + if Alike(le, x, m) then [m] else []
  {
    if |s| == 0 || le(s[|s| - 1], m) {
      ClassNext(le, x, s, m);
    } else {
      var front, last := s[..|s| - 1], s[|s| - 1];
      InsertIsStable(le, x, m, front);
      ClassNext(le, x, Insert(le, m, front), last);
      assert !(Alike(le, x, m) && Alike(le, x, last));
    }
  }

  lemma {:induction false} SortIsStable<T(!new)>(le: (T, T) -> bool, x: T, s: seq<T>)
    requires TotalPreorder(le)
    ensures Class(le, x, Sort(le, s)) == Class(le, x, s)
  {
    if |s| > 0 {
      var front := s[..|s| - 1];
      SortIsStable(le, x, front);
      InsertIsStable(le, x, s[|s| - 1], Sort(le, front));
    }
  }

  lemma {:induction false} ClassHasOnly<T(!new)>(le: (T, T) -> bool, x: T, s: seq<T>, y: T)
    requires y in Class(le, x, s)
    ensures y in s && Alike(le, x, y)
  {
    if y in Class(le, x, s[..|s| - 1]) {
      ClassHasOnly(le, x, s[..|s| - 1], y);
    }
  }

  /** Sorted lists with the same classes end alike. */
  lemma SameLast<T(!new)>(le: (T, T) -> bool, s: seq<T>, t: seq<T>)
    requires TotalPreorder(le) && SortedBy(le, s) && SortedBy(le, t)
    requires |s| > 0 && |t| > 0 && SameClasses(le, s, t)
    ensures s[|s| - 1] == t[|t| - 1]
  {
    var a, b := s[|s| - 1], t[|t| - 1];
    assert le(a, a) && le(b, b);
    assert a in Class(le, a, s) && b in Class(le, b, t);
    ClassHasOnly(le, a, t, a);
    ClassHasOnly(le, b, s, b);
    assert le(a, b) && le(b, a);
    assert Class(le, a, s)[|Class(le, a, s)| - 1] == a && Class(le, a, t)[|Class(le, a, t)| - 1] == b;
  }

  lemma {:induction false} SortedWithSameClasses<T(!new)>(le: (T, T) -> bool, s: seq<T>, t: seq<T>)
    requires TotalPreorder(le) && SortedBy(le, s) && SortedBy(le, t)
    requires SameClasses(le, s, t)
    ensures s == t
  {
    if |s| > 0 && |t| > 0 {
      SameLast(le, s, t);
      var s', t', a := s[..|s| - 1], t[..|t| - 1], s[|s| - 1];
      forall x ensures Class(le, x, s') == Class(le, x, t') {
        assert Class(le, x, s) == Class(le, x, t);
        DropLast(Class(le, x, s'), Class(le, x, t'), if Alike(le, x, a) then [a] else []);
      }
      SortedWithSameClasses(le, s', t');
      assert s == s' + [a] && t == t' + [a];
    } else if |s| > 0 {
      ClassOfLast(le, s);
      assert false;
    } else if |t| > 0 {
      ClassOfLast(le, t);
      assert false;
    }
  }

  lemma DropLast<T>(s: seq<T>, t: seq<T>, end: seq<T>)
    requires s + end == t + end
    ensures s == t
  {
    assert |s| == |t|;
    assert s == (s + end)[..|s|] && t == (t + end)[..|t|];
  }

  /** Two lists sort to the same list exactly when alike elements come in the same order in both. */
  lemma SortEqualIff<T(!new)>(le: (T, T) -> bool, s: seq<T>, t: seq<T>)
    requires TotalPreorder(le)
    ensures Sort(le, s) == Sort(le, t) <==> SameClasses(le, s, t)
  {
    if Sort(le, s) == Sort(le, t) {
      forall x ensures Class(le, x, s) == Class(le, x, t) {
        SortIsStable(le, x, s);
        SortIsStable(le, x, t);
      }
    } else if SameClasses(le, s, t) {
      SortSorts(le, s);
      SortSorts(le, t);
      forall x ensures Class(le, x, Sort(le, s)) == Class(le, x, Sort(le, t)) {
        SortIsStable(le, x, s);
        SortIsStable(le, x, t);
        assert Class(le, x, s) == Class(le, x, t);
      }
      SortedWithSameClasses(le, Sort(le, s), Sort(le, t));
      assert false;
    }
  }

  // ----- Sorting a part -----

  lemma {:induction false} ClassIsSorted<T(!new)>(le: (T, T) -> bool, le': (T, T) -> bool, x: T, s: seq<T>)
    requires TotalPreorder(le') && SortedBy(le, s)
    ensures SortedBy(le, Class(le', x, s))
  {
    if |s| > 0 {
      var front, last := s[..|s| - 1], s[|s| - 1];
      ClassIsSorted(le, le', x, front);
      forall y | y in Class(le', x, front) ensures le(y, last) {
        ClassHasOnly(le', x, front, y);
      }
    }
  }

  lemma AllBelow<T(!new)>(le: (T, T) -> bool, m: T, s: seq<T>, y: T)
    requires TotalPreorder(le) && SortedBy(le, s) && y in s && le(s[|s| - 1], m)
    ensures le(y, m)
  {
    var last := s[|s| - 1];
    if y != last {
      var i :| 0 <= i < |s| && s[i] == y;
      assert le(s[i], last);
    }
  }

  lemma LastOfClass<T(!new)>(le: (T, T) -> bool, le': (T, T) -> bool, x: T, m: T, s: seq<T>)
    requires TotalPreorder(le) && TotalPreorder(le') && SortedBy(le, s) && (|s| > 0 ==> le(s[|s| - 1], m))
    ensures Insert(le, m, Class(le', x, s)) == Class(le', x, s) + [m]
  {
    var part := Class(le', x, s);
    if |part| > 0 {
      ClassHasOnly(le', x, s, part[|part| - 1]);
      AllBelow(le, m, s, part[|part| - 1]);
    }
  }

  lemma {:induction false} InsertIntoClass<T(!new)>(le: (T, T) -> bool, le': (T, T) -> bool, x: T, m: T, s: seq<T>)
    requires TotalPreorder(le) && TotalPreorder(le') && SortedBy(le, s)
    ensures Class(le', x, Insert(le, m, s)) == if Alike(le', x, m) then Insert(le, m, Class(le', x, s)) else Class(le', x, s)
  {
    if |s| == 0 || le(s[|s| - 1], m) {
      ClassNext(le', x, s, m);
      LastOfClass(le, le', x, m, s);
    } else {
      var front, last := s[..|s| - 1], s[|s| - 1];
      InsertIntoClass(le, le', x, m, front);
      ClassNext(le', x, Insert(le, m, front), last);
      InsertBefore(le, m, Class(le', x, front), last);
      var part, longer := Class(le', x, front), Class(le', x, Insert(le, m, front));
      assert part + [] == part && longer + [] == longer;
    }
  }

  lemma InsertBefore<T(!new)>(le: (T, T) -> bool, m: T, s: seq<T>, last: T)
    requires !le(last, m)
    ensures Insert(le, m, s + [last]) == Insert(le, m, s) + [last]
  {
    assert (s + [last])[..|s|] == s;
  }

  lemma SortNext<T(!new)>(le: (T, T) -> bool, s: seq<T>, last: T)
    ensures Sort(le, s + [last]) == Insert(le, last, Sort(le, s))
  {
    assert (s + [last])[..|s|] == s;
  }

  /** Picking the elements alike under one order and sorting by another commute. */
  lemma {:induction false} SortClass<T(!new)>(le: (T, T) -> bool, le': (T, T) -> bool, x: T, s: seq<T>)
    requires TotalPreorder(le) && TotalPreorder(le')
    ensures Class(le', x, Sort(le, s)) == Sort(le, Class(le', x, s))
  {
    if |s| > 0 {
      var front, last := s[..|s| - 1], s[|s| - 1];
      SortClass(le, le', x, front);
      SortSorts(le, front);
      InsertIntoClass(le, le', x, last, Sort(le, front));
      SortNext(le, Class(le', x, front), last);
      assert Class(le', x, front) + [] == Class(le', x, front);
    }
  }

  // ----- Strings -----

  /** Python's order of strings. */
  predicate StringLe(a: string, b: string) {
    if |a| == 0 then true
    else if |b| == 0 then false
    else if a[0] != b[0] then a[0] < b[0]
    else StringLe(a[1..], b[1..])
  }

  /** The strings agree before position i and there the first one has the smaller character. */
  ghost predicate SmallerAt(a: string, b: string, i: nat) {
    i < |a| && i < |b| && a[..i] == b[..i] && a[i] < b[i]
  }

  ghost predicate SmallerSomewhere(a: string, b: string) {
    exists i: nat :: SmallerAt(a, b, i)
  }

  lemma SmallerBelow(a: string, b: string)
    requires |a| > 0 && |b| > 0 && a[0] == b[0]
    ensures SmallerSomewhere(a, b) <==> SmallerSomewhere(a[1..], b[1..])
  {
    if SmallerSomewhere(a[1..], b[1..]) {
      var i: nat :| SmallerAt(a[1..], b[1..], i);
      assert a[..i + 1] == [a[0]] + a[1..][..i] && b[..i + 1] == [b[0]] + b[1..][..i];
      assert SmallerAt(a, b, i + 1);
    }
    if SmallerSomewhere(a, b) {
      var i: nat :| SmallerAt(a, b, i);
      assert a[1..][..i - 1] == a[..i][1..] && b[1..][..i - 1] == b[..i][1..];
      assert SmallerAt(a[1..], b[1..], i - 1);
    }
  }

  lemma AgreeAtFirst(a: string, b: string, i: nat)
    requires SmallerAt(a, b, i) && i > 0
    ensures a[0] == b[0]
  {
    assert a[0] == a[..i][0] && b[0] == b[..i][0];
  }

  lemma SmallerFirst(a: string, b: string)
    requires |a| > 0 && |b| > 0 && a[0] != b[0]
    ensures SmallerSomewhere(a, b) <==> a[0] < b[0]
  {
    if SmallerSomewhere(a, b) {
      var i: nat :| SmallerAt(a, b, i);
      if i > 0 {
        AgreeAtFirst(a, b, i);
      }
    }
    if a[0] < b[0] {
      assert SmallerAt(a, b, 0);
    }
  }

  lemma PrefixBelow(a: string, b: string)
    requires |a| > 0 && |b| > 0 && a[0] == b[0]
    ensures a <= b <==> a[1..] <= b[1..]
  {
    if |a| <= |b| {
      assert b[1..][..|a| - 1] == b[..|a|][1..];
      assert a == [a[0]] + a[1..] && b[..|a|] == [b[0]] + b[..|a|][1..];
    }
  }

  /** A string comes no later than another if it is a prefix of it, or has the smaller character where they first differ. */
  lemma {:induction false} StringLeIff(a: string, b: string)
    ensures StringLe(a, b) <==> a <= b || SmallerSomewhere(a, b)
  {
    if |a| > 0 && |b| > 0 {
      if a[0] == b[0] {
        StringLeIff(a[1..], b[1..]);
        SmallerBelow(a, b);
        PrefixBelow(a, b);
      } else {
        SmallerFirst(a, b);
      }
    }
  }

  lemma {:induction false} StringTotal(a: string, b: string)
    ensures StringLe(a, b) || StringLe(b, a)
  {
    if |a| > 0 && |b| > 0 && a[0] == b[0] {
      StringTotal(a[1..], b[1..]);
    }
  }

  lemma {:induction false} StringTransitive(a: string, b: string, c: string)
    requires StringLe(a, b) && StringLe(b, c)
    ensures StringLe(a, c)
  {
    if |a| > 0 && a[0] == b[0] == c[0] {
      StringTransitive(a[1..], b[1..], c[1..]);
    }
  }

  lemma {:induction false} StringAntisymmetric(a: string, b: string)
    requires StringLe(a, b) && StringLe(b, a)
    ensures a == b
  {
    if |a| > 0 {
      StringAntisymmetric(a[1..], b[1..]);
      assert a == [a[0]] + a[1..] && b == [b[0]] + b[1..];
    }
  }

  lemma StringOrder()
    ensures TotalPreorder(StringLe)
  {
    forall a, b ensures StringLe(a, b) || StringLe(b, a) {
      StringTotal(a, b);
    }
    forall a, b, c | StringLe(a, b) && StringLe(b, c) ensures StringLe(a, c) {
      StringTransitive(a, b, c);
    }
  }

  /** Python's order of pairs of strings. */
  predicate PairLe(a: (string, string), b: (string, string)) {
    if a.0 != b.0 then StringLe(a.0, b.0) else StringLe(a.1, b.1)
  }

  lemma PairTransitive(a: (string, string), b: (string, string), c: (string, string))
    requires PairLe(a, b) && PairLe(b, c)
    ensures PairLe(a, c)
  {
    if a.0 == c.0 {
      if a.0 != b.0 {
        StringAntisymmetric(a.0, b.0);
        assert false;
      }
      StringTransitive(a.1, b.1, c.1);
    } else if a.0 != b.0 && b.0 != c.0 {
      StringTransitive(a.0, b.0, c.0);
    }
  }

  lemma PairOrder()
    ensures TotalPreorder(PairLe)
  {
    forall a, b ensures PairLe(a, b) || PairLe(b, a) {
      StringTotal(a.0, b.0);
      StringTotal(a.1, b.1);
    }
    forall a, b, c | PairLe(a, b) && PairLe(b, c) ensures PairLe(a, c) {
      PairTransitive(a, b, c);
    }
  }

  // ----- Sets in order -----

  /** `sorted` on a set. */
  method SortedList<T(==, !new)>(le: (T, T) -> bool, all: set<T>) returns (r: seq<T>)
    requires TotalPreorder(le)
    ensures Lists(r, all) && SortedBy(le, r)
  {
    var list: seq<T> := [];
    var todo := all;
    while todo != {}
      invariant todo <= all && Lists(list, all - todo)
      decreases todo
    {
      var x :| x in todo;
      ListsNext(list, all, todo, x);
      list := list + [x];
      todo := todo - {x};
    }
    assert all - todo == all;
    r := Sort(le, list);
    ListsTimes(list, all);
    ListsTimes(r, all);
    SortSorts(le, list);
  }

  /** A set is listed in order in one way only, if the order decides. */
  lemma SortedListUnique<T(!new)>(le: (T, T) -> bool, all: set<T>, s: seq<T>, t: seq<T>)
    requires DecidesOn(le, s) && Lists(s, all) && SortedBy(le, s) && Lists(t, all) && SortedBy(le, t)
    ensures s == t
  {
    ListsTimes(s, all);
    ListsTimes(t, all);
    forall x ensures Times(s, x) == Times(t, x) {
      assert Times(s, x) == if x in all then 1 else 0;
      assert Times(t, x) == if x in all then 1 else 0;
    }
    SortedUnique(le, s, t);
  }
}
