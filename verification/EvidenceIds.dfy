/** `_EvidenceIdFactory` of docmirror/evidence/plane.py: ids that count per page and kind. */
module EvidenceIds {
  import opened Decimals

  /** The format `ev:<page>:<kind>:<count>`. */
  function EvidenceId(page: nat, kind: string, n: nat): string {
    "ev:" + Padded(page, 4) + ":" + kind + ":" + Padded(n, 6)
  }

  ghost predicate NoColon(s: string) {
    forall i | 0 <= i < |s| :: s[i] != ':'
  }

  lemma {:induction false} DecimalNoColon(n: nat)
    ensures NoColon(Decimal(n))
  {
    if n >= 10 {
      DecimalNoColon(n / 10);
    }
  }

  lemma {:induction false} PadNoColon(s: string, width: nat)
    requires NoColon(s)
    ensures NoColon(PadTo(s, width))
    decreases width - |s|
  {
    if |s| < width {
      PadNoColon("0" + s, width);
    }
  }

  lemma PaddedNoColon(n: nat, width: nat)
    ensures NoColon(Padded(n, width))
  {
    DecimalNoColon(n);
    PadNoColon(Decimal(n), width);
  }

  lemma FirstColon(a: string, s: string, i: nat)
    requires NoColon(a) && i < |a + ":" + s| && (a + ":" + s)[i] == ':'
    ensures i >= |a|
  {
    assert forall j | 0 <= j < |a| :: (a + ":" + s)[j] == a[j];
  }

  lemma LastColon(a: string, s: string, i: nat)
    requires NoColon(s) && i < |a + ":" + s| && (a + ":" + s)[i] == ':'
    ensures i <= |a|
  {
    assert forall j | 0 <= j < |s| :: s[j] == (a + ":" + s)[|a| + 1 + j];
    assert forall j | |a| < j < |a + ":" + s| :: (a + ":" + s)[j] == s[j - |a| - 1];
  }

  /** The part before the first colon is determined. */
  lemma SplitFirst(a: string, b: string, s: string, t: string)
    requires NoColon(a) && NoColon(b) && a + ":" + s == b + ":" + t
    ensures a == b && s == t
  {
    var whole := a + ":" + s;
    FirstColon(a, s, |b|);
    FirstColon(b, t, |a|);
    assert a == whole[..|a|] && b == (b + ":" + t)[..|b|];
    assert s == whole[|a| + 1..] && t == (b + ":" + t)[|b| + 1..];
  }

  /** The part after the last colon is determined. */
  lemma SplitLastColon(a: string, b: string, s: string, t: string)
    requires NoColon(s) && NoColon(t) && a + ":" + s == b + ":" + t
    ensures a == b && s == t
  {
    var whole := a + ":" + s;
    LastColon(a, s, |b|);
    LastColon(b, t, |a|);
    assert a == whole[..|a|] && b == (b + ":" + t)[..|b|];
    assert s == whole[|a| + 1..] && t == (b + ":" + t)[|b| + 1..];
  }

  /** Ids are equal only for the same page, kind and count, even if the kinds contain colons. */
  lemma IdInjective(page: nat, kind: string, n: nat, page': nat, kind': string, n': nat)
    requires EvidenceId(page, kind, n) == EvidenceId(page', kind', n')
    ensures page == page' && kind == kind' && n == n'
  {
    PaddedNoColon(page, 4);
    PaddedNoColon(page', 4);
    PaddedNoColon(n, 6);
    PaddedNoColon(n', 6);
    Regroup(Padded(page, 4), kind, Padded(n, 6), Padded(page', 4), kind', Padded(n', 6));
    SplitFirst(Padded(page, 4), Padded(page', 4), kind + ":" + Padded(n, 6), kind' + ":" + Padded(n', 6));
    SplitLastColon(kind, kind', Padded(n, 6), Padded(n', 6));
    PaddedInjective(page, page', 4);
    PaddedInjective(n, n', 6);
  }

  lemma Regroup(a: string, b: string, c: string, a': string, b': string, c': string)
    requires "ev:" + a + ":" + b + ":" + c == "ev:" + a' + ":" + b' + ":" + c'
    ensures a + ":" + (b + ":" + c) == a' + ":" + (b' + ":" + c')
  {
    assert ("ev:" + a + ":" + b + ":" + c)[3..] == a + ":" + (b + ":" + c);
    assert ("ev:" + a' + ":" + b' + ":" + c')[3..] == a' + ":" + (b' + ":" + c');
  }

  /** What an id says: the page in four digits, the kind, and the count in six, each longer if it has to be. */
  lemma IdSays(page: nat, kind: string, n: nat)
    ensures exists p, c :: && EvidenceId(page, kind, n) == "ev:" + p + ":" + kind + ":" + c
                           && IsNumeral(p, page, 4) && IsNumeral(c, n, 6)
  {
    PaddedIsNumeral(page, 4);
    PaddedIsNumeral(n, 6);
    var p, c := Padded(page, 4), Padded(n, 6);
    assert EvidenceId(page, kind, n) == "ev:" + p + ":" + kind + ":" + c;
  }

  type Key = (string, string)

  class EvidenceIdFactory {
    var counters: map<Key, nat>
    /** The (page, kind, count) of the ids handed out so far. */
    ghost var issued: set<(nat, string, nat)>

    /** The ids of a page and a kind are those with the counts 1 to the counter. */
    ghost predicate Valid()
      reads this
    {
      forall page: nat, kind: string, n: nat ::
        (page, kind, n) in issued <==> 1 <= n <= CountOf(counters, (Padded(page, 4), kind))
    }

    constructor ()
      ensures Valid() && issued == {}
    {
      counters, issued := map[], {};
    }

    method Next(page: nat, kind: string) returns (id: string)
      requires Valid()
      modifies this
      ensures Valid()
      ensures exists n :: issued == old(issued) + {(page, kind, n)} && id == EvidenceId(page, kind, n)
      ensures forall p, k, n | (p, k, n) in old(issued) :: EvidenceId(p, k, n) != id
    {
      var key := (Padded(page, 4), kind);
      var n := CountOf(counters, key) + 1;
      forall p, k, i | (p, k, i) in issued ensures EvidenceId(p, k, i) != EvidenceId(page, kind, n) {
        if EvidenceId(p, k, i) == EvidenceId(page, kind, n) {
          IdInjective(p, k, i, page, kind, n);
          assert false;
        }
      }
      KeysApart(page);
      counters := counters[key := n];
      issued := issued + {(page, kind, n)};
      id := EvidenceId(page, kind, n);
    }
  }

  function CountOf(counters: map<Key, nat>, key: Key): nat {
    if key in counters then counters[key] else 0
  }

  lemma KeysApart(page: nat)
    ensures forall p: nat :: Padded(p, 4) == Padded(page, 4) ==> p == page
  {
    forall p: nat | Padded(p, 4) == Padded(page, 4) ensures p == page {
      PaddedInjective(p, page, 4);
    }
  }
}
