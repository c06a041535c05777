/** What the changes of docmirror/evidence/diff_engine.py say about the two graphs: order of the visit, duality, exactness. */
module GraphDiffLaws {
  import opened GraphDiff
  import opened Sequences
  import opened Sorting

  /** The measure that counts, after swapping the graphs, what m counts before. */
  function Swapped(m: Measure): Measure {
    match m
    case OfKind(NodeAdded) => OfKind(NodeRemoved)
    case OfKind(NodeRemoved) => OfKind(NodeAdded)
    case OfKind(EdgeAdded) => OfKind(EdgeRemoved)
    case OfKind(EdgeRemoved) => OfKind(EdgeAdded)
    case _ => m
  }

  // ----- One order for two graphs -----

  lemma StringsDecide(s: seq<string>)
    ensures DecidesOn(StringLe, s)
  {
    forall a, b | a in s && b in s && StringLe(a, b) && StringLe(b, a) ensures a == b {
      StringAntisymmetric(a, b);
    }
  }

  lemma PairsDecide(s: seq<EdgeKey>)
    ensures DecidesOn(PairLe, s)
  {
    forall a, b | a in s && b in s && PairLe(a, b) && PairLe(b, a) ensures a == b {
      if a.0 != b.0 {
        StringAntisymmetric(a.0, b.0);
      } else {
        StringAntisymmetric(a.1, b.1);
      }
    }
  }

  /** Two graphs are visited in one order only, so the changes and the overlay of a report are determined by the graphs. */
  lemma VisitIsUnique(a: Graph, b: Graph, v: Visit, u: Visit)
    requires Visits(v, a, b) && Visits(u, a, b)
    ensures v == u && AllEntries(a, b, v) == AllEntries(a, b, u) && OverlayPart(a, b, v.ids) == OverlayPart(a, b, u.ids)
  {
    StringsDecide(v.ids);
    PairsDecide(v.added);
    PairsDecide(v.removed);
    SortedListUnique(StringLe, a.nodes.Keys + b.nodes.Keys, v.ids, u.ids);
    SortedListUnique(PairLe, EdgeKeys(b) - EdgeKeys(a), v.added, u.added);
    SortedListUnique(PairLe, EdgeKeys(a) - EdgeKeys(b), v.removed, u.removed);
  }

  // ----- Counting by parts -----

  lemma CountAll(m: Measure, a: Graph, b: Graph, v: Visit)
    ensures Count(m, AllEntries(a, b, v))
            == Count(m, NodePart(a, b, v.ids)) + Count(m, EdgePart(EdgeAdded, v.added)) + Count(m, EdgePart(EdgeRemoved, v.removed))
               + Count(m, DecisionPart(a, b))
  {
    var nodes, added, removed := NodePart(a, b, v.ids), EdgePart(EdgeAdded, v.added), EdgePart(EdgeRemoved, v.removed);
    CountConcat(m, nodes, added);
    CountConcat(m, nodes + added, removed);
    CountConcat(m, nodes + added + removed, DecisionPart(a, b));
  }

  lemma {:induction false} CountEdges(m: Measure, kind: ChangeKind, keys: seq<EdgeKey>)
    ensures Count(m, EdgePart(kind, keys)) == if Measures(m, EdgeEntry(kind, ("", ""))) then |keys| else 0
  {
    if |keys| > 0 {
      var front, e := keys[..|keys| - 1], EdgeEntry(kind, keys[|keys| - 1]);
      CountEdges(m, kind, front);
      CountConcat(m, EdgePart(kind, front), [e]);
      CountOne(m, e);
    }
  }

  lemma CountNodesNext(m: Measure, a: Graph, b: Graph, ids: seq<string>, id: string)
    ensures Count(m, NodePart(a, b, ids + [id])) == Count(m, NodePart(a, b, ids)) + Count(m, NodeEntries(a, b, id))
  {
    assert (ids + [id])[..|ids|] == ids;
    CountConcat(m, NodePart(a, b, ids), NodeEntries(a, b, id));
  }

  lemma {:induction false} CountNodesSplit(m: Measure, a: Graph, b: Graph, p: seq<string>, q: seq<string>)
    ensures Count(m, NodePart(a, b, p + q)) == Count(m, NodePart(a, b, p)) + Count(m, NodePart(a, b, q))
  {
    if |q| == 0 {
      assert p + q == p;
    } else {
      var front, id := q[..|q| - 1], q[|q| - 1];
      CountNodesSplit(m, a, b, p, front);
      CountNodesNext(m, a, b, p + front, id);
      CountNodesNext(m, a, b, front, id);
      SplitLast(p, q);
    }
  }

  // ----- The order of the visit -----

  lemma ListsWithout<T(!new)>(s: seq<T>, all: set<T>, i: nat)
    requires Lists(s, all) && i < |s|
    ensures Lists(s[..i] + s[i + 1..], all - {s[i]})
  {
    var rest := s[..i] + s[i + 1..];
    assert forall j | 0 <= j < |rest| :: rest[j] == s[if j < i then j else j + 1];
    forall x ensures x in all - {s[i]} <==> x in rest {
      if x in all && x != s[i] {
        var j :| 0 <= j < |s| && s[j] == x;
        assert rest[if j < i then j else j - 1] == x;
      }
    }
  }

  lemma {:induction false} ListsLength<T(!new)>(s: seq<T>, all: set<T>)
    requires Lists(s, all)
    ensures |s| == |all|
  {
    if |s| == 0 {
      if all != {} {
        assert false;
      }
    } else {
      ListsWithout(s, all, |s| - 1);
      assert s[..|s| - 1] + s[|s|..] == s[..|s| - 1];
      ListsLength(s[..|s| - 1], all - {s[|s| - 1]});
    }
  }

  lemma CountNodesRemove(m: Measure, a: Graph, b: Graph, q: seq<string>, i: nat)
    requires i < |q|
    ensures Count(m, NodePart(a, b, q)) == Count(m, NodePart(a, b, q[..i] + q[i + 1..])) + Count(m, NodeEntries(a, b, q[i]))
  {
    CountNodesNext(m, a, b, q[..i], q[i]);
    CountNodesSplit(m, a, b, q[..i] + [q[i]], q[i + 1..]);
    CountNodesSplit(m, a, b, q[..i], q[i + 1..]);
    CutAt(q, i);
  }

  /** In whatever order the nodes are visited, every counter comes out the same. */
  lemma {:induction false} AnyNodeOrder(m: Measure, a: Graph, b: Graph, p: seq<string>, q: seq<string>, all: set<string>)
    requires Lists(p, all) && Lists(q, all)
    ensures Count(m, NodePart(a, b, p)) == Count(m, NodePart(a, b, q))
  {
    ListsLength(p, all);
    ListsLength(q, all);
    if |p| > 0 {
      var n := |p| - 1;
      assert p[n] in all;
      var i :| 0 <= i < |q| && q[i] == p[n];
      ListsWithout(p, all, n);
      ListsWithout(q, all, i);
      AnyNodeOrder(m, a, b, p[..n] + p[n + 1..], q[..i] + q[i + 1..], all - {p[n]});
      CountNodesRemove(m, a, b, p, n);
      CountNodesRemove(m, a, b, q, i);
    }
  }

  // ----- Duality -----

  lemma CountFieldsNext(m: Measure, b: Node, c: Node, id: string, fields: seq<Field>)
    requires |fields| > 0
    ensures var f := fields[|fields| - 1];
            Count(m, FieldEntries(b, c, id, fields))
            == Count(m, FieldEntries(b, c, id, fields[..|fields| - 1]))
               + if Differ(b, c, f) && Measures(m, FieldEntry(b, c, id, f)) then 1 else 0
  {
    var front, f := fields[..|fields| - 1], fields[|fields| - 1];
    if Differ(b, c, f) {
      CountConcat(m, FieldEntries(b, c, id, front), [FieldEntry(b, c, id, f)]);
      CountOne(m, FieldEntry(b, c, id, f));
    } else {
      assert FieldEntries(b, c, id, fields) == FieldEntries(b, c, id, front);
    }
  }

  lemma MeasuresField(m: Measure, b: Node, c: Node, id: string, f: Field)
    ensures Measures(Swapped(m), FieldEntry(c, b, id, f)) <==> Measures(m, FieldEntry(b, c, id, f))
  {
  }

  lemma {:induction false} SwapFields(m: Measure, b: Node, c: Node, id: string, fields: seq<Field>)
    ensures Count(Swapped(m), FieldEntries(c, b, id, fields)) == Count(m, FieldEntries(b, c, id, fields))
  {
    if |fields| > 0 {
      SwapFields(m, b, c, id, fields[..|fields| - 1]);
      CountFieldsNext(m, b, c, id, fields);
      CountFieldsNext(Swapped(m), c, b, id, fields);
      MeasuresField(m, b, c, id, fields[|fields| - 1]);
    }
  }

  lemma SwapNode(m: Measure, a: Graph, b: Graph, id: string)
    ensures Count(Swapped(m), NodeEntries(b, a, id)) == Count(m, NodeEntries(a, b, id))
  {
    if id in a.nodes && id in b.nodes {
      SwapFields(m, a.nodes[id], b.nodes[id], id, FIELDS);
    } else if id in a.nodes {
      CountOne(m, RemovedEntry(a.nodes[id], id));
      CountOne(Swapped(m), AddedEntry(a.nodes[id], id));
    } else if id in b.nodes {
      CountOne(m, AddedEntry(b.nodes[id], id));
      CountOne(Swapped(m), RemovedEntry(b.nodes[id], id));
    }
  }

  lemma {:induction false} SwapNodes(m: Measure, a: Graph, b: Graph, ids: seq<string>)
    ensures Count(Swapped(m), NodePart(b, a, ids)) == Count(m, NodePart(a, b, ids))
  {
    if |ids| > 0 {
      var front, id := ids[..|ids| - 1], ids[|ids| - 1];
      SwapNodes(m, a, b, front);
      SwapNode(m, a, b, id);
      CountNodesNext(m, a, b, front, id);
      CountNodesNext(Swapped(m), b, a, front, id);
      SplitLast([], ids);
    }
  }

  lemma SwapDecision(m: Measure, a: Graph, b: Graph)
    ensures Count(Swapped(m), DecisionPart(b, a)) == Count(m, DecisionPart(a, b))
  {
    if a.decision != b.decision {
      CountOne(m, DecisionPart(a, b)[0]);
      CountOne(Swapped(m), DecisionPart(b, a)[0]);
      assert DecisionPart(a, b) == [DecisionPart(a, b)[0]] && DecisionPart(b, a) == [DecisionPart(b, a)[0]];
    }
  }

  /** Swapping the graphs swaps what is added and what is removed and keeps every other count, in any order of visit. */
  lemma SwapCounts(m: Measure, a: Graph, b: Graph, v: Visit, u: Visit)
    requires Visits(v, a, b) && Visits(u, b, a)
    ensures Count(Swapped(m), AllEntries(b, a, u)) == Count(m, AllEntries(a, b, v))
  {
    CountAll(m, a, b, v);
    CountAll(Swapped(m), b, a, u);
    SwapNodeParts(m, a, b, v.ids, u.ids);
    SwapDecision(m, a, b);
    SameLength(v.added, u.removed, EdgeKeys(b) - EdgeKeys(a));
    SameLength(v.removed, u.added, EdgeKeys(a) - EdgeKeys(b));
    SwapAdded(m, v.added, u.removed);
    SwapRemoved(m, v.removed, u.added);
  }

  lemma SwapNodeParts(m: Measure, a: Graph, b: Graph, p: seq<string>, q: seq<string>)
    requires Lists(p, a.nodes.Keys + b.nodes.Keys) && Lists(q, b.nodes.Keys + a.nodes.Keys)
    ensures Count(Swapped(m), NodePart(b, a, q)) == Count(m, NodePart(a, b, p))
  {
    assert a.nodes.Keys + b.nodes.Keys == b.nodes.Keys + a.nodes.Keys;
    AnyNodeOrder(m, a, b, p, q, a.nodes.Keys + b.nodes.Keys);
    SwapNodes(m, a, b, q);
  }

  lemma SameLength(s: seq<EdgeKey>, t: seq<EdgeKey>, all: set<EdgeKey>)
    requires Lists(s, all) && Lists(t, all)
    ensures |s| == |t|
  {
    ListsLength(s, all);
    ListsLength(t, all);
  }

  /** The added edges of one direction are the removed edges of the other. */
  lemma SwapAdded(m: Measure, added: seq<EdgeKey>, removed: seq<EdgeKey>)
    requires |added| == |removed|
    ensures Count(m, EdgePart(EdgeAdded, added)) == Count(Swapped(m), EdgePart(EdgeRemoved, removed))
  {
    CountEdges(m, EdgeAdded, added);
    CountEdges(Swapped(m), EdgeRemoved, removed);
  }

  lemma SwapRemoved(m: Measure, removed: seq<EdgeKey>, added: seq<EdgeKey>)
    requires |removed| == |added|
    ensures Count(m, EdgePart(EdgeRemoved, removed)) == Count(Swapped(m), EdgePart(EdgeAdded, added))
  {
    CountEdges(m, EdgeRemoved, removed);
    CountEdges(Swapped(m), EdgeAdded, added);
  }

  /** The gate does not depend on which graph is the base: same total, same high-severity count, same status. */
  lemma StatusIsSymmetric(a: Graph, b: Graph, v: Visit, u: Visit, allowed: int)
    requires Visits(v, a, b) && Visits(u, b, a)
    ensures |AllEntries(b, a, u)| == |AllEntries(a, b, v)|
    ensures var es, swapped := AllEntries(a, b, v), AllEntries(b, a, u);
            StatusOf(Count(OfHigh, swapped), |swapped|, allowed) == StatusOf(Count(OfHigh, es), |es|, allowed)
  {
    SwapCounts(OfHigh, a, b, v, u);
    SwapCounts(OfAny, a, b, v, u);
    CountAny(AllEntries(a, b, v));
    CountAny(AllEntries(b, a, u));
  }

  lemma {:induction false} CountAny(es: seq<Entry>)
    ensures Count(OfAny, es) == |es|
  {
    if |es| > 0 {
      CountAny(es[..|es| - 1]);
    }
  }

  // ----- Exactness -----

  ghost predicate AgreeOn(b: Node, c: Node, fields: seq<Field>) {
    forall f | f in fields :: GetField(b, f) == GetField(c, f)
  }

  /** The graphs agree on everything that is compared. */
  ghost predicate Agree(a: Graph, b: Graph) {
    && a.nodes.Keys == b.nodes.Keys && (forall id | id in a.nodes :: AgreeOn(a.nodes[id], b.nodes[id], FIELDS))
    && EdgeKeys(a) == EdgeKeys(b) && a.decision == b.decision
  }

  lemma {:induction false} NoFieldEntries(b: Node, c: Node, id: string, fields: seq<Field>)
    ensures FieldEntries(b, c, id, fields) == [] <==> AgreeOn(b, c, fields)
  {
    if |fields| > 0 {
      var front, f := fields[..|fields| - 1], fields[|fields| - 1];
      NoFieldEntries(b, c, id, front);
      assert forall g :: g in fields <==> g in front || g == f;
    }
  }

  ghost predicate AgreeAt(a: Graph, b: Graph, id: string) {
    && (id in a.nodes <==> id in b.nodes)
    && (id in a.nodes && id in b.nodes ==> AgreeOn(a.nodes[id], b.nodes[id], FIELDS))
  }

  lemma NoNodeEntries(a: Graph, b: Graph, id: string)
    ensures NodeEntries(a, b, id) == [] <==> AgreeAt(a, b, id)
  {
    if id in a.nodes && id in b.nodes {
      NoFieldEntries(a.nodes[id], b.nodes[id], id, FIELDS);
    }
  }

  lemma {:induction false} NoNodePart(a: Graph, b: Graph, ids: seq<string>)
    ensures NodePart(a, b, ids) == [] <==> forall id | id in ids :: NodeEntries(a, b, id) == []
  {
    if |ids| > 0 {
      var front, id := ids[..|ids| - 1], ids[|ids| - 1];
      NoNodePart(a, b, front);
      assert forall x :: x in ids <==> x in front || x == id;
    }
  }

  /** No change is reported exactly when the graphs agree. */
  lemma NoChangeIffAgree(a: Graph, b: Graph, v: Visit)
    requires Visits(v, a, b)
    ensures AllEntries(a, b, v) == [] <==> Agree(a, b)
  {
    NoNodePart(a, b, v.ids);
    NodesAgree(a, b, v.ids);
    ListsLength(v.added, EdgeKeys(b) - EdgeKeys(a));
    ListsLength(v.removed, EdgeKeys(a) - EdgeKeys(b));
    EdgesAgree(EdgeKeys(a), EdgeKeys(b));
    assert |AllEntries(a, b, v)|
      == |NodePart(a, b, v.ids)| + |EdgePart(EdgeAdded, v.added)| + |EdgePart(EdgeRemoved, v.removed)| + |DecisionPart(a, b)|;
  }

  lemma EdgesAgree(a: set<EdgeKey>, b: set<EdgeKey>)
    ensures |b - a| == 0 && |a - b| == 0 <==> a == b
  {
    if |b - a| == 0 && |a - b| == 0 {
      forall key ensures key in a <==> key in b {
        assert key in b - a || key in a - b || (key in a <==> key in b);
      }
    }
  }

  lemma NodesAgree(a: Graph, b: Graph, ids: seq<string>)
    requires Lists(ids, a.nodes.Keys + b.nodes.Keys)
    ensures (forall id | id in ids :: NodeEntries(a, b, id) == [])
            <==> a.nodes.Keys == b.nodes.Keys && forall id | id in a.nodes :: AgreeOn(a.nodes[id], b.nodes[id], FIELDS)
  {
    forall id ensures NodeEntries(a, b, id) == [] <==> AgreeAt(a, b, id) {
      NoNodeEntries(a, b, id);
    }
    if forall id | id in ids :: NodeEntries(a, b, id) == [] {
      forall id ensures id in a.nodes <==> id in b.nodes {
        assert id in a.nodes.Keys + b.nodes.Keys <==> id in ids;
      }
    }
  }

  /** The gate passes only when the graphs agree, and always does then if the budget is no debt. */
  lemma PassMeansAgree(a: Graph, b: Graph, v: Visit, allowed: int)
    requires Visits(v, a, b)
    ensures var es := AllEntries(a, b, v);
            StatusOf(Count(OfHigh, es), |es|, allowed) == Pass <==> Agree(a, b) && allowed >= 0
  {
    NoChangeIffAgree(a, b, v);
  }

  // ----- The overlay -----

  ghost predicate Reported(o: Overlay, es: seq<Entry>) {
    exists e | e in es :: e.node == o.node && e.kind == o.kind && e.severity == o.severity
  }

  lemma {:induction false} DifferenceReported(b: Node, c: Node, id: string, fields: seq<Field>, f: Field)
    requires f in fields && Differ(b, c, f)
    ensures FieldEntry(b, c, id, f) in FieldEntries(b, c, id, fields)
  {
    if f != fields[|fields| - 1] {
      DifferenceReported(b, c, id, fields[..|fields| - 1], f);
    }
  }

  lemma DrawnAs(id: string, n: Node, kind: ChangeKind, severity: Severity, o: Overlay)
    requires o in Drawn(OverlayOf(id, n, kind, severity))
    ensures o.node == id && o.kind == kind && o.severity == severity && o.page > 0.0 && Truthy(o.bbox)
  {
  }

  lemma NodeOverlayReported(a: Graph, b: Graph, id: string, o: Overlay)
    requires o in Drawn(NodeOverlay(a, b, id))
    ensures Reported(o, NodeEntries(a, b, id)) && o.page > 0.0 && Truthy(o.bbox)
  {
    if id in a.nodes && id in b.nodes {
      DrawnAs(id, b.nodes[id], BboxChanged, Medium, o);
      BboxIsCompared();
      DifferenceReported(a.nodes[id], b.nodes[id], id, FIELDS, Bbox);
      assert FieldEntry(a.nodes[id], b.nodes[id], id, Bbox) in NodeEntries(a, b, id);
    } else if id in a.nodes {
      DrawnAs(id, a.nodes[id], NodeRemoved, RemovalSeverity(a.nodes[id]), o);
      assert RemovedEntry(a.nodes[id], id) in NodeEntries(a, b, id);
    } else {
      DrawnAs(id, b.nodes[id], NodeAdded, Low, o);
      assert AddedEntry(b.nodes[id], id) in NodeEntries(a, b, id);
    }
  }

  lemma BboxIsCompared()
    ensures Bbox in FIELDS
  {
    assert FIELDS[7] == Bbox;
  }

  /** Nothing is drawn that is not reported with the same kind and severity, and only where there is a box on a page. */
  lemma {:induction false} OverlayIsReported(a: Graph, b: Graph, ids: seq<string>, o: Overlay)
    requires o in OverlayPart(a, b, ids)
    ensures Reported(o, NodePart(a, b, ids)) && o.page > 0.0 && Truthy(o.bbox)
  {
    var front, id := ids[..|ids| - 1], ids[|ids| - 1];
    if o in OverlayPart(a, b, front) {
      OverlayIsReported(a, b, front, o);
    } else {
      NodeOverlayReported(a, b, id, o);
    }
  }
}
