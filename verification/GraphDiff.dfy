/** `diff_graphs` of docmirror/evidence/diff_engine.py: the changes between two evidence graphs, their tally and the
    status of the gate. */
module GraphDiff {
  import opened Options
  import opened Reals
  import opened Decimals
  import opened Sequences
  import opened Sorting

  /** JSON values up to Python's `==`: integers and truth values stand as the numbers they are equal to. */
  datatype Value = Nothing | Number(r: real) | Text(s: string) | Items(items: seq<Value>) | Record(fields: map<string, Value>)

  /** The keys of a node that are compared. */
  datatype Field =
    | Kind | Label | ValuePreview | RawPreview | Confidence | Review | Page | Bbox | SourceRefs | FieldPath | Edition

  type Node = map<Field, Value>

  /** The endpoints are under `from`/`to`, or under `from_node`/`to_node`. */
  datatype Edge = Edge(origin: Option<string>, originNode: Option<string>, target: Option<string>, targetNode: Option<string>, rest: Value)

  type EdgeKey = (string, string)

  /** `decision` is that of the quality decision, Nothing when there is none. */
  datatype Graph = Graph(nodes: map<string, Node>, edges: seq<Edge>, decision: Value)

  datatype ChangeKind =
    | NodeAdded | NodeRemoved | NodeChanged | FieldValueChanged | ConfidenceChanged | BboxChanged | ReviewChanged
    | EdgeAdded | EdgeRemoved | DecisionChanged

  datatype Severity = Low | Medium | High

  datatype Status = Pass | Warning | Fail

  /** A change apart from its id. `field` is the compared field, if one was compared. */
  datatype Entry = Entry(kind: ChangeKind, severity: Severity, node: string, field: Option<Field>, before: Value, after: Value)

  datatype Change = Change(id: string, entry: Entry)

  datatype Overlay = Overlay(node: string, page: real, bbox: Value, kind: ChangeKind, severity: Severity)

  // ----- Values -----

  /** Python's truth value. */
  predicate Truthy(v: Value) {
    match v
    case Nothing => false
    case Number(r) => r != 0.0
    case Text(s) => s != ""
    case Items(items) => items != []
    case Record(fields) => fields != map[]
  }

  function GetField(n: Node, f: Field): Value {
    if f in n then n[f] else Nothing
  }

  function LabelOf(n: Node): Value {
    if Label in n then n[Label] else Text("")
  }

  /** `value or 0` as a number, if it is one. */
  function NumberOrZero(j: Value): Option<real> {
    if !Truthy(j) then Some(0.0) else if j.Number? then Some(j.r) else None
  }

  /** How far two confidences are apart; no value when the subtraction raises. */
  function Gap(a: Value, b: Value): Option<real> {
    var x, y := NumberOrZero(a), NumberOrZero(b);
    if x.None? || y.None? then None else Some(Abs(x.value - y.value))
  }

  function KeyOf(e: Edge): EdgeKey {
    (if e.origin.Some? then e.origin.value else if e.originNode.Some? then e.originNode.value else "",
     if e.target.Some? then e.target.value else if e.targetNode.Some? then e.targetNode.value else "")
  }

  function EdgeKeys(g: Graph): set<EdgeKey> {
    set e | e in g.edges :: KeyOf(e)
  }

  // ----- The changes -----

  const FIELDS: seq<Field> :=
    [Kind, Label, ValuePreview, RawPreview, Confidence, Review, Page, Bbox, SourceRefs, FieldPath, Edition]

  function KindOf(f: Field): ChangeKind {
    match f
    case Confidence => ConfidenceChanged
    case Bbox => BboxChanged
    case ValuePreview => FieldValueChanged
    case RawPreview => FieldValueChanged
    case Review => ReviewChanged
    case _ => NodeChanged
  }

  function SeverityOf(f: Field, before: Value, after: Value): Severity {
    match f
    case Confidence => if Gap(before, after).Some? && Gap(before, after).value > 0.2 then High else Medium
    case Bbox => Medium
    case ValuePreview => High
    case RawPreview => High
    case Review => Medium
    case _ => Low
  }

  function RemovalSeverity(n: Node): Severity {
    if GetField(n, Kind) in [Text("field"), Text("table"), Text("cell")] then Medium else Low
  }

  /** The changes of a node in both graphs. */
  function FieldEntries(b: Node, c: Node, id: string, fields: seq<Field>): seq<Entry> {
    if |fields| == 0 then []
    else
      FieldEntries(b, c, id, fields[..|fields| - 1])
      + if Differ(b, c, fields[|fields| - 1]) then [FieldEntry(b, c, id, fields[|fields| - 1])] else []
  }

  predicate Differ(b: Node, c: Node, f: Field) {
    GetField(b, f) != GetField(c, f)
  }

  function FieldEntry(b: Node, c: Node, id: string, f: Field): Entry {
    var before, after := GetField(b, f), GetField(c, f);
    Entry(KindOf(f), SeverityOf(f, before, after), id, Some(f), before, after)
  }

  function AddedEntry(c: Node, id: string): Entry {
    Entry(NodeAdded, Low, id, None, Nothing, LabelOf(c))
  }

  function RemovedEntry(b: Node, id: string): Entry {
    Entry(NodeRemoved, RemovalSeverity(b), id, None, LabelOf(b), Nothing)
  }

  function NodeEntries(a: Graph, b: Graph, id: string): seq<Entry> {
    if id !in a.nodes then if id !in b.nodes then [] else [AddedEntry(b.nodes[id], id)]
    else if id !in b.nodes then [RemovedEntry(a.nodes[id], id)]
    else FieldEntries(a.nodes[id], b.nodes[id], id, FIELDS)
  }

  function NodePart(a: Graph, b: Graph, ids: seq<string>): seq<Entry> {
    if |ids| == 0 then [] else NodePart(a, b, ids[..|ids| - 1]) + NodeEntries(a, b, ids[|ids| - 1])
  }

  function EdgeEntry(kind: ChangeKind, key: EdgeKey): Entry {
    Entry(kind, Low, key.0 + " -> " + key.1, None, Nothing, Nothing)
  }

  function EdgePart(kind: ChangeKind, keys: seq<EdgeKey>): (r: seq<Entry>)
    ensures |r| == |keys|
  {
    if |keys| == 0 then [] else EdgePart(kind, keys[..|keys| - 1]) + [EdgeEntry(kind, keys[|keys| - 1])]
  }

  function DecisionPart(a: Graph, b: Graph): seq<Entry> {
    if a.decision == b.decision then [] else [Entry(DecisionChanged, High, "", None, a.decision, b.decision)]
  }

  /** All changes, for the node ids and the edge keys in the order in which they are visited. */
  function AllEntries(a: Graph, b: Graph, v: Visit): seq<Entry> {
    NodePart(a, b, v.ids) + EdgePart(EdgeAdded, v.added) + EdgePart(EdgeRemoved, v.removed) + DecisionPart(a, b)
  }

  /** The node ids, the added and the removed edge keys in the order in which they are visited. */
  datatype Visit = Visit(ids: seq<string>, added: seq<EdgeKey>, removed: seq<EdgeKey>)

  /** The visit of the source: everything in sorted order. */
  ghost predicate Visits(v: Visit, a: Graph, b: Graph) {
    && Lists(v.ids, a.nodes.Keys + b.nodes.Keys) && SortedBy(StringLe, v.ids)
    && Lists(v.added, EdgeKeys(b) - EdgeKeys(a)) && SortedBy(PairLe, v.added)
    && Lists(v.removed, EdgeKeys(a) - EdgeKeys(b)) && SortedBy(PairLe, v.removed)
  }

  // ----- The overlay -----

  /** `_add_diff_overlay`: what it appends; no value when the comparison of the page raises. */
  function OverlayOf(id: string, n: Node, kind: ChangeKind, severity: Severity): Option<seq<Overlay>> {
    var page := NumberOrZero(GetField(n, Page));
    if !Truthy(GetField(n, Bbox)) then Some([])
    else if page.None? then None
    else if page.value <= 0.0 then Some([])
    else Some([Overlay(id, page.value, GetField(n, Bbox), kind, severity)])
  }

  function NodeOverlay(a: Graph, b: Graph, id: string): Option<seq<Overlay>> {
    if id !in a.nodes then if id !in b.nodes then Some([]) else OverlayOf(id, b.nodes[id], NodeAdded, Low)
    else if id !in b.nodes then OverlayOf(id, a.nodes[id], NodeRemoved, RemovalSeverity(a.nodes[id]))
    else if Differ(a.nodes[id], b.nodes[id], Bbox) then OverlayOf(id, b.nodes[id], BboxChanged, Medium)
    else Some([])
  }

  /** What is drawn; nothing when drawing raises. */
  function Drawn(o: Option<seq<Overlay>>): seq<Overlay> {
    if o.Some? then o.value else []
  }

  function OverlayPart(a: Graph, b: Graph, ids: seq<string>): seq<Overlay> {
    if |ids| == 0 then []
    else OverlayPart(a, b, ids[..|ids| - 1]) + Drawn(NodeOverlay(a, b, ids[|ids| - 1]))
  }

  /** Comparing the field raises: confidences that are not both numbers, or a page that is no number. */
  predicate FieldRaises(b: Node, c: Node, f: Field) {
    && Differ(b, c, f)
    && ((f == Confidence && Gap(GetField(b, f), GetField(c, f)).None?)
        || (f == Bbox && OverlayOf("", c, BboxChanged, Medium).None?))
  }

  predicate NodeRaises(a: Graph, b: Graph, id: string) {
    if id in a.nodes && id in b.nodes then exists f | f in FIELDS :: FieldRaises(a.nodes[id], b.nodes[id], f)
    else NodeOverlay(a, b, id).None?
  }

  ghost predicate Raises(a: Graph, b: Graph) {
    exists id | id in a.nodes.Keys + b.nodes.Keys :: NodeRaises(a, b, id)
  }

  // ----- Counting -----

  datatype Measure = OfKind(kind: ChangeKind) | OfHigh | OfAny

  predicate Measures(m: Measure, e: Entry) {
    match m
    case OfKind(k) => e.kind == k
    case OfHigh => e.severity == High
    case OfAny => true
  }

  function Count(m: Measure, es: seq<Entry>): nat {
    if |es| == 0 then 0 else Count(m, es[..|es| - 1]) + if Measures(m, es[|es| - 1]) then 1 else 0
  }

  lemma {:induction false} CountConcat(m: Measure, s: seq<Entry>, t: seq<Entry>)
    ensures Count(m, s + t) == Count(m, s) + Count(m, t)
  {
    if |t| == 0 {
      assert s + t == s;
    } else {
      CountConcat(m, s, t[..|t| - 1]);
      assert (s + t)[..|s + t| - 1] == s + t[..|t| - 1];
    }
  }

  lemma CountOne(m: Measure, e: Entry)
    ensures Count(m, [e]) == if Measures(m, e) then 1 else 0
  {
    assert [e][..0] == [];
  }

  /** `review_changed` has no counter in the summary. */
  ghost predicate Tallied(summary: map<ChangeKind, nat>, es: seq<Entry>) {
    ReviewChanged !in summary && forall k | k != ReviewChanged :: k in summary && summary[k] == Count(OfKind(k), es)
  }

  function StatusOf(high: nat, total: nat, allowed: int): Status {
    if high > allowed then Fail else if total > 0 then Warning else Pass
  }

  function Sum(summary: map<ChangeKind, nat>): nat
    requires forall k: ChangeKind | k != ReviewChanged :: k in summary
  {
    summary[NodeAdded] + summary[NodeRemoved] + summary[NodeChanged] + summary[FieldValueChanged] + summary[ConfidenceChanged]
    + summary[BboxChanged] + summary[EdgeAdded] + summary[EdgeRemoved] + summary[DecisionChanged]
  }

  /** Every change is counted once: the total is the sum of the counters and of the uncounted `review_changed`. */
  lemma {:induction false} CountersAddUp(summary: map<ChangeKind, nat>, es: seq<Entry>)
    requires Tallied(summary, es)
    ensures |es| == Sum(summary) + Count(OfKind(ReviewChanged), es)
  {
    KindsAddUp(es);
  }

  lemma {:induction false} KindsAddUp(es: seq<Entry>)
    ensures |es| == Count(OfKind(NodeAdded), es) + Count(OfKind(NodeRemoved), es) + Count(OfKind(NodeChanged), es)
                    + Count(OfKind(FieldValueChanged), es) + Count(OfKind(ConfidenceChanged), es) + Count(OfKind(BboxChanged), es)
                    + Count(OfKind(EdgeAdded), es) + Count(OfKind(EdgeRemoved), es) + Count(OfKind(DecisionChanged), es)
                    + Count(OfKind(ReviewChanged), es)
  {
    if |es| > 0 {
      KindsAddUp(es[..|es| - 1]);
    }
  }

  // ----- Ids -----

  function DiffId(n: nat): string {
    "diff_" + Padded(n, 4)
  }

  lemma DiffIdInjective(m: nat, n: nat)
    requires DiffId(m) == DiffId(n)
    ensures m == n
  {
    assert DiffId(m)[5..] == Padded(m, 4) && DiffId(n)[5..] == Padded(n, 4);
    PaddedInjective(m, n, 4);
  }

  ghost predicate Numbered(changes: seq<Change>, es: seq<Entry>) {
    |changes| == |es| && forall i | 0 <= i < |es| :: changes[i] == Change(DiffId(i + 1), es[i])
  }

  /** No two changes share an id. */
  lemma IdsAreUnique(changes: seq<Change>, es: seq<Entry>)
    requires Numbered(changes, es)
    ensures forall i, j | 0 <= i < j < |changes| :: changes[i].id != changes[j].id
  {
    forall i, j | 0 <= i < j < |changes| ensures changes[i].id != changes[j].id {
      if changes[i].id == changes[j].id {
        DiffIdInjective(i + 1, j + 1);
        assert false;
      }
    }
  }

  lemma RecordStep(changes: seq<Change>, es: seq<Entry>, summary: map<ChangeKind, nat>, e: Entry, summary': map<ChangeKind, nat>)
    requires Numbered(changes, es) && Tallied(summary, es)
    requires summary' == if e.kind != ReviewChanged then summary[e.kind := summary[e.kind] + 1] else summary
    ensures Numbered(changes + [Change(DiffId(|changes| + 1), e)], es + [e]) && Tallied(summary', es + [e])
  {
    forall k | k != ReviewChanged ensures k in summary' && summary'[k] == Count(OfKind(k), es + [e]) {
      CountConcat(OfKind(k), es, [e]);
      CountOne(OfKind(k), e);
    }
  }

  // ----- The report -----

  class DiffReport {
    const allowed: int
    var status: Status
    var summary: map<ChangeKind, nat>
    var total: nat
    var changes: seq<Change>
    var overlay: seq<Overlay>
    var changeIdx: nat
    ghost var entries: seq<Entry>

    ghost predicate Valid()
      reads this
    {
      changeIdx == |changes| && Numbered(changes, entries) && Tallied(summary, entries)
    }

    constructor (allowed: int)
      ensures Valid() && this.allowed == allowed && entries == [] && overlay == [] && total == 0 && status == Pass
    {
      this.allowed := allowed;
      status, total, changes, overlay, changeIdx, entries := Pass, 0, [], [], 0, [];
      summary := map[
        NodeAdded := 0, NodeRemoved := 0, NodeChanged := 0, FieldValueChanged := 0, ConfidenceChanged := 0, BboxChanged := 0,
        EdgeAdded := 0, EdgeRemoved := 0, DecisionChanged := 0];
    }

    /** Appends a change under the next id and counts it. */
    method Record(e: Entry)
      requires Valid()
      modifies `summary, `changes, `changeIdx, `entries
      ensures Valid() && entries == old(entries) + [e]
    {
      changeIdx := changeIdx + 1;
      ghost var before := summary;
      if e.kind != ReviewChanged {
        summary := summary[e.kind := summary[e.kind] + 1];
      }
      RecordStep(changes, entries, before, e, summary);
      changes := changes + [Change(DiffId(changeIdx), e)];
      entries := entries + [e];
    }

    /** `_add_diff_overlay`; false stands for the exception. */
    method AddOverlay(id: string, n: Node, kind: ChangeKind, severity: Severity) returns (ok: bool)
      modifies `overlay
      ensures ok <==> OverlayOf(id, n, kind, severity).Some?
      ensures overlay == if ok then old(overlay) + OverlayOf(id, n, kind, severity).value else old(overlay)
    {
      if !Truthy(GetField(n, Bbox)) {
        return true;
      }
      var page := NumberOrZero(GetField(n, Page));
      if page.None? {
        return false;
      }
      if page.value > 0.0 {
        overlay := overlay + [Overlay(id, page.value, GetField(n, Bbox), kind, severity)];
      }
      ok := true;
    }

    /** One compared field of a node in both graphs. */
    method CompareField(b: Node, c: Node, id: string, f: Field) returns (ok: bool)
      requires Valid()
      modifies `summary, `changes, `changeIdx, `entries, `overlay
      ensures Valid()
      ensures ok <==> !FieldRaises(b, c, f)
      ensures ok ==> entries == old(entries) + (if Differ(b, c, f) then [FieldEntry(b, c, id, f)] else [])
      ensures ok ==> overlay == old(overlay) + (if Differ(b, c, f) && f == Bbox then Drawn(OverlayOf(id, c, BboxChanged, Medium)) else [])
    {
      if !Differ(b, c, f) {
        return true;
      }
      if f == Confidence && Gap(GetField(b, f), GetField(c, f)).None? {
        return false;
      }
      Record(FieldEntry(b, c, id, f));
      ok := true;
      if f == Bbox {
        ok := AddOverlay(id, c, BboxChanged, Medium);
      }
    }

    /** The compared fields of a node in both graphs. */
    method CompareNode(b: Node, c: Node, id: string, fields: seq<Field>) returns (ok: bool)
      requires Valid()
      modifies `summary, `changes, `changeIdx, `entries, `overlay
      ensures Valid()
      ensures ok <==> forall f | f in fields :: !FieldRaises(b, c, f)
      ensures ok ==> entries == old(entries) + FieldEntries(b, c, id, fields)
      ensures ok ==> overlay == old(overlay) + FieldsOverlay(b, c, id, fields)
    {
      var n := 0;
      while n < |fields|
        invariant n <= |fields| && Valid()
        invariant forall f | f in fields[..n] :: !FieldRaises(b, c, f)
        invariant entries == old(entries) + FieldEntries(b, c, id, fields[..n])
        invariant overlay == old(overlay) + FieldsOverlay(b, c, id, fields[..n])
      {
        ghost var before, drawn := entries, overlay;
        ok := CompareField(b, c, id, fields[n]);
        if !ok {
          return;
        }
        FieldsGrow(b, c, id, fields, n, old(entries), before, entries, old(overlay), drawn, overlay);
        n := n + 1;
      }
      assert fields[..n] == fields;
      ok := true;
    }

    method DiffNode(a: Graph, b: Graph, id: string) returns (ok: bool)
      requires Valid() && id in a.nodes.Keys + b.nodes.Keys
      modifies `summary, `changes, `changeIdx, `entries, `overlay
      ensures Valid()
      ensures ok <==> !NodeRaises(a, b, id)
      ensures ok ==> entries == old(entries) + NodeEntries(a, b, id) && overlay == old(overlay) + Drawn(NodeOverlay(a, b, id))
    {
      if id !in a.nodes {
        Record(AddedEntry(b.nodes[id], id));
        ok := AddOverlay(id, b.nodes[id], NodeAdded, Low);
      } else if id !in b.nodes {
        var severity := RemovalSeverity(a.nodes[id]);
        Record(RemovedEntry(a.nodes[id], id));
        ok := AddOverlay(id, a.nodes[id], NodeRemoved, severity);
      } else {
        ok := CompareNode(a.nodes[id], b.nodes[id], id, FIELDS);
        BboxComparedOnce(a.nodes[id], b.nodes[id], id);
      }
    }

    method DiffNodes(a: Graph, b: Graph) returns (ok: bool, ghost ids: seq<string>)
      requires Valid()
      modifies `summary, `changes, `changeIdx, `entries, `overlay
      ensures Valid()
      ensures ok <==> !Raises(a, b)
      ensures ok ==> Lists(ids, a.nodes.Keys + b.nodes.Keys) && SortedBy(StringLe, ids)
      ensures ok ==> entries == old(entries) + NodePart(a, b, ids) && overlay == old(overlay) + OverlayPart(a, b, ids)
    {
      StringOrder();
      var order := SortedList(StringLe, a.nodes.Keys + b.nodes.Keys);
      ids := order;
      ok := VisitNodes(a, b, order);
      NoneRaisesIff(a, b, order);
    }

    /** One turn of the loop over the node ids, for the changes and overlays since its start. */
    method VisitNode(a: Graph, b: Graph, order: seq<string>, i: nat, ghost start: seq<Entry>, ghost blank: seq<Overlay>) returns (ok: bool)
      requires Valid() && i < |order| && order[i] in a.nodes.Keys + b.nodes.Keys
      requires entries == start + NodePart(a, b, order[..i]) && overlay == blank + OverlayPart(a, b, order[..i])
      modifies `summary, `changes, `changeIdx, `entries, `overlay
      ensures Valid() && (ok <==> !NodeRaises(a, b, order[i]))
      ensures ok ==> entries == start + NodePart(a, b, order[..i + 1]) && overlay == blank + OverlayPart(a, b, order[..i + 1])
    {
      ghost var before, drawn := entries, overlay;
      ok := DiffNode(a, b, order[i]);
      if ok {
        NodesGrow(a, b, order, i, start, before, entries, blank, drawn, overlay);
      }
    }

    method VisitNodes(a: Graph, b: Graph, order: seq<string>) returns (ok: bool)
      requires Valid() && AreNodes(a, b, order)
      modifies `summary, `changes, `changeIdx, `entries, `overlay
      ensures Valid()
      ensures ok <==> FirstRaising(a, b, order, |order|) == |order|
      ensures ok ==> entries == old(entries) + NodePart(a, b, order) && overlay == old(overlay) + OverlayPart(a, b, order)
    {
      ghost var start, blank := entries, overlay;
      for i := 0 to |order|
        invariant Valid() && FirstRaising(a, b, order, i) == i
        invariant entries == start + NodePart(a, b, order[..i]) && overlay == blank + OverlayPart(a, b, order[..i])
      {
        ok := VisitNode(a, b, order, i, start, blank);
        if !ok {
          RaisesEarly(a, b, order, i, |order|);
          return;
        }
      }
      assert order[..|order|] == order;
      ok := true;
    }

    method DiffEdges(kind: ChangeKind, keys: set<EdgeKey>) returns (ghost order: seq<EdgeKey>)
      requires Valid()
      modifies `summary, `changes, `changeIdx, `entries
      ensures Valid() && Lists(order, keys) && SortedBy(PairLe, order) && entries == old(entries) + EdgePart(kind, order)
    {
      PairOrder();
      var list := SortedList(PairLe, keys);
      order := list;
      for i := 0 to |list|
        invariant Valid() && entries == old(entries) + EdgePart(kind, list[..i])
      {
        ghost var before := entries;
        Record(EdgeEntry(kind, list[i]));
        EdgesNext(kind, list[..i], list[i], old(entries), before, entries);
        TakeNext(list, i);
      }
      assert list[..|list|] == list;
    }

    /** `diff_graphs`; false stands for the exception. */
    method Diff(a: Graph, b: Graph) returns (ok: bool, ghost v: Visit)
      requires Valid() && entries == [] && overlay == []
      modifies this
      ensures ok <==> !Raises(a, b)
      ensures ok ==> Visits(v, a, b) && Valid() && entries == AllEntries(a, b, v) && overlay == OverlayPart(a, b, v.ids)
      ensures ok ==> total == |changes| && status == StatusOf(Count(OfHigh, entries), |entries|, allowed)
    {
      ok, v := DiffAll(a, b);
      if ok {
        total := |changes|;
        SetStatus();
      }
    }

    /** All comparisons: the nodes, then the edges and the decision. */
    method DiffAll(a: Graph, b: Graph) returns (ok: bool, ghost v: Visit)
      requires Valid() && entries == [] && overlay == []
      modifies `summary, `changes, `changeIdx, `entries, `overlay
      ensures ok <==> !Raises(a, b)
      ensures ok ==> Visits(v, a, b) && Valid() && entries == AllEntries(a, b, v) && overlay == OverlayPart(a, b, v.ids)
    {
      ghost var ids;
      v := Visit([], [], []);
      ok, ids := DiffNodes(a, b);
      if !ok {
        return;
      }
      ghost var withNodes := entries;
      ghost var added, removed := DiffRest(a, b);
      v := Visit(ids, added, removed);
      Together(a, b, v, withNodes, entries);
    }

    /** The edges and the quality decision. */
    method DiffRest(a: Graph, b: Graph) returns (ghost added: seq<EdgeKey>, ghost removed: seq<EdgeKey>)
      requires Valid()
      modifies `summary, `changes, `changeIdx, `entries
      ensures Valid() && Lists(added, EdgeKeys(b) - EdgeKeys(a)) && SortedBy(PairLe, added)
      ensures Lists(removed, EdgeKeys(a) - EdgeKeys(b)) && SortedBy(PairLe, removed)
      ensures entries == old(entries) + EdgePart(EdgeAdded, added) + EdgePart(EdgeRemoved, removed) + DecisionPart(a, b)
    {
      var baseKeys, candKeys := EdgeKeys(a), EdgeKeys(b);
      added := DiffEdges(EdgeAdded, candKeys - baseKeys);
      removed := DiffEdges(EdgeRemoved, baseKeys - candKeys);
      DiffDecision(a, b);
    }

    method DiffDecision(a: Graph, b: Graph)
      requires Valid()
      modifies `summary, `changes, `changeIdx, `entries
      ensures Valid() && entries == old(entries) + DecisionPart(a, b)
    {
      if a.decision != b.decision {
        Record(Entry(DecisionChanged, High, "", None, a.decision, b.decision));
      }
    }

    method SetStatus()
      requires Valid() && total == |changes|
      modifies `status
      ensures status == StatusOf(Count(OfHigh, entries), |entries|, allowed)
    {
      var high := CountHigh();
      if high > allowed {
        status := Fail;
      } else if total > 0 {
        status := Warning;
      } else {
        status := Pass;
      }
    }

    method CountHigh() returns (high: nat)
      requires Valid()
      ensures high == Count(OfHigh, entries)
    {
      high := 0;
      for i := 0 to |changes|
        invariant high == Count(OfHigh, entries[..i])
      {
        assert entries[..i + 1][..i] == entries[..i];
        if changes[i].entry.severity == High {
          high := high + 1;
        }
      }
      assert entries[..|changes|] == entries;
    }
  }

  /** What the fields of a node in both graphs add to the overlay. */
  function FieldsOverlay(b: Node, c: Node, id: string, fields: seq<Field>): seq<Overlay> {
    if |fields| == 0 then []
    else
      FieldsOverlay(b, c, id, fields[..|fields| - 1])
      + if fields[|fields| - 1] == Bbox && Differ(b, c, Bbox) then Drawn(OverlayOf(id, c, BboxChanged, Medium)) else []
  }

  lemma FieldsNext(b: Node, c: Node, id: string, fields: seq<Field>, n: nat)
    requires n < |fields|
    ensures FieldEntries(b, c, id, fields[..n + 1])
            == FieldEntries(b, c, id, fields[..n]) + if Differ(b, c, fields[n]) then [FieldEntry(b, c, id, fields[n])] else []
    ensures FieldsOverlay(b, c, id, fields[..n + 1])
            == FieldsOverlay(b, c, id, fields[..n])
               + if fields[n] == Bbox && Differ(b, c, Bbox) then Drawn(OverlayOf(id, c, BboxChanged, Medium)) else []
  {
    assert fields[..n + 1][..n] == fields[..n];
  }

  lemma FieldsGrow(b: Node, c: Node, id: string, fields: seq<Field>, n: nat, start: seq<Entry>, es: seq<Entry>, es': seq<Entry>,
                   blank: seq<Overlay>, os: seq<Overlay>, os': seq<Overlay>)
    requires n < |fields|
    requires es == start + FieldEntries(b, c, id, fields[..n])
    requires es' == es + if Differ(b, c, fields[n]) then [FieldEntry(b, c, id, fields[n])] else []
    requires os == blank + FieldsOverlay(b, c, id, fields[..n])
    requires os' == os + if Differ(b, c, fields[n]) && fields[n] == Bbox then Drawn(OverlayOf(id, c, BboxChanged, Medium)) else []
    ensures es' == start + FieldEntries(b, c, id, fields[..n + 1]) && os' == blank + FieldsOverlay(b, c, id, fields[..n + 1])
  {
    FieldsNext(b, c, id, fields, n);
  }

  lemma {:induction false} NoBboxNoOverlay(b: Node, c: Node, id: string, fields: seq<Field>)
    requires Bbox !in fields
    ensures FieldsOverlay(b, c, id, fields) == []
  {
    if |fields| > 0 {
      assert fields[|fields| - 1] in fields;
      NoBboxNoOverlay(b, c, id, fields[..|fields| - 1]);
    }
  }

  lemma BboxComparedOnce(b: Node, c: Node, id: string)
    ensures FieldsOverlay(b, c, id, FIELDS) == if Differ(b, c, Bbox) then Drawn(OverlayOf(id, c, BboxChanged, Medium)) else []
    ensures Bbox in FIELDS
  {
    assert FIELDS[7] == Bbox;
    NoBboxNoOverlay(b, c, id, FIELDS[..7]);
    FieldsNext(b, c, id, FIELDS, 7);
    FieldsNext(b, c, id, FIELDS, 8);
    FieldsNext(b, c, id, FIELDS, 9);
    FieldsNext(b, c, id, FIELDS, 10);
    assert FIELDS[..11] == FIELDS;
  }

  ghost predicate AreNodes(a: Graph, b: Graph, ids: seq<string>) {
    forall i | 0 <= i < |ids| :: ids[i] in a.nodes.Keys + b.nodes.Keys
  }

  /** The position of the first of n ids whose comparison raises, or n. */
  ghost function FirstRaising(a: Graph, b: Graph, ids: seq<string>, n: nat): (k: nat)
    requires n <= |ids|
    ensures k <= n
  {
    if n == 0 then 0
    else
      var k := FirstRaising(a, b, ids, n - 1);
      if k < n - 1 || NodeRaises(a, b, ids[n - 1]) then k else n
  }

  lemma {:induction false} RaisesEarly(a: Graph, b: Graph, ids: seq<string>, k: nat, n: nat)
    requires k < n <= |ids| && NodeRaises(a, b, ids[k])
    ensures FirstRaising(a, b, ids, n) < n
  {
    if k < n - 1 {
      RaisesEarly(a, b, ids, k, n - 1);
    }
  }

  lemma {:induction false} NoneBefore(a: Graph, b: Graph, ids: seq<string>, n: nat)
    requires n <= |ids| && FirstRaising(a, b, ids, n) == n
    ensures forall i | 0 <= i < n :: !NodeRaises(a, b, ids[i])
  {
    if n > 0 {
      NoneBefore(a, b, ids, n - 1);
    }
  }

  lemma NoneRaisesIff(a: Graph, b: Graph, ids: seq<string>)
    requires Lists(ids, a.nodes.Keys + b.nodes.Keys)
    ensures FirstRaising(a, b, ids, |ids|) == |ids| <==> !Raises(a, b)
  {
    if FirstRaising(a, b, ids, |ids|) == |ids| {
      NoneBefore(a, b, ids, |ids|);
    } else {
      SomeRaises(a, b, ids, |ids|);
    }
  }

  lemma {:induction false} SomeRaises(a: Graph, b: Graph, ids: seq<string>, n: nat)
    requires n <= |ids| && FirstRaising(a, b, ids, n) < n
    ensures exists i | 0 <= i < n :: NodeRaises(a, b, ids[i])
  {
    if FirstRaising(a, b, ids, n - 1) < n - 1 {
      SomeRaises(a, b, ids, n - 1);
    }
  }

  lemma NodesGrow(a: Graph, b: Graph, order: seq<string>, i: nat, start: seq<Entry>, es: seq<Entry>, es': seq<Entry>,
                  blank: seq<Overlay>, os: seq<Overlay>, os': seq<Overlay>)
    requires i < |order| && es == start + NodePart(a, b, order[..i]) && es' == es + NodeEntries(a, b, order[i])
    requires os == blank + OverlayPart(a, b, order[..i]) && os' == os + Drawn(NodeOverlay(a, b, order[i]))
    ensures es' == start + NodePart(a, b, order[..i + 1]) && os' == blank + OverlayPart(a, b, order[..i + 1])
  {
    TakeNext(order, i);
    NodePartNext(a, b, order[..i], order[i]);
    OverlayPartNext(a, b, order[..i], order[i]);
    Appended(start, NodePart(a, b, order[..i]), NodeEntries(a, b, order[i]), es, es', NodePart(a, b, order[..i + 1]));
    Appended(blank, OverlayPart(a, b, order[..i]), Drawn(NodeOverlay(a, b, order[i])), os, os', OverlayPart(a, b, order[..i + 1]));
  }

  lemma NodePartNext(a: Graph, b: Graph, ids: seq<string>, id: string)
    ensures NodePart(a, b, ids + [id]) == NodePart(a, b, ids) + NodeEntries(a, b, id)
  {
    assert (ids + [id])[..|ids|] == ids;
  }

  lemma OverlayPartNext(a: Graph, b: Graph, ids: seq<string>, id: string)
    ensures OverlayPart(a, b, ids + [id]) == OverlayPart(a, b, ids) + Drawn(NodeOverlay(a, b, id))
  {
    assert (ids + [id])[..|ids|] == ids;
  }

  lemma Appended<T>(start: seq<T>, part: seq<T>, more: seq<T>, all: seq<T>, all': seq<T>, part': seq<T>)
    requires all == start + part && all' == all + more && part' == part + more
    ensures all' == start + part'
  {
  }

  lemma Together(a: Graph, b: Graph, v: Visit, nodes: seq<Entry>, es: seq<Entry>)
    requires nodes == NodePart(a, b, v.ids)
    requires es == nodes + EdgePart(EdgeAdded, v.added) + EdgePart(EdgeRemoved, v.removed) + DecisionPart(a, b)
    ensures es == AllEntries(a, b, v)
  {
  }

  lemma EdgesNext(kind: ChangeKind, keys: seq<EdgeKey>, key: EdgeKey, start: seq<Entry>, es: seq<Entry>, es': seq<Entry>)
    requires es == start + EdgePart(kind, keys) && es' == es + [EdgeEntry(kind, key)]
    ensures es' == start + EdgePart(kind, keys + [key])
  {
    assert (keys + [key])[..|keys|] == keys;
  }
}
