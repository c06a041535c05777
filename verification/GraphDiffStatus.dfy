/** Counters and status of docmirror/evidence/diff_engine.py, said on the two graphs: how many changes of each kind there
    are, how many of them are severe, and what the gate makes of that. */
module GraphDiffStatus {
  import opened Options
  import opened Reals
  import opened Decimals
  import opened GraphDiff
  import opened GraphDiffLaws
  import opened Sequences

  /** The value of a field, Nothing when it is missing. */
  ghost function ValueOf(n: Node, f: Field): Value {
    if f in n then n[f] else Nothing
  }

  /** The nodes of both graphs whose values of a field differ. */
  ghost function Changed(a: Graph, b: Graph, f: Field): set<string> {
    set id | id in a.nodes && id in b.nodes && ValueOf(a.nodes[id], f) != ValueOf(b.nodes[id], f)
  }

  /** What a value counts as in an arithmetic operation: numbers as they are, empty values as zero. */
  ghost function AsNumber(v: Value): Option<real> {
    match v
    case Number(r) => Some(r)
    case Nothing => Some(0.0)
    case Text(s) => if s == "" then Some(0.0) else None
    case Items(items) => if items == [] then Some(0.0) else None
    case Record(fields) => if fields == map[] then Some(0.0) else None
  }

  ghost predicate FarApart(v: Value, w: Value) {
    var x, y := AsNumber(v), AsNumber(w);
    x.Some? && y.Some? && (x.value - y.value > 0.2 || y.value - x.value > 0.2)
  }

  /** The nodes of both graphs whose confidences differ by more than 0.2. */
  ghost function Jumped(a: Graph, b: Graph): set<string> {
    set id | id in a.nodes && id in b.nodes && FarApart(ValueOf(a.nodes[id], Confidence), ValueOf(b.nodes[id], Confidence))
  }

  /** How many severe changes there are. */
  ghost function Severe(a: Graph, b: Graph): nat {
    |Changed(a, b, ValuePreview)| + |Changed(a, b, RawPreview)| + |Jumped(a, b)| + if a.decision != b.decision then 1 else 0
  }

  // ----- Counting field by field -----

  /** The measure counts the change of the field of the node. */
  ghost predicate Hits(m: Measure, a: Graph, b: Graph, id: string, f: Field) {
    && id in a.nodes && id in b.nodes && Differ(a.nodes[id], b.nodes[id], f)
    && Measures(m, FieldEntry(a.nodes[id], b.nodes[id], id, f))
  }

  ghost function Hit(m: Measure, a: Graph, b: Graph, ids: seq<string>, f: Field): set<string> {
    set id | id in ids && Hits(m, a, b, id, f)
  }

  ghost function HitSize(m: Measure, a: Graph, b: Graph, ids: seq<string>, f: Field): nat {
    |Hit(m, a, b, ids, f)|
  }

  ghost function HitSum(m: Measure, a: Graph, b: Graph, ids: seq<string>, fields: seq<Field>): nat {
    if |fields| == 0 then 0
    else HitSum(m, a, b, ids, fields[..|fields| - 1]) + HitSize(m, a, b, ids, fields[|fields| - 1])
  }

  lemma HitNext(m: Measure, a: Graph, b: Graph, ids: seq<string>, id: string, f: Field)
    requires id !in ids
    ensures HitSize(m, a, b, ids + [id], f) == HitSize(m, a, b, ids, f) + if Hits(m, a, b, id, f) then 1 else 0
  {
    GrowsBy(Hit(m, a, b, ids, f), Hit(m, a, b, ids + [id], f), id, Hits(m, a, b, id, f));
  }

  lemma GrowsBy(now: set<string>, next: set<string>, id: string, added: bool)
    requires id !in now && forall x :: x in next <==> x in now || (added && x == id)
    ensures |next| == |now| + if added then 1 else 0
  {
    assert next == if added then now + {id} else now;
  }

  lemma {:induction false} HitSumNext(m: Measure, a: Graph, b: Graph, ids: seq<string>, id: string, fields: seq<Field>)
    requires id !in ids && id in a.nodes && id in b.nodes
    ensures HitSum(m, a, b, ids + [id], fields)
            == HitSum(m, a, b, ids, fields) + Count(m, FieldEntries(a.nodes[id], b.nodes[id], id, fields))
  {
    if |fields| > 0 {
      HitSumNext(m, a, b, ids, id, fields[..|fields| - 1]);
      HitNext(m, a, b, ids, id, fields[|fields| - 1]);
      CountFieldsNext(m, a.nodes[id], b.nodes[id], id, fields);
    }
  }

  lemma {:induction false} HitSumStays(m: Measure, a: Graph, b: Graph, ids: seq<string>, id: string, fields: seq<Field>)
    requires id !in ids && (id !in a.nodes || id !in b.nodes)
    ensures HitSum(m, a, b, ids + [id], fields) == HitSum(m, a, b, ids, fields)
  {
    if |fields| > 0 {
      HitSumStays(m, a, b, ids, id, fields[..|fields| - 1]);
      HitNext(m, a, b, ids, id, fields[|fields| - 1]);
    }
  }

  lemma {:induction false} HitSumZero(m: Measure, a: Graph, b: Graph, fields: seq<Field>)
    ensures HitSum(m, a, b, [], fields) == 0
  {
    if |fields| > 0 {
      HitSumZero(m, a, b, fields[..|fields| - 1]);
    }
  }

  /** The node is in one graph only, and the measure counts that. */
  ghost predicate HitsAlone(m: Measure, a: Graph, b: Graph, id: string) {
    || (id in a.nodes && id !in b.nodes && Measures(m, RemovedEntry(a.nodes[id], id)))
    || (id !in a.nodes && id in b.nodes && Measures(m, AddedEntry(b.nodes[id], id)))
  }

  ghost function Alone(m: Measure, a: Graph, b: Graph, ids: seq<string>): set<string> {
    set id | id in ids && HitsAlone(m, a, b, id)
  }

  lemma AloneNext(m: Measure, a: Graph, b: Graph, ids: seq<string>, id: string)
    requires id !in ids
    ensures |Alone(m, a, b, ids + [id])| == |Alone(m, a, b, ids)| + if HitsAlone(m, a, b, id) then 1 else 0
  {
    GrowsBy(Alone(m, a, b, ids), Alone(m, a, b, ids + [id]), id, HitsAlone(m, a, b, id));
  }

  lemma CountAlone(m: Measure, a: Graph, b: Graph, id: string)
    requires id !in a.nodes || id !in b.nodes
    ensures Count(m, NodeEntries(a, b, id)) == if HitsAlone(m, a, b, id) then 1 else 0
  {
    if id in a.nodes {
      CountOne(m, RemovedEntry(a.nodes[id], id));
    } else if id in b.nodes {
      CountOne(m, AddedEntry(b.nodes[id], id));
    }
  }

  /** The changes of the nodes that a measure counts, field by field and graph by graph. */
  lemma {:induction false} CountNodes(m: Measure, a: Graph, b: Graph, ids: seq<string>)
    requires forall i, j | 0 <= i < j < |ids| :: ids[i] != ids[j]
    ensures Count(m, NodePart(a, b, ids)) == HitSum(m, a, b, ids, FIELDS) + |Alone(m, a, b, ids)|
  {
    if |ids| == 0 {
      HitSumZero(m, a, b, FIELDS);
      assert Alone(m, a, b, ids) == {};
    } else {
      var front, id := ids[..|ids| - 1], ids[|ids| - 1];
      CountNodes(m, a, b, front);
      CountNodesNext(m, a, b, front, id);
      AloneNext(m, a, b, front, id);
      assert front + [id] == ids;
      if id in a.nodes && id in b.nodes {
        HitSumNext(m, a, b, front, id, FIELDS);
      } else {
        HitSumStays(m, a, b, front, id, FIELDS);
        CountAlone(m, a, b, id);
      }
    }
  }

  ghost function Sum(size: Field -> nat, fields: seq<Field>): nat {
    if |fields| == 0 then 0 else Sum(size, fields[..|fields| - 1]) + size(fields[|fields| - 1])
  }

  /** The sum over the eleven fields. */
  ghost function Total(size: Field -> nat): nat {
    size(Kind) + size(Label) + size(ValuePreview) + size(RawPreview) + size(Confidence) + size(Review) + size(Page) + size(Bbox)
    + size(SourceRefs) + size(FieldPath) + size(Edition)
  }

  lemma SumStep(size: Field -> nat, fields: seq<Field>, n: nat)
    requires n < |fields|
    ensures Sum(size, fields[..n + 1]) == Sum(size, fields[..n]) + size(fields[n])
  {
    assert fields[..n + 1][..n] == fields[..n];
  }

  lemma SumOfFour(size: Field -> nat, fields: seq<Field>, n: nat)
    requires n + 4 <= |fields|
    ensures Sum(size, fields[..n + 4])
            == Sum(size, fields[..n]) + size(fields[n]) + size(fields[n + 1]) + size(fields[n + 2]) + size(fields[n + 3])
  {
    SumStep(size, fields, n);
    SumStep(size, fields, n + 1);
    SumStep(size, fields, n + 2);
    SumStep(size, fields, n + 3);
  }

  lemma SumOfThree(size: Field -> nat, fields: seq<Field>, n: nat)
    requires n + 3 == |fields|
    ensures Sum(size, fields) == Sum(size, fields[..n]) + size(fields[n]) + size(fields[n + 1]) + size(fields[n + 2])
  {
    assert fields[..n + 3] == fields;
    SumStep(size, fields, n);
    SumStep(size, fields, n + 1);
    SumStep(size, fields, n + 2);
  }

  lemma SumIsTotal(size: Field -> nat)
    ensures Sum(size, FIELDS) == Total(size)
  {
    assert FIELDS[..0] == [];
    SumOfFour(size, FIELDS, 0);
    SumOfFour(size, FIELDS, 4);
    SumOfThree(size, FIELDS, 8);
  }

  lemma {:induction false} HitSumIs(m: Measure, a: Graph, b: Graph, ids: seq<string>, size: Field -> nat, fields: seq<Field>)
    requires forall f :: HitSize(m, a, b, ids, f) == size(f)
    ensures HitSum(m, a, b, ids, fields) == Sum(size, fields)
  {
    if |fields| > 0 {
      HitSumIs(m, a, b, ids, size, fields[..|fields| - 1]);
    }
  }

  lemma HitSumTotal(m: Measure, a: Graph, b: Graph, ids: seq<string>, size: Field -> nat)
    requires forall f :: HitSize(m, a, b, ids, f) == size(f)
    ensures HitSum(m, a, b, ids, FIELDS) == Total(size)
  {
    HitSumIs(m, a, b, ids, size, FIELDS);
    SumIsTotal(size);
  }

  // ----- The severe changes -----

  lemma AsNumberIs(v: Value)
    ensures NumberOrZero(v) == AsNumber(v)
  {
  }

  /** The nodes with a severe change of the field. */
  ghost function SevereAt(a: Graph, b: Graph, f: Field): set<string> {
    if f == ValuePreview || f == RawPreview then Changed(a, b, f) else if f == Confidence then Jumped(a, b) else {}
  }

  ghost function SevereSize(f: Field, changed: Field -> nat, jumped: nat): nat {
    if f == ValuePreview || f == RawPreview then changed(f) else if f == Confidence then jumped else 0
  }

  lemma SevereHit(a: Graph, b: Graph, id: string, f: Field)
    ensures Hits(OfHigh, a, b, id, f) <==> id in SevereAt(a, b, f)
  {
    if id in a.nodes && id in b.nodes {
      AsNumberIs(GetField(a.nodes[id], f));
      AsNumberIs(GetField(b.nodes[id], f));
    }
  }

  /** Only these three fields, and of them the confidence only by far, give severe changes. */
  lemma SevereHits(a: Graph, b: Graph, ids: seq<string>, f: Field)
    requires Lists(ids, a.nodes.Keys + b.nodes.Keys)
    ensures HitSize(OfHigh, a, b, ids, f) == |SevereAt(a, b, f)|
  {
    forall id ensures id in Hit(OfHigh, a, b, ids, f) <==> id in SevereAt(a, b, f) {
      SevereHit(a, b, id, f);
    }
    assert Hit(OfHigh, a, b, ids, f) == SevereAt(a, b, f);
  }

  lemma SevereSum(a: Graph, b: Graph, ids: seq<string>)
    requires Lists(ids, a.nodes.Keys + b.nodes.Keys)
    ensures HitSum(OfHigh, a, b, ids, FIELDS) == |Changed(a, b, ValuePreview)| + |Changed(a, b, RawPreview)| + |Jumped(a, b)|
  {
    var changed: Field -> nat := f => |Changed(a, b, f)|;
    var jumped := |Jumped(a, b)|;
    var size: Field -> nat := f => SevereSize(f, changed, jumped);
    forall f ensures HitSize(OfHigh, a, b, ids, f) == size(f) {
      SevereHits(a, b, ids, f);
    }
    HitSumTotal(OfHigh, a, b, ids, size);
    SevereTotalIs(changed, jumped, size);
  }

  lemma SevereTotalIs(changed: Field -> nat, jumped: nat, size: Field -> nat)
    requires forall f :: size(f) == SevereSize(f, changed, jumped)
    ensures Total(size) == changed(ValuePreview) + changed(RawPreview) + jumped
  {
  }

  /** The severe changes, in any order of the visit: values and raw values that differ, confidences that jump, and the
      decision. */
  lemma SevereCount(a: Graph, b: Graph, v: Visit)
    requires Visits(v, a, b)
    ensures Count(OfHigh, AllEntries(a, b, v)) == Severe(a, b)
  {
    CountAll(OfHigh, a, b, v);
    CountNodes(OfHigh, a, b, v.ids);
    SevereSum(a, b, v.ids);
    NobodyAlone(a, b, v.ids);
    CountEdges(OfHigh, EdgeAdded, v.added);
    CountEdges(OfHigh, EdgeRemoved, v.removed);
    CountDecision(OfHigh, a, b);
  }

  lemma NobodyAlone(a: Graph, b: Graph, ids: seq<string>)
    ensures Alone(OfHigh, a, b, ids) == {}
  {
  }

  lemma CountDecision(m: Measure, a: Graph, b: Graph)
    ensures Count(m, DecisionPart(a, b)) ==
            if a.decision != b.decision && Measures(m, Entry(DecisionChanged, High, "", None, a.decision, b.decision)) then 1 else 0
  {
    if a.decision != b.decision {
      CountOne(m, Entry(DecisionChanged, High, "", None, a.decision, b.decision));
    }
  }

  // ----- The status -----

  /** The graphs agree on the ids of their nodes, all fields, the endpoints of the edges, and the decision. */
  ghost predicate NothingChanged(a: Graph, b: Graph) {
    && a.nodes.Keys == b.nodes.Keys
    && (forall id, f | id in a.nodes :: ValueOf(a.nodes[id], f) == ValueOf(b.nodes[id], f))
    && EdgeKeys(a) == EdgeKeys(b) && a.decision == b.decision
  }

  lemma EveryFieldIsCompared(f: Field)
    ensures f in FIELDS
  {
    assert FIELDS[0] == Kind && FIELDS[1] == Label && FIELDS[2] == ValuePreview && FIELDS[3] == RawPreview;
    assert FIELDS[4] == Confidence && FIELDS[5] == Review && FIELDS[6] == Page && FIELDS[7] == Bbox;
    assert FIELDS[8] == SourceRefs && FIELDS[9] == FieldPath && FIELDS[10] == Edition;
  }

  lemma AgreeIff(a: Graph, b: Graph)
    ensures Agree(a, b) <==> NothingChanged(a, b)
  {
    forall f: Field ensures f in FIELDS {
      EveryFieldIsCompared(f);
    }
    if Agree(a, b) {
      forall id, f | id in a.nodes ensures ValueOf(a.nodes[id], f) == ValueOf(b.nodes[id], f) {
        assert AgreeOn(a.nodes[id], b.nodes[id], FIELDS);
        assert GetField(a.nodes[id], f) == GetField(b.nodes[id], f);
      }
    }
    if NothingChanged(a, b) {
      forall id, f | id in a.nodes ensures GetField(a.nodes[id], f) == GetField(b.nodes[id], f) {
        assert ValueOf(a.nodes[id], f) == ValueOf(b.nodes[id], f);
      }
    }
  }

  /** What `diff_graphs` sets as the status of two graphs. */
  ghost predicate IsStatus(a: Graph, b: Graph, allowed: int, status: Status) {
    exists v :: Visits(v, a, b) && status == StatusOf(Count(OfHigh, AllEntries(a, b, v)), |AllEntries(a, b, v)|, allowed)
  }

  /** The gate fails exactly if there are more severe changes than allowed, warns exactly if there are not but something
      has changed, and passes exactly if nothing has. */
  lemma StatusIff(a: Graph, b: Graph, allowed: int, status: Status)
    requires IsStatus(a, b, allowed, status)
    ensures status == Fail <==> Severe(a, b) > allowed
    ensures status == Warning <==> Severe(a, b) <= allowed && !NothingChanged(a, b)
    ensures status == Pass <==> Severe(a, b) <= allowed && NothingChanged(a, b)
  {
    var v :| Visits(v, a, b) && status == StatusOf(Count(OfHigh, AllEntries(a, b, v)), |AllEntries(a, b, v)|, allowed);
    SevereCount(a, b, v);
    NoChangeIffAgree(a, b, v);
    AgreeIff(a, b);
  }

  /** With no severe change allowed, one different value, raw value or decision, or one confidence that jumps, fails. */
  lemma FailsIff(a: Graph, b: Graph, status: Status)
    requires IsStatus(a, b, 0, status)
    ensures status == Fail <==>
            || a.decision != b.decision
            || (exists id :: id in Changed(a, b, ValuePreview)) || (exists id :: id in Changed(a, b, RawPreview))
            || (exists id :: id in Jumped(a, b))
  {
    StatusIff(a, b, 0, status);
    EmptyIff(Changed(a, b, ValuePreview));
    EmptyIff(Changed(a, b, RawPreview));
    EmptyIff(Jumped(a, b));
  }

  lemma EmptyIff(s: set<string>)
    ensures |s| > 0 <==> exists id :: id in s
  {
    if |s| > 0 {
      var id :| id in s;
    }
  }

  ghost function Rank(status: Status): nat {
    match status
    case Pass => 0
    case Warning => 1
    case Fail => 2
  }

  /** A larger budget never makes the status worse, and does not turn a warning into a pass. */
  lemma LargerBudget(a: Graph, b: Graph, allowed: int, more: int, status: Status, status': Status)
    requires allowed <= more && IsStatus(a, b, allowed, status) && IsStatus(a, b, more, status')
    ensures Rank(status') <= Rank(status) && (status == Warning ==> status' == Warning)
  {
    StatusIff(a, b, allowed, status);
    StatusIff(a, b, more, status');
  }

  // ----- The counters -----

  /** The fields of a kind of change. */
  ghost function KindOfField(f: Field): ChangeKind {
    if f == Confidence then ConfidenceChanged
    else if f == Bbox then BboxChanged
    else if f == Review then ReviewChanged
    else if f == ValuePreview || f == RawPreview then FieldValueChanged
    else NodeChanged
  }

  lemma KindHit(a: Graph, b: Graph, id: string, kind: ChangeKind, f: Field)
    ensures Hits(OfKind(kind), a, b, id, f) <==> kind == KindOfField(f) && id in Changed(a, b, f)
  {
  }

  ghost function KindAt(a: Graph, b: Graph, kind: ChangeKind, f: Field): set<string> {
    if kind == KindOfField(f) then Changed(a, b, f) else {}
  }

  ghost function KindSize(a: Graph, b: Graph, kind: ChangeKind, f: Field): nat {
    if kind == KindOfField(f) then |Changed(a, b, f)| else 0
  }

  lemma KindHits(a: Graph, b: Graph, ids: seq<string>, kind: ChangeKind, f: Field)
    requires Lists(ids, a.nodes.Keys + b.nodes.Keys)
    ensures HitSize(OfKind(kind), a, b, ids, f) == KindSize(a, b, kind, f)
  {
    KindHitsAre(a, b, ids, kind, f);
  }

  lemma KindHitsAre(a: Graph, b: Graph, ids: seq<string>, kind: ChangeKind, f: Field)
    requires Lists(ids, a.nodes.Keys + b.nodes.Keys)
    ensures Hit(OfKind(kind), a, b, ids, f) == KindAt(a, b, kind, f)
  {
    forall id ensures id in Hit(OfKind(kind), a, b, ids, f) <==> id in KindAt(a, b, kind, f) {
      KindHit(a, b, id, kind, f);
    }
  }

  lemma KindSum(a: Graph, b: Graph, ids: seq<string>, kind: ChangeKind)
    requires Lists(ids, a.nodes.Keys + b.nodes.Keys)
    ensures HitSum(OfKind(kind), a, b, ids, FIELDS) == KindTotal(kind, f => |Changed(a, b, f)|)
  {
    var changed: Field -> nat := f => |Changed(a, b, f)|;
    var size: Field -> nat := f => if kind == KindOfField(f) then changed(f) else 0;
    forall f ensures HitSize(OfKind(kind), a, b, ids, f) == size(f) {
      KindHits(a, b, ids, kind, f);
    }
    HitSumTotal(OfKind(kind), a, b, ids, size);
    KindTotalIs(kind, changed, size);
  }

  /** The changes of a kind, given for each field how many nodes differ in it. */
  ghost function KindTotal(kind: ChangeKind, changed: Field -> nat): nat {
    match kind
    case FieldValueChanged => changed(ValuePreview) + changed(RawPreview)
    case ConfidenceChanged => changed(Confidence)
    case BboxChanged => changed(Bbox)
    case ReviewChanged => changed(Review)
    case NodeChanged =>
      changed(Kind) + changed(Label) + changed(Page) + changed(SourceRefs) + changed(FieldPath) + changed(Edition)
    case _ => 0
  }

  lemma KindTotalIs(kind: ChangeKind, changed: Field -> nat, size: Field -> nat)
    requires forall f :: size(f) == if kind == KindOfField(f) then changed(f) else 0
    ensures Total(size) == KindTotal(kind, changed)
  {
  }

  /** The changes of a kind that nodes in one graph only give. */
  ghost function AloneTotal(a: Graph, b: Graph, kind: ChangeKind): nat {
    if kind == NodeAdded then |b.nodes.Keys - a.nodes.Keys| else if kind == NodeRemoved then |a.nodes.Keys - b.nodes.Keys| else 0
  }

  lemma AloneIs(a: Graph, b: Graph, ids: seq<string>, kind: ChangeKind)
    requires Lists(ids, a.nodes.Keys + b.nodes.Keys)
    ensures |Alone(OfKind(kind), a, b, ids)| == AloneTotal(a, b, kind)
  {
    assert Alone(OfKind(kind), a, b, ids) == if kind == NodeAdded then b.nodes.Keys - a.nodes.Keys
                                             else if kind == NodeRemoved then a.nodes.Keys - b.nodes.Keys else {};
  }

  /** The changes of a kind that edges and the decision give. */
  ghost function RestTotal(a: Graph, b: Graph, kind: ChangeKind): nat {
    match kind
    case EdgeAdded => |EdgeKeys(b) - EdgeKeys(a)|
    case EdgeRemoved => |EdgeKeys(a) - EdgeKeys(b)|
    case DecisionChanged => if a.decision != b.decision then 1 else 0
    case _ => 0
  }

  lemma RestIs(a: Graph, b: Graph, v: Visit, kind: ChangeKind)
    requires Visits(v, a, b)
    ensures Count(OfKind(kind), EdgePart(EdgeAdded, v.added)) + Count(OfKind(kind), EdgePart(EdgeRemoved, v.removed))
            + Count(OfKind(kind), DecisionPart(a, b)) == RestTotal(a, b, kind)
  {
    CountEdges(OfKind(kind), EdgeAdded, v.added);
    CountEdges(OfKind(kind), EdgeRemoved, v.removed);
    ListsLength(v.added, EdgeKeys(b) - EdgeKeys(a));
    ListsLength(v.removed, EdgeKeys(a) - EdgeKeys(b));
    CountDecision(OfKind(kind), a, b);
  }

  /** Every counter of the summary, on the graphs: fields that differ, by their kind; nodes and edges in one graph only;
      and the decision. */
  lemma CounterIs(a: Graph, b: Graph, v: Visit, kind: ChangeKind)
    requires Visits(v, a, b)
    ensures Count(OfKind(kind), AllEntries(a, b, v)) == KindTotal(kind, f => |Changed(a, b, f)|) + AloneTotal(a, b, kind) + RestTotal(a, b, kind)
  {
    CountAll(OfKind(kind), a, b, v);
    CountNodes(OfKind(kind), a, b, v.ids);
    KindSum(a, b, v.ids, kind);
    AloneIs(a, b, v.ids, kind);
    RestIs(a, b, v, kind);
  }

  /** An edge goes from `from` to `to`, or by the other names of these keys, or from and to nowhere. */
  lemma EndpointsFallBack(e: Edge, x: string, y: string)
    ensures e.origin == Some(x) && e.target == Some(y) ==> KeyOf(e) == (x, y)
    ensures e.origin == None && e.originNode == Some(x) && e.target == None && e.targetNode == Some(y) ==> KeyOf(e) == (x, y)
    ensures e.origin == None && e.originNode == None && e.target == None && e.targetNode == None ==> KeyOf(e) == ("", "")
  {
  }

  // ----- The changes one by one -----

  ghost function LabelText(n: Node): Value {
    if Label in n then n[Label] else Text("")
  }

  /** The change of a field of a node in both graphs. */
  ghost function FieldChange(b: Node, c: Node, id: string, f: Field): Entry {
    var severity :=
      if f == ValuePreview || f == RawPreview || (f == Confidence && FarApart(ValueOf(b, f), ValueOf(c, f))) then High
      else if f == Confidence || f == Bbox || f == Review then Medium else Low;
    Entry(KindOfField(f), severity, id, Some(f), ValueOf(b, f), ValueOf(c, f))
  }

  ghost function RemovedSeverity(n: Node): Severity {
    if Kind in n && (n[Kind] == Text("field") || n[Kind] == Text("table") || n[Kind] == Text("cell")) then Medium else Low
  }

  /** The changes that concern a node. */
  ghost predicate ConcernsNode(a: Graph, b: Graph, id: string, e: Entry) {
    || (id !in a.nodes && id in b.nodes && e == Entry(NodeAdded, Low, id, None, Nothing, LabelText(b.nodes[id])))
    || (id in a.nodes && id !in b.nodes
        && e == Entry(NodeRemoved, RemovedSeverity(a.nodes[id]), id, None, LabelText(a.nodes[id]), Nothing))
    || (exists f :: id in Changed(a, b, f) && e == FieldChange(a.nodes[id], b.nodes[id], id, f))
  }

  ghost predicate ConcernsEdge(a: Graph, b: Graph, key: EdgeKey, e: Entry) {
    || (key in EdgeKeys(b) && key !in EdgeKeys(a) && e == Entry(EdgeAdded, Low, key.0 + " -> " + key.1, None, Nothing, Nothing))
    || (key in EdgeKeys(a) && key !in EdgeKeys(b) && e == Entry(EdgeRemoved, Low, key.0 + " -> " + key.1, None, Nothing, Nothing))
  }

  ghost predicate IsChange(a: Graph, b: Graph, e: Entry) {
    || (exists id :: ConcernsNode(a, b, id, e)) || (exists key :: ConcernsEdge(a, b, key, e))
    || (a.decision != b.decision && e == Entry(DecisionChanged, High, "", None, a.decision, b.decision))
  }

  lemma FieldChangeIs(b: Node, c: Node, id: string, f: Field)
    ensures FieldEntry(b, c, id, f) == FieldChange(b, c, id, f)
  {
    AsNumberIs(GetField(b, f));
    AsNumberIs(GetField(c, f));
  }

  lemma {:induction false} FieldEntryFrom(b: Node, c: Node, id: string, fields: seq<Field>, e: Entry) returns (f: Field)
    requires e in FieldEntries(b, c, id, fields)
    ensures f in fields && Differ(b, c, f) && e == FieldEntry(b, c, id, f)
  {
    f := fields[|fields| - 1];
    if e in FieldEntries(b, c, id, fields[..|fields| - 1]) {
      f := FieldEntryFrom(b, c, id, fields[..|fields| - 1], e);
    }
  }

  lemma NodeChangeIff(a: Graph, b: Graph, id: string, e: Entry)
    ensures e in NodeEntries(a, b, id) <==> ConcernsNode(a, b, id, e)
  {
    if id in a.nodes && id in b.nodes {
      if e in NodeEntries(a, b, id) {
        var f := FieldEntryFrom(a.nodes[id], b.nodes[id], id, FIELDS, e);
        FieldChangeIs(a.nodes[id], b.nodes[id], id, f);
        assert id in Changed(a, b, f);
      }
      if ConcernsNode(a, b, id, e) {
        var f :| id in Changed(a, b, f) && e == FieldChange(a.nodes[id], b.nodes[id], id, f);
        FieldChangeIs(a.nodes[id], b.nodes[id], id, f);
        EveryFieldIsCompared(f);
        DifferenceReported(a.nodes[id], b.nodes[id], id, FIELDS, f);
      }
    }
  }

  lemma {:induction false} NodePartIff(a: Graph, b: Graph, ids: seq<string>, e: Entry)
    ensures e in NodePart(a, b, ids) <==> exists id :: id in ids && e in NodeEntries(a, b, id)
  {
    if |ids| > 0 {
      var front, id := ids[..|ids| - 1], ids[|ids| - 1];
      NodePartIff(a, b, front, e);
      assert forall x :: x in ids <==> x in front || x == id;
    }
  }

  lemma {:induction false} EdgePartIff(kind: ChangeKind, keys: seq<EdgeKey>, e: Entry)
    ensures e in EdgePart(kind, keys) <==> exists key :: key in keys && e == EdgeEntry(kind, key)
  {
    if |keys| > 0 {
      var front, key := keys[..|keys| - 1], keys[|keys| - 1];
      EdgePartIff(kind, front, e);
      assert forall x :: x in keys <==> x in front || x == key;
    }
  }

  lemma NodesIff(a: Graph, b: Graph, v: Visit, e: Entry)
    requires Visits(v, a, b)
    ensures e in NodePart(a, b, v.ids) <==> exists id :: ConcernsNode(a, b, id, e)
  {
    NodePartIff(a, b, v.ids, e);
    forall id ensures e in NodeEntries(a, b, id) <==> ConcernsNode(a, b, id, e) {
      NodeChangeIff(a, b, id, e);
    }
    if exists id :: ConcernsNode(a, b, id, e) {
      var id :| ConcernsNode(a, b, id, e);
      assert id in v.ids && e in NodeEntries(a, b, id);
    }
  }

  lemma EdgesIff(a: Graph, b: Graph, v: Visit, e: Entry)
    requires Visits(v, a, b)
    ensures e in EdgePart(EdgeAdded, v.added) || e in EdgePart(EdgeRemoved, v.removed) <==> exists key :: ConcernsEdge(a, b, key, e)
  {
    EdgePartIff(EdgeAdded, v.added, e);
    EdgePartIff(EdgeRemoved, v.removed, e);
    if exists key :: ConcernsEdge(a, b, key, e) {
      var key :| ConcernsEdge(a, b, key, e);
      if key in EdgeKeys(b) {
        assert key in v.added && e == EdgeEntry(EdgeAdded, key);
      } else {
        assert key in v.removed && e == EdgeEntry(EdgeRemoved, key);
      }
    }
    if key :| key in v.added && e == EdgeEntry(EdgeAdded, key) {
      assert ConcernsEdge(a, b, key, e);
    }
    if key :| key in v.removed && e == EdgeEntry(EdgeRemoved, key) {
      assert ConcernsEdge(a, b, key, e);
    }
  }

  /** What is reported are exactly the changes of nodes, fields, edges and the decision, each with its kind and severity. */
  lemma ReportedIff(a: Graph, b: Graph, v: Visit, e: Entry)
    requires Visits(v, a, b)
    ensures e in AllEntries(a, b, v) <==> IsChange(a, b, e)
  {
    NodesIff(a, b, v, e);
    EdgesIff(a, b, v, e);
  }

  // ----- The overlay -----

  /** What is drawn for a node: its box, if it has one and is on a page. */
  ghost predicate DrawsBox(n: Node, id: string, kind: ChangeKind, severity: Severity, o: Overlay) {
    var box, page := ValueOf(n, Bbox), AsNumber(ValueOf(n, Page));
    AsNumber(box) != Some(0.0) && page.Some? && page.value > 0.0 && o == Overlay(id, page.value, box, kind, severity)
  }

  /** Nodes of one graph and moved nodes are drawn, the latter where the candidate has them. */
  ghost predicate DrawsNode(a: Graph, b: Graph, id: string, o: Overlay) {
    || (id !in a.nodes && id in b.nodes && DrawsBox(b.nodes[id], id, NodeAdded, Low, o))
    || (id in a.nodes && id !in b.nodes && DrawsBox(a.nodes[id], id, NodeRemoved, RemovedSeverity(a.nodes[id]), o))
    || (id in Changed(a, b, Bbox) && DrawsBox(b.nodes[id], id, BboxChanged, Medium, o))
  }

  lemma TruthyIff(v: Value)
    ensures Truthy(v) <==> AsNumber(v) != Some(0.0)
  {
  }

  lemma DrawsBoxIff(n: Node, id: string, kind: ChangeKind, severity: Severity, o: Overlay)
    ensures o in Drawn(OverlayOf(id, n, kind, severity)) <==> DrawsBox(n, id, kind, severity, o)
  {
    TruthyIff(GetField(n, Bbox));
    AsNumberIs(GetField(n, Page));
  }

  lemma DrawsNodeIff(a: Graph, b: Graph, id: string, o: Overlay)
    ensures o in Drawn(NodeOverlay(a, b, id)) <==> DrawsNode(a, b, id, o)
  {
    if id in a.nodes && id in b.nodes {
      DrawsBoxIff(b.nodes[id], id, BboxChanged, Medium, o);
    } else if id in a.nodes {
      DrawsBoxIff(a.nodes[id], id, NodeRemoved, RemovedSeverity(a.nodes[id]), o);
    } else if id in b.nodes {
      DrawsBoxIff(b.nodes[id], id, NodeAdded, Low, o);
    }
  }

  lemma {:induction false} OverlayPartIff(a: Graph, b: Graph, ids: seq<string>, o: Overlay)
    ensures o in OverlayPart(a, b, ids) <==> exists id :: id in ids && DrawsNode(a, b, id, o)
  {
    if |ids| > 0 {
      var front, id := ids[..|ids| - 1], ids[|ids| - 1];
      OverlayPartIff(a, b, front, o);
      DrawsNodeIff(a, b, id, o);
      assert forall x :: x in ids <==> x in front || x == id;
    }
  }

  /** What is drawn are exactly these boxes. */
  lemma DrawnIff(a: Graph, b: Graph, v: Visit, o: Overlay)
    requires Visits(v, a, b)
    ensures o in OverlayPart(a, b, v.ids) <==> exists id :: DrawsNode(a, b, id, o)
  {
    OverlayPartIff(a, b, v.ids, o);
    if exists id :: DrawsNode(a, b, id, o) {
      var id :| DrawsNode(a, b, id, o);
      assert id in v.ids;
    }
  }

  // ----- Exceptions -----

  /** Drawing the box of a node raises: its page is neither empty nor a number. */
  ghost predicate BadPage(n: Node) {
    AsNumber(ValueOf(n, Bbox)) != Some(0.0) && AsNumber(ValueOf(n, Page)).None?
  }

  /** The comparison raises exactly if two different confidences are not both numbers or empty, or a page is no number where
      a box is to be drawn. */
  ghost predicate RaisesAt(a: Graph, b: Graph, id: string) {
    || (id in Changed(a, b, Confidence)
        && (AsNumber(ValueOf(a.nodes[id], Confidence)).None? || AsNumber(ValueOf(b.nodes[id], Confidence)).None?))
    || (id in Changed(a, b, Bbox) && BadPage(b.nodes[id]))
    || (id in a.nodes && id !in b.nodes && BadPage(a.nodes[id]))
    || (id !in a.nodes && id in b.nodes && BadPage(b.nodes[id]))
  }

  lemma BadPageIff(n: Node, id: string, kind: ChangeKind, severity: Severity)
    ensures OverlayOf(id, n, kind, severity).None? <==> BadPage(n)
  {
    TruthyIff(GetField(n, Bbox));
    AsNumberIs(GetField(n, Page));
  }

  lemma FieldRaisesIff(b: Node, c: Node, f: Field)
    ensures FieldRaises(b, c, f) <==>
            && ValueOf(b, f) != ValueOf(c, f)
            && ((f == Confidence && (AsNumber(ValueOf(b, f)).None? || AsNumber(ValueOf(c, f)).None?)) || (f == Bbox && BadPage(c)))
  {
    AsNumberIs(GetField(b, f));
    AsNumberIs(GetField(c, f));
    BadPageIff(c, "", BboxChanged, Medium);
  }

  lemma NodeRaisesIff(a: Graph, b: Graph, id: string)
    ensures NodeRaises(a, b, id) <==> RaisesAt(a, b, id)
  {
    if id in a.nodes && id in b.nodes {
      forall f ensures f in FIELDS {
        EveryFieldIsCompared(f);
      }
      FieldRaisesIff(a.nodes[id], b.nodes[id], Confidence);
      FieldRaisesIff(a.nodes[id], b.nodes[id], Bbox);
    } else if id in a.nodes {
      BadPageIff(a.nodes[id], id, NodeRemoved, RemovalSeverity(a.nodes[id]));
    } else if id in b.nodes {
      BadPageIff(b.nodes[id], id, NodeAdded, Low);
    }
  }

  lemma RaisesIff(a: Graph, b: Graph)
    ensures Raises(a, b) <==> exists id :: RaisesAt(a, b, id)
  {
    forall id ensures NodeRaises(a, b, id) <==> RaisesAt(a, b, id) {
      NodeRaisesIff(a, b, id);
    }
  }

  /** The id of the n-th change: the number in four digits, or more if it has to be. */
  lemma DiffIdSays(n: nat)
    ensures exists c :: DiffId(n) == "diff_" + c && IsNumeral(c, n, 4)
  {
    PaddedIsNumeral(n, 4);
    assert DiffId(n) == "diff_" + Padded(n, 4);
  }
}
