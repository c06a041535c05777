/** `canonicalize_visual_graph` of docmirror/evidence/diff_canonicalizer.py: pages, node lists and edges sorted, numbers
    rounded. */
module CanonicalGraph {
  import opened Options
  import opened Sequences
  import opened Sorting
  import opened GraphDiff
  import opened GraphDiffLaws

  /** `number` is the page number, None when it is missing or null. */
  datatype PageRecord = PageRecord(number: Option<int>, nodes: seq<string>, rest: Value)

  datatype RawGraph = RawGraph(pages: seq<PageRecord>, nodes: map<string, Node>, edges: seq<Edge>, decision: Value)

  datatype Canonical = Canonical(pages: seq<PageRecord>, nodes: map<string, Node>, edges: seq<Edge>,
                                 nodeCount: nat, edgeCount: nat, pageCount: nat)

  /** `round` to two and to four places, `float` on strings, and the keys of a dictionary in the order of their insertion. */
  datatype Rounding = Rounding(two: real -> real, four: real -> real, parse: string -> Option<real>,
                               keys: map<string, Value> -> seq<string>)

  // ----- The orders -----

  predicate EdgeLe(a: Edge, b: Edge) {
    PairLe(KeyOf(a), KeyOf(b))
  }

  function PageNumber(p: PageRecord): int {
    if p.number.Some? then p.number.value else 0
  }

  predicate PageLe(a: PageRecord, b: PageRecord) {
    PageNumber(a) <= PageNumber(b)
  }

  lemma EdgeOrder()
    ensures TotalPreorder(EdgeLe)
  {
    PairOrder();
  }

  lemma PageOrder()
    ensures TotalPreorder(PageLe)
  {
  }

  // ----- Rounding -----

  function ToFloat(w: Rounding, v: Value): Option<real> {
    match v
    case Number(r) => Some(r)
    case Text(s) => w.parse(s)
    case _ => None
  }

  function RoundAll(w: Rounding, items: seq<Value>): Option<seq<Value>> {
    if |items| == 0 then Some([])
    else
      var front, last := RoundAll(w, items[..|items| - 1]), ToFloat(w, items[|items| - 1]);
      if front.None? || last.None? then None else Some(front.value + [Number(w.two(last.value))])
  }

  function Texts(s: seq<string>): seq<Value> {
    seq(|s|, i requires 0 <= i < |s| => Text(s[i]))
  }

  /** What a loop over a value sees: the elements of a list, the characters of a string, the keys of a dictionary; a number
      cannot be looped over. */
  function Elements(w: Rounding, v: Value): Option<seq<Value>> {
    match v
    case Items(items) => Some(items)
    case Text(s) => Some(Texts(seq(|s|, i requires 0 <= i < |s| => [s[i]])))
    case Record(fields) => Some(Texts(w.keys(fields)))
    case _ => None
  }

  function RoundBbox(w: Rounding, n: Node): Option<Node> {
    var bbox := GetField(n, Bbox);
    if !Truthy(bbox) then Some(n)
    else if Elements(w, bbox).None? || RoundAll(w, Elements(w, bbox).value).None? then None
    else Some(n[Bbox := Items(RoundAll(w, Elements(w, bbox).value).value)])
  }

  function RoundConfidence(w: Rounding, n: Node): Option<Node> {
    var confidence := GetField(n, Confidence);
    if confidence == Nothing then Some(n)
    else if ToFloat(w, confidence).None? then None
    else Some(n[Confidence := Number(w.four(ToFloat(w, confidence).value))])
  }

  /** The canonical form of a node; no value when a conversion raises. */
  function RoundNode(w: Rounding, n: Node): Option<Node> {
    if RoundBbox(w, n).None? then None else RoundConfidence(w, RoundBbox(w, n).value)
  }

  predicate CanRound(w: Rounding, g: RawGraph) {
    forall id | id in g.nodes :: RoundNode(w, g.nodes[id]).Some?
  }

  // ----- The canonical form -----

  function WithSortedNodes(p: PageRecord): PageRecord {
    p.(nodes := Sort(StringLe, p.nodes))
  }

  function AllWithSortedNodes(pages: seq<PageRecord>): (r: seq<PageRecord>)
    ensures |r| == |pages| && forall i | 0 <= i < |pages| :: r[i] == WithSortedNodes(pages[i])
  {
    seq(|pages|, i requires 0 <= i < |pages| => WithSortedNodes(pages[i]))
  }

  function RoundedNodes(w: Rounding, nodes: map<string, Node>): map<string, Node> {
    map id | id in nodes && RoundNode(w, nodes[id]).Some? :: RoundNode(w, nodes[id]).value
  }

  function CanonicalOf(w: Rounding, g: RawGraph): Canonical {
    Canonical(AllWithSortedNodes(Sort(PageLe, g.pages)), RoundedNodes(w, g.nodes), Sort(EdgeLe, g.edges),
              |g.nodes|, |g.edges|, |g.pages|)
  }

  lemma {:induction false} SortKeepsLength<T(!new)>(le: (T, T) -> bool, s: seq<T>)
    ensures |Sort(le, s)| == |s|
  {
    if |s| > 0 {
      SortKeepsLength(le, s[..|s| - 1]);
      InsertAddsOne(le, s[|s| - 1], Sort(le, s[..|s| - 1]));
    }
  }

  lemma {:induction false} InsertAddsOne<T(!new)>(le: (T, T) -> bool, m: T, s: seq<T>)
    ensures |Insert(le, m, s)| == |s| + 1
  {
    if |s| > 0 && !le(s[|s| - 1], m) {
      InsertAddsOne(le, m, s[..|s| - 1]);
    }
  }

  method RoundNodes(w: Rounding, nodes: map<string, Node>) returns (sorted: Option<map<string, Node>>)
    ensures sorted.Some? <==> forall id | id in nodes :: RoundNode(w, nodes[id]).Some?
    ensures sorted.Some? ==> sorted.value == RoundedNodes(w, nodes) && |sorted.value| == |nodes|
  {
    var done: map<string, Node> := map[];
    var todo := nodes.Keys;
    while todo != {}
      invariant todo <= nodes.Keys && done.Keys == nodes.Keys - todo
      invariant forall id | id in done :: RoundNode(w, nodes[id]) == Some(done[id])
      decreases todo
    {
      var id :| id in todo;
      var node := RoundNode(w, nodes[id]);
      if node.None? {
        return None;
      }
      done := done[id := node.value];
      todo := todo - {id};
    }
    assert done == RoundedNodes(w, nodes);
    assert |done.Keys| == |nodes.Keys|;
    sorted := Some(done);
  }

  /** `canonicalize_visual_graph`; no value stands for the exception. */
  method Canonicalize(w: Rounding, g: RawGraph) returns (r: Option<Canonical>)
    ensures r.Some? <==> CanRound(w, g)
    ensures r.Some? ==> r.value == CanonicalOf(w, g)
  {
    var pages := Sort(PageLe, g.pages);
    ghost var sortedPages := pages;
    SortKeepsLength(PageLe, g.pages);
    for i := 0 to |pages|
      invariant |pages| == |sortedPages|
      invariant forall j | 0 <= j < i :: pages[j] == WithSortedNodes(sortedPages[j])
      invariant forall j | i <= j < |pages| :: pages[j] == sortedPages[j]
    {
      pages := pages[i := pages[i].(nodes := Sort(StringLe, pages[i].nodes))];
    }
    assert pages == AllWithSortedNodes(sortedPages);
    var nodes := RoundNodes(w, g.nodes);
    if nodes.None? {
      return None;
    }
    var edges := Sort(EdgeLe, g.edges);
    SortKeepsLength(EdgeLe, g.edges);
    r := Some(Canonical(pages, nodes.value, edges, |nodes.value|, |edges|, |pages|));
  }

  // ----- What the canonical form forgets -----

  lemma {:induction false} InsertRewritten(m: PageRecord, s: seq<PageRecord>)
    ensures AllWithSortedNodes(Insert(PageLe, m, s)) == Insert(PageLe, WithSortedNodes(m), AllWithSortedNodes(s))
  {
    var rewritten := AllWithSortedNodes(s);
    if |s| == 0 || PageLe(s[|s| - 1], m) {
      assert AllWithSortedNodes(s + [m]) == rewritten + [WithSortedNodes(m)];
    } else {
      var front, last := s[..|s| - 1], s[|s| - 1];
      InsertRewritten(m, front);
      assert AllWithSortedNodes(front) == rewritten[..|rewritten| - 1];
      assert AllWithSortedNodes(Insert(PageLe, m, front) + [last]) == AllWithSortedNodes(Insert(PageLe, m, front)) + [WithSortedNodes(last)];
    }
  }

  /** Sorting the pages and sorting their node lists commute. */
  lemma {:induction false} SortRewritten(s: seq<PageRecord>)
    ensures AllWithSortedNodes(Sort(PageLe, s)) == Sort(PageLe, AllWithSortedNodes(s))
  {
    if |s| > 0 {
      var front := s[..|s| - 1];
      SortRewritten(front);
      InsertRewritten(s[|s| - 1], Sort(PageLe, front));
      assert AllWithSortedNodes(s)[..|s| - 1] == AllWithSortedNodes(front);
    }
  }

  /** Exactly which reorderings the canonical form hides: node lists in any order, pages as long as those with the same
      number keep their order, edges as long as those with the same endpoints keep theirs. */
  lemma SameCanonicalIff(w: Rounding, g: RawGraph, h: RawGraph)
    requires g.nodes == h.nodes
    ensures CanonicalOf(w, g) == CanonicalOf(w, h)
            <==> SameClasses(PageLe, AllWithSortedNodes(g.pages), AllWithSortedNodes(h.pages)) && SameClasses(EdgeLe, g.edges, h.edges)
  {
    PageOrder();
    EdgeOrder();
    SortRewritten(g.pages);
    SortRewritten(h.pages);
    SortEqualIff(PageLe, AllWithSortedNodes(g.pages), AllWithSortedNodes(h.pages));
    SortEqualIff(EdgeLe, g.edges, h.edges);
    SameLengths(g, h);
  }

  lemma SameLengths(g: RawGraph, h: RawGraph)
    ensures Sort(PageLe, AllWithSortedNodes(g.pages)) == Sort(PageLe, AllWithSortedNodes(h.pages)) ==> |g.pages| == |h.pages|
    ensures Sort(EdgeLe, g.edges) == Sort(EdgeLe, h.edges) ==> |g.edges| == |h.edges|
  {
    SortKeepsLength(PageLe, AllWithSortedNodes(g.pages));
    SortKeepsLength(PageLe, AllWithSortedNodes(h.pages));
    SortKeepsLength(EdgeLe, g.edges);
    SortKeepsLength(EdgeLe, h.edges);
  }

  lemma NodeListForgotten(p: PageRecord, q: PageRecord)
    requires p.number == q.number && p.rest == q.rest && forall id :: Times(p.nodes, id) == Times(q.nodes, id)
    ensures WithSortedNodes(p) == WithSortedNodes(q)
  {
    StringOrder();
    forall a, b | a in p.nodes && b in p.nodes && StringLe(a, b) && StringLe(b, a) ensures a == b {
      StringAntisymmetric(a, b);
    }
    SortForgetsOrder(StringLe, p.nodes, q.nodes);
  }

  /** Pages with distinct numbers, edges with distinct endpoints and node lists may come in any order. */
  lemma ReorderIsInvisible(w: Rounding, g: RawGraph, h: RawGraph)
    requires g.nodes == h.nodes
    requires forall p :: Times(AllWithSortedNodes(g.pages), p) == Times(AllWithSortedNodes(h.pages), p)
    requires forall p, q | p in g.pages && q in g.pages && PageNumber(p) == PageNumber(q) :: p == q
    requires forall e :: Times(g.edges, e) == Times(h.edges, e)
    requires forall e, f | e in g.edges && f in g.edges && KeyOf(e) == KeyOf(f) :: e == f
    ensures CanonicalOf(w, g) == CanonicalOf(w, h)
  {
    PageOrder();
    EdgeOrder();
    var pages := AllWithSortedNodes(g.pages);
    forall p, q | p in pages && q in pages && PageLe(p, q) && PageLe(q, p) ensures p == q {
      var i :| 0 <= i < |pages| && pages[i] == p;
      var j :| 0 <= j < |pages| && pages[j] == q;
      assert PageNumber(g.pages[i]) == PageNumber(g.pages[j]);
    }
    SortForgetsOrder(PageLe, pages, AllWithSortedNodes(h.pages));
    EdgesDecided(g.edges);
    SortForgetsOrder(EdgeLe, g.edges, h.edges);
    SortRewritten(g.pages);
    SortRewritten(h.pages);
    SameLengths(g, h);
  }

  lemma EdgesDecided(edges: seq<Edge>)
    requires forall e, f | e in edges && f in edges && KeyOf(e) == KeyOf(f) :: e == f
    ensures DecidesOn(EdgeLe, edges)
  {
    forall e, f | e in edges && f in edges && EdgeLe(e, f) && EdgeLe(f, e) ensures e == f {
      var a, b := KeyOf(e), KeyOf(f);
      if a.0 != b.0 {
        StringAntisymmetric(a.0, b.0);
        assert false;
      }
      StringAntisymmetric(a.1, b.1);
    }
  }

  /** Two pages with the same number are not put in order: swapping them shows. */
  lemma EqualNumbersShow(w: Rounding, p: PageRecord, q: PageRecord)
    requires PageNumber(p) == PageNumber(q) && WithSortedNodes(p) != WithSortedNodes(q)
    ensures CanonicalOf(w, RawGraph([p, q], map[], [], Nothing)) != CanonicalOf(w, RawGraph([q, p], map[], [], Nothing))
  {
    SortedPair(p, q);
    SortedPair(q, p);
  }

  lemma SortedPair(p: PageRecord, q: PageRecord)
    requires PageNumber(p) == PageNumber(q)
    ensures Sort(PageLe, [p, q]) == [p, q]
  {
    PageOrder();
    SortSorted(PageLe, [p, q]);
  }

  // ----- What a canonical graph looks like -----

  lemma {:induction false} RoundAllNumbers(w: Rounding, items: seq<Value>)
    requires forall i | 0 <= i < |items| :: items[i].Number?
    ensures var r := RoundAll(w, items);
            r.Some? && |r.value| == |items| && forall i | 0 <= i < |items| :: r.value[i] == Number(w.two(items[i].r))
  {
    if |items| > 0 {
      RoundAllNumbers(w, items[..|items| - 1]);
    }
  }

  /** A node keeps all fields but the box, whose coordinates are rounded to two places, and the confidence, which is rounded to
      four; an empty box and a missing confidence stay as they are. */
  lemma RoundedNodeIs(w: Rounding, n: Node, r: Node)
    requires RoundNode(w, n) == Some(r)
    ensures forall f | f != Bbox && f != Confidence :: (f in r <==> f in n) && (f in n ==> r[f] == n[f])
    ensures Bbox in n && n[Bbox].Items? && n[Bbox].items != [] && (forall i | 0 <= i < |n[Bbox].items| :: n[Bbox].items[i].Number?) ==>
              && Bbox in r && r[Bbox].Items? && |r[Bbox].items| == |n[Bbox].items|
              && forall i | 0 <= i < |r[Bbox].items| :: r[Bbox].items[i] == Number(w.two(n[Bbox].items[i].r))
    ensures Bbox !in n || n[Bbox] == Nothing || n[Bbox] == Items([]) ==> (Bbox in r <==> Bbox in n) && (Bbox in n ==> r[Bbox] == n[Bbox])
    ensures Confidence in n && n[Confidence].Number? ==> Confidence in r && r[Confidence] == Number(w.four(n[Confidence].r))
    ensures Confidence !in n || n[Confidence] == Nothing ==> (Confidence in r <==> Confidence in n)
  {
    if Bbox in n && n[Bbox].Items? && forall i | 0 <= i < |n[Bbox].items| :: n[Bbox].items[i].Number? {
      RoundAllNumbers(w, n[Bbox].items);
    }
  }

  /** The pages are in the order of their numbers, where a missing number counts as zero, and their node lists are those of the
      pages in the order of the ids. */
  lemma PagesInOrder(w: Rounding, g: RawGraph, i: nat, j: nat)
    requires i < j < |CanonicalOf(w, g).pages|
    ensures var p, q := CanonicalOf(w, g).pages[i].number, CanonicalOf(w, g).pages[j].number;
            (if p.Some? then p.value else 0) <= (if q.Some? then q.value else 0)
    ensures SortedBy(StringLe, CanonicalOf(w, g).pages[i].nodes)
  {
    PageOrder();
    StringOrder();
    SortSorts(PageLe, g.pages);
    SortSorts(StringLe, Sort(PageLe, g.pages)[i].nodes);
  }

  // ----- Canonicalizing twice -----

  ghost predicate RoundsOnce(w: Rounding) {
    (forall r :: w.two(w.two(r)) == w.two(r)) && forall r :: w.four(w.four(r)) == w.four(r)
  }

  lemma {:induction false} RoundAllTwice(w: Rounding, items: seq<Value>)
    requires RoundsOnce(w) && RoundAll(w, items).Some?
    ensures |RoundAll(w, items).value| == |items| && RoundAll(w, RoundAll(w, items).value) == RoundAll(w, items)
  {
    if |items| > 0 {
      var front := RoundAll(w, items[..|items| - 1]).value;
      RoundAllTwice(w, items[..|items| - 1]);
      var all := RoundAll(w, items).value;
      var last := ToFloat(w, items[|items| - 1]).value;
      assert all[..|all| - 1] == front && all[|all| - 1] == Number(w.two(last));
      assert w.two(w.two(last)) == w.two(last);
    }
  }

  lemma RoundNodeTwice(w: Rounding, n: Node)
    requires RoundsOnce(w) && RoundNode(w, n).Some?
    ensures RoundNode(w, RoundNode(w, n).value) == RoundNode(w, n)
  {
    var bbox := GetField(n, Bbox);
    if Truthy(bbox) {
      RoundAllTwice(w, Elements(w, bbox).value);
    }
    var once := RoundNode(w, n).value;
    assert GetField(once, Bbox) == GetField(RoundBbox(w, n).value, Bbox);
    RoundBboxTwice(w, n, once);
    var confidence := GetField(RoundBbox(w, n).value, Confidence);
    if confidence != Nothing {
      var c := ToFloat(w, confidence).value;
      assert GetField(once, Confidence) == Number(w.four(c)) && w.four(w.four(c)) == w.four(c);
      assert once[Confidence := Number(w.four(c))] == once;
    }
  }

  lemma RoundBboxTwice(w: Rounding, n: Node, once: Node)
    requires RoundsOnce(w) && RoundNode(w, n) == Some(once)
    ensures RoundBbox(w, once) == Some(once)
  {
    var bbox := GetField(n, Bbox);
    if Truthy(bbox) {
      RoundAllTwice(w, Elements(w, bbox).value);
      assert GetField(once, Bbox) == Items(RoundAll(w, Elements(w, bbox).value).value);
      assert once[Bbox := GetField(once, Bbox)] == once;
    }
  }

  /** The canonical form as an input. */
  function AsRaw(c: Canonical): RawGraph {
    RawGraph(c.pages, c.nodes, c.edges, Nothing)
  }

  /** Canonicalizing a canonical graph changes nothing. */
  lemma CanonicalizeTwice(w: Rounding, g: RawGraph)
    requires RoundsOnce(w) && CanRound(w, g)
    ensures CanRound(w, AsRaw(CanonicalOf(w, g))) && CanonicalOf(w, AsRaw(CanonicalOf(w, g))) == CanonicalOf(w, g)
  {
    PageOrder();
    EdgeOrder();
    var c := CanonicalOf(w, g);
    forall id | id in c.nodes ensures RoundNode(w, c.nodes[id]) == Some(c.nodes[id]) {
      RoundNodeTwice(w, g.nodes[id]);
    }
    assert RoundedNodes(w, c.nodes) == c.nodes;
    assert c.nodes.Keys == g.nodes.Keys;
    SortedEdgesTwice(g.edges);
    SortedPagesTwice(g.pages);
    SortKeepsLength(PageLe, g.pages);
    SortKeepsLength(EdgeLe, g.edges);
  }

  lemma SortedEdgesTwice(edges: seq<Edge>)
    ensures Sort(EdgeLe, Sort(EdgeLe, edges)) == Sort(EdgeLe, edges)
  {
    EdgeOrder();
    SortSorts(EdgeLe, edges);
    SortSorted(EdgeLe, Sort(EdgeLe, edges));
  }

  lemma SortedPagesTwice(pages: seq<PageRecord>)
    ensures var once := AllWithSortedNodes(Sort(PageLe, pages)); AllWithSortedNodes(Sort(PageLe, once)) == once
  {
    PageOrder();
    SortRewritten(pages);
    var once := AllWithSortedNodes(Sort(PageLe, pages));
    SortSorts(PageLe, AllWithSortedNodes(pages));
    SortSorted(PageLe, once);
    NodesSortedOnce(Sort(PageLe, pages), once);
  }

  lemma NodesSortedOnce(pages: seq<PageRecord>, once: seq<PageRecord>)
    requires once == AllWithSortedNodes(pages)
    ensures AllWithSortedNodes(once) == once
  {
    StringOrder();
    forall i | 0 <= i < |once| ensures WithSortedNodes(once[i]) == once[i] {
      SortSorts(StringLe, pages[i].nodes);
      SortSorted(StringLe, once[i].nodes);
    }
  }

  // ----- Canonical graphs under the diff -----

  /** What `diff_graphs` sees of a canonical graph: the quality decision is not among its keys. */
  function AsGraph(c: Canonical): Graph {
    Graph(c.nodes, c.edges, Nothing)
  }

  /** What `diff_graphs` would see of the graph itself. */
  function Seen(g: RawGraph): Graph {
    Graph(g.nodes, g.edges, g.decision)
  }

  /** Between canonical graphs no change of the quality decision is ever reported, whatever the decisions are. */
  lemma DecisionIsLost(w: Rounding, g: RawGraph, h: RawGraph)
    ensures DecisionPart(AsGraph(CanonicalOf(w, g)), AsGraph(CanonicalOf(w, h))) == []
    ensures g.decision != h.decision ==> DecisionPart(Seen(g), Seen(h)) != []
  {
  }

  lemma SortKeepsEdgeKeys(edges: seq<Edge>)
    ensures forall e :: e in Sort(EdgeLe, edges) <==> e in edges
  {
    forall e ensures e in Sort(EdgeLe, edges) <==> e in edges {
      TimesIn(Sort(EdgeLe, edges), e);
      TimesIn(edges, e);
    }
  }

  /** The diff reports no change between two canonical graphs exactly when their rounded nodes agree on the compared fields
      and their endpoints are the same: neither order nor pages matter. */
  lemma CanonicalAgreeIff(w: Rounding, g: RawGraph, h: RawGraph)
    ensures Agree(AsGraph(CanonicalOf(w, g)), AsGraph(CanonicalOf(w, h)))
            <==> RoundedNodes(w, g.nodes).Keys == RoundedNodes(w, h.nodes).Keys
                 && (forall id | id in RoundedNodes(w, g.nodes) :: AgreeOn(RoundedNodes(w, g.nodes)[id], RoundedNodes(w, h.nodes)[id], FIELDS))
                 && EdgeKeys(Seen(g)) == EdgeKeys(Seen(h))
  {
    SortKeepsEdgeKeys(g.edges);
    SortKeepsEdgeKeys(h.edges);
    assert EdgeKeys(AsGraph(CanonicalOf(w, g))) == EdgeKeys(Seen(g));
    assert EdgeKeys(AsGraph(CanonicalOf(w, h))) == EdgeKeys(Seen(h));
  }
}
