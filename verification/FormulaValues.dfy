/** Equality, diff and normalisation kind by kind: which values count, where the diff looks, and which kinds of node
    merge letters, drop spaces and open braces. */
module FormulaValues {
  import opened FormulaTree
  import opened FormulaLexer
  import opened FormulaParser
  import opened FormulaPrint
  import opened FormulaRoundTrip
  import opened FormulaWords
  import opened FormulaNormal
  import opened FormulaDiff

  /** The kinds whose value matters. */
  ghost predicate IsValued(kind: NodeType) {
    kind in {Number, Symbol, Func, Text, Binary}
  }

  /** A tree without the values of the other kinds, and without what is below a space. */
  ghost function Erased(t: Node): Node
    decreases t, 1
  {
    Node(t.kind, if IsValued(t.kind) then t.value else "", if t.kind == Space then [] else ErasedAll(t.children))
  }

  ghost function ErasedAll(cs: seq<Node>): (r: seq<Node>)
    ensures |r| == |cs|
    decreases cs, 0
  {
    if |cs| == 0 then [] else [Erased(cs[0])] + ErasedAll(cs[1..])
  }

  /** Two trees have the same structure exactly if they agree on everything else. */
  lemma {:induction false} SameIffErased(a: Node, b: Node)
    ensures SameStructure(a, b) <==> Erased(a) == Erased(b)
    decreases a, 1
  {
    if a.kind == b.kind && a.kind != Space {
      SameAllIffErased(a.children, b.children);
    }
  }

  lemma {:induction false} SameAllIffErased(a: seq<Node>, b: seq<Node>)
    ensures SameStructures(a, b) <==> ErasedAll(a) == ErasedAll(b)
    decreases a, 0
  {
    if |a| > 0 && |b| > 0 {
      SameIffErased(a[0], b[0]);
      SameAllIffErased(a[1..], b[1..]);
      assert ErasedAll(a)[1..] == ErasedAll(a[1..]) && ErasedAll(b)[1..] == ErasedAll(b[1..]);
      assert ErasedAll(a)[0] == Erased(a[0]) && ErasedAll(b)[0] == Erased(b[0]);
    }
  }

  /** Formulas are equal exactly if their normal forms have the same kinds of nodes in the same places, with the same
      numbers, symbols, functions, texts and operators. */
  lemma EqualsIffErased(syn: Syntax, a: Node, b: Node)
    ensures StructuralEquals(syn, a, b) <==> Erased(Normalize(syn, a)) == Erased(Normalize(syn, b))
  {
    SameIffErased(Normalize(syn, a), Normalize(syn, b));
  }

  // ----- Leaves -----

  ghost function Difference(v: string, w: string): seq<Entry> {
    if v == w then [] else [Entry(ChangedValue, [])]
  }

  lemma LeavesCompare(kind: NodeType, v: string, w: string)
    requires kind == Number || kind == Func || kind == Text || kind == Symbol
    ensures SameStructure(Node(kind, v, []), Node(kind, w, [])) <==> v == w
    ensures Diff(Node(kind, v, []), Node(kind, w, []), []) == Difference(v, w)
  {
  }

  lemma LeafNormal(syn: Syntax, kind: NodeType, v: string)
    requires kind == Number || kind == Func || kind == Text
    ensures Normalize(syn, Node(kind, v, [])) == Node(kind, v, [])
  {
  }

  /** Numbers, functions and texts are equal exactly if their values are; otherwise the diff reports the value. */
  lemma LeavesEqualIff(syn: Syntax, kind: NodeType, v: string, w: string)
    requires kind == Number || kind == Func || kind == Text
    ensures StructuralEquals(syn, Node(kind, v, []), Node(kind, w, [])) <==> v == w
    ensures Diff(Normalize(syn, Node(kind, v, [])), Normalize(syn, Node(kind, w, [])), []) == Difference(v, w)
  {
    LeafNormal(syn, kind, v);
    LeafNormal(syn, kind, w);
    LeavesCompare(kind, v, w);
  }

  /** The six variants of Greek letters count as the letter. */
  ghost function Standard(v: string): string {
    if v == "\\varepsilon" then "\\epsilon"
    else if v == "\\varphi" then "\\phi"
    else if v == "\\vartheta" then "\\theta"
    else if v == "\\varrho" then "\\rho"
    else if v == "\\varsigma" then "\\sigma"
    else if v == "\\varpi" then "\\pi"
    else v
  }

  lemma SymbolStandard(syn: Syntax, v: string)
    ensures Normalize(syn, Node(Symbol, v, [])) == Node(Symbol, Standard(v), [])
  {
  }

  lemma SymbolsEqualIff(syn: Syntax, v: string, w: string)
    ensures StructuralEquals(syn, Node(Symbol, v, []), Node(Symbol, w, [])) <==> Standard(v) == Standard(w)
    ensures Diff(Normalize(syn, Node(Symbol, v, [])), Normalize(syn, Node(Symbol, w, [])), []) == Difference(Standard(v), Standard(w))
  {
    SymbolStandard(syn, v);
    SymbolStandard(syn, w);
    LeavesCompare(Symbol, Standard(v), Standard(w));
  }

  /** Formulas under different operators are never equal, and the diff says so. */
  lemma OperatorsDiffer(syn: Syntax, op: string, op': string, cs: seq<Node>, ds: seq<Node>)
    requires op != op'
    ensures !StructuralEquals(syn, Node(Binary, op, cs), Node(Binary, op', ds))
    ensures Diff(Normalize(syn, Node(Binary, op, cs)), Normalize(syn, Node(Binary, op', ds)), []) == [Entry(ChangedValue, [])]
  {
  }

  /** Swapping two different symbols is invisible exactly under these eight operators. */
  lemma SwapSymbolsIff(syn: Syntax, op: string, v: string, w: string)
    requires Standard(v) != Standard(w)
    ensures var a, b := Node(Symbol, v, []), Node(Symbol, w, []);
            StructuralEquals(syn, Node(Binary, op, [a, b]), Node(Binary, op, [b, a])) <==>
            op in {"+", ",", "\\cdot", "\\times", "\\cup", "\\cap", "\\wedge", "\\vee"}
  {
    var a, b := Node(Symbol, v, []), Node(Symbol, w, []);
    SymbolStandard(syn, v);
    SymbolStandard(syn, w);
    if op in COMMUTATIVE_OPS {
      SwapOperands(syn, op, a, b);
    } else {
      OperandsMatter(syn, op, a, b, b, a);
    }
  }

  /** Two texts of one word each are equal formulas exactly if they are the same text. */
  lemma WordsEqualIff(syn: Syntax, v: string, w: string)
    requires PlainDigits(syn) && PlainWord(v) && PlainWord(w)
    ensures StructuralEquals(syn, Parse(syn, v), Parse(syn, w)) <==> v == w
    ensures Diff(Normalize(syn, Parse(syn, v)), Normalize(syn, Parse(syn, w)), []) == [] <==> v == w
  {
    WordNormal(syn, v);
    WordNormal(syn, w);
    if Numeral(syn, v) == Numeral(syn, w) {
      LeavesCompare(if Numeral(syn, v) then Number else Symbol, v, w);
    }
  }

  lemma WordNormal(syn: Syntax, v: string)
    requires PlainDigits(syn) && PlainWord(v)
    ensures Normalize(syn, Parse(syn, v)) == Node(if Numeral(syn, v) then Number else Symbol, v, [])
  {
    WordParses(syn, v);
    PlainIsStandard(v);
    SymbolStandard(syn, v);
    LeafNormal(syn, Number, v);
    WrapperNormal(syn, Node(if Numeral(syn, v) then Number else Symbol, v, []));
  }

  lemma WrapperNormal(syn: Syntax, t: Node)
    ensures Normalize(syn, Node(Root, "", [t])) == Normalize(syn, t)
  {
  }

  lemma PlainIsStandard(v: string)
    requires PlainWord(v)
    ensures Standard(v) == v
  {
    assert IsPlain(v[0]);
  }

  // ----- Where the diff looks -----

  /** The diff gets to the node at a path as long as the nodes above agree in kind and number of children, and are
      neither spaces nor nodes with a value. */
  ghost predicate Reached(a: Node, b: Node, path: seq<nat>)
    decreases |path|
  {
    |path| == 0 ||
    (&& a.kind == b.kind && !IsValued(a.kind) && a.kind != Space
     && |a.children| == |b.children| && path[0] < |a.children|
     && Reached(a.children[path[0]], b.children[path[0]], path[1..]))
  }

  ghost function NodeAt(t: Node, path: seq<nat>): Node
    decreases |path|
  {
    if |path| == 0 || path[0] >= |t.children| then t else NodeAt(t.children[path[0]], path[1..])
  }

  /** What is said about two nodes the diff gets to. */
  ghost predicate Differs(a: Node, b: Node, change: Change) {
    match change
    case ChangedType => a.kind != b.kind
    case ChangedValue => a.kind == b.kind && IsValued(a.kind) && a.value != b.value
    case ChildCount => a.kind == b.kind && !IsValued(a.kind) && a.kind != Space && |a.children| != |b.children|
  }

  ghost predicate Reports(a: Node, b: Node, change: Change, path: seq<nat>) {
    Reached(a, b, path) && Differs(NodeAt(a, path), NodeAt(b, path), change)
  }

  /** The entries of the diff are exactly these. */
  lemma {:induction false} DiffReportsIff(a: Node, b: Node, change: Change, above: seq<nat>, path: seq<nat>)
    ensures Entry(change, above + path) in Diff(a, b, above) <==> Reports(a, b, change, path)
    decreases a, 1
  {
    if |path| == 0 {
      assert above + path == above;
      ReportedHere(a, b, change, above);
    } else if a.kind == b.kind && !IsValued(a.kind) && a.kind != Space && |a.children| == |b.children| {
      BelowReported(a.children, b.children, change, above, path, 0);
      assert Reports(a, b, change, path) <==>
             path[0] < |a.children| && Reports(a.children[path[0]], b.children[path[0]], change, path[1..]);
    } else {
      assert |above + path| != |above|;
    }
  }

  lemma ReportedHere(a: Node, b: Node, change: Change, above: seq<nat>)
    ensures Entry(change, above) in Diff(a, b, above) <==> Differs(a, b, change)
  {
    if a.kind == b.kind && !IsValued(a.kind) && a.kind != Space && |a.children| == |b.children| {
      LongerPaths(a.children, b.children, above, 0);
    }
  }

  /** Below a node all paths are longer. */
  lemma {:induction false} LongerPaths(a: seq<Node>, b: seq<Node>, above: seq<nat>, i: nat)
    requires |a| == |b|
    ensures forall e | e in DiffAll(a, b, above, i) :: |e.path| > |above| && above <= e.path && i <= e.path[|above|] < i + |a|
    decreases a, 0
  {
    if |a| > 0 {
      LongerPath(a[0], b[0], above + [i]);
      LongerPaths(a[1..], b[1..], above, i + 1);
      forall e | e in Diff(a[0], b[0], above + [i])
        ensures |e.path| > |above| && above <= e.path && e.path[|above|] == i
      {
        assert e.path[..|above| + 1] == above + [i];
      }
    }
  }

  lemma {:induction false} LongerPath(a: Node, b: Node, above: seq<nat>)
    ensures forall e | e in Diff(a, b, above) :: above <= e.path
    decreases a, 1
  {
    if a.kind == b.kind && |a.children| == |b.children| {
      LongerPaths(a.children, b.children, above, 0);
    }
  }

  lemma {:induction false} BelowReported(a: seq<Node>, b: seq<Node>, change: Change, above: seq<nat>, path: seq<nat>, i: nat)
    requires |a| == |b| && |path| > 0
    ensures Entry(change, above + path) in DiffAll(a, b, above, i) <==>
            i <= path[0] < i + |a| && Reports(a[path[0] - i], b[path[0] - i], change, path[1..])
    decreases a, 0
  {
    var e := Entry(change, above + path);
    if |a| > 0 {
      LongerPath(a[0], b[0], above + [i]);
      BelowReported(a[1..], b[1..], change, above, path, i + 1);
      if path[0] == i {
        assert above + path == above + [i] + path[1..];
        DiffReportsIff(a[0], b[0], change, above + [i], path[1..]);
      } else {
        assert e.path[|above|] != (above + [i])[|above|];
      }
    }
  }

  // ----- Kinds -----

  lemma TwoChildren(syn: Syntax, kind: NodeType, a: Node, b: Node)
    requires Normalize(syn, a) == a && Normalize(syn, b) == b
    ensures Normalize(syn, Node(kind, "", [a, b])) == Rebuilt(syn, kind, "", [a, b])
  {
    TwoNormalized(syn, a, b);
  }

  /** Letters next to each other become one symbol below exactly these kinds. */
  lemma LettersMergeBelow(syn: Syntax, kind: NodeType, c: char, d: char)
    requires syn.isAlpha(c) && syn.isAlpha(d)
    ensures Normalize(syn, Node(kind, "", [Node(Symbol, [c], []), Node(Symbol, [d], [])])) ==
            if kind in {Root, Group, Frac, Sqrt, NodeType.Sup, NodeType.Sub, SubSup} then Node(kind, "", [Node(Symbol, [c, d], [])])
            else Node(kind, "", [Node(Symbol, [c], []), Node(Symbol, [d], [])])
  {
    var a, b, both := Node(Symbol, [c], []), Node(Symbol, [d], []), Node(Symbol, [c, d], []);
    LetterIsNormal(syn, c);
    LetterIsNormal(syn, d);
    TwoChildren(syn, kind, a, b);
    TwoNormalized(syn, a, b);
    TwoLettersMerge(syn, c, d);
    assert [both][1..] == [] && Unbraced([both]) == [both];
  }

  /** Only single letters are merged. */
  lemma SymbolsMergeIff(syn: Syntax, v: string, w: string)
    requires Standard(v) == v && Standard(w) == w
    ensures Normalize(syn, Node(NodeType.Sup, "", [Node(Symbol, v, []), Node(Symbol, w, [])])) ==
            Node(NodeType.Sup, "",
                 if |v| == 1 && syn.isAlpha(v[0]) && |w| == 1 && syn.isAlpha(w[0]) then [Node(Symbol, v + w, [])]
                 else [Node(Symbol, v, []), Node(Symbol, w, [])])
  {
    var a, b := Node(Symbol, v, []), Node(Symbol, w, []);
    SymbolStandard(syn, v);
    SymbolStandard(syn, w);
    if |v| == 1 && syn.isAlpha(v[0]) && |w| == 1 && syn.isAlpha(w[0]) {
      assert v == [v[0]] && w == [w[0]] && v + w == [v[0], w[0]];
      LettersMergeBelow(syn, NodeType.Sup, v[0], w[0]);
    } else {
      TwoChildren(syn, NodeType.Sup, a, b);
      SymbolsStay(syn, v, w, a, b);
      KeptTwo(syn, NodeType.Sup, a, b);
      SymbolsStayOpen(a, b);
    }
  }

  lemma SymbolsStay(syn: Syntax, v: string, w: string, a: Node, b: Node)
    requires a == Node(Symbol, v, []) && b == Node(Symbol, w, []) && !(IsLetterSymbol(syn, a) && IsLetterSymbol(syn, b))
    ensures Merged(syn, [a, b]) == [a, b]
  {
    assert [a, b][1..] == [b] && [b][1..] == [];
    var none: seq<Node> := [];
    assert "" + v == v && "" + w == w && MergeRuns(syn, none, w) == Flushed(w) && MergeRuns(syn, none, "") == [];
    if IsLetterSymbol(syn, a) {
      assert MergeRuns(syn, [b], v) == Flushed(v) + [b] + [];
      assert Flushed(v) == [a];
    } else {
      assert MergeRuns(syn, [b], "") == [b];
    }
  }

  lemma SymbolsStayOpen(a: Node, b: Node)
    requires a.kind == b.kind == Symbol
    ensures Unbraced([a, b]) == [a, b]
  {
    assert [a, b][1..] == [b] && [b][1..] == [];
    assert Unbraced([b]) == [b];
  }

  /** Braces around more than one letter are opened below exactly these kinds. */
  lemma BracesOpenBelow(syn: Syntax, kind: NodeType, n: string, c: char, d: char)
    requires syn.isAlpha(c) && syn.isAlpha(d)
    ensures var x, both := Node(Number, n, []), Node(Symbol, [c, d], []);
            Normalize(syn, Node(kind, "", [x, Node(Group, "", [Node(Symbol, [c], []), Node(Symbol, [d], [])])])) ==
            Node(kind, "", [x, if kind in {Frac, Sqrt, NodeType.Sup, NodeType.Sub, SubSup} then both else Node(Group, "", [both])])
  {
    var x, both := Node(Number, n, []), Node(Symbol, [c, d], []);
    var braced := Node(Group, "", [Node(Symbol, [c], []), Node(Symbol, [d], [])]);
    LettersMergeBelow(syn, Group, c, d);
    LeafNormal(syn, Number, n);
    TwoNormalized(syn, x, braced);
    OthersStay(syn, x, Node(Group, "", [both]));
    OpenedTwo(x, Node(Group, "", [both]));
    KeptTwo(syn, kind, x, Node(Group, "", [both]));
  }

  lemma OthersStay(syn: Syntax, a: Node, b: Node)
    requires a.kind != Symbol && b.kind != Symbol
    ensures Merged(syn, [a, b]) == [a, b]
  {
    assert [a, b][1..] == [b] && [b][1..] == [];
    var none: seq<Node> := [];
    assert MergeRuns(syn, none, "") == [];
    assert MergeRuns(syn, [b], "") == [b];
  }

  lemma OpenedTwo(a: Node, b: Node)
    requires a.kind != Group && b.kind == Group && |b.children| == 1
    ensures Unbraced([a, b]) == [a, b.children[0]]
  {
    assert [a, b][1..] == [b] && [b][1..] == [];
    assert Unbraced([b]) == [b.children[0]];
  }

  /** Without a value there is nothing to look up. */
  lemma RebuiltPlain(syn: Syntax, kind: NodeType, norm: seq<Node>, cs: seq<Node>)
    requires cs == Kept(syn, kind, norm)
    ensures var cut := if kind == Frac && |cs| >= 2 then [cs[0], cs[1]] else cs;
            Rebuilt(syn, kind, "", norm) == Node(kind, "", if HoldsBraces(kind) then Unbraced(cut) else cut)
  {
    assert "" !in VARIANT_MAP && "" !in COMMUTATIVE_OPS;
    RebuiltUnsorted(syn, kind, "", norm, cs);
  }

  /** The normal form above two normal children that are neither spaces nor symbols. */
  lemma KeptTwo(syn: Syntax, kind: NodeType, a: Node, b: Node)
    requires a.kind != Space && b.kind != Space && Merged(syn, [a, b]) == [a, b]
    ensures WithoutSpaces([a, b]) == [a, b]
    ensures Rebuilt(syn, kind, "", [a, b]) == Node(kind, "", if HoldsBraces(kind) then Unbraced([a, b]) else [a, b])
  {
    assert [a, b][1..] == [b] && [b][1..] == [];
    assert WithoutSpaces([b]) == [b];
    var cs := Kept(syn, kind, [a, b]);
    assert cs == [a, b];
    assert [cs[0], cs[1]] == cs;
    RebuiltPlain(syn, kind, [a, b], cs);
  }

  /** Spaces are dropped everywhere but below a text. */
  lemma SpacesStayBelow(syn: Syntax, kind: NodeType, n: string, v: string)
    ensures Normalize(syn, Node(kind, "", [Node(Number, n, []), Node(Space, v, [])])) ==
            Node(kind, "", [Node(Number, n, [])] + if kind == Text then [Node(Space, v, [])] else [])
  {
    var x, gap := Node(Number, n, []), Node(Space, v, []);
    LeafNormal(syn, Number, n);
    SpaceNormal(syn, v);
    TwoChildren(syn, kind, x, gap);
    OneLeft(syn, x, gap);
    RebuiltPlain(syn, kind, [x, gap], if kind == Text then [x, gap] else [x]);
  }

  lemma SpaceNormal(syn: Syntax, v: string)
    ensures Normalize(syn, Node(Space, v, [])) == Node(Space, v, [])
  {
  }

  lemma OneLeft(syn: Syntax, x: Node, gap: Node)
    requires x.kind == Number && gap.kind == Space
    ensures WithoutSpaces([x, gap]) == Merged(syn, [x]) == Unbraced([x]) == [x]
    ensures [x] + [] == [x] && [x] + [gap] == [x, gap]
  {
    assert [x, gap][1..] == [gap] && [gap][1..] == [] && [x][1..] == [];
    assert WithoutSpaces([gap]) == [];
  }

  /** A fraction is cut to two children, and nothing else is. */
  lemma FractionIsCut(syn: Syntax, kind: NodeType, n: string)
    ensures var x := Node(Number, n, []);
            Normalize(syn, Node(kind, "", [x, x, x])) == Node(kind, "", if kind == Frac then [x, x] else [x, x, x])
  {
    var x := Node(Number, n, []);
    LeafNormal(syn, Number, n);
    ThreeNormalized(syn, x);
    ThreeRebuilt(syn, kind, x, [x, x, x]);
  }

  lemma ThreeRebuilt(syn: Syntax, kind: NodeType, x: Node, all: seq<Node>)
    requires x.kind == Number && all == [x, x, x]
    ensures Rebuilt(syn, kind, "", all) == Node(kind, "", if kind == Frac then [x, x] else all)
  {
    OthersStay(syn, x, x);
    ThreeStay(syn, x);
    KeptRebuilt(syn, kind, all, [x, x]);
  }

  lemma KeptRebuilt(syn: Syntax, kind: NodeType, all: seq<Node>, two: seq<Node>)
    requires |all| == 3 && two == all[..2] && WithoutSpaces(all) == Merged(syn, all) == Unbraced(all) == all && Unbraced(two) == two
    ensures Rebuilt(syn, kind, "", all) == Node(kind, "", if kind == Frac then two else all)
  {
    assert Kept(syn, kind, all) == all && [all[0], all[1]] == two;
    RebuiltPlain(syn, kind, all, all);
  }

  lemma ThreeNormalized(syn: Syntax, x: Node)
    requires Normalize(syn, x) == x
    ensures NormalizeAll(syn, [x, x, x]) == [x, x, x]
  {
    assert [x, x, x][1..] == [x, x];
    TwoNormalized(syn, x, x);
  }

  lemma ThreeStay(syn: Syntax, x: Node)
    requires x.kind == Number && Merged(syn, [x, x]) == [x, x]
    ensures WithoutSpaces([x, x, x]) == Merged(syn, [x, x, x]) == Unbraced([x, x, x]) == [x, x, x] && Unbraced([x, x]) == [x, x]
  {
    assert [x, x, x][1..] == [x, x] && [x, x][1..] == [x] && [x][1..] == [];
    assert WithoutSpaces([x]) == Unbraced([x]) == [x];
    assert WithoutSpaces([x, x]) == Unbraced([x, x]) == [x, x];
    assert MergeRuns(syn, [x, x], "") == [x, x];
  }
}
