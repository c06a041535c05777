/** The structural diff of docmirror/ocr/formula_ast.py, and how printing, parsing, equality and diff fit together. */
module FormulaDiff {
  import opened Options
  import opened FormulaTree
  import opened FormulaLexer
  import opened FormulaParser
  import opened FormulaPrint
  import opened FormulaRoundTrip
  import opened FormulaReparse
  import opened FormulaNormal

  datatype Change = ChangedType | ChangedValue | ChildCount

  /** An entry of the diff; the path lists child indices from the root. */
  datatype Entry = Entry(change: Change, path: seq<nat>)

  function Diff(a: Node, b: Node, path: seq<nat>): seq<Entry>
    decreases a, 1
  {
    if a.kind != b.kind then [Entry(ChangedType, path)]
    else if ComparesValue(a.kind) then if a.value != b.value then [Entry(ChangedValue, path)] else []
    else if a.kind == Space then []
    else if |a.children| != |b.children| then [Entry(ChildCount, path)]
    else DiffAll(a.children, b.children, path, 0)
  }

  function DiffAll(a: seq<Node>, b: seq<Node>, path: seq<nat>, i: nat): seq<Entry>
    requires |a| == |b|
    decreases a, 0
  {
    if |a| == 0 then [] else Diff(a[0], b[0], path + [i]) + DiffAll(a[1..], b[1..], path, i + 1)
  }

  /** `_compute_diff` appends to one list shared by all calls. */
  class DiffLog {
    var entries: seq<Entry>

    method Compute(a: Node, b: Node, path: seq<nat>)
      modifies this
      ensures entries == old(entries) + Diff(a, b, path)
      decreases a, 1
    {
      if a.kind != b.kind {
        entries := entries + [Entry(ChangedType, path)];
        return;
      }
      if ComparesValue(a.kind) {
        if a.value != b.value {
          entries := entries + [Entry(ChangedValue, path)];
        }
        return;
      }
      if a.kind == Space {
        return;
      }
      if |a.children| != |b.children| {
        entries := entries + [Entry(ChildCount, path)];
        return;
      }
      ComputeChildren(a.children, b.children, path);
    }

    /** The loop of `_compute_diff` over the children. */
    method ComputeChildren(a: seq<Node>, b: seq<Node>, path: seq<nat>)
      requires |a| == |b|
      modifies this
      ensures entries == old(entries) + DiffAll(a, b, path, 0)
      decreases a, 0
    {
      ghost var all := old(entries) + DiffAll(a, b, path, 0);
      assert a[0..] == a && b[0..] == b;
      for i := 0 to |a|
        invariant entries + DiffAll(a[i..], b[i..], path, i) == all
      {
        ghost var before := entries;
        Compute(a[i], b[i], path + [i]);
        ChildrenNext(a, b, path, i, before, entries);
      }
    }
  }

  lemma ChildrenNext(a: seq<Node>, b: seq<Node>, path: seq<nat>, i: nat, before: seq<Entry>, after: seq<Entry>)
    requires |a| == |b| && i < |a| && after == before + Diff(a[i], b[i], path + [i])
    ensures after + DiffAll(a[i + 1..], b[i + 1..], path, i + 1) == before + DiffAll(a[i..], b[i..], path, i)
  {
    assert a[i..][1..] == a[i + 1..] && b[i..][1..] == b[i + 1..];
  }

  /** What the diff looks at: the children of a node whose value is compared are left out. */
  function Visible(t: Node): Node
    decreases t, 1
  {
    Node(t.kind, t.value, if ComparesValue(t.kind) then [] else VisibleAll(t.children))
  }

  function VisibleAll(cs: seq<Node>): (r: seq<Node>)
    ensures |r| == |cs|
    decreases cs, 0
  {
    if |cs| == 0 then [] else [Visible(cs[0])] + VisibleAll(cs[1..])
  }

  /** The diff is empty exactly when the visible parts have the same structure. */
  lemma {:induction false} DiffEmptyIff(a: Node, b: Node, path: seq<nat>)
    ensures Diff(a, b, path) == [] <==> SameStructure(Visible(a), Visible(b))
    decreases a, 1
  {
    if a.kind == b.kind && !ComparesValue(a.kind) && a.kind != Space && |a.children| == |b.children| {
      DiffAllEmptyIff(a.children, b.children, path, 0);
    }
  }

  lemma {:induction false} DiffAllEmptyIff(a: seq<Node>, b: seq<Node>, path: seq<nat>, i: nat)
    requires |a| == |b|
    ensures DiffAll(a, b, path, i) == [] <==> SameStructures(VisibleAll(a), VisibleAll(b))
    decreases a, 0
  {
    if |a| > 0 {
      DiffEmptyIff(a[0], b[0], path + [i]);
      DiffAllEmptyIff(a[1..], b[1..], path, i + 1);
      assert VisibleAll(a)[1..] == VisibleAll(a[1..]) && VisibleAll(b)[1..] == VisibleAll(b[1..]);
    }
  }

  lemma {:induction false} SameIsVisiblySame(a: Node, b: Node)
    requires SameStructure(a, b)
    ensures SameStructure(Visible(a), Visible(b))
    decreases a, 1
  {
    if a.kind != Space && !ComparesValue(a.kind) {
      AllSameVisiblySame(a.children, b.children);
    }
  }

  lemma {:induction false} AllSameVisiblySame(a: seq<Node>, b: seq<Node>)
    requires SameStructures(a, b)
    ensures SameStructures(VisibleAll(a), VisibleAll(b))
    decreases a, 0
  {
    if |a| > 0 {
      SameIsVisiblySame(a[0], b[0]);
      AllSameVisiblySame(a[1..], b[1..]);
      assert VisibleAll(a)[1..] == VisibleAll(a[1..]) && VisibleAll(b)[1..] == VisibleAll(b[1..]);
    }
  }

  /** `diff`: equal formulas never differ. */
  lemma EqualHasNoDiff(syn: Syntax, a: Node, b: Node)
    requires StructuralEquals(syn, a, b)
    ensures Diff(Normalize(syn, a), Normalize(syn, b), []) == []
  {
    SameIsVisiblySame(Normalize(syn, a), Normalize(syn, b));
    DiffEmptyIff(Normalize(syn, a), Normalize(syn, b), []);
  }

  /** The converse fails for every operator, commutative or not: the diff never looks at operands. */
  lemma DiffMissesOperands(syn: Syntax, op: string, cs: seq<Node>, ds: seq<Node>)
    ensures Diff(Normalize(syn, Node(Binary, op, cs)), Normalize(syn, Node(Binary, op, ds)), []) == []
  {
  }

  /** What is missed: the operands decide whether the formulas are equal. */
  lemma OperandsMatter(syn: Syntax, op: string, a: Node, b: Node, c: Node, d: Node)
    requires op !in COMMUTATIVE_OPS
    requires Normalize(syn, a).kind != Space && Normalize(syn, b).kind != Space
    requires Normalize(syn, c).kind != Space && Normalize(syn, d).kind != Space
    ensures StructuralEquals(syn, Node(Binary, op, [a, b]), Node(Binary, op, [c, d])) <==>
            StructuralEquals(syn, a, c) && StructuralEquals(syn, b, d)
  {
    TwoNormalized(syn, a, b);
    TwoNormalized(syn, c, d);
    TwoSame(Normalize(syn, a), Normalize(syn, b), Normalize(syn, c), Normalize(syn, d));
  }

  /** With a commutative operator the sorted operands decide. */
  lemma SortedOperandsMatter(syn: Syntax, op: string, a: Node, b: Node, c: Node, d: Node)
    requires op in COMMUTATIVE_OPS
    ensures StructuralEquals(syn, Node(Binary, op, [a, b]), Node(Binary, op, [c, d])) <==>
            SameStructures(Operands(Normalize(syn, a), Normalize(syn, b)), Operands(Normalize(syn, c), Normalize(syn, d)))
  {
    OperandsNormalized(syn, op, a, b);
    OperandsNormalized(syn, op, c, d);
  }

  /** Where the value-compared nodes are leaves, an empty diff does mean equality. */
  lemma {:induction false} VisibleIsAll(t: Node)
    requires LeafValues(t)
    ensures Visible(t) == t
    decreases t, 1
  {
    if !ComparesValue(t.kind) {
      AllVisible(t.children);
    }
  }

  lemma {:induction false} AllVisible(cs: seq<Node>)
    requires AllLeafValues(cs)
    ensures VisibleAll(cs) == cs
    decreases cs, 0
  {
    if |cs| > 0 {
      VisibleIsAll(cs[0]);
      AllVisible(cs[1..]);
    }
  }

  predicate LeafValues(t: Node)
    decreases t, 1
  {
    if ComparesValue(t.kind) then |t.children| == 0 else AllLeafValues(t.children)
  }

  predicate AllLeafValues(cs: seq<Node>)
    decreases cs, 0
  {
    |cs| == 0 || (LeafValues(cs[0]) && AllLeafValues(cs[1..]))
  }

  lemma NoDiffMeansEqual(syn: Syntax, a: Node, b: Node)
    requires LeafValues(Normalize(syn, a)) && LeafValues(Normalize(syn, b))
    ensures Diff(Normalize(syn, a), Normalize(syn, b), []) == [] <==> StructuralEquals(syn, a, b)
  {
    DiffEmptyIff(Normalize(syn, a), Normalize(syn, b), []);
    VisibleIsAll(Normalize(syn, a));
    VisibleIsAll(Normalize(syn, b));
  }

  // ----- The round trip up to single-child groups -----

  lemma {:induction false} ReparsedStrips(syn: Syntax, t: Node)
    requires IsArg(syn, t)
    ensures Stripped(Reparsed(t)) == Stripped(t)
    decreases t, 1
  {
    ArgLevel(syn, t);
    var cs := t.children;
    match t.kind
    case Root => ReparsedAllStrip(syn, cs);
    case Group => ReparsedAllStrip(syn, cs);
    case Frac =>
      ArgStrips(syn, cs[0]);
      ArgStrips(syn, cs[1]);
      StrippedTwo(Node(Root, "", ReparsedArg(cs[0])), Node(Root, "", ReparsedArg(cs[1])));
      StrippedTwo(cs[0], cs[1]);
      assert cs == [cs[0], cs[1]];
    case Sqrt =>
      ArgStrips(syn, cs[0]);
      StrippedOne(Node(Root, "", ReparsedArg(cs[0])));
      StrippedOne(cs[0]);
      assert cs == [cs[0]];
    case Accent =>
      ArgLevel(syn, cs[0]);
      ReparsedStrips(syn, cs[0]);
      StrippedOne(Node(Group, "", [Reparsed(cs[0])]));
      StrippedOne(cs[0]);
      assert cs == [cs[0]];
    case Binary =>
      ArgLevel(syn, cs[0]);
      ArgLevel(syn, cs[1]);
      ReparsedStrips(syn, cs[0]);
      ReparsedStrips(syn, cs[1]);
      StrippedTwo(Reparsed(cs[0]), Reparsed(cs[1]));
      StrippedTwo(cs[0], cs[1]);
      assert cs == [cs[0], cs[1]];
    case Sup => ScriptStrips(syn, t);
    case Sub => ScriptStrips(syn, t);
    case SubSup => ScriptsStrip(syn, t);
    case _ =>
  }

  lemma {:induction false} ReparsedAllStrip(syn: Syntax, cs: seq<Node>)
    requires AllExprs(syn, cs)
    ensures StrippedAll(ReparsedAll(cs)) == StrippedAll(cs)
    ensures |cs| == 1 ==> Stripped(ReparsedAll(cs)[0]) == Stripped(cs[0])
    decreases cs, 0
  {
    if |cs| > 0 {
      ArgLevel(syn, cs[0]);
      ReparsedStrips(syn, cs[0]);
      ReparsedAllStrip(syn, cs[1..]);
      assert ReparsedAll(cs)[1..] == ReparsedAll(cs[1..]);
    }
  }

  lemma {:induction false} ArgStrips(syn: Syntax, t: Node)
    requires IsArg(syn, t)
    ensures Stripped(Node(Root, "", ReparsedArg(t))) == Stripped(t)
    decreases t, 2
  {
    if t.kind == Root {
      ReparsedAllStrip(syn, t.children);
    } else {
      ReparsedStrips(syn, t);
    }
  }

  lemma StrippedOne(a: Node)
    ensures StrippedAll([a]) == [Stripped(a)]
  {
    assert [a][1..] == [];
  }

  lemma StrippedTwo(a: Node, b: Node)
    ensures StrippedAll([a, b]) == [Stripped(a), Stripped(b)]
  {
    assert [a, b][1..] == [b];
    StrippedOne(b);
  }

  lemma {:induction false} ScriptStrips(syn: Syntax, t: Node)
    requires (t.kind == NodeType.Sup || t.kind == NodeType.Sub) && IsTerm(syn, t)
    ensures Stripped(Reparsed(t)) == Stripped(t)
    decreases t, 0
  {
    var base, script := t.children[0], t.children[1];
    ArgLevel(syn, base);
    ArgLevel(syn, script);
    assert IsExpr(syn, Inner(script));
    ArgLevel(syn, Inner(script));
    ReparsedStrips(syn, base);
    ReparsedStrips(syn, Inner(script));
    StrippedTwo(Reparsed(base), Node(Group, "", [Reparsed(Inner(script))]));
    StrippedTwo(base, script);
    assert t.children == [base, script];
    assert Stripped(Inner(script)) == Stripped(script);
  }

  lemma {:induction false} ScriptsStrip(syn: Syntax, t: Node)
    requires t.kind == SubSup && IsTerm(syn, t)
    ensures Stripped(Reparsed(t)) == Stripped(t)
    decreases t, 0
  {
    var base, sub, sup := t.children[0], t.children[1], t.children[2];
    ArgLevel(syn, base);
    ArgLevel(syn, sub);
    ArgLevel(syn, sup);
    ReparsedStrips(syn, base);
    ReparsedStrips(syn, sub);
    ReparsedStrips(syn, sup);
    DoubleBraces(Reparsed(sub));
    DoubleBraces(Reparsed(sup));
    StrippedThree(Reparsed(base), Braces(Reparsed(sub)), Braces(Reparsed(sup)));
    StrippedThree(base, sub, sup);
    assert t.children == [base, sub, sup];
  }

  /** How the printer leaves a script of two: with its own braces inside those of the marker. */
  function Braces(t: Node): Node {
    Node(Group, "", [Node(Group, "", [t])])
  }

  lemma DoubleBraces(t: Node)
    ensures Stripped(Braces(t)) == Stripped(t)
  {
    assert Stripped(Braces(t)) == Stripped(Node(Group, "", [t]));
  }

  lemma StrippedThree(a: Node, b: Node, c: Node)
    ensures StrippedAll([a, b, c]) == [Stripped(a), Stripped(b), Stripped(c)]
  {
    assert [a, b, c][1..] == [b, c];
    StrippedTwo(b, c);
  }

  /** Print, tokenise, parse: the tree comes back up to single-child groups. */
  lemma RoundTrip(syn: Syntax, t: Node)
    requires Sound(syn) && IsArg(syn, t)
    ensures Stripped(Parse(syn, ToLatex(t))) == Stripped(t)
  {
    ParsePrinted(syn, t);
    ArgStrips(syn, t);
  }

  /** So the reparsed formula is structurally equal to the original and has no diff against it. */
  lemma RoundTripEquals(syn: Syntax, t: Node)
    requires Sound(syn) && IsArg(syn, t)
    ensures StructuralEquals(syn, Parse(syn, ToLatex(t)), t)
    ensures Diff(Normalize(syn, Parse(syn, ToLatex(t))), Normalize(syn, t), []) == []
  {
    var back := Parse(syn, ToLatex(t));
    RoundTrip(syn, t);
    NormalizeStripped(syn, t);
    NormalizeStripped(syn, back);
    SameReflexive(Normalize(syn, t));
    EqualHasNoDiff(syn, back, t);
  }

  /** The printed text identifies the tree up to single-child groups. */
  lemma PrintingIsInjective(syn: Syntax, a: Node, b: Node)
    requires Sound(syn) && IsArg(syn, a) && IsArg(syn, b) && ToLatex(a) == ToLatex(b)
    ensures Stripped(a) == Stripped(b)
  {
    RoundTrip(syn, a);
    RoundTrip(syn, b);
  }

  // ----- Where the round trip ends -----

  /** Both root signs whose swap shows are read from LaTeX: `\sqrt` with no brace after it, and `\sqrt{}`. */
  lemma RootSignsParse(syn: Syntax, bare: seq<Token>, empty: seq<Token>)
    requires bare == [Token(Cmd, "\\sqrt")] && empty == [Token(Cmd, "\\sqrt"), Token(LBrace, "{"), Token(RBrace, "}")]
    ensures Formula(syn, bare) == Formulas([Node(Sqrt, "", [])], [])
    ensures Formula(syn, empty) == Formulas([Node(Sqrt, "", [Node(Root, "", [])])], [])
  {
    var none: seq<Token> := [];
    assert bare[1..] == none;
    assert Command(syn, bare) == Parsed(Some(Node(Sqrt, "", [])), none);
    AloneInFormula(syn, bare, Node(Sqrt, "", []));
    var braces := empty[1..];
    assert braces[1..] == [Token(RBrace, "}")] && braces[1..][1..] == none;
    assert Formula(syn, braces[1..]) == Formulas([], braces[1..]);
    assert Braced(syn, braces) == Parsed([], none);
    assert Command(syn, empty) == Parsed(Some(Node(Sqrt, "", [Node(Root, "", [])])), none);
    AloneInFormula(syn, empty, Node(Sqrt, "", [Node(Root, "", [])]));
  }

  lemma AloneInFormula(syn: Syntax, ts: seq<Token>, node: Node)
    requires At(ts, Cmd) && Command(syn, ts) == Parsed(Some(node), [])
    ensures Formula(syn, ts) == Formulas([node], [])
  {
    var none: seq<Token> := [];
    assert Scripts(syn, SubMark, None, none) == Parsed(None, none);
    assert Scripts(syn, SuperMark, None, none) == Parsed(None, none);
    assert Term(syn, ts) == Parsed(Some(node), none);
    assert Operators(syn, node, none) == Parsed(Some(node), none);
    assert Formula(syn, none) == Formulas([], none);
    assert [node] + [] == [node];
  }
}
