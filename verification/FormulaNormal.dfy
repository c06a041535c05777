/** Normalisation, structural equality and diff of docmirror/ocr/formula_ast.py. */
module FormulaNormal {
  import opened FormulaTree
  import opened FormulaPrint
  import opened Sorting

  const VARIANT_MAP: map<string, string> := map[
    "\\varepsilon" := "\\epsilon", "\\varphi" := "\\phi", "\\vartheta" := "\\theta",
    "\\varrho" := "\\rho", "\\varsigma" := "\\sigma", "\\varpi" := "\\pi"
  ]

  const COMMUTATIVE_OPS: set<string> := {"+", "\\cdot", "\\times", ",", "\\cup", "\\cap", "\\wedge", "\\vee"}

  // ----- Merging letters -----

  predicate IsLetterSymbol(syn: Syntax, t: Node) {
    t.kind == Symbol && |t.value| == 1 && syn.isAlpha(t.value[0])
  }

  function Flushed(letters: string): seq<Node> {
    if |letters| == 0 then [] else [Node(Symbol, letters, [])]
  }

  function MergeRuns(syn: Syntax, cs: seq<Node>, letters: string): seq<Node> {
    if |cs| == 0 then Flushed(letters)
    else if IsLetterSymbol(syn, cs[0]) then MergeRuns(syn, cs[1..], letters + cs[0].value)
    else Flushed(letters) + [cs[0]] + MergeRuns(syn, cs[1..], "")
  }

  function Merged(syn: Syntax, cs: seq<Node>): seq<Node> {
    if |cs| < 2 then cs else MergeRuns(syn, cs, "")
  }

  /** What the list comes out as, with the merged nodes so far and the letters in the buffer before the i-th child. */
  function MergedFrom(syn: Syntax, children: seq<Node>, i: nat, buf: string, merged: seq<Node>): seq<Node>
    requires i <= |children|
  {
    merged + MergeRuns(syn, children[i..], buf)
  }

  lemma NextLetter(syn: Syntax, children: seq<Node>, i: nat, buf: string, merged: seq<Node>)
    requires i < |children| && IsLetterSymbol(syn, children[i])
    ensures MergedFrom(syn, children, i, buf, merged) == MergedFrom(syn, children, i + 1, buf + children[i].value, merged)
  {
    assert children[i..][1..] == children[i + 1..];
  }

  lemma NextOther(syn: Syntax, children: seq<Node>, i: nat, buf: string, merged: seq<Node>)
    requires i < |children| && !IsLetterSymbol(syn, children[i])
    ensures MergedFrom(syn, children, i, buf, merged) == MergedFrom(syn, children, i + 1, "", merged + Flushed(buf) + [children[i]])
  {
    assert children[i..][1..] == children[i + 1..];
    var rest := MergeRuns(syn, children[i + 1..], "");
    assert merged + (Flushed(buf) + [children[i]] + rest) == merged + Flushed(buf) + [children[i]] + rest;
  }

  lemma MergedAtEnds(syn: Syntax, children: seq<Node>, buf: string, merged: seq<Node>)
    ensures MergedFrom(syn, children, 0, "", []) == MergeRuns(syn, children, "")
    ensures MergedFrom(syn, children, |children|, buf, merged) == merged + Flushed(buf)
  {
    assert children[0..] == children && children[|children|..] == [];
  }

  /** `_merge_consecutive_symbols`. */
  method MergeConsecutiveSymbols(syn: Syntax, children: seq<Node>) returns (merged: seq<Node>)
    ensures merged == Merged(syn, children)
  {
    if |children| < 2 {
      return children;
    }
    merged := [];
    var buf := "";
    for i := 0 to |children|
      invariant MergedFrom(syn, children, i, buf, merged) == MergedFrom(syn, children, 0, "", [])
    {
      var child := children[i];
      if IsLetterSymbol(syn, child) {
        NextLetter(syn, children, i, buf, merged);
        buf := buf + child.value;
      } else {
        NextOther(syn, children, i, buf, merged);
        if |buf| > 0 {
          merged := merged + [Node(Symbol, buf, [])];
        }
        buf := "";
        merged := merged + [child];
      }
    }
    MergedAtEnds(syn, children, buf, merged);
    if |buf| > 0 {
      merged := merged + [Node(Symbol, buf, [])];
    }
  }

  /** The text of the symbols of a list, in order. */
  ghost function SymbolText(cs: seq<Node>): string {
    if |cs| == 0 then "" else (if cs[0].kind == Symbol then cs[0].value else "") + SymbolText(cs[1..])
  }

  ghost function OtherNodes(cs: seq<Node>): seq<Node> {
    if |cs| == 0 then [] else (if cs[0].kind == Symbol then [] else [cs[0]]) + OtherNodes(cs[1..])
  }

  /** Merging keeps the text of the symbols and every other node, in order. */
  lemma {:induction false} MergeKeepsText(syn: Syntax, cs: seq<Node>, letters: string)
    ensures SymbolText(MergeRuns(syn, cs, letters)) == letters + SymbolText(cs)
    ensures OtherNodes(MergeRuns(syn, cs, letters)) == OtherNodes(cs)
  {
    if |cs| == 0 {
      FlushedText(letters, []);
      assert Flushed(letters) + [] == Flushed(letters);
    } else if IsLetterSymbol(syn, cs[0]) {
      MergeKeepsText(syn, cs[1..], letters + cs[0].value);
      FirstText(cs);
      assert letters + cs[0].value + SymbolText(cs[1..]) == letters + (cs[0].value + SymbolText(cs[1..]));
    } else {
      MergeKeepsText(syn, cs[1..], "");
      KeptText(letters, cs, MergeRuns(syn, cs[1..], ""));
    }
  }

  lemma FirstText(cs: seq<Node>)
    requires |cs| > 0 && cs[0].kind == Symbol
    ensures SymbolText(cs) == cs[0].value + SymbolText(cs[1..]) && OtherNodes(cs) == OtherNodes(cs[1..])
  {
    assert [] + OtherNodes(cs[1..]) == OtherNodes(cs[1..]);
  }

  lemma KeptText(letters: string, cs: seq<Node>, rest: seq<Node>)
    requires |cs| > 0 && SymbolText(rest) == "" + SymbolText(cs[1..]) && OtherNodes(rest) == OtherNodes(cs[1..])
    ensures SymbolText(Flushed(letters) + [cs[0]] + rest) == letters + SymbolText(cs)
    ensures OtherNodes(Flushed(letters) + [cs[0]] + rest) == OtherNodes(cs)
  {
    var all := [cs[0]] + rest;
    assert all[1..] == rest;
    FlushedText(letters, all);
    assert Flushed(letters) + [cs[0]] + rest == Flushed(letters) + all;
    assert "" + SymbolText(cs[1..]) == SymbolText(cs[1..]);
  }

  lemma FlushedText(letters: string, rest: seq<Node>)
    ensures SymbolText(Flushed(letters) + rest) == letters + SymbolText(rest)
    ensures OtherNodes(Flushed(letters) + rest) == OtherNodes(rest)
  {
    var all := Flushed(letters) + rest;
    if |letters| == 0 {
      assert all == rest;
      assert letters + SymbolText(rest) == SymbolText(rest);
    } else {
      assert all[1..] == rest;
      assert [] + OtherNodes(rest) == OtherNodes(rest);
    }
  }

  // ----- Normalisation -----

  predicate IsWrapper(t: Node) {
    (t.kind == Root || t.kind == Group) && |t.children| == 1
  }

  function WithoutSpaces(cs: seq<Node>): seq<Node> {
    if |cs| == 0 then [] else (if cs[0].kind == Space then [] else [cs[0]]) + WithoutSpaces(cs[1..])
  }

  predicate MergesLetters(kind: NodeType) {
    kind == Group || kind == Sub || kind == Sup || kind == SubSup || kind == Frac || kind == Sqrt || kind == Root
  }

  predicate HoldsBraces(kind: NodeType) {
    kind == Sup || kind == Sub || kind == SubSup || kind == Frac || kind == Sqrt
  }

  function Unbraced(cs: seq<Node>): seq<Node> {
    if |cs| == 0 then []
    else [if cs[0].kind == Group && |cs[0].children| == 1 then cs[0].children[0] else cs[0]] + Unbraced(cs[1..])
  }

  function Sorted(cs: seq<Node>): seq<Node>
    requires |cs| == 2
  {
    if StringLe(ToLatex(cs[0]), ToLatex(cs[1])) then cs else [cs[1], cs[0]]
  }

  /** `_normalize_node` after its children are normalised. */
  function Rebuilt(syn: Syntax, kind: NodeType, value: string, norm: seq<Node>): Node {
    var cs := if kind == Text then norm else WithoutSpaces(norm);
    var cs := if MergesLetters(kind) then Merged(syn, cs) else cs;
    if kind == Symbol && value in VARIANT_MAP then Node(Symbol, VARIANT_MAP[value], [])
    else
      var cs := if kind == Frac && |cs| >= 2 then [cs[0], cs[1]] else cs;
      var cs := if kind == Binary && value in COMMUTATIVE_OPS && |cs| == 2 then Sorted(cs) else cs;
      Node(kind, value, if HoldsBraces(kind) then Unbraced(cs) else cs)
  }

  /** `_normalize_node`. */
  function Normalize(syn: Syntax, t: Node): Node
    decreases t, 1
  {
    if IsWrapper(t) then Normalize(syn, t.children[0])
    else Rebuilt(syn, t.kind, t.value, NormalizeAll(syn, t.children))
  }

  function NormalizeAll(syn: Syntax, cs: seq<Node>): (r: seq<Node>)
    ensures |r| == |cs|
    decreases cs, 0
  {
    if |cs| == 0 then [] else [Normalize(syn, cs[0])] + NormalizeAll(syn, cs[1..])
  }

  // ----- Single-child groups do not matter -----

  /** The tree without its single-child ROOT and GROUP nodes. */
  function Stripped(t: Node): Node
    decreases t, 1
  {
    if IsWrapper(t) then Stripped(t.children[0]) else Node(t.kind, t.value, StrippedAll(t.children))
  }

  function StrippedAll(cs: seq<Node>): (r: seq<Node>)
    ensures |r| == |cs|
    decreases cs, 0
  {
    if |cs| == 0 then [] else [Stripped(cs[0])] + StrippedAll(cs[1..])
  }

  lemma {:induction false} StrippedAway(t: Node)
    ensures !IsWrapper(Stripped(t))
    decreases t
  {
    if IsWrapper(t) {
      StrippedAway(t.children[0]);
    }
  }

  /** Normalisation does not see single-child groups, however deep they sit. */
  lemma {:induction false} NormalizeStripped(syn: Syntax, t: Node)
    ensures Normalize(syn, Stripped(t)) == Normalize(syn, t)
    decreases t, 1
  {
    if IsWrapper(t) {
      NormalizeStripped(syn, t.children[0]);
    } else {
      StrippedAway(t);
      NormalizeStrippedAll(syn, t.children);
    }
  }

  lemma {:induction false} NormalizeStrippedAll(syn: Syntax, cs: seq<Node>)
    ensures NormalizeAll(syn, StrippedAll(cs)) == NormalizeAll(syn, cs)
    decreases cs, 0
  {
    if |cs| > 0 {
      NormalizeStripped(syn, cs[0]);
      NormalizeStrippedAll(syn, cs[1..]);
      assert StrippedAll(cs)[1..] == StrippedAll(cs[1..]);
    }
  }

  // ----- Structural equality -----

  predicate ComparesValue(kind: NodeType) {
    kind == Symbol || kind == Number || kind == Func || kind == Text || kind == Binary
  }

  /** `_structural_equals`. */
  predicate SameStructure(a: Node, b: Node)
    decreases a, 1
  {
    && a.kind == b.kind
    && (ComparesValue(a.kind) ==> a.value == b.value)
    && (a.kind == Space || SameStructures(a.children, b.children))
  }

  predicate SameStructures(a: seq<Node>, b: seq<Node>)
    decreases a, 0
  {
    |a| == |b| && (|a| == 0 || (SameStructure(a[0], b[0]) && SameStructures(a[1..], b[1..])))
  }

  /** `structural_equals`. */
  predicate StructuralEquals(syn: Syntax, a: Node, b: Node) {
    SameStructure(Normalize(syn, a), Normalize(syn, b))
  }

  lemma {:induction false} SameReflexive(a: Node)
    ensures SameStructure(a, a)
    decreases a, 1
  {
    SameAllReflexive(a.children);
  }

  lemma {:induction false} SameAllReflexive(a: seq<Node>)
    ensures SameStructures(a, a)
    decreases a, 0
  {
    if |a| > 0 {
      SameReflexive(a[0]);
      SameAllReflexive(a[1..]);
    }
  }

  lemma {:induction false} SameSymmetric(a: Node, b: Node)
    requires SameStructure(a, b)
    ensures SameStructure(b, a)
    decreases a, 1
  {
    if a.kind != Space {
      SameAllSymmetric(a.children, b.children);
    }
  }

  lemma {:induction false} SameAllSymmetric(a: seq<Node>, b: seq<Node>)
    requires SameStructures(a, b)
    ensures SameStructures(b, a)
    decreases a, 0
  {
    if |a| > 0 {
      SameSymmetric(a[0], b[0]);
      SameAllSymmetric(a[1..], b[1..]);
    }
  }

  lemma {:induction false} SameTransitive(a: Node, b: Node, c: Node)
    requires SameStructure(a, b) && SameStructure(b, c)
    ensures SameStructure(a, c)
    decreases a, 1
  {
    if a.kind != Space {
      SameAllTransitive(a.children, b.children, c.children);
    }
  }

  lemma {:induction false} SameAllTransitive(a: seq<Node>, b: seq<Node>, c: seq<Node>)
    requires SameStructures(a, b) && SameStructures(b, c)
    ensures SameStructures(a, c)
    decreases a, 0
  {
    if |a| > 0 {
      SameTransitive(a[0], b[0], c[0]);
      SameAllTransitive(a[1..], b[1..], c[1..]);
    }
  }

  /** `structural_equals` is an equivalence relation. */
  lemma EqualsIsEquivalence(syn: Syntax, a: Node, b: Node, c: Node)
    ensures StructuralEquals(syn, a, a)
    ensures StructuralEquals(syn, a, b) ==> StructuralEquals(syn, b, a)
    ensures StructuralEquals(syn, a, b) && StructuralEquals(syn, b, c) ==> StructuralEquals(syn, a, c)
  {
    SameReflexive(Normalize(syn, a));
    if StructuralEquals(syn, a, b) {
      SameSymmetric(Normalize(syn, a), Normalize(syn, b));
      if StructuralEquals(syn, b, c) {
        SameTransitive(Normalize(syn, a), Normalize(syn, b), Normalize(syn, c));
      }
    }
  }

  // ----- Swapping operands -----

  /** Swapping the operands of a commutative operator is invisible exactly when the normalised operands print
      differently, or are the same structure, or one of them is a space and is dropped. */
  lemma SwapOperands(syn: Syntax, op: string, a: Node, b: Node)
    requires op in COMMUTATIVE_OPS
    ensures var na, nb := Normalize(syn, a), Normalize(syn, b);
            StructuralEquals(syn, Node(Binary, op, [a, b]), Node(Binary, op, [b, a])) <==>
            ToLatex(na) != ToLatex(nb) || SameStructure(na, nb) || na.kind == Space || nb.kind == Space
  {
    var na, nb := Normalize(syn, a), Normalize(syn, b);
    OperandsNormalized(syn, op, a, b);
    OperandsNormalized(syn, op, b, a);
    if na.kind == Space || nb.kind == Space {
      SameAllReflexive(Operands(na, nb));
    } else {
      SwapSorted(na, nb);
    }
  }

  lemma SwapSorted(a: Node, b: Node)
    ensures SameStructures(Sorted([a, b]), Sorted([b, a])) <==> ToLatex(a) != ToLatex(b) || SameStructure(a, b)
  {
    StringTotal(ToLatex(a), ToLatex(b));
    if StringLe(ToLatex(a), ToLatex(b)) && StringLe(ToLatex(b), ToLatex(a)) {
      StringAntisymmetric(ToLatex(a), ToLatex(b));
      TwoSame(a, b, b, a);
      if SameStructure(a, b) {
        SameSymmetric(a, b);
      }
    } else {
      SameAllReflexive(Sorted([a, b]));
    }
  }

  lemma TwoNormalized(syn: Syntax, a: Node, b: Node)
    ensures NormalizeAll(syn, [a, b]) == [Normalize(syn, a), Normalize(syn, b)]
    ensures WithoutSpaces([Normalize(syn, a), Normalize(syn, b)]) ==
            (if Normalize(syn, a).kind == Space then [] else [Normalize(syn, a)]) +
            (if Normalize(syn, b).kind == Space then [] else [Normalize(syn, b)])
  {
    assert [a, b][1..] == [b] && [b][1..] == [];
    var na, nb := Normalize(syn, a), Normalize(syn, b);
    assert [na, nb][1..] == [nb] && [nb][1..] == [];
    assert NormalizeAll(syn, [b]) == [nb];
    assert WithoutSpaces([nb]) == if nb.kind == Space then [] else [nb];
  }

  /** The operands of a commutative operator after normalisation. */
  function Operands(na: Node, nb: Node): seq<Node> {
    if na.kind == Space then (if nb.kind == Space then [] else [nb]) else if nb.kind == Space then [na] else Sorted([na, nb])
  }

  lemma OperandsNormalized(syn: Syntax, op: string, a: Node, b: Node)
    requires op in COMMUTATIVE_OPS
    ensures Normalize(syn, Node(Binary, op, [a, b])) == Node(Binary, op, Operands(Normalize(syn, a), Normalize(syn, b)))
  {
    TwoNormalized(syn, a, b);
    var cs := WithoutSpaces([Normalize(syn, a), Normalize(syn, b)]);
    assert Rebuilt(syn, Binary, op, [Normalize(syn, a), Normalize(syn, b)]) == Node(Binary, op, if |cs| == 2 then Sorted(cs) else cs);
  }

  lemma TwoSame(a: Node, b: Node, c: Node, d: Node)
    ensures SameStructures([a, b], [c, d]) <==> SameStructure(a, c) && SameStructure(b, d)
  {
    assert [a, b][1..] == [b] && [c, d][1..] == [d] && [b][1..] == [] && [d][1..] == [];
    assert SameStructures([b], [d]) <==> SameStructure(b, d);
  }

  /** Replacing a child by one with the same normal form changes nothing above it. */
  lemma ReplaceChild(syn: Syntax, t: Node, i: nat, child: Node)
    requires i < |t.children| && Normalize(syn, child) == Normalize(syn, t.children[i])
    ensures Normalize(syn, t.(children := t.children[i := child])) == Normalize(syn, t)
  {
    ReplaceInList(syn, t.children, i, child);
  }

  lemma {:induction false} ReplaceInList(syn: Syntax, cs: seq<Node>, i: nat, child: Node)
    requires i < |cs| && Normalize(syn, child) == Normalize(syn, cs[i])
    ensures NormalizeAll(syn, cs[i := child]) == NormalizeAll(syn, cs)
    decreases |cs|
  {
    if i > 0 {
      ReplaceInList(syn, cs[1..], i - 1, child);
      assert cs[i := child][1..] == cs[1..][i - 1 := child];
    } else {
      assert cs[i := child][1..] == cs[1..];
    }
  }

  // ----- What normalisation does to single letters -----

  lemma TwoLettersMerge(syn: Syntax, c: char, d: char)
    requires syn.isAlpha(c) && syn.isAlpha(d)
    ensures Merged(syn, [Node(Symbol, [c], []), Node(Symbol, [d], [])]) == [Node(Symbol, [c, d], [])]
  {
    var a, b := Node(Symbol, [c], []), Node(Symbol, [d], []);
    assert [a, b][1..] == [b] && [b][1..] == [];
    assert "" + [c] == [c] && [c] + [d] == [c, d];
    assert MergeRuns(syn, [], [c, d]) == [Node(Symbol, [c, d], [])];
    assert MergeRuns(syn, [b], [c]) == MergeRuns(syn, [], [c, d]);
  }

  /** A fraction of two letters loses its denominator: both letters end up in one child. */
  lemma LetterFractionMerges(syn: Syntax, c: char, d: char)
    requires syn.isAlpha(c) && syn.isAlpha(d)
    ensures Normalize(syn, Node(Frac, "", [Node(Symbol, [c], []), Node(Symbol, [d], [])])) ==
            Node(Frac, "", [Node(Symbol, [c, d], [])])
  {
    var a, b := Node(Symbol, [c], []), Node(Symbol, [d], []);
    LetterIsNormal(syn, c);
    LetterIsNormal(syn, d);
    TwoNormalized(syn, a, b);
    TwoLettersMerge(syn, c, d);
    var merged := Node(Symbol, [c, d], []);
    assert [merged][1..] == [];
    assert Unbraced([merged]) == [merged];
  }

  lemma LetterIsNormal(syn: Syntax, c: char)
    ensures Normalize(syn, Node(Symbol, [c], [])) == Node(Symbol, [c], [])
  {
    assert forall v | v in VARIANT_MAP :: |v| > 1;
  }

  lemma PairMerges(syn: Syntax, a: Node, b: Node)
    ensures |Merged(syn, [a, b])| == if IsLetterSymbol(syn, a) && IsLetterSymbol(syn, b) then 1 else 2
  {
    assert [a, b][1..] == [b] && [b][1..] == [];
    var none: seq<Node> := [];
    if IsLetterSymbol(syn, a) {
      assert "" + a.value == a.value;
      assert MergeRuns(syn, [b], a.value) ==
             if IsLetterSymbol(syn, b) then MergeRuns(syn, none, a.value + b.value) else Flushed(a.value) + [b] + MergeRuns(syn, none, "");
    } else {
      assert MergeRuns(syn, [b], "") ==
             if IsLetterSymbol(syn, b) then MergeRuns(syn, none, "" + b.value) else Flushed("") + [b] + MergeRuns(syn, none, "");
    }
  }

  /** What a tree is without its single-child groups tells whether its normal form is a letter, and its kind. */
  lemma {:induction false} LetterOnInput(syn: Syntax, t: Node)
    ensures Normalize(syn, t).kind == Stripped(t).kind
    ensures IsLetterSymbol(syn, Normalize(syn, t)) <==> IsLetterSymbol(syn, Stripped(t))
    decreases t
  {
    if IsWrapper(t) {
      LetterOnInput(syn, t.children[0]);
    } else {
      assert forall v | v in VARIANT_MAP :: |v| > 1 && |VARIANT_MAP[v]| > 1;
    }
  }

  /** A fraction keeps numerator and denominator apart exactly when, without single-child groups, neither is a space and not
      both are letters. */
  lemma FractionKeepsIff(syn: Syntax, a: Node, b: Node)
    ensures var sa, sb := Stripped(a), Stripped(b);
            |Normalize(syn, Node(Frac, "", [a, b])).children| == 2 <==>
            sa.kind != Space && sb.kind != Space && !(IsLetterSymbol(syn, sa) && IsLetterSymbol(syn, sb))
  {
    var na, nb := Normalize(syn, a), Normalize(syn, b);
    LetterOnInput(syn, a);
    LetterOnInput(syn, b);
    TwoNormalized(syn, a, b);
    PairMerges(syn, na, nb);
    FractionRebuilt(syn, [na, nb]);
  }

  lemma FractionRebuilt(syn: Syntax, norm: seq<Node>)
    ensures var cs := Merged(syn, WithoutSpaces(norm));
            |Rebuilt(syn, Frac, "", norm).children| == if |cs| >= 2 then 2 else |cs|
  {
    var cs := Merged(syn, WithoutSpaces(norm));
    UnbracedLength(cs);
    if |cs| >= 2 {
      UnbracedLength([cs[0], cs[1]]);
    }
  }

  lemma {:induction false} UnbracedLength(cs: seq<Node>)
    ensures |Unbraced(cs)| == |cs|
  {
    if |cs| > 0 {
      UnbracedLength(cs[1..]);
    }
  }

  // ----- What the equality identifies -----

  /** The equality ignores the value of every node kind it does not list, so a sum equals a product, a bar a hat. */
  lemma ValueIsIgnored(syn: Syntax, kind: NodeType, v: string, w: string, cs: seq<Node>)
    requires !ComparesValue(kind)
    ensures StructuralEquals(syn, Node(kind, v, cs), Node(kind, w, cs))
  {
    var a, b := Normalize(syn, Node(kind, v, cs)), Normalize(syn, Node(kind, w, cs));
    if IsWrapper(Node(kind, v, cs)) {
      SameReflexive(a);
    } else {
      SameAllReflexive(a.children);
    }
  }

  lemma SumEqualsProduct(syn: Syntax)
    ensures StructuralEquals(syn, Node(Lop, "\\sum", []), Node(Lop, "\\prod", []))
    ensures forall x :: StructuralEquals(syn, Node(Accent, "\\bar", [x]), Node(Accent, "\\hat", [x]))
  {
    ValueIsIgnored(syn, Lop, "\\sum", "\\prod", []);
    forall x ensures StructuralEquals(syn, Node(Accent, "\\bar", [x]), Node(Accent, "\\hat", [x])) {
      ValueIsIgnored(syn, Accent, "\\bar", "\\hat", [x]);
    }
  }

  /** Replacing an operand of a commutative operator by an equal one gives an equal formula exactly when both sort to the
      same side of the other operand, or equal it. */
  lemma ReplaceOperandIff(syn: Syntax, op: string, a: Node, a': Node, b: Node)
    requires op in COMMUTATIVE_OPS && StructuralEquals(syn, a, a')
    ensures var na, na', nb := Normalize(syn, a), Normalize(syn, a'), Normalize(syn, b);
            StructuralEquals(syn, Node(Binary, op, [a, b]), Node(Binary, op, [a', b])) <==>
            || na.kind == Space || nb.kind == Space || SameStructure(na, nb)
            || (StringLe(ToLatex(na), ToLatex(nb)) <==> StringLe(ToLatex(na'), ToLatex(nb)))
  {
    var na, na', nb := Normalize(syn, a), Normalize(syn, a'), Normalize(syn, b);
    OperandsNormalized(syn, op, a, b);
    OperandsNormalized(syn, op, a', b);
    SameReflexive(nb);
    SameSymmetric(na, na');
    if na.kind == Space || nb.kind == Space {
      OneSame(na, na');
      OneSame(nb, nb);
    } else {
      ReplaceSorted(na, na', nb);
    }
  }

  lemma OneSame(a: Node, b: Node)
    ensures SameStructures([a], [b]) <==> SameStructure(a, b)
  {
    assert [a][1..] == [] && [b][1..] == [];
  }

  lemma ReplaceSorted(a: Node, a': Node, b: Node)
    requires SameStructure(a, a') && SameStructure(a', a) && SameStructure(b, b)
    ensures SameStructures(Sorted([a, b]), Sorted([a', b])) <==>
            SameStructure(a, b) || (StringLe(ToLatex(a), ToLatex(b)) <==> StringLe(ToLatex(a'), ToLatex(b)))
  {
    TwoSame(a, b, a', b);
    TwoSame(b, a, b, a');
    TwoSame(a, b, b, a');
    TwoSame(b, a, a', b);
    if SameStructure(a, b) {
      SameSymmetric(a, b);
      SameTransitive(b, a, a');
      SameSymmetric(b, a');
    }
    if SameStructure(b, a) {
      SameSymmetric(b, a);
    }
  }

  // ----- Where an equal subtree can be put -----

  lemma {:induction false} SamesConcat(a: seq<Node>, b: seq<Node>, c: seq<Node>, d: seq<Node>)
    requires SameStructures(a, b) && SameStructures(c, d)
    ensures SameStructures(a + c, b + d)
    decreases |a|
  {
    if |a| == 0 {
      assert a + c == c && b + d == d;
    } else {
      SamesConcat(a[1..], b[1..], c, d);
      assert (a + c)[1..] == a[1..] + c && (b + d)[1..] == b[1..] + d;
    }
  }

  lemma {:induction false} SamesWithoutSpaces(a: seq<Node>, b: seq<Node>)
    requires SameStructures(a, b)
    ensures SameStructures(WithoutSpaces(a), WithoutSpaces(b))
    decreases |a|
  {
    if |a| > 0 {
      SamesWithoutSpaces(a[1..], b[1..]);
      OneSame(a[0], b[0]);
      var first, second := if a[0].kind == Space then [] else [a[0]], if b[0].kind == Space then [] else [b[0]];
      SamesConcat(first, second, WithoutSpaces(a[1..]), WithoutSpaces(b[1..]));
    }
  }

  lemma {:induction false} SamesRuns(syn: Syntax, a: seq<Node>, b: seq<Node>, letters: string)
    requires SameStructures(a, b)
    ensures SameStructures(MergeRuns(syn, a, letters), MergeRuns(syn, b, letters))
  {
    SameAllReflexive(Flushed(letters));
    if |a| > 0 {
      if IsLetterSymbol(syn, a[0]) {
        SamesRuns(syn, a[1..], b[1..], letters + a[0].value);
      } else {
        SamesRuns(syn, a[1..], b[1..], "");
        OneSame(a[0], b[0]);
        SamesConcat(Flushed(letters), Flushed(letters), [a[0]], [b[0]]);
        SamesConcat(Flushed(letters) + [a[0]], Flushed(letters) + [b[0]], MergeRuns(syn, a[1..], ""), MergeRuns(syn, b[1..], ""));
      }
    }
  }

  lemma {:induction false} SamesUnbraced(a: seq<Node>, b: seq<Node>)
    requires SameStructures(a, b)
    ensures SameStructures(Unbraced(a), Unbraced(b))
    decreases |a|
  {
    if |a| > 0 {
      SamesUnbraced(a[1..], b[1..]);
      if a[0].kind == Group {
        SamesLength(a[0].children, b[0].children);
      }
      assert Unbraced(a)[1..] == Unbraced(a[1..]) && Unbraced(b)[1..] == Unbraced(b[1..]);
    }
  }

  lemma {:induction false} SamesLength(a: seq<Node>, b: seq<Node>)
    requires SameStructures(a, b)
    ensures |a| == |b| && forall i | 0 <= i < |a| :: SameStructure(a[i], b[i])
    decreases |a|
  {
    if |a| > 0 {
      SamesLength(a[1..], b[1..]);
      assert forall i | 0 < i < |a| :: a[i] == a[1..][i - 1] && b[i] == b[1..][i - 1];
    }
  }

  /** The operands of a commutative operator are sorted if two are left. */
  predicate SortsOperands(kind: NodeType, value: string, cs: seq<Node>) {
    kind == Binary && value in COMMUTATIVE_OPS && |cs| == 2
  }

  /** The children left after dropping spaces and merging letters. */
  function Kept(syn: Syntax, kind: NodeType, norm: seq<Node>): seq<Node> {
    var cs := if kind == Text then norm else WithoutSpaces(norm);
    if MergesLetters(kind) then Merged(syn, cs) else cs
  }

  lemma KeptSame(syn: Syntax, kind: NodeType, a: seq<Node>, b: seq<Node>)
    requires SameStructures(a, b)
    ensures SameStructures(Kept(syn, kind, a), Kept(syn, kind, b)) && |Kept(syn, kind, a)| == |Kept(syn, kind, b)|
  {
    var a1, b1 := if kind == Text then a else WithoutSpaces(a), if kind == Text then b else WithoutSpaces(b);
    SamesWithoutSpaces(a, b);
    SamesRuns(syn, a1, b1, "");
    SamesLength(a1, b1);
    SamesLength(Kept(syn, kind, a), Kept(syn, kind, b));
  }

  lemma CutSame(kind: NodeType, a: seq<Node>, b: seq<Node>)
    requires SameStructures(a, b)
    ensures SameStructures(if kind == Frac && |a| >= 2 then [a[0], a[1]] else a, if kind == Frac && |b| >= 2 then [b[0], b[1]] else b)
  {
    SamesLength(a, b);
    if |a| >= 2 {
      TwoSame(a[0], a[1], b[0], b[1]);
    }
  }

  lemma BracesSame(kind: NodeType, value: string, a: seq<Node>, b: seq<Node>)
    requires SameStructures(a, b)
    ensures SameStructure(Node(kind, value, if HoldsBraces(kind) then Unbraced(a) else a),
                          Node(kind, value, if HoldsBraces(kind) then Unbraced(b) else b))
  {
    SamesUnbraced(a, b);
  }

  /** Where nothing is sorted the normal form of a node respects the equality of its children's. */
  lemma RebuiltSame(syn: Syntax, kind: NodeType, value: string, a: seq<Node>, b: seq<Node>)
    requires SameStructures(a, b) && !SortsOperands(kind, value, WithoutSpaces(a))
    ensures SameStructure(Rebuilt(syn, kind, value, a), Rebuilt(syn, kind, value, b))
  {
    if kind == Symbol && value in VARIANT_MAP {
      SameReflexive(Rebuilt(syn, kind, value, a));
    } else {
      var cs, ds := Kept(syn, kind, a), Kept(syn, kind, b);
      KeptSame(syn, kind, a, b);
      CutSame(kind, cs, ds);
      var cut, cut' := if kind == Frac && |cs| >= 2 then [cs[0], cs[1]] else cs, if kind == Frac && |ds| >= 2 then [ds[0], ds[1]] else ds;
      BracesSame(kind, value, cut, cut');
      RebuiltUnsorted(syn, kind, value, a, cs);
      RebuiltUnsorted(syn, kind, value, b, ds);
    }
  }

  lemma RebuiltUnsorted(syn: Syntax, kind: NodeType, value: string, norm: seq<Node>, cs: seq<Node>)
    requires cs == Kept(syn, kind, norm) && !SortsOperands(kind, value, cs) && !(kind == Symbol && value in VARIANT_MAP)
    ensures var cut := if kind == Frac && |cs| >= 2 then [cs[0], cs[1]] else cs;
            Rebuilt(syn, kind, value, norm) == Node(kind, value, if HoldsBraces(kind) then Unbraced(cut) else cut)
  {
  }

  /** The normal form of a node respects the equality of its children's, unless sorting tells them apart. */
  lemma RebuiltIff(syn: Syntax, kind: NodeType, value: string, a: seq<Node>, b: seq<Node>, cs: seq<Node>, ds: seq<Node>)
    requires SameStructures(a, b) && cs == WithoutSpaces(a) && ds == WithoutSpaces(b)
    ensures |cs| == |ds|
    ensures SameStructure(Rebuilt(syn, kind, value, a), Rebuilt(syn, kind, value, b)) <==>
            !SortsOperands(kind, value, cs) || SortAlike(cs, ds)
  {
    SamesWithoutSpaces(a, b);
    SamesLength(cs, ds);
    if SortsOperands(kind, value, cs) {
      SortedSameIff(cs, ds);
      assert Rebuilt(syn, kind, value, a) == Node(kind, value, Sorted(cs));
      assert Rebuilt(syn, kind, value, b) == Node(kind, value, Sorted(ds));
    } else {
      RebuiltSame(syn, kind, value, a, b);
    }
  }

  /** Two operands that are equal, or sorted as two others. */
  predicate SortAlike(cs: seq<Node>, ds: seq<Node>)
    requires |cs| == |ds|
  {
    |cs| == 2 ==>
      SameStructure(cs[0], cs[1]) || (StringLe(ToLatex(cs[0]), ToLatex(cs[1])) <==> StringLe(ToLatex(ds[0]), ToLatex(ds[1])))
  }

  lemma {:induction false} SamesReplaced(syn: Syntax, cs: seq<Node>, i: nat, child: Node)
    requires i < |cs| && StructuralEquals(syn, cs[i], child)
    ensures SameStructures(NormalizeAll(syn, cs), NormalizeAll(syn, cs[i := child]))
    decreases |cs|
  {
    var ds := cs[i := child];
    if i > 0 {
      SamesReplaced(syn, cs[1..], i - 1, child);
      assert ds[1..] == cs[1..][i - 1 := child];
      SameReflexive(Normalize(syn, cs[0]));
    } else {
      assert ds[1..] == cs[1..];
      SameAllReflexive(NormalizeAll(syn, cs[1..]));
    }
  }

  /** Putting an equal subtree in the place of a child, anywhere, gives an equal formula, except in one case: below a
      commutative operator with two different operands left, when it sorts to the other side of its neighbour. */
  lemma ReplaceIff(syn: Syntax, t: Node, i: nat, child: Node)
    requires i < |t.children| && StructuralEquals(syn, t.children[i], child)
    ensures var u := t.(children := t.children[i := child]);
            var cs, ds := WithoutSpaces(NormalizeAll(syn, t.children)), WithoutSpaces(NormalizeAll(syn, u.children));
            && |cs| == |ds|
            && (StructuralEquals(syn, t, u) <==> !SortsOperands(t.kind, t.value, cs) || SortAlike(cs, ds))
  {
    var u := t.(children := t.children[i := child]);
    var a, b := NormalizeAll(syn, t.children), NormalizeAll(syn, u.children);
    SamesReplaced(syn, t.children, i, child);
    RebuiltIff(syn, t.kind, t.value, a, b, WithoutSpaces(a), WithoutSpaces(b));
  }

  lemma SortedSameIff(cs: seq<Node>, ds: seq<Node>)
    requires |cs| == |ds| == 2 && SameStructure(cs[0], ds[0]) && SameStructure(cs[1], ds[1])
    ensures SameStructures(Sorted(cs), Sorted(ds)) <==>
            SameStructure(cs[0], cs[1]) || (StringLe(ToLatex(cs[0]), ToLatex(cs[1])) <==> StringLe(ToLatex(ds[0]), ToLatex(ds[1])))
  {
    var a, b, a', b' := cs[0], cs[1], ds[0], ds[1];
    assert cs == [a, b] && ds == [a', b'];
    TwoSame(a, b, a', b');
    TwoSame(b, a, b', a');
    TwoSame(a, b, b', a');
    TwoSame(b, a, a', b');
    SwappedSame(a, b, a', b');
  }

  lemma SwappedSame(a: Node, b: Node, a': Node, b': Node)
    requires SameStructure(a, a') && SameStructure(b, b')
    ensures SameStructure(a, b) <==> SameStructure(a, b') && SameStructure(b, a')
  {
    SameSymmetric(a, a');
    SameSymmetric(b, b');
    if SameStructure(a, b) {
      SameSymmetric(a, b);
      SameTransitive(a, b, b');
      SameTransitive(b, a, a');
    }
    if SameStructure(a, b') {
      SameTransitive(a, b', b);
    }
  }

  /** So the equality is no congruence: the sum and the product are equal, but not after adding rho to both, because rho
      prints between them. */
  lemma EqualsIsNoCongruence(syn: Syntax)
    ensures var sum, product, rho := Node(Lop, "\\sum", []), Node(Lop, "\\prod", []), Node(Symbol, "\\rho", []);
            && StructuralEquals(syn, sum, product)
            && !StructuralEquals(syn, Node(Binary, "+", [sum, rho]), Node(Binary, "+", [product, rho]))
  {
    var sum, product, rho := Node(Lop, "\\sum", []), Node(Lop, "\\prod", []), Node(Symbol, "\\rho", []);
    ValueIsIgnored(syn, Lop, "\\sum", "\\prod", []);
    BareOperator(syn, "\\sum");
    BareOperator(syn, "\\prod");
    assert Normalize(syn, rho) == rho;
    ReplaceOperandIff(syn, "+", sum, product, rho);
    RhoLiesBetween();
  }

  lemma BareOperator(syn: Syntax, value: string)
    ensures Normalize(syn, Node(Lop, value, [])) == Node(Lop, value, []) && ToLatex(Node(Lop, value, [])) == value
  {
    assert value + "" == value;
  }

  lemma RhoLiesBetween()
    ensures !StringLe("\\sum", "\\rho") && StringLe("\\prod", "\\rho")
  {
    BackslashFirst("sum", "rho");
    BackslashFirst("prod", "rho");
    assert "\\" + "sum" == "\\sum" && "\\" + "prod" == "\\prod" && "\\" + "rho" == "\\rho";
  }

  lemma BackslashFirst(a: string, b: string)
    ensures StringLe("\\" + a, "\\" + b) == StringLe(a, b)
  {
    assert ("\\" + a)[1..] == a && ("\\" + b)[1..] == b;
  }

  /** Two operands that print alike without being equal, so that swapping them shows: a root sign without a radicand, as
      parsed from `\sqrt` alone, and one with an empty radicand, from `\sqrt{}`. */
  lemma SwapShows(syn: Syntax, op: string)
    requires op in COMMUTATIVE_OPS
    ensures var bare, empty := Node(Sqrt, "", []), Node(Sqrt, "", [Node(Root, "", [])]);
            !StructuralEquals(syn, Node(Binary, op, [bare, empty]), Node(Binary, op, [empty, bare]))
  {
    var bare, empty := Node(Sqrt, "", []), Node(Sqrt, "", [Node(Root, "", [])]);
    SwapOperands(syn, op, bare, empty);
    assert Normalize(syn, bare) == bare;
    assert [Node(Root, "", [])][1..] == [];
    assert Normalize(syn, Node(Root, "", [])) == Node(Root, "", []);
    assert NormalizeAll(syn, [Node(Root, "", [])]) == [Node(Root, "", [])];
    assert Normalize(syn, empty) == empty;
  }
}
