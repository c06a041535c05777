/** What `_normalize_node` of docmirror/ocr/formula_ast.py leaves alone, and when normalising twice is normalising once. */
module FormulaNormalForm {
  import opened FormulaTree
  import opened FormulaPrint
  import opened FormulaNormal
  import opened Sorting

  // ----- Letters that do not touch -----

  /** No letter has children or a letter after it. */
  predicate Apart(syn: Syntax, cs: seq<Node>) {
    || |cs| == 0
    || (&& (IsLetterSymbol(syn, cs[0]) ==> cs[0].children == [] && (|cs| > 1 ==> !IsLetterSymbol(syn, cs[1])))
        && Apart(syn, cs[1..]))
  }

  /** Merging letters changes nothing. */
  predicate Settled(syn: Syntax, cs: seq<Node>) {
    |cs| < 2 || Apart(syn, cs)
  }

  lemma {:induction false} ApartStays(syn: Syntax, cs: seq<Node>)
    requires Apart(syn, cs)
    ensures MergeRuns(syn, cs, "") == cs
    decreases |cs|
  {
    if |cs| > 0 {
      ApartStays(syn, cs[1..]);
      if IsLetterSymbol(syn, cs[0]) {
        assert "" + cs[0].value == cs[0].value;
        assert Flushed(cs[0].value) == [cs[0]];
        if |cs| > 1 {
          assert cs[1..][0] == cs[1];
          ApartStays(syn, cs[1..][1..]);
          assert MergeRuns(syn, cs[1..], cs[0].value) == [cs[0]] + [cs[1]] + cs[1..][1..];
        }
      }
    }
  }

  lemma {:induction false} RunsAreApart(syn: Syntax, cs: seq<Node>, letters: string)
    ensures Apart(syn, MergeRuns(syn, cs, letters))
  {
    if |cs| == 0 {
      ApartAfter(syn, letters, []);
      assert Flushed(letters) + [] == Flushed(letters);
    } else if IsLetterSymbol(syn, cs[0]) {
      RunsAreApart(syn, cs[1..], letters + cs[0].value);
    } else {
      RunsAreApart(syn, cs[1..], "");
      var rest := MergeRuns(syn, cs[1..], "");
      assert ([cs[0]] + rest)[1..] == rest;
      ApartAfter(syn, letters, [cs[0]] + rest);
      assert Flushed(letters) + [cs[0]] + rest == Flushed(letters) + ([cs[0]] + rest);
    }
  }

  lemma ApartAfter(syn: Syntax, letters: string, rest: seq<Node>)
    requires Apart(syn, rest) && (|rest| > 0 ==> !IsLetterSymbol(syn, rest[0]))
    ensures Apart(syn, Flushed(letters) + rest)
  {
    if |letters| == 0 {
      assert Flushed(letters) + rest == rest;
    } else {
      assert (Flushed(letters) + rest)[1..] == rest;
    }
  }

  lemma MergedIsSettled(syn: Syntax, cs: seq<Node>)
    ensures Settled(syn, Merged(syn, cs))
    ensures Settled(syn, cs) ==> Merged(syn, cs) == cs
  {
    RunsAreApart(syn, cs, "");
    if Apart(syn, cs) {
      ApartStays(syn, cs);
    }
  }

  // ----- Normal form -----

  /** No node is a single-child ROOT or GROUP, and nowhere could letters still be merged. */
  predicate Tidy(syn: Syntax, t: Node) {
    !IsWrapper(t) && (HoldsBraces(t.kind) ==> Settled(syn, t.children)) && forall c | c in t.children :: Tidy(syn, c)
  }

  /** What every result of the normalisation has. */
  predicate Shaped(syn: Syntax, t: Node) {
    && (t.kind != Text ==> forall c | c in t.children :: c.kind != Space)
    && !(t.kind == Symbol && t.value in VARIANT_MAP)
    && (t.kind == Frac ==> |t.children| <= 2)
    && (t.kind == Binary && t.value in COMMUTATIVE_OPS && |t.children| == 2 ==>
          StringLe(ToLatex(t.children[0]), ToLatex(t.children[1])))
    && (t.kind == Group || t.kind == Root ==> Settled(syn, t.children))
    && forall c | c in t.children :: Shaped(syn, c)
  }

  /** A merged run of letters. */
  predicate IsWord(syn: Syntax, t: Node) {
    t.kind == Symbol && t.children == [] && |t.value| > 0 && forall i | 0 <= i < |t.value| :: syn.isAlpha(t.value[i])
  }

  lemma {:induction false} InWithoutSpaces(cs: seq<Node>, c: Node)
    ensures c in WithoutSpaces(cs) <==> c in cs && c.kind != Space
  {
    if |cs| > 0 {
      InWithoutSpaces(cs[1..], c);
      assert cs == [cs[0]] + cs[1..];
    }
  }

  lemma {:induction false} NoSpacesToDrop(cs: seq<Node>)
    requires forall c | c in cs :: c.kind != Space
    ensures WithoutSpaces(cs) == cs
  {
    if |cs| > 0 {
      NoSpacesToDrop(cs[1..]);
    }
  }

  lemma {:induction false} InRuns(syn: Syntax, cs: seq<Node>, letters: string, c: Node)
    requires forall i | 0 <= i < |letters| :: syn.isAlpha(letters[i])
    ensures c in MergeRuns(syn, cs, letters) ==> (c in cs && !IsLetterSymbol(syn, c)) || IsWord(syn, c)
    ensures c in cs && !IsLetterSymbol(syn, c) ==> c in MergeRuns(syn, cs, letters)
  {
    if |cs| > 0 {
      assert cs == [cs[0]] + cs[1..];
      if IsLetterSymbol(syn, cs[0]) {
        InRuns(syn, cs[1..], letters + cs[0].value, c);
      } else {
        InRuns(syn, cs[1..], "", c);
      }
    }
  }

  function Bared(c: Node): Node {
    if c.kind == Group && |c.children| == 1 then c.children[0] else c
  }

  lemma {:induction false} UnbracedAt(cs: seq<Node>)
    ensures |Unbraced(cs)| == |cs| && forall i | 0 <= i < |cs| :: Unbraced(cs)[i] == Bared(cs[i])
  {
    if |cs| > 0 {
      UnbracedAt(cs[1..]);
    }
  }

  lemma InMerged(syn: Syntax, cs: seq<Node>, c: Node)
    requires c in Merged(syn, cs)
    ensures c in cs || IsWord(syn, c)
  {
    InRuns(syn, cs, "", c);
  }

  lemma WordIsShaped(syn: Syntax, c: Node)
    requires IsWord(syn, c) && !syn.isAlpha('\\')
    ensures Shaped(syn, c)
  {
    assert forall v | v in VARIANT_MAP :: |v| > 0 && v[0] == '\\';
  }

  lemma {:induction false} NormalIsShaped(syn: Syntax, t: Node)
    requires !syn.isAlpha('\\')
    ensures Shaped(syn, Normalize(syn, t))
    decreases t, 1
  {
    if IsWrapper(t) {
      NormalIsShaped(syn, t.children[0]);
    } else {
      AllNormalShaped(syn, t.children);
      RebuiltIsShaped(syn, t.kind, t.value, NormalizeAll(syn, t.children));
    }
  }

  lemma {:induction false} AllNormalShaped(syn: Syntax, cs: seq<Node>)
    requires !syn.isAlpha('\\')
    ensures forall c | c in NormalizeAll(syn, cs) :: Shaped(syn, c)
    decreases cs, 0
  {
    if |cs| > 0 {
      NormalIsShaped(syn, cs[0]);
      AllNormalShaped(syn, cs[1..]);
    }
  }

  lemma KeptIsShaped(syn: Syntax, kind: NodeType, norm: seq<Node>)
    requires !syn.isAlpha('\\') && forall c | c in norm :: Shaped(syn, c)
    ensures forall c | c in Kept(syn, kind, norm) :: Shaped(syn, c) && (kind != Text ==> c.kind != Space)
    ensures MergesLetters(kind) ==> Settled(syn, Kept(syn, kind, norm))
  {
    var cs := if kind == Text then norm else WithoutSpaces(norm);
    MergedIsSettled(syn, cs);
    forall c | c in Kept(syn, kind, norm) ensures Shaped(syn, c) && (kind != Text ==> c.kind != Space) {
      if MergesLetters(kind) {
        InMerged(syn, cs, c);
      }
      InWithoutSpaces(norm, c);
      if IsWord(syn, c) {
        WordIsShaped(syn, c);
      }
    }
  }

  lemma CutIsShaped(syn: Syntax, cs: seq<Node>, cut: seq<Node>)
    requires forall c | c in cs :: Shaped(syn, c) && c.kind != Space
    requires forall c | c in cut :: c in cs
    ensures forall c | c in Unbraced(cut) :: Shaped(syn, c) && c.kind != Space
  {
    UnbracedAt(cut);
    forall c | c in Unbraced(cut) ensures Shaped(syn, c) && c.kind != Space {
      var i :| 0 <= i < |cut| && Unbraced(cut)[i] == c;
      assert cut[i] in cs;
    }
  }

  lemma FractionCut(cs: seq<Node>)
    requires |cs| >= 2
    ensures forall c | c in [cs[0], cs[1]] :: c in cs
  {
  }

  lemma BracesAreShaped(syn: Syntax, kind: NodeType, value: string, cs: seq<Node>)
    requires HoldsBraces(kind) && forall c | c in cs :: Shaped(syn, c) && c.kind != Space
    ensures Shaped(syn, Node(kind, value, Unbraced(if kind == Frac && |cs| >= 2 then [cs[0], cs[1]] else cs)))
  {
    var cut := if kind == Frac && |cs| >= 2 then [cs[0], cs[1]] else cs;
    if |cs| >= 2 {
      FractionCut(cs);
    }
    CutIsShaped(syn, cs, cut);
    UnbracedAt(cut);
  }

  lemma OperandsAreShaped(syn: Syntax, value: string, cs: seq<Node>)
    requires |cs| == 2 && forall c | c in cs :: Shaped(syn, c) && c.kind != Space
    ensures Shaped(syn, Node(Binary, value, Sorted(cs)))
  {
    StringTotal(ToLatex(cs[0]), ToLatex(cs[1]));
    assert forall c | c in Sorted(cs) :: c in cs;
  }

  lemma VariantsAreFinal()
    ensures forall v | v in VARIANT_MAP :: VARIANT_MAP[v] !in VARIANT_MAP
  {
  }

  lemma RebuiltIsShaped(syn: Syntax, kind: NodeType, value: string, norm: seq<Node>)
    requires !syn.isAlpha('\\') && forall c | c in norm :: Shaped(syn, c)
    ensures Shaped(syn, Rebuilt(syn, kind, value, norm))
  {
    KeptIsShaped(syn, kind, norm);
    var cs := Kept(syn, kind, norm);
    if kind == Symbol && value in VARIANT_MAP {
      VariantsAreFinal();
    } else if HoldsBraces(kind) {
      BracesAreShaped(syn, kind, value, cs);
    } else if kind == Binary && value in COMMUTATIVE_OPS && |cs| == 2 {
      OperandsAreShaped(syn, value, cs);
    }
  }

  /** A tidy normal form is its own normal form. */
  lemma {:induction false} TidyIsFixed(syn: Syntax, n: Node)
    requires Shaped(syn, n) && Tidy(syn, n)
    ensures Normalize(syn, n) == n
    decreases n, 1
  {
    var cs := n.children;
    AllTidyFixed(syn, cs);
    if n.kind != Text {
      NoSpacesToDrop(cs);
    }
    if MergesLetters(n.kind) {
      MergedIsSettled(syn, cs);
    }
    if n.kind == Frac && |cs| >= 2 {
      assert [cs[0], cs[1]] == cs;
    }
    UnbracedAt(cs);
    assert Unbraced(cs) == cs by {
      forall i | 0 <= i < |cs| ensures Bared(cs[i]) == cs[i] {
        assert cs[i] in cs && Tidy(syn, cs[i]);
      }
    }
  }

  lemma {:induction false} AllTidyFixed(syn: Syntax, cs: seq<Node>)
    requires forall c | c in cs :: Shaped(syn, c) && Tidy(syn, c)
    ensures NormalizeAll(syn, cs) == cs
    decreases cs, 0
  {
    if |cs| > 0 {
      TidyIsFixed(syn, cs[0]);
      AllTidyFixed(syn, cs[1..]);
    }
  }

  // ----- An untidy tree gets smaller -----

  function Size(t: Node): (n: nat)
    ensures n >= 1
    decreases t, 1
  {
    1 + SizeAll(t.children)
  }

  function SizeAll(cs: seq<Node>): nat
    decreases cs, 0
  {
    if |cs| == 0 then 0 else Size(cs[0]) + SizeAll(cs[1..])
  }

  lemma {:induction false} SizeConcat(a: seq<Node>, b: seq<Node>)
    ensures SizeAll(a + b) == SizeAll(a) + SizeAll(b)
    decreases |a|
  {
    if |a| == 0 {
      assert a + b == b;
    } else {
      SizeConcat(a[1..], b);
      assert (a + b)[1..] == a[1..] + b;
    }
  }

  lemma {:induction false} SpacesCount(cs: seq<Node>)
    ensures SizeAll(WithoutSpaces(cs)) <= SizeAll(cs)
    decreases |cs|
  {
    if |cs| > 0 {
      SpacesCount(cs[1..]);
      SizeConcat(if cs[0].kind == Space then [] else [cs[0]], WithoutSpaces(cs[1..]));
    }
  }

  function Pending(letters: string): nat {
    if |letters| > 0 then 1 else 0
  }

  lemma RunsFlush(letters: string, c: Node, rest: seq<Node>)
    ensures SizeAll(Flushed(letters) + [c] + rest) == Pending(letters) + Size(c) + SizeAll(rest)
    ensures SizeAll(Flushed(letters)) == Pending(letters)
  {
    SizeConcat(Flushed(letters) + [c], rest);
    SizeConcat(Flushed(letters), [c]);
  }

  lemma {:induction false} RunsCount(syn: Syntax, cs: seq<Node>, letters: string)
    ensures SizeAll(MergeRuns(syn, cs, letters)) <= SizeAll(cs) + Pending(letters)
  {
    if |cs| == 0 {
      RunsFlush(letters, Node(Root, "", []), []);
    } else if IsLetterSymbol(syn, cs[0]) {
      RunsCount(syn, cs[1..], letters + cs[0].value);
    } else {
      RunsCount(syn, cs[1..], "");
      RunsFlush(letters, cs[0], MergeRuns(syn, cs[1..], ""));
    }
  }

  lemma LetterStays(syn: Syntax, c: Node)
    requires IsLetterSymbol(syn, c)
    ensures IsLetterSymbol(syn, Normalize(syn, c))
  {
    assert forall v | v in VARIANT_MAP :: |v| > 1;
  }

  /** Where letters touch, merging makes the list smaller. */
  lemma {:induction false} RunsShrink(syn: Syntax, cs: seq<Node>, letters: string)
    requires !Apart(syn, cs) || (|letters| > 0 && |cs| > 0 && IsLetterSymbol(syn, cs[0]))
    ensures SizeAll(MergeRuns(syn, WithoutSpaces(NormalizeAll(syn, cs)), letters)) < SizeAll(cs) + Pending(letters)
    decreases cs, 1
  {
    var first, norm := Normalize(syn, cs[0]), WithoutSpaces(NormalizeAll(syn, cs[1..]));
    NormalShrinks(syn, cs[0]);
    AllNormalShrink(syn, cs[1..]);
    SpacesCount(NormalizeAll(syn, cs[1..]));
    WithoutSpacesNext(syn, cs);
    if IsLetterSymbol(syn, cs[0]) {
      LetterStays(syn, cs[0]);
      RunsCount(syn, norm, letters + first.value);
      if |letters| == 0 && cs[0].children == [] {
        RunsShrink(syn, cs[1..], letters + first.value);
      }
    } else if first.kind == Space {
      RunsShrink(syn, cs[1..], letters);
    } else if IsLetterSymbol(syn, first) {
      RunsShrink(syn, cs[1..], letters + first.value);
    } else {
      RunsShrink(syn, cs[1..], "");
      RunsFlush(letters, first, MergeRuns(syn, norm, ""));
    }
  }

  lemma WithoutSpacesNext(syn: Syntax, cs: seq<Node>)
    requires |cs| > 0
    ensures var first, norm := Normalize(syn, cs[0]), WithoutSpaces(NormalizeAll(syn, cs[1..]));
            var all := WithoutSpaces(NormalizeAll(syn, cs));
            if first.kind == Space then all == norm else all == [first] + norm && all[0] == first && all[1..] == norm
  {
    assert NormalizeAll(syn, cs)[1..] == NormalizeAll(syn, cs[1..]);
  }

  lemma {:induction false} UnbracedCount(cs: seq<Node>)
    ensures SizeAll(Unbraced(cs)) <= SizeAll(cs)
    decreases |cs|
  {
    if |cs| > 0 {
      UnbracedCount(cs[1..]);
      assert Unbraced(cs)[1..] == Unbraced(cs[1..]);
      if cs[0].kind == Group && |cs[0].children| == 1 {
        assert SizeAll(cs[0].children) == Size(cs[0].children[0]) + SizeAll(cs[0].children[1..]);
      }
    }
  }

  lemma PairSize(a: Node, b: Node)
    ensures SizeAll([a, b]) == Size(a) + Size(b)
  {
    assert [a, b][1..] == [b] && [b][1..] == [];
    assert SizeAll([b]) == Size(b);
  }

  lemma CutCount(cs: seq<Node>)
    requires |cs| >= 2
    ensures SizeAll([cs[0], cs[1]]) <= SizeAll(cs) && (|cs| == 2 ==> SizeAll([cs[1], cs[0]]) == SizeAll(cs))
  {
    PairSize(cs[0], cs[1]);
    PairSize(cs[1], cs[0]);
    assert cs == [cs[0], cs[1]] + cs[2..];
    SizeConcat([cs[0], cs[1]], cs[2..]);
    assert |cs| == 2 ==> cs == [cs[0], cs[1]];
  }

  lemma RebuiltCount(syn: Syntax, kind: NodeType, value: string, norm: seq<Node>)
    ensures Size(Rebuilt(syn, kind, value, norm)) <= 1 + SizeAll(Kept(syn, kind, norm))
    ensures SizeAll(Kept(syn, kind, norm)) <= SizeAll(norm)
  {
    var cs := Kept(syn, kind, norm);
    SpacesCount(norm);
    RunsCount(syn, if kind == Text then norm else WithoutSpaces(norm), "");
    if |cs| >= 2 {
      CutCount(cs);
      UnbracedCount([cs[0], cs[1]]);
    }
    UnbracedCount(cs);
  }

  /** Normalising never makes a tree larger, and makes an untidy one smaller. */
  lemma {:induction false} NormalShrinks(syn: Syntax, t: Node)
    ensures Size(Normalize(syn, t)) <= Size(t) && (!Tidy(syn, t) ==> Size(Normalize(syn, t)) < Size(t))
    decreases t, 2
  {
    var cs := t.children;
    if IsWrapper(t) {
      NormalShrinks(syn, cs[0]);
    } else {
      AllNormalShrink(syn, cs);
      RebuiltCount(syn, t.kind, t.value, NormalizeAll(syn, cs));
      if HoldsBraces(t.kind) && !Settled(syn, cs) {
        SettledShrinks(syn, t);
      }
    }
  }

  lemma {:induction false} SettledShrinks(syn: Syntax, t: Node)
    requires HoldsBraces(t.kind) && !Settled(syn, t.children)
    ensures SizeAll(Kept(syn, t.kind, NormalizeAll(syn, t.children))) < SizeAll(t.children)
    decreases t, 1
  {
    RunsShrink(syn, t.children, "");
    var norm := WithoutSpaces(NormalizeAll(syn, t.children));
    if |norm| < 2 {
      FewerLeft(syn, t.children);
    }
  }

  /** With at most one of several children left, the list is smaller. */
  lemma {:induction false} FewerLeft(syn: Syntax, cs: seq<Node>)
    requires |WithoutSpaces(NormalizeAll(syn, cs))| < |cs|
    ensures SizeAll(WithoutSpaces(NormalizeAll(syn, cs))) < SizeAll(cs)
    decreases cs, 1
  {
    NormalShrinks(syn, cs[0]);
    AllNormalShrink(syn, cs[1..]);
    SpacesCount(NormalizeAll(syn, cs[1..]));
    WithoutSpacesNext(syn, cs);
    if Normalize(syn, cs[0]).kind != Space {
      FewerLeft(syn, cs[1..]);
    }
  }

  lemma {:induction false} AllNormalShrink(syn: Syntax, cs: seq<Node>)
    ensures SizeAll(NormalizeAll(syn, cs)) <= SizeAll(cs)
    ensures (exists c | c in cs :: !Tidy(syn, c)) ==> SizeAll(NormalizeAll(syn, cs)) < SizeAll(cs)
    decreases cs, 0
  {
    if |cs| > 0 {
      NormalShrinks(syn, cs[0]);
      AllNormalShrink(syn, cs[1..]);
      assert NormalizeAll(syn, cs)[1..] == NormalizeAll(syn, cs[1..]);
      assert cs == [cs[0]] + cs[1..];
    }
  }

  /** Normalising twice is normalising once exactly when the first result is tidy: only a single-child ROOT or GROUP that
      dropped spaces and merged letters leave behind, or letters that lost the braces between them, change again. */
  lemma NormalizeTwiceIff(syn: Syntax, t: Node)
    requires !syn.isAlpha('\\')
    ensures Normalize(syn, Normalize(syn, t)) == Normalize(syn, t) <==> Tidy(syn, Normalize(syn, t))
  {
    var n := Normalize(syn, t);
    NormalIsShaped(syn, t);
    NormalShrinks(syn, n);
    if Tidy(syn, n) {
      TidyIsFixed(syn, n);
    }
  }

  /** Normalising twice is not normalising once: two letters under a ROOT first merge and then lose the ROOT. */
  lemma NormalizeTwiceDiffers(syn: Syntax, c: char, d: char)
    requires syn.isAlpha(c) && syn.isAlpha(d)
    ensures var t := Node(Root, "", [Node(Symbol, [c], []), Node(Symbol, [d], [])]);
            Normalize(syn, t).kind == Root && Normalize(syn, Normalize(syn, t)).kind == Symbol
  {
    var a, b := Node(Symbol, [c], []), Node(Symbol, [d], []);
    LetterIsNormal(syn, c);
    LetterIsNormal(syn, d);
    TwoNormalized(syn, a, b);
    TwoLettersMerge(syn, c, d);
    assert |[c, d]| == 2;
  }

  // ----- The same condition on the input -----

  /** No SPACE node anywhere. */
  predicate SpaceFree(t: Node) {
    t.kind != Space && forall c | c in t.children :: SpaceFree(c)
  }

  predicate AllLetters(syn: Syntax, cs: seq<Node>) {
    forall c | c in cs :: IsLetterSymbol(syn, c)
  }

  /** Nowhere are several children of a ROOT or GROUP all letters, but for single-child groups around them, unless braces take
      the group away. */
  predicate Calm(syn: Syntax, t: Node, braced: bool) {
    if IsWrapper(t) then Calm(syn, t.children[0], braced)
    else
      && ((t.kind == Root || (t.kind == Group && !braced)) && |t.children| >= 2 ==> !AllLetters(syn, StrippedAll(t.children)))
      && forall c | c in t.children :: Calm(syn, c, HoldsBraces(t.kind))
  }

  lemma {:induction false} LettersOnInput(syn: Syntax, cs: seq<Node>)
    ensures AllLetters(syn, NormalizeAll(syn, cs)) <==> AllLetters(syn, StrippedAll(cs))
    decreases |cs|
  {
    if |cs| > 0 {
      LetterOnInput(syn, cs[0]);
      LettersOnInput(syn, cs[1..]);
      var norm, stripped := NormalizeAll(syn, cs), StrippedAll(cs);
      assert norm == [norm[0]] + NormalizeAll(syn, cs[1..]) && stripped == [stripped[0]] + StrippedAll(cs[1..]);
    }
  }

  predicate TidyIn(syn: Syntax, n: Node, braced: bool) {
    Tidy(syn, if braced then Bared(n) else n)
  }

  lemma {:induction false} RunsCountLetters(syn: Syntax, cs: seq<Node>, letters: string)
    ensures AllLetters(syn, cs) ==> |MergeRuns(syn, cs, letters)| <= 1
    ensures !AllLetters(syn, cs) ==> |MergeRuns(syn, cs, letters)| >= 1
    ensures !AllLetters(syn, cs) && (|letters| > 0 || |cs| >= 2) ==> |MergeRuns(syn, cs, letters)| >= 2
    ensures AllLetters(syn, cs) && |letters| + |cs| >= 2 ==>
              |MergeRuns(syn, cs, letters)| == 1
              && MergeRuns(syn, cs, letters)[0].kind == Symbol && |MergeRuns(syn, cs, letters)[0].value| >= 2
              && MergeRuns(syn, cs, letters)[0].children == []
  {
    if |cs| > 0 {
      assert cs == [cs[0]] + cs[1..];
      if IsLetterSymbol(syn, cs[0]) {
        RunsCountLetters(syn, cs[1..], letters + cs[0].value);
      } else {
        RunsCountLetters(syn, cs[1..], "");
        if |cs| >= 2 {
          assert cs[1..][0] == cs[1];
        }
      }
    }
  }

  ghost predicate IsLongWord(t: Node) {
    t.kind == Symbol && t.children == [] && |t.value| >= 2
  }

  /** Without spaces, a ROOT or GROUP is left with a single child only if letters have merged into it. */
  lemma {:induction false} SpaceFreeNormal(syn: Syntax, t: Node)
    requires SpaceFree(t)
    ensures var n := Normalize(syn, t); n.kind != Space && (IsWrapper(n) ==> IsLongWord(n.children[0]))
    decreases t, 1
  {
    if IsWrapper(t) {
      SpaceFreeNormal(syn, t.children[0]);
    } else if t.kind == Root || t.kind == Group {
      AllSpaceFree(syn, t.children);
      NoSpacesToDrop(NormalizeAll(syn, t.children));
      RunsCountLetters(syn, NormalizeAll(syn, t.children), "");
    }
  }

  lemma {:induction false} AllSpaceFree(syn: Syntax, cs: seq<Node>)
    requires forall c | c in cs :: SpaceFree(c)
    ensures forall c | c in NormalizeAll(syn, cs) :: c.kind != Space && (IsWrapper(c) ==> IsLongWord(c.children[0]))
    decreases cs, 0
  {
    if |cs| > 0 {
      SpaceFreeNormal(syn, cs[0]);
      AllSpaceFree(syn, cs[1..]);
    }
  }

  /** Taking the braces of merged letters away brings no letters together. */
  lemma {:induction false} UnbracedStaysApart(syn: Syntax, cs: seq<Node>)
    requires Apart(syn, cs) && forall c | c in cs :: IsWrapper(c) ==> IsLongWord(c.children[0])
    ensures Apart(syn, Unbraced(cs))
    decreases |cs|
  {
    if |cs| > 0 {
      UnbracedStaysApart(syn, cs[1..]);
      UnbracedAt(cs);
      assert Unbraced(cs)[1..] == Unbraced(cs[1..]);
      if |cs| > 1 {
        assert cs[1] in cs && cs[1..][0] == cs[1];
      }
    }
  }

  lemma WordIsTidy(syn: Syntax, c: Node, braced: bool)
    requires IsWord(syn, c) || IsLongWord(c)
    ensures TidyIn(syn, c, braced)
  {
  }

  /** The kept children of a node without spaces. */
  lemma KeptIsTidy(syn: Syntax, kind: NodeType, norm: seq<Node>, braced: bool)
    requires forall c | c in norm :: c.kind != Space && (IsWrapper(c) ==> IsLongWord(c.children[0]))
    requires forall c | c in norm :: TidyIn(syn, c, braced)
    ensures forall c | c in Kept(syn, kind, norm) :: c.kind != Space && (IsWrapper(c) ==> IsLongWord(c.children[0]))
    ensures forall c | c in Kept(syn, kind, norm) :: TidyIn(syn, c, braced)
  {
    NoSpacesToDrop(norm);
    forall c | c in Kept(syn, kind, norm)
      ensures c.kind != Space && (IsWrapper(c) ==> IsLongWord(c.children[0])) && TidyIn(syn, c, braced)
    {
      if MergesLetters(kind) {
        InMerged(syn, norm, c);
      }
      if IsWord(syn, c) {
        WordIsTidy(syn, c, braced);
      }
    }
  }

  /** A node that holds braces: its children lose the braces of single-child groups. */
  lemma BracesAreTidy(syn: Syntax, kind: NodeType, value: string, cs: seq<Node>)
    requires HoldsBraces(kind) && Settled(syn, cs)
    requires forall c | c in cs :: c.kind != Space && (IsWrapper(c) ==> IsLongWord(c.children[0])) && TidyIn(syn, c, true)
    ensures Tidy(syn, Node(kind, value, Unbraced(cs)))
  {
    UnbracedAt(cs);
    if |cs| >= 2 {
      UnbracedStaysApart(syn, cs);
    }
    forall c | c in Unbraced(cs) ensures Tidy(syn, c) {
      var i :| 0 <= i < |cs| && Unbraced(cs)[i] == c;
      assert cs[i] in cs && TidyIn(syn, cs[i], true);
    }
  }

  /** The first two children of a fraction. */
  function Cut(kind: NodeType, cs: seq<Node>): (r: seq<Node>)
    ensures forall c | c in r :: c in cs
  {
    if kind == Frac && |cs| >= 2 then [cs[0], cs[1]] else cs
  }

  lemma CutIsSettled(syn: Syntax, kind: NodeType, cs: seq<Node>)
    requires Settled(syn, cs)
    ensures Settled(syn, Cut(kind, cs))
  {
    if kind == Frac && |cs| >= 2 {
      var cut := [cs[0], cs[1]];
      assert cut[1..] == [cs[1]] && cut[1..][1..] == [] && cs[1..][0] == cs[1];
      assert Apart(syn, cs[1..]);
      assert Apart(syn, cut[1..][1..]) && Apart(syn, cut[1..]);
    }
  }

  /** A calm tree without spaces has a tidy normal form, up to a group in braces. */
  lemma {:induction false} CalmIsTidy(syn: Syntax, t: Node, braced: bool)
    requires SpaceFree(t) && Calm(syn, t, braced)
    ensures TidyIn(syn, Normalize(syn, t), braced)
    decreases t, 1
  {
    if IsWrapper(t) {
      CalmIsTidy(syn, t.children[0], braced);
    } else {
      AllCalmTidy(syn, t.children, HoldsBraces(t.kind));
      AllSpaceFree(syn, t.children);
      RebuiltIsTidy(syn, t, braced);
    }
  }

  lemma RebuiltIsTidy(syn: Syntax, t: Node, braced: bool)
    requires !IsWrapper(t) && Calm(syn, t, braced)
    requires forall c | c in NormalizeAll(syn, t.children) :: c.kind != Space && (IsWrapper(c) ==> IsLongWord(c.children[0]))
    requires forall c | c in NormalizeAll(syn, t.children) :: TidyIn(syn, c, HoldsBraces(t.kind))
    ensures TidyIn(syn, Normalize(syn, t), braced)
  {
    var norm := NormalizeAll(syn, t.children);
    KeptIsTidy(syn, t.kind, norm, HoldsBraces(t.kind));
    if HoldsBraces(t.kind) {
      MergedIsSettled(syn, WithoutSpaces(norm));
      CutIsSettled(syn, t.kind, Kept(syn, t.kind, norm));
      BracesAreTidy(syn, t.kind, t.value, Cut(t.kind, Kept(syn, t.kind, norm)));
    } else if t.kind == Root || t.kind == Group {
      NoSpacesToDrop(norm);
      RunsCountLetters(syn, norm, "");
      LettersOnInput(syn, t.children);
      WrapperIsLeft(syn, t, braced);
    } else {
      OthersAreTidy(syn, t.kind, t.value, norm);
    }
  }

  lemma OthersAreTidy(syn: Syntax, kind: NodeType, value: string, norm: seq<Node>)
    requires !HoldsBraces(kind) && kind != Root && kind != Group && forall c | c in Kept(syn, kind, norm) :: Tidy(syn, c)
    ensures Tidy(syn, Rebuilt(syn, kind, value, norm)) && Rebuilt(syn, kind, value, norm).kind != Group
  {
    var cs := Kept(syn, kind, norm);
    if kind == Binary && |cs| == 2 {
      assert forall c | c in Sorted(cs) :: c in cs;
    }
  }

  lemma WrapperIsLeft(syn: Syntax, t: Node, braced: bool)
    requires !IsWrapper(t) && (t.kind == Root || t.kind == Group) && Calm(syn, t, braced)
    requires AllLetters(syn, NormalizeAll(syn, t.children)) <==> AllLetters(syn, StrippedAll(t.children))
    requires var norm := NormalizeAll(syn, t.children);
             && WithoutSpaces(norm) == norm
             && (AllLetters(syn, norm) && |norm| >= 2 ==> |MergeRuns(syn, norm, "")| == 1 && IsLongWord(MergeRuns(syn, norm, "")[0]))
             && (!AllLetters(syn, norm) && |norm| >= 2 ==> |MergeRuns(syn, norm, "")| >= 2)
             && forall c | c in Merged(syn, norm) :: Tidy(syn, c)
    ensures TidyIn(syn, Normalize(syn, t), braced)
  {
    var norm := NormalizeAll(syn, t.children);
    var n := Normalize(syn, t);
    assert n == Node(t.kind, t.value, Merged(syn, norm));
    if AllLetters(syn, norm) && |norm| >= 2 {
      assert braced && Bared(n) == Merged(syn, norm)[0];
    }
  }

  lemma {:induction false} AllCalmTidy(syn: Syntax, cs: seq<Node>, braced: bool)
    requires forall c | c in cs :: SpaceFree(c) && Calm(syn, c, braced)
    ensures forall c | c in NormalizeAll(syn, cs) :: TidyIn(syn, c, braced)
    decreases cs, 0
  {
    if |cs| > 0 {
      CalmIsTidy(syn, cs[0], braced);
      AllCalmTidy(syn, cs[1..], braced);
    }
  }

  // ----- The converse -----

  /** No spaces, symbols without children, fractions with a numerator and a denominator at most: as the parser builds them. */
  predicate Plain(t: Node) {
    && t.kind != Space && (t.kind == Symbol ==> t.children == []) && (t.kind == Frac ==> |t.children| <= 2)
    && forall c | c in t.children :: Plain(c)
  }

  lemma {:induction false} PlainIsSpaceFree(t: Node)
    requires Plain(t)
    ensures SpaceFree(t)
  {
    forall c | c in t.children ensures SpaceFree(c) {
      PlainIsSpaceFree(c);
    }
  }

  /** A letter among the normal forms is a leaf. */
  lemma {:induction false} PlainLetter(syn: Syntax, t: Node)
    requires Plain(t)
    ensures Normalize(syn, t).kind == Symbol ==> Normalize(syn, t).children == []
    decreases t
  {
    if IsWrapper(t) {
      PlainLetter(syn, t.children[0]);
    }
  }

  lemma {:induction false} AllPlainLetters(syn: Syntax, cs: seq<Node>)
    requires forall c | c in cs :: Plain(c)
    ensures forall c | c in NormalizeAll(syn, cs) :: c.kind == Symbol ==> c.children == []
  {
    if |cs| > 0 {
      PlainLetter(syn, cs[0]);
      AllPlainLetters(syn, cs[1..]);
    }
  }

  lemma LeafIsTidy(syn: Syntax, c: Node, braced: bool)
    requires c.kind == Symbol && c.children == []
    ensures TidyIn(syn, c, braced)
  {
  }

  /** Every child of a plain node that is no leaf symbol is among the children of its normal form, without its braces if it
      loses them. */
  lemma ChildSurvives(syn: Syntax, t: Node, c: Node)
    requires !IsWrapper(t) && Plain(t) && c in NormalizeAll(syn, t.children) && !IsLetterSymbol(syn, c)
    requires forall d | d in NormalizeAll(syn, t.children) :: d.kind != Space
    ensures (if HoldsBraces(t.kind) then Bared(c) else c) in Normalize(syn, t).children
  {
    var norm := NormalizeAll(syn, t.children);
    NoSpacesToDrop(norm);
    InRuns(syn, norm, "", c);
    var cs := Kept(syn, t.kind, norm);
    assert c in cs;
    if HoldsBraces(t.kind) {
      RunsLength(syn, norm, "");
      BarePart(t.kind, cs, c);
    }
  }

  lemma BarePart(kind: NodeType, cs: seq<Node>, c: Node)
    requires c in cs && (kind == Frac ==> |cs| <= 2)
    ensures Bared(c) in Unbraced(if kind == Frac && |cs| >= 2 then [cs[0], cs[1]] else cs)
  {
    assert kind == Frac && |cs| >= 2 ==> [cs[0], cs[1]] == cs;
    UnbracedAt(cs);
    var i :| 0 <= i < |cs| && cs[i] == c;
    assert Unbraced(cs)[i] == Bared(c);
  }

  lemma {:induction false} RunsLength(syn: Syntax, cs: seq<Node>, letters: string)
    ensures |MergeRuns(syn, cs, letters)| <= |cs| + Pending(letters)
  {
    if |cs| > 0 {
      if IsLetterSymbol(syn, cs[0]) {
        RunsLength(syn, cs[1..], letters + cs[0].value);
      } else {
        RunsLength(syn, cs[1..], "");
      }
    }
  }

  /** A plain tree with a tidy normal form is calm. */
  lemma {:induction false} TidyIsCalm(syn: Syntax, t: Node, braced: bool)
    requires Plain(t) && TidyIn(syn, Normalize(syn, t), braced)
    ensures Calm(syn, t, braced)
    decreases t, 1
  {
    if IsWrapper(t) {
      TidyIsCalm(syn, t.children[0], braced);
    } else {
      forall c | c in t.children ensures SpaceFree(c) {
        PlainIsSpaceFree(c);
      }
      AllSpaceFree(syn, t.children);
      ChildrenAreTidy(syn, t, braced);
      AllTidyCalm(syn, t.children, HoldsBraces(t.kind));
      LettersOnInput(syn, t.children);
      NoSpacesToDrop(NormalizeAll(syn, t.children));
      RunsCountLetters(syn, NormalizeAll(syn, t.children), "");
    }
  }

  lemma ChildrenAreTidy(syn: Syntax, t: Node, braced: bool)
    requires !IsWrapper(t) && Plain(t) && TidyIn(syn, Normalize(syn, t), braced)
    requires forall c | c in NormalizeAll(syn, t.children) :: c.kind != Space && (IsWrapper(c) ==> IsLongWord(c.children[0]))
    ensures forall c | c in NormalizeAll(syn, t.children) :: TidyIn(syn, c, HoldsBraces(t.kind))
  {
    var n := Normalize(syn, t);
    AllPlainLetters(syn, t.children);
    forall c | c in NormalizeAll(syn, t.children) ensures TidyIn(syn, c, HoldsBraces(t.kind)) {
      if c.kind == Symbol {
        LeafIsTidy(syn, c, HoldsBraces(t.kind));
      } else {
        ChildSurvives(syn, t, c);
        if braced && IsWrapper(n) {
          assert n.children[0] == c;
        }
      }
    }
  }

  lemma {:induction false} AllTidyCalm(syn: Syntax, cs: seq<Node>, braced: bool)
    requires forall c | c in cs :: Plain(c)
    requires forall c | c in NormalizeAll(syn, cs) :: TidyIn(syn, c, braced)
    ensures forall c | c in cs :: Calm(syn, c, braced)
    decreases cs, 0
  {
    if |cs| > 0 {
      var norm := NormalizeAll(syn, cs);
      assert norm[0] in norm && norm == [norm[0]] + NormalizeAll(syn, cs[1..]);
      TidyIsCalm(syn, cs[0], braced);
      AllTidyCalm(syn, cs[1..], braced);
    }
  }

  /** On trees as the parser builds them, without spaces, normalising twice is normalising once exactly when nowhere
      several children of a ROOT or of a group outside braces are all letters, but for single-child groups around them. */
  lemma PlainTwiceIff(syn: Syntax, t: Node)
    requires !syn.isAlpha('\\') && Plain(t)
    ensures Normalize(syn, Normalize(syn, t)) == Normalize(syn, t) <==> Calm(syn, t, false)
  {
    NormalizeTwiceIff(syn, t);
    PlainIsSpaceFree(t);
    if Calm(syn, t, false) {
      CalmIsTidy(syn, t, false);
    } else if Tidy(syn, Normalize(syn, t)) {
      TidyIsCalm(syn, t, false);
    }
  }

  // ----- Without letters -----

  /** No symbol is a single letter. */
  predicate LetterFree(syn: Syntax, t: Node) {
    !IsLetterSymbol(syn, t) && forall c | c in t.children :: LetterFree(syn, c)
  }

  lemma {:induction false} LetterFreeStripped(syn: Syntax, t: Node)
    requires LetterFree(syn, t)
    ensures !IsLetterSymbol(syn, Stripped(t))
    decreases t
  {
    if IsWrapper(t) {
      LetterFreeStripped(syn, t.children[0]);
    }
  }

  lemma {:induction false} LetterFreeIsCalm(syn: Syntax, t: Node, braced: bool)
    requires LetterFree(syn, t)
    ensures Calm(syn, t, braced)
    decreases t
  {
    if IsWrapper(t) {
      LetterFreeIsCalm(syn, t.children[0], braced);
    } else {
      forall c | c in t.children ensures Calm(syn, c, HoldsBraces(t.kind)) {
        LetterFreeIsCalm(syn, c, HoldsBraces(t.kind));
      }
      if |t.children| > 0 {
        LetterFreeStripped(syn, t.children[0]);
        assert StrippedAll(t.children)[0] == Stripped(t.children[0]);
      }
    }
  }

  /** A tree without a space is normalised by one pass if it is calm, in particular if it has no single letters. */
  lemma NormalizeTwice(syn: Syntax, t: Node)
    requires !syn.isAlpha('\\') && SpaceFree(t)
    ensures Calm(syn, t, false) ==> Normalize(syn, Normalize(syn, t)) == Normalize(syn, t)
    ensures LetterFree(syn, t) ==> Normalize(syn, Normalize(syn, t)) == Normalize(syn, t)
  {
    if LetterFree(syn, t) {
      LetterFreeIsCalm(syn, t, false);
    }
    if Calm(syn, t, false) {
      CalmIsTidy(syn, t, false);
      NormalizeTwiceIff(syn, t);
    }
  }
}
