/** Parsing the tokens of a printed tree, and the round trip as a whole. */
module FormulaReparse {
  import opened Options
  import opened FormulaTree
  import opened FormulaLexer
  import opened FormulaParser
  import opened FormulaPrint
  import opened FormulaRoundTrip

  /** The tree the parser builds from the printed text: t with braces turned into groups. */
  function Reparsed(t: Node): (r: Node)
    ensures r.kind == t.kind
    decreases t, 1
  {
    var cs := t.children;
    match t.kind
    case Root => Node(Root, "", ReparsedAll(cs))
    case Group => Node(Group, "", ReparsedAll(cs))
    case Frac => if |cs| == 2 then Node(Frac, "", [Node(Root, "", ReparsedArg(cs[0])), Node(Root, "", ReparsedArg(cs[1]))]) else t
    case Sqrt => if |cs| == 1 then Node(Sqrt, "", [Node(Root, "", ReparsedArg(cs[0]))]) else t
    case Accent => if |cs| == 1 then Node(Accent, t.value, [Node(Group, "", [Reparsed(cs[0])])]) else t
    case Binary => if |cs| == 2 then Node(Binary, t.value, [Reparsed(cs[0]), Reparsed(cs[1])]) else t
    case Sup => if |cs| == 2 then Node(NodeType.Sup, "", [Reparsed(cs[0]), Node(Group, "", [Reparsed(Inner(cs[1]))])]) else t
    case Sub => if |cs| == 2 then Node(NodeType.Sub, "", [Reparsed(cs[0]), Node(Group, "", [Reparsed(Inner(cs[1]))])]) else t
    case SubSup =>
      if |cs| == 3 then
        Node(SubSup, "", [Reparsed(cs[0]), Node(Group, "", [Node(Group, "", [Reparsed(cs[1])])]),
                          Node(Group, "", [Node(Group, "", [Reparsed(cs[2])])])])
      else t
    case _ => t
  }

  function ReparsedAll(cs: seq<Node>): (r: seq<Node>)
    ensures |r| == |cs|
    decreases cs, 0
  {
    if |cs| == 0 then [] else [Reparsed(cs[0])] + ReparsedAll(cs[1..])
  }

  function ReparsedArg(t: Node): seq<Node>
    decreases t, 2
  {
    if t.kind == Root then ReparsedAll(t.children) else [Reparsed(t)]
  }

  // ----- The tokens an expression starts with -----

  ghost predicate Starts(syn: Syntax, ts: seq<Token>) {
    |ts| > 0 && (ts[0].kind == Cmd || ts[0].kind == Char || ts[0].kind == LBrace) && !IsOperator(syn, ts[0])
  }

  lemma ExprIsNoRoot(syn: Syntax, t: Node)
    requires IsExpr(syn, t)
    ensures t.kind != Root
  {
    assert t.kind == Root ==> !IsAtom(syn, t);
    assert t.kind == Root ==> !IsTerm(syn, t);
  }

  lemma LeafStarts(syn: Syntax, t: Node)
    requires Sound(syn) && IsLeaf(syn, t)
    ensures Starts(syn, Printed(t))
  {
    LeafShape(t);
    if t.kind != Text && PlainWord(t.value) {
      assert IsPlain(t.value[0]);
    }
  }

  lemma {:induction false} PrintedStarts(syn: Syntax, t: Node)
    requires Sound(syn) && IsExpr(syn, t)
    ensures Starts(syn, Printed(t))
  {
    ExprIsNoRoot(syn, t);
    ArgLevel(syn, t);
    match t.kind
    case Binary => PrintedStarts(syn, t.children[0]);
    case Sup => ArgLevel(syn, t.children[0]); PrintedStarts(syn, t.children[0]);
    case Sub => ArgLevel(syn, t.children[0]); PrintedStarts(syn, t.children[0]);
    case SubSup => ArgLevel(syn, t.children[0]); PrintedStarts(syn, t.children[0]);
    case Frac =>
    case Sqrt =>
    case Accent =>
    case Group => assert Marks("{")[0].kind == LBrace && !IsOperator(syn, Marks("{")[0]);
    case _ => LeafStarts(syn, t);
  }

  /** What may follow an expression inside a formula: the end, a closing brace or another expression. */
  ghost predicate Follows(syn: Syntax, rest: seq<Token>) {
    |rest| == 0 || rest[0].kind == RBrace || Starts(syn, rest)
  }

  ghost predicate NoScript(rest: seq<Token>) {
    !At(rest, SubMark) && !At(rest, SuperMark)
  }

  // ----- The parser's rules, one step each -----

  lemma FormulaRule(syn: Syntax, ts: seq<Token>, node: Node, tail: seq<Token>, nodes: seq<Node>, rest: seq<Token>)
    requires !AtStop(ts) && Expr(syn, ts) == Parsed(Some(node), tail) && Formula(syn, tail) == Formulas(nodes, rest)
    ensures Formula(syn, ts) == Formulas([node] + nodes, rest)
  {
  }

  lemma StopRule(syn: Syntax, left: Node, rest: seq<Token>)
    requires AtStop(rest) || !IsOperator(syn, rest[0])
    ensures Operators(syn, left, rest) == Parsed(Some(left), rest)
  {
  }

  lemma ExprRule(syn: Syntax, ts: seq<Token>, left: Node, rest: seq<Token>)
    requires Term(syn, ts) == Parsed(Some(left), rest)
    ensures Expr(syn, ts) == Operators(syn, left, rest)
  {
  }

  lemma OperatorRule(syn: Syntax, left: Node, op: Token, ts: seq<Token>, right: Node, rest: seq<Token>)
    requires IsOperator(syn, op) && Term(syn, ts) == Parsed(Some(right), rest)
    ensures Operators(syn, left, [op] + ts) == Operators(syn, Node(Binary, op.value, [left, right]), rest)
  {
    assert ([op] + ts)[1..] == ts;
  }

  lemma PlainTermRule(syn: Syntax, ts: seq<Token>, base: Node, rest: seq<Token>)
    requires Atom(syn, ts) == Parsed(Some(base), rest) && NoScript(rest)
    ensures Term(syn, ts) == Parsed(Some(base), rest)
  {
  }

  /** One script after its mark. */
  lemma ScriptRule(syn: Syntax, mark: Token, ts: seq<Token>, script: Node, rest: seq<Token>)
    requires Atom(syn, ts) == Parsed(Some(script), rest) && !At(rest, mark.kind)
    ensures Scripts(syn, mark.kind, None, [mark] + ts) == Parsed(Some(script), rest)
  {
    assert ([mark] + ts)[1..] == ts;
    assert Scripts(syn, mark.kind, Some(script), rest) == Parsed(Some(script), rest);
  }

  /** A base with one script. */
  lemma OneScriptRule(syn: Syntax, ts: seq<Token>, base: Node, mark: Token, arg: seq<Token>, script: Node, rest: seq<Token>)
    requires mark.kind == SubMark || mark.kind == SuperMark
    requires Atom(syn, ts) == Parsed(Some(base), [mark] + arg) && Atom(syn, arg) == Parsed(Some(script), rest) && NoScript(rest)
    ensures mark.kind == SubMark ==> Term(syn, ts) == Parsed(Some(Scripted(base, Some(script), None)), rest)
    ensures mark.kind == SuperMark ==> Term(syn, ts) == Parsed(Some(Scripted(base, None, Some(script))), rest)
  {
    ScriptRule(syn, mark, arg, script, rest);
  }

  lemma BracedRule(syn: Syntax, body: seq<Token>, nodes: seq<Node>, rest: seq<Token>)
    requires Formula(syn, body + (Marks("}") + rest)) == Formulas(nodes, Marks("}") + rest)
    ensures Braced(syn, Marks("{") + body + Marks("}") + rest) == Parsed(nodes, rest)
  {
    OneMark();
    var ts := Marks("{") + body + Marks("}") + rest;
    assert ts[1..] == body + (Marks("}") + rest);
    assert (Marks("}") + rest)[1..] == rest;
  }

  lemma GroupRule(syn: Syntax, ts: seq<Token>, nodes: seq<Node>, rest: seq<Token>)
    requires At(ts, LBrace) && Braced(syn, ts) == Parsed(nodes, rest)
    ensures Atom(syn, ts) == Parsed(Some(Node(Group, "", nodes)), rest)
  {
  }

  lemma CommandRule(syn: Syntax, cmd: Token, ts: seq<Token>)
    requires cmd.kind == Cmd
    ensures Atom(syn, [cmd] + ts) == Command(syn, [cmd] + ts) && ([cmd] + ts)[1..] == ts
  {
  }

  lemma OneMark()
    ensures Marks("{") == [Token(LBrace, "{")] && Marks("}") == [Token(RBrace, "}")]
    ensures Marks("^") == [Token(SuperMark, "^")] && Marks("_") == [Token(SubMark, "_")]
    ensures Marks("_{") == Marks("_") + Marks("{") && Marks("}^{") == Marks("}") + Marks("^") + Marks("{")
    ensures Marks("}{") == Marks("}") + Marks("{")
  {
  }

  // ----- Parsing what was printed -----

  lemma {:induction false} ParsesAll(syn: Syntax, cs: seq<Node>, rest: seq<Token>)
    requires Sound(syn) && AllExprs(syn, cs) && (|rest| == 0 || rest[0].kind == RBrace)
    ensures Formula(syn, PrintedAll(cs) + rest) == Formulas(ReparsedAll(cs), rest)
    decreases cs, 0
  {
    if |cs| == 0 {
      assert PrintedAll(cs) + rest == rest;
    } else {
      var tail := PrintedAll(cs[1..]) + rest;
      var ts := Printed(cs[0]) + tail;
      ParsesAll(syn, cs[1..], rest);
      PrintedStarts(syn, cs[0]);
      TailFollows(syn, cs[1..], rest);
      ParsesExpr(syn, cs[0], tail);
      StopRule(syn, Reparsed(cs[0]), tail);
      assert ts[0] == Printed(cs[0])[0];
      FormulaRule(syn, ts, Reparsed(cs[0]), tail, ReparsedAll(cs[1..]), rest);
      assert PrintedAll(cs) + rest == ts;
    }
  }

  lemma TailFollows(syn: Syntax, cs: seq<Node>, rest: seq<Token>)
    requires Sound(syn) && AllExprs(syn, cs) && (|rest| == 0 || rest[0].kind == RBrace)
    ensures Follows(syn, PrintedAll(cs) + rest)
  {
    if |cs| > 0 {
      PrintedStarts(syn, cs[0]);
      assert (PrintedAll(cs) + rest)[0] == Printed(cs[0])[0];
    }
  }

  lemma {:induction false} ParsesExpr(syn: Syntax, t: Node, rest: seq<Token>)
    requires Sound(syn) && IsExpr(syn, t) && NoScript(rest)
    ensures Expr(syn, Printed(t) + rest) == Operators(syn, Reparsed(t), rest)
    decreases t, 5
  {
    if t.kind == Binary {
      var left, right, op := t.children[0], t.children[1], Word(t.value);
      var more := [op] + (Printed(right) + rest);
      assert Printed(t) + rest == Printed(left) + more;
      if PlainWord(t.value) {
        assert IsPlain(t.value[0]);
      }
      ParsesExpr(syn, left, more);
      ParsesTerm(syn, right, rest);
      OperatorRule(syn, Reparsed(left), op, Printed(right) + rest, Reparsed(right), rest);
    } else {
      ParsesTerm(syn, t, rest);
      ExprRule(syn, Printed(t) + rest, Reparsed(t), rest);
    }
  }

  lemma {:induction false} ParsesTerm(syn: Syntax, t: Node, rest: seq<Token>)
    requires Sound(syn) && IsTerm(syn, t) && NoScript(rest)
    ensures Term(syn, Printed(t) + rest) == Parsed(Some(Reparsed(t)), rest)
    decreases t, 4
  {
    if t.kind == NodeType.Sup || t.kind == NodeType.Sub {
      ParsesScript(syn, t, rest);
    } else if t.kind == SubSup {
      ParsesScripts(syn, t, rest);
    } else {
      ParsesAtom(syn, t, rest);
      PlainTermRule(syn, Printed(t) + rest, Reparsed(t), rest);
    }
  }

  /** A formula in braces. */
  lemma {:induction false} ParsesBraced(syn: Syntax, t: Node, rest: seq<Token>)
    requires Sound(syn) && IsArg(syn, t)
    ensures Braced(syn, Marks("{") + Printed(t) + Marks("}") + rest) == Parsed(ReparsedArg(t), rest)
    decreases t, 7
  {
    OneMark();
    if t.kind == Root {
      ParsesAll(syn, t.children, Marks("}") + rest);
    } else {
      OneExpr(syn, t, Marks("}") + rest);
    }
    BracedRule(syn, Printed(t), ReparsedArg(t), rest);
  }

  lemma {:induction false} OneExpr(syn: Syntax, t: Node, rest: seq<Token>)
    requires Sound(syn) && IsExpr(syn, t) && (|rest| == 0 || rest[0].kind == RBrace)
    ensures Formula(syn, Printed(t) + rest) == Formulas([Reparsed(t)], rest)
    decreases t, 6
  {
    PrintedStarts(syn, t);
    ParsesExpr(syn, t, rest);
    StopRule(syn, Reparsed(t), rest);
    assert (Printed(t) + rest)[0] == Printed(t)[0];
    FormulaRule(syn, Printed(t) + rest, Reparsed(t), rest, [], rest);
  }

  /** A braced expression as an atom. */
  lemma {:induction false} ParsesGroup(syn: Syntax, t: Node, rest: seq<Token>)
    requires Sound(syn) && IsExpr(syn, t)
    ensures Atom(syn, Marks("{") + Printed(t) + Marks("}") + rest) == Parsed(Some(Node(Group, "", [Reparsed(t)])), rest)
    decreases t, 8
  {
    OneMark();
    ExprIsNoRoot(syn, t);
    ParsesBraced(syn, t, rest);
    GroupRule(syn, Marks("{") + Printed(t) + Marks("}") + rest, [Reparsed(t)], rest);
  }

  /** An expression printed with two pairs of braces. */
  lemma {:induction false} ParsesDoubleGroup(syn: Syntax, t: Node, rest: seq<Token>)
    requires Sound(syn) && IsExpr(syn, t)
    ensures Atom(syn, Marks("{") + (Marks("{") + Printed(t) + Marks("}")) + Marks("}") + rest) ==
            Parsed(Some(Node(Group, "", [Node(Group, "", [Reparsed(t)])])), rest)
    decreases t, 9
  {
    OneMark();
    var close := Marks("}") + rest;
    var body := Marks("{") + Printed(t) + Marks("}");
    var group := Node(Group, "", [Reparsed(t)]);
    ParsesGroup(syn, t, close);
    PlainTermRule(syn, body + close, group, close);
    ExprRule(syn, body + close, group, close);
    StopRule(syn, group, close);
    FormulaRule(syn, body + close, group, close, [], close);
    BracedRule(syn, body, [group], rest);
    GroupRule(syn, Marks("{") + body + Marks("}") + rest, [group], rest);
  }

  lemma {:induction false} ParsesScript(syn: Syntax, t: Node, rest: seq<Token>)
    requires Sound(syn) && IsTerm(syn, t) && (t.kind == NodeType.Sup || t.kind == NodeType.Sub) && NoScript(rest)
    ensures Term(syn, Printed(t) + rest) == Parsed(Some(Reparsed(t)), rest)
    decreases t, 3
  {
    OneMark();
    var base, script := t.children[0], Inner(t.children[1]);
    var mark := if t.kind == NodeType.Sup then Marks("^")[0] else Marks("_")[0];
    var arg := Marks("{") + Printed(script) + Marks("}") + rest;
    var scripts := [mark] + arg;
    ArgLevel(syn, t.children[1]);
    assert IsExpr(syn, script);
    ScriptTokens(Printed(base), [mark], Marks("{"), Printed(script), Marks("}"), rest);
    ParsesAtom(syn, base, scripts);
    ParsesGroup(syn, script, rest);
    OneScriptRule(syn, Printed(t) + rest, Reparsed(base), mark, arg, Node(Group, "", [Reparsed(script)]), rest);
  }

  /** Outside that fragment: a single script of a large operator becomes its child, and whether it stood below or
      above is lost, so `\\sum_{i}` and `\\sum^{i}` parse alike. */
  lemma LargeOperatorLosesScript(syn: Syntax, t: Node, rest: seq<Token>)
    requires Sound(syn) && (t.kind == NodeType.Sup || t.kind == NodeType.Sub) && |t.children| == 2 && NoScript(rest)
    requires IsLeaf(syn, t.children[0]) && t.children[0].kind == Lop && IsExpr(syn, t.children[1])
    ensures Term(syn, Printed(t) + rest) ==
            Parsed(Some(Node(Lop, t.children[0].value, [Reparsed(Inner(t.children[1]))])), rest)
  {
    OneMark();
    var base, script := t.children[0], Inner(t.children[1]);
    var mark := if t.kind == NodeType.Sup then Marks("^")[0] else Marks("_")[0];
    var arg := Marks("{") + Printed(script) + Marks("}") + rest;
    ArgLevel(syn, t.children[1]);
    assert IsExpr(syn, script);
    ScriptTokens(Printed(base), [mark], Marks("{"), Printed(script), Marks("}"), rest);
    ParsesLeaf(syn, base, [mark] + arg);
    ParsesGroup(syn, script, rest);
    var group := Node(Group, "", [Reparsed(script)]);
    OneScriptRule(syn, Printed(t) + rest, base, mark, arg, group, rest);
    TakesOver(base, group);
  }

  lemma TakesOver(base: Node, group: Node)
    requires base.kind == Lop && |base.children| == 0 && group.kind == Group
    ensures Scripted(base, Some(group), None) == Node(Lop, base.value, group.children)
    ensures Scripted(base, None, Some(group)) == Node(Lop, base.value, group.children)
  {
    assert base.children + group.children == group.children;
  }

  lemma {:induction false} ParsesScripts(syn: Syntax, t: Node, rest: seq<Token>)
    requires Sound(syn) && IsTerm(syn, t) && t.kind == SubSup && NoScript(rest)
    ensures Term(syn, Printed(t) + rest) == Parsed(Some(Reparsed(t)), rest)
    decreases t, 3
  {
    OneMark();
    var base, sub, sup := t.children[0], t.children[1], t.children[2];
    var upper := Marks("{") + (Marks("{") + Printed(sup) + Marks("}")) + Marks("}") + rest;
    var tail := Marks("^") + upper;
    var lower := Marks("{") + (Marks("{") + Printed(sub) + Marks("}")) + Marks("}") + tail;
    SubSupTokens(Printed(base), Marks("{") + Printed(sub) + Marks("}"), Marks("{") + Printed(sup) + Marks("}"), rest);
    ParsesDoubleGroup(syn, sup, rest);
    ParsesDoubleGroup(syn, sub, tail);
    ParsesAtom(syn, base, Marks("_") + lower);
    ScriptRule(syn, Marks("_")[0], lower, Node(Group, "", [Node(Group, "", [Reparsed(sub)])]), tail);
    ScriptRule(syn, Marks("^")[0], upper, Node(Group, "", [Node(Group, "", [Reparsed(sup)])]), rest);
  }

  lemma SubSupTokens(base: seq<Token>, sub: seq<Token>, sup: seq<Token>, rest: seq<Token>)
    ensures base + Marks("_{") + sub + Marks("}^{") + sup + Marks("}") + rest ==
            base + (Marks("_") + (Marks("{") + sub + Marks("}") + (Marks("^") + (Marks("{") + sup + Marks("}") + rest))))
  {
    OneMark();
    Rebracket(base, Marks("_"), Marks("{"), sub, Marks("}"), Marks("^"), Marks("{"), sup, Marks("}"), rest);
  }

  lemma Rebracket<T>(a: seq<T>, b: seq<T>, c: seq<T>, d: seq<T>, e: seq<T>, f: seq<T>, g: seq<T>, h: seq<T>, i: seq<T>, j: seq<T>)
    ensures a + (b + c) + d + (e + f + g) + h + i + j == a + (b + (c + d + e + (f + (g + h + i + j))))
  {
  }

  lemma {:induction false} ParsesAtom(syn: Syntax, t: Node, rest: seq<Token>)
    requires Sound(syn) && IsAtom(syn, t)
    ensures Atom(syn, Printed(t) + rest) == Parsed(Some(Reparsed(t)), rest)
    decreases t, 2
  {
    ArgLevel(syn, t);
    match t.kind
    case Frac => ParsesFrac(syn, t, rest);
    case Sqrt => ParsesSqrt(syn, t, rest);
    case Accent => ParsesAccent(syn, t, rest);
    case Group => ParsesList(syn, t, rest);
    case _ => ParsesLeaf(syn, t, rest);
  }

  lemma {:induction false} ParsesList(syn: Syntax, t: Node, rest: seq<Token>)
    requires Sound(syn) && IsAtom(syn, t) && t.kind == Group
    ensures Atom(syn, Printed(t) + rest) == Parsed(Some(Reparsed(t)), rest)
    decreases t, 1
  {
    OneMark();
    ParsesAll(syn, t.children, Marks("}") + rest);
    BracedRule(syn, PrintedAll(t.children), ReparsedAll(t.children), rest);
    GroupRule(syn, Printed(t) + rest, ReparsedAll(t.children), rest);
  }

  lemma ParsesLeaf(syn: Syntax, t: Node, rest: seq<Token>)
    requires Sound(syn) && IsLeaf(syn, t)
    ensures Atom(syn, Printed(t) + rest) == Parsed(Some(t), rest)
  {
    LeafShape(t);
    if t.kind == Text {
      ParsesTextNode(syn, t.value, rest);
    } else {
      if PlainWord(t.value) {
        assert IsPlain(t.value[0]);
      }
      CommandRuleOrChar(syn, Word(t.value), rest);
    }
  }

  lemma CommandRuleOrChar(syn: Syntax, word: Token, rest: seq<Token>)
    requires word.kind == Cmd || word.kind == Char
    ensures ([word] + rest)[1..] == rest
    ensures word.kind == Char ==> Atom(syn, [word] + rest) == Parsed(Some(CharNode(syn, word.value)), rest)
    ensures word.kind == Cmd ==> Atom(syn, [word] + rest) == Command(syn, [word] + rest)
  {
  }

  lemma ReadsText(value: string, close: seq<Token>, rest: seq<Token>)
    requires value == "" || PlainWord(value)
    requires close == Marks("}") + rest
    ensures TextRun((if value == "" then [] else [Word(value)]) + close) == (value, rest)
  {
    OneMark();
    assert close[1..] == rest;
    assert TextRun(close) == ("", rest);
    if value == "" {
      assert [] + close == close;
    } else {
      assert IsPlain(value[0]);
      assert ([Word(value)] + close)[1..] == close;
      assert value + "" == value;
    }
  }

  lemma ParsesTextNode(syn: Syntax, value: string, rest: seq<Token>)
    requires Sound(syn) && (value == "" || PlainWord(value))
    ensures var word := if value == "" then [] else [Word(value)];
            Atom(syn, [Word("\\mathrm")] + Marks("{") + word + Marks("}") + rest) == Parsed(Some(Node(Text, value, [])), rest)
  {
    OneMark();
    var word := if value == "" then [] else [Word(value)];
    var inner := word + (Marks("}") + rest);
    ReadsText(value, Marks("}") + rest, rest);
    TextTokens([Word("\\mathrm")], Marks("{"), word, Marks("}"), rest);
    CommandRule(syn, Word("\\mathrm"), Marks("{") + inner);
    assert (Marks("{") + inner)[1..] == inner;
  }

  lemma TextTokens<T>(a: seq<T>, open: seq<T>, n: seq<T>, close: seq<T>, rest: seq<T>)
    ensures a + open + n + close + rest == a + (open + (n + (close + rest)))
  {
  }

  lemma {:induction false} ParsesFrac(syn: Syntax, t: Node, rest: seq<Token>)
    requires Sound(syn) && IsAtom(syn, t) && t.kind == Frac
    ensures Atom(syn, Printed(t) + rest) == Parsed(Some(Reparsed(t)), rest)
    decreases t, 1
  {
    OneMark();
    var num, den := t.children[0], t.children[1];
    var second := Marks("{") + Printed(den) + Marks("}") + rest;
    var first := Marks("{") + Printed(num) + Marks("}") + second;
    ParsesBraced(syn, den, rest);
    ParsesBraced(syn, num, second);
    FracTokens([Word("\\frac")], Marks("{"), Printed(num), Marks("}"), Printed(den), rest);
    CommandRule(syn, Word("\\frac"), first);
  }

  lemma FracTokens<T>(a: seq<T>, open: seq<T>, n: seq<T>, close: seq<T>, d: seq<T>, rest: seq<T>)
    ensures a + open + n + (close + open) + d + close + rest == a + (open + n + close + (open + d + close + rest))
  {
  }

  lemma ScriptTokens<T>(a: seq<T>, mark: seq<T>, open: seq<T>, n: seq<T>, close: seq<T>, rest: seq<T>)
    ensures a + mark + open + n + close + rest == a + (mark + (open + n + close + rest))
  {
  }

  lemma ArgTokens<T>(a: seq<T>, open: seq<T>, n: seq<T>, close: seq<T>, rest: seq<T>)
    ensures a + open + n + close + rest == a + (open + n + close + rest)
  {
  }

  lemma {:induction false} ParsesSqrt(syn: Syntax, t: Node, rest: seq<Token>)
    requires Sound(syn) && IsAtom(syn, t) && t.kind == Sqrt
    ensures Atom(syn, Printed(t) + rest) == Parsed(Some(Reparsed(t)), rest)
    decreases t, 1
  {
    OneMark();
    var arg := Marks("{") + Printed(t.children[0]) + Marks("}") + rest;
    ParsesBraced(syn, t.children[0], rest);
    ArgTokens([Word("\\sqrt")], Marks("{"), Printed(t.children[0]), Marks("}"), rest);
    CommandRule(syn, Word("\\sqrt"), arg);
  }

  lemma {:induction false} ParsesAccent(syn: Syntax, t: Node, rest: seq<Token>)
    requires Sound(syn) && IsAtom(syn, t) && t.kind == Accent
    ensures Atom(syn, Printed(t) + rest) == Parsed(Some(Reparsed(t)), rest)
    decreases t, 1
  {
    var arg := Marks("{") + Printed(t.children[0]) + Marks("}") + rest;
    ParsesGroup(syn, t.children[0], rest);
    ArgTokens([Word(t.value)], Marks("{"), Printed(t.children[0]), Marks("}"), rest);
    CommandRule(syn, Word(t.value), arg);
  }

  // ----- The round trip -----

  lemma {:induction false} ResolveTokens(ts: seq<Token>, afterChar: bool)
    ensures Resolve(AsLexemes(ts), afterChar, false) == ts
  {
    if |ts| > 0 {
      assert AsLexemes(ts)[1..] == AsLexemes(ts[1..]);
      ResolveTokens(ts[1..], ts[0].kind == Char);
      assert [] + [ts[0]] + ts[1..] == ts;
    }
  }

  /** Tokenising the printed text of a tree. */
  lemma TokensOfPrinted(syn: Syntax, t: Node)
    requires IsArg(syn, t)
    ensures Tokens(ToLatex(t)) == Printed(t)
  {
    LexesPrinted(syn, t, "");
    assert ToLatex(t) + "" == ToLatex(t);
    assert AsLexemes(Printed(t)) + [] == AsLexemes(Printed(t));
    ResolveTokens(Printed(t), false);
  }

  /** Parsing the printed text of a tree: the same tree but for groups around arguments, and no token is left. */
  lemma ParsePrinted(syn: Syntax, t: Node)
    requires Sound(syn) && IsArg(syn, t)
    ensures Parse(syn, ToLatex(t)) == Node(Root, "", ReparsedArg(t))
    ensures Formula(syn, Tokens(ToLatex(t))).rest == []
  {
    TokensOfPrinted(syn, t);
    assert Printed(t) + [] == Printed(t);
    if t.kind == Root {
      ParsesAll(syn, t.children, []);
    } else {
      OneExpr(syn, t, []);
    }
  }
}
