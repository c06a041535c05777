/** What the parser makes of short texts: operators with and without a right operand, scripts in either order and
    repeated, spaces, and a command whose argument is missing. */
module FormulaShapes {
  import opened Options
  import opened FormulaTree
  import opened FormulaLexer
  import opened FormulaParser
  import opened FormulaRoundTrip
  import opened FormulaReparse
  import opened FormulaWords

  /** A stretch of the seven operator characters in this order, as Python's `in` tests it. */
  ghost predicate OperatorRun(w: string) {
    exists i, j | 0 <= i <= j <= 7 :: w == "+-*/=<>"[i..j]
  }

  lemma OperatorRunIff(w: string)
    ensures IsOperatorText(w) <==> OperatorRun(w)
  {
    if IsOperatorText(w) {
      var i :| 0 <= i <= |OPERATOR_CHARS| && w <= OPERATOR_CHARS[i..];
      assert w == "+-*/=<>"[i..i + |w|];
    }
    if OperatorRun(w) {
      var i, j :| 0 <= i <= j <= 7 && w == "+-*/=<>"[i..j];
      assert w <= OPERATOR_CHARS[i..];
    }
  }

  /** The node of a word. */
  ghost function Leaf(syn: Syntax, s: string): Node {
    Node(if Numeral(syn, s) then Number else Symbol, s, [])
  }

  ghost function C(s: string): Token {
    Token(Char, s)
  }

  // ----- Token lists -----

  lemma LeafTerm(syn: Syntax, s: string, rest: seq<Token>)
    requires PlainDigits(syn) && NoScript(rest)
    ensures Term(syn, [C(s)] + rest) == Parsed(Some(Leaf(syn, s)), rest)
  {
    WordIsNumberIff(syn, s, rest);
    PlainTermRule(syn, [C(s)] + rest, Leaf(syn, s), rest);
  }

  /** A node that no operator follows is the next one of the formula. */
  lemma NextNode(syn: Syntax, ts: seq<Token>, node: Node, rest: seq<Token>)
    requires !AtStop(ts) && Term(syn, ts) == Parsed(Some(node), rest) && (AtStop(rest) || !IsOperator(syn, rest[0]))
    ensures Formula(syn, ts).nodes == [node] + Formula(syn, rest).nodes
  {
    StopRule(syn, node, rest);
    ExprRule(syn, ts, node, rest);
    FormulaRule(syn, ts, node, rest, Formula(syn, rest).nodes, Formula(syn, rest).rest);
  }

  lemma NextLeaf(syn: Syntax, s: string, rest: seq<Token>)
    requires PlainDigits(syn) && NoScript(rest) && (AtStop(rest) || !IsOperator(syn, rest[0]))
    ensures Formula(syn, [C(s)] + rest).nodes == [Leaf(syn, s)] + Formula(syn, rest).nodes
  {
    LeafTerm(syn, s, rest);
    NextNode(syn, [C(s)] + rest, Leaf(syn, s), rest);
  }

  lemma LastLeaf(syn: Syntax, s: string)
    requires PlainDigits(syn)
    ensures Formula(syn, [C(s)]).nodes == [Leaf(syn, s)]
  {
    var none: seq<Token> := [];
    NextLeaf(syn, s, none);
    assert [C(s)] + none == [C(s)];
    assert Formula(syn, none).nodes == [];
  }

  /** A word between two others is an operator exactly if it is a stretch of the operator characters. */
  lemma ThreeWords(syn: Syntax, a: string, w: string, b: string)
    requires PlainDigits(syn) && !OperatorRun(b)
    ensures Formula(syn, [C(a)] + ([C(w)] + [C(b)])).nodes ==
            if OperatorRun(w) then [Node(Binary, w, [Leaf(syn, a), Leaf(syn, b)])] else [Leaf(syn, a)] + ([Leaf(syn, w)] + [Leaf(syn, b)])
  {
    OperatorRunIff(w);
    OperatorRunIff(b);
    if OperatorRun(w) {
      OperatorBetween(syn, a, w, b);
    } else {
      NextLeaf(syn, a, [C(w)] + [C(b)]);
      NextLeaf(syn, w, [C(b)]);
      LastLeaf(syn, b);
    }
  }

  lemma OperatorBetween(syn: Syntax, a: string, w: string, b: string)
    requires PlainDigits(syn) && IsOperatorText(w)
    ensures Formula(syn, [C(a)] + ([C(w)] + [C(b)])).nodes == [Node(Binary, w, [Leaf(syn, a), Leaf(syn, b)])]
  {
    var none: seq<Token> := [];
    var node := Node(Binary, w, [Leaf(syn, a), Leaf(syn, b)]);
    LeafTerm(syn, a, [C(w)] + [C(b)]);
    LeafTerm(syn, b, none);
    assert [C(b)] + none == [C(b)];
    OperatorRule(syn, Leaf(syn, a), C(w), [C(b)], Leaf(syn, b), none);
    StopRule(syn, node, none);
    ExprRule(syn, [C(a)] + ([C(w)] + [C(b)]), Leaf(syn, a), [C(w)] + [C(b)]);
    FormulaRule(syn, [C(a)] + ([C(w)] + [C(b)]), node, none, [], none);
    assert [node] + [] == [node];
  }

  /** An operator at the end stays behind its left operand, in a node of its own. */
  lemma OperatorAtEnd(syn: Syntax, a: string, w: string)
    requires PlainDigits(syn) && OperatorRun(w)
    ensures Formula(syn, [C(a)] + [C(w)]).nodes == [Node(Root, "", [Leaf(syn, a), Node(Binary, w, [])])]
  {
    OperatorRunIff(w);
    var none: seq<Token> := [];
    var node := Node(Root, "", [Leaf(syn, a), Node(Binary, w, [])]);
    LeafTerm(syn, a, [C(w)]);
    assert [C(w)][1..] == none && Term(syn, none) == Parsed(None, none);
    assert Operators(syn, Leaf(syn, a), [C(w)]) == Parsed(Some(node), none);
    ExprRule(syn, [C(a)] + [C(w)], Leaf(syn, a), [C(w)]);
    FormulaRule(syn, [C(a)] + [C(w)], node, none, [], none);
    assert [node] + [] == [node];
  }

  ghost function M(mark: TokenKind): Token {
    Token(mark, if mark == SubMark then "_" else "^")
  }

  /** Two scripts of one marker are grouped, the earlier one first. */
  lemma TwoScripts(syn: Syntax, mark: TokenKind, a: string, b: string, rest: seq<Token>)
    requires PlainDigits(syn) && !At(rest, mark)
    ensures Scripts(syn, mark, None, [M(mark)] + ([C(a)] + ([M(mark)] + ([C(b)] + rest)))) ==
            Parsed(Some(Node(Group, "", [Leaf(syn, a), Leaf(syn, b)])), rest)
  {
    var more := [M(mark)] + ([C(b)] + rest);
    WordIsNumberIff(syn, a, more);
    WordIsNumberIff(syn, b, rest);
    assert ([M(mark)] + ([C(a)] + more))[1..] == [C(a)] + more && more[1..] == [C(b)] + rest;
    var both := Some(Node(Group, "", [Leaf(syn, a), Leaf(syn, b)]));
    assert Scripts(syn, mark, both, rest) == Parsed(both, rest);
    assert Scripts(syn, mark, Some(Leaf(syn, a)), more) == Parsed(both, rest);
  }

  lemma OneScript(syn: Syntax, mark: TokenKind, a: string, rest: seq<Token>)
    requires PlainDigits(syn) && (mark == SubMark || mark == SuperMark) && !At(rest, mark)
    ensures Scripts(syn, mark, None, [M(mark)] + ([C(a)] + rest)) == Parsed(Some(Leaf(syn, a)), rest)
  {
    WordIsNumberIff(syn, a, rest);
    ScriptRule(syn, M(mark), [C(a)] + rest, Leaf(syn, a), rest);
  }

  lemma OnlyNode(syn: Syntax, ts: seq<Token>, node: Node)
    requires !AtStop(ts) && Term(syn, ts) == Parsed(Some(node), [])
    ensures Formula(syn, ts).nodes == [node]
  {
    var none: seq<Token> := [];
    NextNode(syn, ts, node, none);
    assert Formula(syn, none).nodes == [];
    assert [node] + [] == [node];
  }

  lemma RepeatedSubscript(syn: Syntax, x: string, a: string, b: string)
    requires PlainDigits(syn)
    ensures Formula(syn, [C(x)] + ([M(SubMark)] + ([C(a)] + ([M(SubMark)] + [C(b)])))).nodes ==
            [Node(NodeType.Sub, "", [Leaf(syn, x), Node(Group, "", [Leaf(syn, a), Leaf(syn, b)])])]
  {
    var none: seq<Token> := [];
    var scripts := [M(SubMark)] + ([C(a)] + ([M(SubMark)] + [C(b)]));
    assert [C(b)] + none == [C(b)];
    WordIsNumberIff(syn, x, scripts);
    TwoScripts(syn, SubMark, a, b, none);
    assert Scripts(syn, SuperMark, None, none) == Parsed(None, none);
    OnlyNode(syn, [C(x)] + scripts, Node(NodeType.Sub, "", [Leaf(syn, x), Node(Group, "", [Leaf(syn, a), Leaf(syn, b)])]));
  }

  lemma RepeatedSuperscript(syn: Syntax, x: string, a: string, b: string)
    requires PlainDigits(syn)
    ensures Formula(syn, [C(x)] + ([M(SuperMark)] + ([C(a)] + ([M(SuperMark)] + [C(b)])))).nodes ==
            [Node(NodeType.Sup, "", [Leaf(syn, x), Node(Group, "", [Leaf(syn, a), Leaf(syn, b)])])]
  {
    var none: seq<Token> := [];
    var scripts := [M(SuperMark)] + ([C(a)] + ([M(SuperMark)] + [C(b)]));
    assert [C(b)] + none == [C(b)];
    WordIsNumberIff(syn, x, scripts);
    assert Scripts(syn, SubMark, None, scripts) == Parsed(None, scripts);
    TwoScripts(syn, SuperMark, a, b, none);
    OnlyNode(syn, [C(x)] + scripts, Node(NodeType.Sup, "", [Leaf(syn, x), Node(Group, "", [Leaf(syn, a), Leaf(syn, b)])]));
  }

  /** A subscript and then a superscript belong to one node. */
  lemma SubThenSuper(syn: Syntax, x: string, a: string, b: string)
    requires PlainDigits(syn)
    ensures Formula(syn, [C(x)] + ([M(SubMark)] + ([C(a)] + ([M(SuperMark)] + [C(b)])))).nodes ==
            [Node(SubSup, "", [Leaf(syn, x), Leaf(syn, a), Leaf(syn, b)])]
  {
    var none: seq<Token> := [];
    var upper := [M(SuperMark)] + [C(b)];
    var scripts := [M(SubMark)] + ([C(a)] + upper);
    assert [C(b)] + none == [C(b)];
    WordIsNumberIff(syn, x, scripts);
    OneScript(syn, SubMark, a, upper);
    OneScript(syn, SuperMark, b, none);
    OnlyNode(syn, [C(x)] + scripts, Node(SubSup, "", [Leaf(syn, x), Leaf(syn, a), Leaf(syn, b)]));
  }

  lemma StrayMarker(syn: Syntax, b: string)
    requires PlainDigits(syn)
    ensures Formula(syn, [M(SubMark)] + [C(b)]).nodes == [Leaf(syn, b)]
  {
    var ts := [M(SubMark)] + [C(b)];
    assert ts[1..] == [C(b)];
    assert Term(syn, ts) == Parsed(None, [C(b)]);
    assert Expr(syn, ts) == Parsed(None, [C(b)]);
    LastLeaf(syn, b);
  }

  /** The other way round the subscript is lost: its marker is skipped and what follows stands by itself. */
  lemma SuperThenSub(syn: Syntax, x: string, a: string, b: string)
    requires PlainDigits(syn)
    ensures Formula(syn, [C(x)] + ([M(SuperMark)] + ([C(a)] + ([M(SubMark)] + [C(b)])))).nodes ==
            [Node(NodeType.Sup, "", [Leaf(syn, x), Leaf(syn, a)])] + [Leaf(syn, b)]
  {
    var lower := [M(SubMark)] + [C(b)];
    var scripts := [M(SuperMark)] + ([C(a)] + lower);
    WordIsNumberIff(syn, x, scripts);
    assert Scripts(syn, SubMark, None, scripts) == Parsed(None, scripts);
    OneScript(syn, SuperMark, a, lower);
    StrayMarker(syn, b);
    assert Term(syn, [C(x)] + scripts) == Parsed(Some(Node(NodeType.Sup, "", [Leaf(syn, x), Leaf(syn, a)])), lower);
    NextNode(syn, [C(x)] + scripts, Node(NodeType.Sup, "", [Leaf(syn, x), Leaf(syn, a)]), lower);
  }

  /** A line break and the space token are SPACE nodes between their neighbours. */
  lemma SpaceBetween(syn: Syntax, x: string, space: Token, y: string)
    requires PlainDigits(syn) && (space.kind == Newline || space.kind == Gap) && !OperatorRun(y)
    ensures Formula(syn, [C(x)] + ([space] + [C(y)])).nodes ==
            [Leaf(syn, x)] + ([Node(Space, if space.kind == Gap then " " else "\\\\", [])] + [Leaf(syn, y)])
  {
    OperatorRunIff(y);
    var node := Node(Space, if space.kind == Gap then " " else "\\\\", []);
    NextLeaf(syn, x, [space] + [C(y)]);
    assert ([space] + [C(y)])[1..] == [C(y)];
    assert Atom(syn, [space] + [C(y)]) == Parsed(Some(node), [C(y)]);
    PlainTermRule(syn, [space] + [C(y)], node, [C(y)]);
    NextNode(syn, [space] + [C(y)], node, [C(y)]);
    LastLeaf(syn, y);
  }

  /** A fraction without its braces is dropped together with the token that is not the brace. */
  lemma FractionSkips(syn: Syntax, x: string, y: string)
    requires PlainDigits(syn)
    ensures Formula(syn, [Token(Cmd, "\\frac")] + ([C(x)] + [C(y)])).nodes == [Leaf(syn, y)]
  {
    var ts := [Token(Cmd, "\\frac")] + ([C(x)] + [C(y)]);
    assert ts[1..] == [C(x)] + [C(y)] && ts[1..][1..] == [C(y)];
    assert Command(syn, ts) == Raised(ts[1..]);
    assert Term(syn, ts) == Raised(ts[1..]);
    assert Expr(syn, ts) == Raised(ts[1..]);
    LastLeaf(syn, y);
  }

  // ----- Texts -----

  lemma TokensOf(s: string, ts: seq<Token>)
    requires Lexes(s, ts, "")
    ensures Tokens(s) == ts
  {
    assert s + "" == s && AsLexemes(ts) + Lex("") == AsLexemes(ts);
    ResolveTokens(ts, false);
  }

  lemma LexesBoth(a: string, ta: seq<Token>, b: string, tb: seq<Token>)
    requires Lexes(a, ta, b) && Lexes(b, tb, "")
    ensures Lexes(a + b, ta + tb, "")
  {
    assert b + "" == b;
    LexesThen(a, ta, b, tb, "");
  }

  lemma LexesWords(s: string, rest: string, ts: seq<Token>)
    requires PlainWord(s) && EndsWord(rest) && Lexes(rest, ts, "")
    ensures Lexes(s + rest, [C(s)] + ts, "")
  {
    LexesPlain(s, rest);
    assert IsPlain(s[0]) && Word(s) == C(s);
    LexesBoth(s, [C(s)], rest, ts);
  }

  lemma LexesSpaced(rest: string, ts: seq<Token>)
    requires Lexes(rest, ts, "")
    ensures Lexes(" " + rest, ts, "")
  {
    LexesBlank(rest);
    LexesBoth(" ", [], rest, ts);
    assert [] + ts == ts;
  }

  lemma LexesLast(s: string)
    requires PlainWord(s)
    ensures Lexes(s, [C(s)], "")
  {
    LexesPlain(s, "");
    assert IsPlain(s[0]) && Word(s) == C(s);
  }

  lemma LexesMarked(mark: TokenKind, s: string, rest: string, ts: seq<Token>)
    requires (mark == SubMark || mark == SuperMark) && PlainWord(s) && EndsWord(rest) && Lexes(rest, ts, "")
    ensures Lexes(M(mark).value + (s + rest), [M(mark)] + ([C(s)] + ts), "")
  {
    LexesWords(s, rest, ts);
    LexesMark(M(mark).value[0], s + rest);
    LexesBoth(M(mark).value, [M(mark)], s + rest, [C(s)] + ts);
  }

  /** Between two words a third one is their operator exactly if it is a stretch of the operator characters; otherwise
      the words stand side by side. */
  lemma OperatorParses(syn: Syntax, a: string, w: string, b: string)
    requires PlainDigits(syn) && PlainWord(a) && PlainWord(w) && PlainWord(b) && !OperatorRun(b)
    ensures Parse(syn, a + (" " + (w + (" " + b)))).children ==
            if OperatorRun(w) then [Node(Binary, w, [Leaf(syn, a), Leaf(syn, b)])] else [Leaf(syn, a), Leaf(syn, w), Leaf(syn, b)]
  {
    LexesLast(b);
    LexesSpaced(b, [C(b)]);
    LexesWords(w, " " + b, [C(b)]);
    LexesSpaced(w + (" " + b), [C(w)] + [C(b)]);
    LexesWords(a, " " + (w + (" " + b)), [C(w)] + [C(b)]);
    TokensOf(a + (" " + (w + (" " + b))), [C(a)] + ([C(w)] + [C(b)]));
    ThreeWords(syn, a, w, b);
  }

  /** An operator without a right operand. */
  lemma OperatorAloneParses(syn: Syntax, a: string, w: string)
    requires PlainDigits(syn) && PlainWord(a) && PlainWord(w) && OperatorRun(w)
    ensures Parse(syn, a + (" " + w)).children == [Node(Root, "", [Leaf(syn, a), Node(Binary, w, [])])]
  {
    LexesLast(w);
    LexesSpaced(w, [C(w)]);
    LexesWords(a, " " + w, [C(w)]);
    TokensOf(a + (" " + w), [C(a)] + [C(w)]);
    OperatorAtEnd(syn, a, w);
  }

  lemma TokensOfScripts(x: string, first: TokenKind, a: string, second: TokenKind, b: string)
    requires (first == SubMark || first == SuperMark) && (second == SubMark || second == SuperMark)
    requires PlainWord(x) && PlainWord(a) && PlainWord(b)
    ensures Tokens(x + (M(first).value + (a + (M(second).value + b)))) == [C(x)] + ([M(first)] + ([C(a)] + ([M(second)] + [C(b)])))
  {
    var none: seq<Token> := [];
    LexesNothing("");
    LexesMarked(second, b, "", none);
    assert b + "" == b && [C(b)] + none == [C(b)];
    LexesMarked(first, a, M(second).value + b, [M(second)] + [C(b)]);
    LexesWords(x, M(first).value + (a + (M(second).value + b)), [M(first)] + ([C(a)] + ([M(second)] + [C(b)])));
    TokensOf(x + (M(first).value + (a + (M(second).value + b))), [C(x)] + ([M(first)] + ([C(a)] + ([M(second)] + [C(b)]))));
  }

  /** Two scripts of a word: repeated ones are grouped, a subscript in front of a superscript is kept beside it, and
      one behind a superscript is lost as a subscript. */
  lemma ScriptsParse(syn: Syntax, x: string, a: string, b: string)
    requires PlainDigits(syn) && PlainWord(x) && PlainWord(a) && PlainWord(b)
    ensures Parse(syn, x + ("_" + (a + ("_" + b)))).children ==
            [Node(NodeType.Sub, "", [Leaf(syn, x), Node(Group, "", [Leaf(syn, a), Leaf(syn, b)])])]
    ensures Parse(syn, x + ("^" + (a + ("^" + b)))).children ==
            [Node(NodeType.Sup, "", [Leaf(syn, x), Node(Group, "", [Leaf(syn, a), Leaf(syn, b)])])]
    ensures Parse(syn, x + ("_" + (a + ("^" + b)))).children == [Node(SubSup, "", [Leaf(syn, x), Leaf(syn, a), Leaf(syn, b)])]
    ensures Parse(syn, x + ("^" + (a + ("_" + b)))).children ==
            [Node(NodeType.Sup, "", [Leaf(syn, x), Leaf(syn, a)]), Leaf(syn, b)]
  {
    TokensOfScripts(x, SubMark, a, SubMark, b);
    TokensOfScripts(x, SuperMark, a, SuperMark, b);
    TokensOfScripts(x, SubMark, a, SuperMark, b);
    TokensOfScripts(x, SuperMark, a, SubMark, b);
    RepeatedSubscript(syn, x, a, b);
    RepeatedSuperscript(syn, x, a, b);
    SubThenSuper(syn, x, a, b);
    SuperThenSub(syn, x, a, b);
  }

  lemma LexesBreak(rest: string)
    ensures Lexes("\\\\", [Token(Newline, "\\\\")], rest)
  {
    var s := "\\\\" + rest;
    assert s[..2] == "\\\\" && s[2..] == rest && MatchLen(s) == 2;
  }

  /** A line break is a SPACE, and so is a backslash that no token covers. */
  lemma SpacesParse(syn: Syntax, x: string, y: string)
    requires PlainDigits(syn) && PlainWord(x) && PlainWord(y) && !OperatorRun(y)
    ensures Parse(syn, x + (" " + ("\\\\" + (" " + y)))).children == [Leaf(syn, x), Node(Space, "\\\\", []), Leaf(syn, y)]
    ensures Parse(syn, x + (" " + ("\\" + (" " + y)))).children == [Leaf(syn, x), Node(Space, " ", []), Leaf(syn, y)]
  {
    LexesLast(y);
    LexesSpaced(y, [C(y)]);
    LexesBreak(" " + y);
    LexesBoth("\\\\", [Token(Newline, "\\\\")], " " + y, [C(y)]);
    LexesSpaced("\\\\" + (" " + y), [Token(Newline, "\\\\")] + [C(y)]);
    LexesWords(x, " " + ("\\\\" + (" " + y)), [Token(Newline, "\\\\")] + [C(y)]);
    TokensOf(x + (" " + ("\\\\" + (" " + y))), [C(x)] + ([Token(Newline, "\\\\")] + [C(y)]));
    SpaceBetween(syn, x, Token(Newline, "\\\\"), y);
    JunkBetween(x, y);
    SpaceBetween(syn, x, SPACE_TOKEN, y);
  }

  lemma JunkBetween(x: string, y: string)
    requires PlainWord(x) && PlainWord(y)
    ensures Tokens(x + (" " + ("\\" + (" " + y)))) == [C(x)] + ([SPACE_TOKEN] + [C(y)])
  {
    var tail := "\\" + (" " + y);
    JunkFirst(y);
    LexesPlain(x, " " + tail);
    LexesBlank(tail);
    assert IsPlain(x[0]) && Word(x) == C(x);
    assert AsLexemes([]) + Lex(tail) == Lex(tail);
    assert Lex(x + (" " + tail)) == AsLexemes([C(x)]) + Lex(tail);
    ResolveJunk(C(x), C(y), AsLexemes([C(x)]), [Junk] + AsLexemes([C(y)]));
  }

  lemma ResolveJunk(x: Token, y: Token, here: seq<Lexeme>, after: seq<Lexeme>)
    requires x.kind == Char && here == [Tok(x)] && after == [Junk] + [Tok(y)]
    ensures Resolve(here + after, false, false) == [x] + ([SPACE_TOKEN] + [y])
  {
    assert (here + after)[1..] == after && after[1..] == [Tok(y)] && [Tok(y)][1..] == [];
    assert Resolve([Tok(y)], true, true) == [SPACE_TOKEN] + [y] + [];
    assert Resolve(after, true, false) == [SPACE_TOKEN] + [y];
  }

  lemma JunkFirst(y: string)
    requires PlainWord(y)
    ensures Lex("\\" + (" " + y)) == [Junk] + AsLexemes([C(y)])
  {
    var s := "\\" + (" " + y);
    assert s[0] == '\\' && s[1] == ' ' && s[1..] == " " + y;
    assert "\\begin{"[1] == 'b' && "\\end{"[1] == 'e';
    assert MatchLen(s) == 0;
    LexesLast(y);
    LexesSpaced(y, [C(y)]);
    assert " " + y + "" == " " + y && AsLexemes([C(y)]) + Lex("") == AsLexemes([C(y)]);
  }

  /** A fraction without braces: the word in the place of the brace is skipped, and the next one is read as usual. */
  lemma FractionParses(syn: Syntax, x: string, y: string)
    requires PlainDigits(syn) && PlainWord(x) && PlainWord(y)
    ensures Parse(syn, "\\frac" + (" " + (x + (" " + y)))).children == [Leaf(syn, y)]
  {
    LexesLast(y);
    LexesSpaced(y, [C(y)]);
    LexesWords(x, " " + y, [C(y)]);
    LexesSpaced(x + (" " + y), [C(x)] + [C(y)]);
    LexesCommand("\\frac", " " + (x + (" " + y)));
    assert Word("\\frac") == Token(Cmd, "\\frac");
    LexesBoth("\\frac", [Token(Cmd, "\\frac")], " " + (x + (" " + y)), [C(x)] + [C(y)]);
    TokensOf("\\frac" + (" " + (x + (" " + y))), [Token(Cmd, "\\frac")] + ([C(x)] + [C(y)]));
    FractionSkips(syn, x, y);
  }

  // ----- Texts, fences and leading operators -----

  ghost function K(cmd: string): Token {
    Token(Cmd, cmd)
  }

  lemma LexesCommandThen(cmd: string, rest: string, ts: seq<Token>)
    requires CommandWord(cmd) && EndsCommand(cmd, rest) && Lexes(rest, ts, "")
    ensures Lexes(cmd + rest, [K(cmd)] + ts, "")
  {
    LexesCommand(cmd, rest);
    assert Word(cmd) == K(cmd);
    LexesBoth(cmd, [K(cmd)], rest, ts);
  }

  lemma LexesMarkThen(c: char, rest: string, ts: seq<Token>)
    requires IsMark(c) && Lexes(rest, ts, "")
    ensures Lexes([c] + rest, [Token(MarkKind(c), [c])] + ts, "")
  {
    LexesMark(c, rest);
    LexesBoth([c], [Token(MarkKind(c), [c])], rest, ts);
  }

  /** The words of a text argument are run together. */
  lemma TextParses(syn: Syntax, a: string, b: string)
    requires Sound(syn) && PlainWord(a) && PlainWord(b)
    ensures Parse(syn, "\\mathrm" + ("{" + (a + (" " + (b + "}"))))).children == [Node(NodeType.Text, a + b, [])]
  {
    var close := Token(RBrace, "}");
    LexesNothing("");
    var none: seq<Token> := [];
    LexesMarkThen('}', "", none);
    assert "}" + "" == "}" && [close] + none == [close];
    LexesWords(b, "}", [close]);
    LexesSpaced(b + "}", [C(b)] + [close]);
    LexesWords(a, " " + (b + "}"), [C(b)] + [close]);
    LexesMarkThen('{', a + (" " + (b + "}")), [C(a)] + ([C(b)] + [close]));
    LexesCommandThen("\\mathrm", "{" + (a + (" " + (b + "}"))), [Token(LBrace, "{")] + ([C(a)] + ([C(b)] + [close])));
    TokensOf("\\mathrm" + ("{" + (a + (" " + (b + "}")))), [K("\\mathrm")] + ([Token(LBrace, "{")] + ([C(a)] + ([C(b)] + [close]))));
    TextOfTwo(syn, a, b, close);
  }

  lemma TextOfTwo(syn: Syntax, a: string, b: string, close: Token)
    requires Sound(syn) && close == Token(RBrace, "}")
    ensures Formula(syn, [K("\\mathrm")] + ([Token(LBrace, "{")] + ([C(a)] + ([C(b)] + [close])))).nodes == [Node(NodeType.Text, a + b, [])]
  {
    var none: seq<Token> := [];
    var run := [C(a)] + ([C(b)] + [close]);
    var braced := [Token(LBrace, "{")] + run;
    var ts := [K("\\mathrm")] + braced;
    RunOfTwo(a, b, close, run);
    assert ts[1..] == braced && braced[1..] == run;
    assert Command(syn, ts) == Parsed(Some(Node(NodeType.Text, a + b, [])), none);
    PlainTermRule(syn, ts, Node(NodeType.Text, a + b, []), none);
    OnlyNode(syn, ts, Node(NodeType.Text, a + b, []));
  }

  lemma RunOfTwo(a: string, b: string, close: Token, run: seq<Token>)
    requires close == Token(RBrace, "}") && run == [C(a)] + ([C(b)] + [close])
    ensures TextRun(run) == (a + b, [])
  {
    var none: seq<Token> := [];
    assert [close][1..] == none && ([C(b)] + [close])[1..] == [close] && run[1..] == [C(b)] + [close];
    assert TextRun([close]) == ("", none);
    assert b + "" == b;
    assert TextRun([C(b)] + [close]) == (b, none);
  }

  /** An operator command in front stands by itself. */
  lemma LeadingOperatorParses(syn: Syntax, op: string, x: string)
    requires PlainDigits(syn) && CommandWord(op) && ClassOf(syn, op) == BinaryCmd && PlainWord(x) && !OperatorRun(x)
    ensures Parse(syn, op + (" " + x)).children == [Node(Binary, op, []), Leaf(syn, x)]
  {
    OperatorRunIff(x);
    LexesLast(x);
    LexesSpaced(x, [C(x)]);
    LexesCommandThen(op, " " + x, [C(x)]);
    TokensOf(op + (" " + x), [K(op)] + [C(x)]);
    var ts := [K(op)] + [C(x)];
    assert ts[1..] == [C(x)];
    assert Command(syn, ts) == Parsed(Some(Node(Binary, op, [])), [C(x)]);
    PlainTermRule(syn, ts, Node(Binary, op, []), [C(x)]);
    NextNode(syn, ts, Node(Binary, op, []), [C(x)]);
    LastLeaf(syn, x);
  }
}
