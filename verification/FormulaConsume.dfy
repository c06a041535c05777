/** How much of a token stream the parser reads. */
module FormulaConsume {
  import opened Options
  import opened FormulaTree
  import opened FormulaLexer
  import opened FormulaParser

  /** Open braces minus closing braces. */
  ghost function Balance(ts: seq<Token>): int {
    if |ts| == 0 then 0 else Weight(ts[0]) + Balance(ts[1..])
  }

  function Weight(t: Token): int {
    if t.kind == LBrace then 1 else if t.kind == RBrace then -1 else 0
  }

  /** rest is what is left of ts after reading a part that ran to the end or closed at least the braces it opened. */
  ghost predicate Reads(ts: seq<Token>, rest: seq<Token>) {
    && |rest| <= |ts| && rest == ts[|ts| - |rest|..]
    && (|rest| == 0 || Balance(rest) >= Balance(ts))
  }

  /** An opening brace comes before the first closing one, if there is a closing one. */
  predicate OpensFirst(ts: seq<Token>, open: bool) {
    if |ts| == 0 then false
    else if ts[0].kind == RBrace then open
    else OpensFirst(ts[1..], open || ts[0].kind == LBrace)
  }

  /** Streams without a row separator or an environment end, in which \left is not followed by an opening brace and no text
      argument holds an opening brace before its end: there a brace can only be read as a brace, and only a closing brace
      can stop a formula. */
  ghost predicate BraceOnly(syn: Syntax, ts: seq<Token>) {
    forall i | 0 <= i < |ts| :: BraceOnlyAt(syn, ts[i..])
  }

  predicate BraceOnlyAt(syn: Syntax, ts: seq<Token>)
    requires |ts| > 0
  {
    && ts[0].kind != Amp && ts[0].kind != End
    && (ts[0].kind == Cmd && ClassOf(syn, ts[0].value) == LeftCmd ==> !At(ts[1..], LBrace))
    && (ts[0].kind == Cmd && ClassOf(syn, ts[0].value) == TextCmd && At(ts[1..], LBrace) ==> !OpensFirst(ts[2..], false))
  }

  lemma ReadsOne(ts: seq<Token>)
    requires |ts| > 0 && ts[0].kind != LBrace
    ensures Reads(ts, ts[1..])
  {
  }

  lemma ReadsThen(ts: seq<Token>, mid: seq<Token>, rest: seq<Token>)
    requires Reads(ts, mid) && Reads(mid, rest)
    ensures Reads(ts, rest)
  {
    assert mid[|mid| - |rest|..] == ts[|ts| - |rest|..];
  }

  /** A closing brace after the reading that follows an opening one restores the balance. */
  lemma BracesClose(syn: Syntax, ts: seq<Token>, rest: seq<Token>)
    requires At(ts, LBrace) && BraceOnly(syn, ts) && Reads(ts[1..], rest)
    ensures |rest| == 0 ==> Reads(ts, rest)
    ensures At(rest, RBrace) ==> Reads(ts, rest[1..]) && BraceOnly(syn, rest[1..])
  {
    assert rest == ts[|ts| - |rest|..];
    if At(rest, RBrace) {
      assert rest[1..] == ts[|ts| - |rest[1..]|..];
      StaysBraceOnly(syn, ts, rest[1..]);
    }
  }

  lemma StaysBraceOnly(syn: Syntax, ts: seq<Token>, rest: seq<Token>)
    requires BraceOnly(syn, ts) && |rest| <= |ts| && rest == ts[|ts| - |rest|..]
    ensures BraceOnly(syn, rest)
  {
    forall i | 0 <= i < |rest| ensures BraceOnlyAt(syn, rest[i..]) {
      assert rest[i..] == ts[|ts| - |rest| + i..];
    }
  }

  lemma FirstIsBraceOnly(syn: Syntax, ts: seq<Token>)
    requires BraceOnly(syn, ts) && |ts| > 0
    ensures BraceOnlyAt(syn, ts)
  {
    assert ts[0..] == ts;
  }

  /** A text run ends behind the first closing brace; if no brace opens before it, it reads one closing brace. */
  lemma {:induction false} TextRunReads(ts: seq<Token>, open: bool)
    ensures var rest := TextRun(ts).1; |rest| <= |ts| && rest == ts[|ts| - |rest|..]
    ensures !OpensFirst(ts, open) && |TextRun(ts).1| > 0 ==> !open && Balance(TextRun(ts).1) == Balance(ts) + 1
  {
    if |ts| > 0 && ts[0].kind != RBrace {
      TextRunReads(ts[1..], open || ts[0].kind == LBrace);
    }
  }

  /** A step that raises never does so in front of an opening brace, so the token skipped on recovery is none. */
  ghost predicate Fair<T>(syn: Syntax, ts: seq<Token>, r: Outcome<T>) {
    Reads(ts, r.rest) && BraceOnly(syn, r.rest) && (r.Raised? ==> !At(r.rest, LBrace))
  }

  lemma {:induction false} FormulaReads(syn: Syntax, ts: seq<Token>)
    requires BraceOnly(syn, ts)
    ensures Reads(ts, Formula(syn, ts).rest) && BraceOnly(syn, Formula(syn, ts).rest)
    decreases |ts|, 5
  {
    if !AtStop(ts) {
      ExprReads(syn, ts);
      var r := Expr(syn, ts);
      var next := if r.Raised? && |r.rest| > 0 then r.rest[1..] else r.rest;
      if r.Raised? && |r.rest| > 0 {
        ReadsOne(r.rest);
        ReadsThen(ts, r.rest, next);
        StaysBraceOnly(syn, r.rest, next);
      }
      FormulaReads(syn, next);
      ReadsThen(ts, next, Formula(syn, next).rest);
    }
  }

  lemma {:induction false} ExprReads(syn: Syntax, ts: seq<Token>)
    requires BraceOnly(syn, ts)
    ensures Fair(syn, ts, Expr(syn, ts))
    decreases |ts|, 4
  {
    TermReads(syn, ts);
    match Term(syn, ts)
    case Parsed(Some(left), rest) =>
      OperatorsRead(syn, left, rest);
      ReadsThen(ts, rest, Operators(syn, left, rest).rest);
    case _ =>
  }

  lemma {:induction false} OperatorsRead(syn: Syntax, left: Node, ts: seq<Token>)
    requires BraceOnly(syn, ts)
    ensures Fair(syn, ts, Operators(syn, left, ts))
    decreases |ts|, 3
  {
    if !AtStop(ts) && IsOperator(syn, ts[0]) {
      ReadsOne(ts);
      StaysBraceOnly(syn, ts, ts[1..]);
      TermReads(syn, ts[1..]);
      var r := Term(syn, ts[1..]);
      ReadsThen(ts, ts[1..], r.rest);
      if r.Parsed? && r.value.Some? {
        var next := Node(Binary, ts[0].value, [left, r.value.value]);
        OperatorsRead(syn, next, r.rest);
        ReadsThen(ts, r.rest, Operators(syn, next, r.rest).rest);
      }
    }
  }

  lemma {:induction false} TermReads(syn: Syntax, ts: seq<Token>)
    requires BraceOnly(syn, ts)
    ensures Fair(syn, ts, Term(syn, ts))
    decreases |ts|, 2
  {
    AtomReads(syn, ts);
    var base := Atom(syn, ts);
    if base.Parsed? && base.value.Some? {
      ScriptsRead(syn, SubMark, None, base.rest);
      var sub := Scripts(syn, SubMark, None, base.rest);
      ReadsThen(ts, base.rest, sub.rest);
      if sub.Parsed? {
        ScriptsRead(syn, SuperMark, None, sub.rest);
        ReadsThen(ts, sub.rest, Scripts(syn, SuperMark, None, sub.rest).rest);
      }
    }
  }

  lemma {:induction false} ScriptsRead(syn: Syntax, mark: TokenKind, soFar: Option<Node>, ts: seq<Token>)
    requires BraceOnly(syn, ts) && mark != LBrace
    ensures Fair(syn, ts, Scripts(syn, mark, soFar, ts))
    decreases |ts|, 1
  {
    if At(ts, mark) {
      ReadsOne(ts);
      StaysBraceOnly(syn, ts, ts[1..]);
      AtomReads(syn, ts[1..]);
      var child := Atom(syn, ts[1..]);
      ReadsThen(ts, ts[1..], child.rest);
      if child.Parsed? {
        var joined := JoinScript(soFar, child.value);
        ScriptsRead(syn, mark, joined, child.rest);
        ReadsThen(ts, child.rest, Scripts(syn, mark, joined, child.rest).rest);
      }
    }
  }

  lemma {:induction false} AtomReads(syn: Syntax, ts: seq<Token>)
    requires BraceOnly(syn, ts)
    ensures Fair(syn, ts, Atom(syn, ts))
    decreases |ts|, 1
  {
    if |ts| > 0 {
      if ts[0].kind == Cmd {
        CommandReads(syn, ts);
      } else if ts[0].kind == LBrace {
        BracedReads(syn, ts);
      } else if ts[0].kind != RBrace {
        ReadsOne(ts);
        StaysBraceOnly(syn, ts, ts[1..]);
      }
    }
  }

  lemma {:induction false} BracedReads(syn: Syntax, ts: seq<Token>)
    requires BraceOnly(syn, ts)
    ensures Fair(syn, ts, Braced(syn, ts))
    decreases |ts|, 0, 0
  {
    if At(ts, LBrace) {
      StaysBraceOnly(syn, ts, ts[1..]);
      FormulaReads(syn, ts[1..]);
      var rest := Formula(syn, ts[1..]).rest;
      if |rest| > 0 {
        FirstIsBraceOnly(syn, rest);
      }
      BracesClose(syn, ts, rest);
    }
  }

  lemma {:induction false} CommandReads(syn: Syntax, ts: seq<Token>)
    requires BraceOnly(syn, ts) && At(ts, Cmd)
    ensures Fair(syn, ts, Command(syn, ts))
    decreases |ts|, 0, 1
  {
    var rest := ts[1..];
    FirstIsBraceOnly(syn, ts);
    ReadsOne(ts);
    StaysBraceOnly(syn, ts, rest);
    match ClassOf(syn, ts[0].value)
    case FracCmd => FractionReads(syn, ts);
    case SqrtCmd =>
      BracedReads(syn, rest);
      ReadsThen(ts, rest, Braced(syn, rest).rest);
    case AccentCmd =>
      AtomReads(syn, rest);
      ReadsThen(ts, rest, Atom(syn, rest).rest);
    case LeftCmd => LeftReads(syn, ts);
    case TextCmd =>
      if At(rest, LBrace) {
        TextReads(syn, ts);
      }
    case _ =>
  }

  lemma {:induction false} FractionReads(syn: Syntax, ts: seq<Token>)
    requires BraceOnly(syn, ts) && At(ts, Cmd) && ClassOf(syn, ts[0].value) == FracCmd
    ensures Fair(syn, ts, Command(syn, ts))
    decreases |ts|, 0, 0
  {
    var rest := ts[1..];
    ReadsOne(ts);
    StaysBraceOnly(syn, ts, rest);
    BracedReads(syn, rest);
    var num := Braced(syn, rest);
    ReadsThen(ts, rest, num.rest);
    if num.Parsed? {
      BracedReads(syn, num.rest);
      ReadsThen(ts, num.rest, Braced(syn, num.rest).rest);
    }
  }

  lemma {:induction false} LeftReads(syn: Syntax, ts: seq<Token>)
    requires BraceOnly(syn, ts) && At(ts, Cmd) && ClassOf(syn, ts[0].value) == LeftCmd
    ensures Fair(syn, ts, Command(syn, ts))
    decreases |ts|, 0, 0
  {
    if |ts| == 1 {
      ReadsOne(ts);
    } else {
      RightClosesNothing(syn, ts);
      FenceReads(syn, ts, ts[2..]);
      FormulaReads(syn, ts[2..]);
      ReadsThen(ts, ts[2..], Formula(syn, ts[2..]).rest);
    }
  }

  lemma FenceReads(syn: Syntax, ts: seq<Token>, rest: seq<Token>)
    requires BraceOnly(syn, ts) && At(ts, Cmd) && ClassOf(syn, ts[0].value) == LeftCmd && |ts| > 1 && rest == ts[2..]
    ensures Reads(ts, rest) && BraceOnly(syn, rest)
  {
    FirstIsBraceOnly(syn, ts);
    ReadsOne(ts);
    ReadsOne(ts[1..]);
    assert ts[1..][1..] == rest;
    ReadsThen(ts, ts[1..], rest);
    StaysBraceOnly(syn, ts, rest);
  }

  lemma TextCommand(syn: Syntax, ts: seq<Token>)
    requires At(ts, Cmd) && ClassOf(syn, ts[0].value) == TextCmd && At(ts[1..], LBrace)
    ensures var t := TextRun(ts[2..]); Command(syn, ts) == Parsed(Some(Node(Text, t.0, [])), t.1)
  {
    assert ts[1..][1..] == ts[2..];
  }

  lemma TextReads(syn: Syntax, ts: seq<Token>)
    requires BraceOnly(syn, ts) && At(ts, Cmd) && ClassOf(syn, ts[0].value) == TextCmd && At(ts[1..], LBrace)
    ensures Fair(syn, ts, Command(syn, ts))
  {
    var rest := TextRun(ts[2..]).1;
    TextCommand(syn, ts);
    FirstIsBraceOnly(syn, ts);
    TextRunReads(ts[2..], false);
    OpenedBehind(ts);
    assert rest == ts[|ts| - |rest|..];
    StaysBraceOnly(syn, ts, rest);
  }

  lemma OpenedBehind(ts: seq<Token>)
    requires At(ts, Cmd) && At(ts[1..], LBrace)
    ensures Balance(ts) == Balance(ts[2..]) + 1
  {
    assert ts[1..][1..] == ts[2..];
  }

  /** No closing brace comes before the opening brace it would match. */
  ghost predicate NoStrayClose(ts: seq<Token>) {
    forall i | 0 <= i <= |ts| :: Balance(ts) >= Balance(ts[i..])
  }

  lemma StopsAtStrayClose(syn: Syntax, ts: seq<Token>, rest: seq<Token>)
    requires Reads(ts, rest) && BraceOnly(syn, rest) && AtStop(rest) && |rest| > 0
    ensures !NoStrayClose(ts)
  {
    FirstIsBraceOnly(syn, rest);
    assert rest[1..] == ts[|ts| - |rest| + 1..];
    assert Balance(rest) == Balance(rest[1..]) - 1;
  }

  /** On such streams the parser consumes every token, whatever it has to recover from on the way. */
  lemma ConsumesEverything(syn: Syntax, ts: seq<Token>)
    requires BraceOnly(syn, ts) && NoStrayClose(ts)
    ensures Formula(syn, ts).rest == []
  {
    FormulaReads(syn, ts);
    if |Formula(syn, ts).rest| > 0 {
      StopsAtStrayClose(syn, ts, Formula(syn, ts).rest);
    }
  }

  /** Behind \left every token up to a brace or separator that stops a formula is read: \right never closes it. */
  lemma RightClosesNothing(syn: Syntax, ts: seq<Token>)
    requires At(ts, Cmd) && ClassOf(syn, ts[0].value) == LeftCmd && |ts| > 1
    ensures var f := Formula(syn, ts[2..]);
            Command(syn, ts) == Parsed(Some(Node(LeftRight, ts[1].value, [Node(Root, "", f.nodes)])), f.rest) && AtStop(f.rest)
  {
    assert ts[1..][1..] == ts[2..];
  }

  /** Before an opening brace \left takes it as its fence, and the closing brace that belonged to it stops the whole parse. */
  lemma LeftTakesABrace(syn: Syntax)
    requires ClassOf(syn, "\\left") == LeftCmd
    ensures var ts := [Token(Cmd, "\\left"), Token(LBrace, "{"), Token(RBrace, "}")];
            NoStrayClose(ts) && Formula(syn, ts).rest == [Token(RBrace, "}")]
  {
    var left, open, close := Token(Cmd, "\\left"), Token(LBrace, "{"), Token(RBrace, "}");
    var ts := [left, open, close];
    assert ts[1..] == [open, close] && ts[2..] == [close] && ts[3..] == [];
    assert Formula(syn, [close]) == Formulas([], [close]);
    RightClosesNothing(syn, ts);
    StopsBehind(syn, ts, Node(LeftRight, open.value, [Node(Root, "", [])]), [close]);
  }

  /** A command in front of a closing brace is all there is. */
  lemma StopsBehind(syn: Syntax, ts: seq<Token>, node: Node, rest: seq<Token>)
    requires At(ts, Cmd) && Command(syn, ts) == Parsed(Some(node), rest) && At(rest, RBrace)
    ensures Formula(syn, ts).rest == rest
  {
    assert Scripts(syn, SubMark, None, rest) == Parsed(None, rest);
    assert Scripts(syn, SuperMark, None, rest) == Parsed(None, rest);
    assert Term(syn, ts) == Parsed(Some(node), rest);
    assert Operators(syn, node, rest) == Parsed(Some(node), rest);
    assert Formula(syn, rest) == Formulas([], rest);
  }

  lemma CharThenClose(syn: Syntax, c: Token, close: Token)
    requires c.kind == Char && close.kind == RBrace
    ensures Formula(syn, [c, close]).rest == [close]
  {
    var rest := [close];
    var node := CharNode(syn, c.value);
    assert [c, close][1..] == rest;
    assert Scripts(syn, SubMark, None, rest) == Parsed(None, rest);
    assert Scripts(syn, SuperMark, None, rest) == Parsed(None, rest);
    assert Term(syn, [c, close]) == Parsed(Some(node), rest);
    assert Operators(syn, node, rest) == Parsed(Some(node), rest);
    assert Formula(syn, rest) == Formulas([], rest);
  }

  /** A text argument ends at its first closing brace, whatever it opened: of `\\text{a{b}c}` the last brace is left over and
      stops the parse. */
  lemma TextTakesABrace(syn: Syntax, text: Token, a: Token, b: Token, c: Token, open: Token, close: Token)
    requires text.kind == Cmd && ClassOf(syn, text.value) == TextCmd && open.kind == LBrace && close.kind == RBrace
    requires a.kind == b.kind == c.kind == Char && !IsOperatorText(c.value)
    ensures var ts := [text, open, a, open, b, close, c, close]; NoStrayClose(ts) && Formula(syn, ts).rest == [close]
  {
    var rest := [c] + ([close] + []);
    assert rest == [c, close];
    var inner := [open] + ([b] + ([close] + rest));
    assert [text] + ([open] + ([a] + inner)) == [text, open, a, open, b, close, c, close];
    TextIsBalanced(text, a, b, c, open, close, inner);
    TextRunNext(open, [b] + ([close] + rest));
    TextRunNext(b, [close] + rest);
    TextRunEnds(close, rest);
    TextReadsRun(syn, text, a, open, inner, rest);
    CharThenClose(syn, c, close);
  }

  lemma TextIsBalanced(text: Token, a: Token, b: Token, c: Token, open: Token, close: Token, inner: seq<Token>)
    requires text.kind == Cmd && open.kind == LBrace && close.kind == RBrace && a.kind == b.kind == c.kind == Char
    requires inner == [open] + ([b] + ([close] + ([c] + ([close] + []))))
    ensures NoStrayClose([text] + ([open] + ([a] + inner)))
  {
    Push(close, [], 0);
    var one := [close] + [];
    Push(c, one, 0);
    var two := [c] + one;
    Push(close, two, 0);
    var three := [close] + two;
    Push(b, three, 0);
    var four := [b] + three;
    Push(open, four, 0);
    Push(a, inner, 0);
    var five := [a] + inner;
    Push(open, five, 0);
    Push(text, [open] + five, 0);
  }

  lemma TextReadsRun(syn: Syntax, text: Token, a: Token, open: Token, inner: seq<Token>, rest: seq<Token>)
    requires text.kind == Cmd && ClassOf(syn, text.value) == TextCmd && open.kind == LBrace && a.kind == Char
    requires TextRun(inner).1 == rest && |rest| > 0 && rest[0].kind == Char && !IsOperatorText(rest[0].value)
    ensures Formula(syn, [text] + ([open] + ([a] + inner))).rest == Formula(syn, rest).rest
  {
    TextRunNext(a, inner);
    var run := [a] + inner;
    assert ([text] + ([open] + run))[1..] == [open] + run && ([open] + run)[1..] == run;
    TextThenStop(syn, [text] + ([open] + run), run, rest);
  }

  /** The formula behind a text argument goes on with what follows it. */
  lemma TextThenStop(syn: Syntax, ts: seq<Token>, run: seq<Token>, rest: seq<Token>)
    requires At(ts, Cmd) && ClassOf(syn, ts[0].value) == TextCmd && At(ts[1..], LBrace) && ts[1..][1..] == run
    requires TextRun(run).1 == rest && |rest| > 0 && rest[0].kind == Char && !IsOperatorText(rest[0].value)
    ensures Formula(syn, ts).rest == Formula(syn, rest).rest
  {
    var node := Node(Text, TextRun(run).0, []);
    assert Command(syn, ts) == Parsed(Some(node), rest);
    assert Scripts(syn, SubMark, None, rest) == Parsed(None, rest);
    assert Scripts(syn, SuperMark, None, rest) == Parsed(None, rest);
    assert Term(syn, ts) == Parsed(Some(node), rest);
    assert Operators(syn, node, rest) == Parsed(Some(node), rest);
  }

  ghost predicate SuffixesAtMost(ts: seq<Token>, bound: int) {
    forall i | 0 <= i <= |ts| :: Balance(ts[i..]) <= bound
  }

  lemma Push(t: Token, ts: seq<Token>, bound: int)
    requires (ts == [] || SuffixesAtMost(ts, bound)) && Weight(t) + Balance(ts) <= bound && bound >= 0
    ensures Balance([t] + ts) == Weight(t) + Balance(ts) && SuffixesAtMost([t] + ts, bound)
  {
    var all := [t] + ts;
    assert all[1..] == ts;
    forall i | 0 <= i <= |all| ensures Balance(all[i..]) <= bound {
      if i > 0 {
        assert all[i..] == ts[i - 1..];
      } else {
        assert all[i..] == all;
      }
    }
  }

  lemma TextRunNext(t: Token, ts: seq<Token>)
    requires t.kind != RBrace
    ensures TextRun([t] + ts).1 == TextRun(ts).1
  {
    assert ([t] + ts)[1..] == ts;
  }

  lemma TextRunEnds(t: Token, ts: seq<Token>)
    requires t.kind == RBrace
    ensures TextRun([t] + ts).1 == ts
  {
  }

  /** Both happen with the command tables of the source. */
  lemma LatexLosesBraces(isDigit: char -> bool, isAlpha: char -> bool)
    ensures var syn, open, close := LatexSyntax(isDigit, isAlpha), Token(LBrace, "{"), Token(RBrace, "}");
            && Formula(syn, [Token(Cmd, "\\left"), open, close]).rest == [close]
            && Formula(syn, [Token(Cmd, "\\mathrm"), open, Token(Char, "a"), open, Token(Char, "b"), close, Token(Char, "c"), close]).rest
               == [close]
  {
    LeftIsLeft(isDigit, isAlpha);
    MathrmIsText(isDigit, isAlpha);
    LeftTakesABrace(LatexSyntax(isDigit, isAlpha));
    LetterIsNoOperator();
    TextTakesABrace(LatexSyntax(isDigit, isAlpha), Token(Cmd, "\\mathrm"), Token(Char, "a"), Token(Char, "b"), Token(Char, "c"),
                    Token(LBrace, "{"), Token(RBrace, "}"));
  }

  lemma LetterIsNoOperator()
    ensures !IsOperatorText("c")
  {
    forall i | 0 <= i <= |OPERATOR_CHARS| ensures !("c" <= OPERATOR_CHARS[i..]) {
      assert |OPERATOR_CHARS[i..]| > 0 ==> OPERATOR_CHARS[i..][0] == OPERATOR_CHARS[i];
    }
  }

  /** A separator or environment end outside a matrix stops the parse at once. */
  lemma SeparatorStops(syn: Syntax, ts: seq<Token>)
    requires At(ts, Amp) || At(ts, End)
    ensures Formula(syn, ts).rest == ts
  {
  }
}
