/** Printing a formula tree and parsing the text again. */
module FormulaRoundTrip {
  import opened FormulaTree
  import opened FormulaLexer
  import opened FormulaParser
  import opened FormulaPrint

  // ----- The trees the printer writes without loss -----

  predicate PlainWord(s: string) {
    |s| > 0 && forall i | 0 <= i < |s| :: IsPlain(s[i])
  }

  predicate CommandWord(s: string) {
    |s| > 1 && s[0] == '\\' && forall i | 1 <= i < |s| :: IsLetter(s[i])
  }

  /** A command of the given class that is not also an operator. */
  predicate IsCommand(syn: Syntax, s: string, c: CmdClass) {
    CommandWord(s) && ClassOf(syn, s) == c && !IsBinaryCmd(syn, s)
  }

  predicate IsLeaf(syn: Syntax, t: Node) {
    && |t.children| == 0
    && match t.kind
       case Symbol =>
         || (PlainWord(t.value) && !IsNumberText(syn, t.value) && !IsOperatorText(t.value))
         || IsCommand(syn, t.value, SymbolCmd) || IsCommand(syn, t.value, OtherCmd)
       case Number => PlainWord(t.value) && IsNumberText(syn, t.value) && !IsOperatorText(t.value)
       case Func => IsCommand(syn, t.value, FuncCmd)
       case Lop => IsCommand(syn, t.value, LopCmd)
       case Text => t.value == "" || PlainWord(t.value)
       case _ => false
  }

  predicate IsAtom(syn: Syntax, t: Node)
    decreases t, 0
  {
    var cs := t.children;
    match t.kind
    case Frac => t.value == "" && |cs| == 2 && IsArg(syn, cs[0]) && IsArg(syn, cs[1])
    case Sqrt => t.value == "" && |cs| == 1 && IsArg(syn, cs[0])
    case Group => t.value == "" && AllExprs(syn, cs)
    case Accent =>
      IsCommand(syn, t.value, AccentCmd) && t.value != "\\begin" && t.value != "\\end" && |cs| == 1 && IsExpr(syn, cs[0])
    case _ => IsLeaf(syn, t)
  }

  /** A large operator with a single script loses it in the parser, so it only takes both or none. */
  predicate IsTerm(syn: Syntax, t: Node)
    decreases t, 1
  {
    var cs := t.children;
    match t.kind
    case Sup => t.value == "" && |cs| == 2 && IsAtom(syn, cs[0]) && cs[0].kind != Lop && IsExpr(syn, cs[1])
    case Sub => t.value == "" && |cs| == 2 && IsAtom(syn, cs[0]) && cs[0].kind != Lop && IsExpr(syn, cs[1])
    case SubSup => t.value == "" && |cs| == 3 && IsAtom(syn, cs[0]) && IsExpr(syn, cs[1]) && IsExpr(syn, cs[2])
    case _ => IsAtom(syn, t)
  }

  /** Operators nest to the left. */
  predicate IsExpr(syn: Syntax, t: Node)
    decreases t, 2
  {
    var cs := t.children;
    if t.kind == Binary then
      && ((PlainWord(t.value) && IsOperatorText(t.value)) || (CommandWord(t.value) && IsBinaryCmd(syn, t.value)))
      && |cs| == 2 && IsExpr(syn, cs[0]) && IsTerm(syn, cs[1])
    else IsTerm(syn, t)
  }

  predicate AllExprs(syn: Syntax, cs: seq<Node>)
    decreases cs, 0
  {
    |cs| == 0 || (IsExpr(syn, cs[0]) && AllExprs(syn, cs[1..]))
  }

  /** An expression, or a ROOT holding a list of them. */
  predicate IsArg(syn: Syntax, t: Node)
    decreases t, 3
  {
    if t.kind == Root then t.value == "" && AllExprs(syn, t.children) else IsExpr(syn, t)
  }

  // ----- The tokens of a printed tree -----

  function Word(value: string): Token {
    Token(if |value| > 0 && value[0] == '\\' then Cmd else Char, value)
  }

  function MarkKind(c: char): TokenKind {
    if c == '^' then SuperMark else if c == '_' then SubMark else if c == '{' then LBrace else RBrace
  }

  predicate IsMark(c: char) {
    c == '^' || c == '_' || c == '{' || c == '}'
  }

  function Marks(s: string): seq<Token> {
    if |s| == 0 then [] else [Token(MarkKind(s[0]), [s[0]])] + Marks(s[1..])
  }

  function Inner(script: Node): Node {
    if script.kind == Group && |script.children| == 1 then script.children[0] else script
  }

  function Printed(t: Node): seq<Token>
    decreases t, 1
  {
    var cs := t.children;
    match t.kind
    case Root => PrintedAll(cs)
    case Group => Marks("{") + PrintedAll(cs) + Marks("}")
    case Text => [Word("\\mathrm")] + Marks("{") + (if t.value == "" then [] else [Word(t.value)]) + Marks("}")
    case Binary => if |cs| == 2 then Printed(cs[0]) + [Word(t.value)] + Printed(cs[1]) else []
    case Accent => if |cs| == 1 then [Word(t.value)] + Marks("{") + Printed(cs[0]) + Marks("}") else []
    case Sqrt => if |cs| == 1 then [Word("\\sqrt")] + Marks("{") + Printed(cs[0]) + Marks("}") else []
    case Frac =>
      if |cs| == 2 then [Word("\\frac")] + Marks("{") + Printed(cs[0]) + Marks("}{") + Printed(cs[1]) + Marks("}") else []
    case Sup => if |cs| == 2 then Printed(cs[0]) + Marks("^") + Marks("{") + Printed(Inner(cs[1])) + Marks("}") else []
    case Sub => if |cs| == 2 then Printed(cs[0]) + Marks("_") + Marks("{") + Printed(Inner(cs[1])) + Marks("}") else []
    case SubSup =>
      if |cs| == 3 then
        Printed(cs[0]) + Marks("_{") + (Marks("{") + Printed(cs[1]) + Marks("}")) + Marks("}^{") +
        (Marks("{") + Printed(cs[2]) + Marks("}")) + Marks("}")
      else []
    case _ => [Word(t.value)]
  }

  function PrintedAll(cs: seq<Node>): seq<Token>
    decreases cs, 0
  {
    if |cs| == 0 then [] else Printed(cs[0]) + PrintedAll(cs[1..])
  }

  // ----- Tokenising what was printed -----

  function AsLexemes(ts: seq<Token>): seq<Lexeme> {
    seq(|ts|, i requires 0 <= i < |ts| => Tok(ts[i]))
  }

  /** In front of `rest`, the text s yields exactly the tokens ts. */
  ghost predicate Lexes(s: string, ts: seq<Token>, rest: string) {
    Lex(s + rest) == AsLexemes(ts) + Lex(rest)
  }

  /** What may follow a printed word. */
  ghost predicate EndsWord(rest: string) {
    |rest| == 0 || rest[0] == ' ' || rest[0] == '^' || rest[0] == '_' || rest[0] == '}'
  }

  lemma LexesThen(a: string, ta: seq<Token>, b: string, tb: seq<Token>, rest: string)
    requires Lexes(a, ta, b + rest) && Lexes(b, tb, rest)
    ensures Lexes(a + b, ta + tb, rest)
  {
    assert (a + b) + rest == a + (b + rest);
    assert AsLexemes(ta + tb) == AsLexemes(ta) + AsLexemes(tb);
    assert AsLexemes(ta) + AsLexemes(tb) + Lex(rest) == AsLexemes(ta) + (AsLexemes(tb) + Lex(rest));
  }

  lemma LexesNothing(rest: string)
    ensures Lexes("", [], rest)
  {
    assert "" + rest == rest;
  }

  lemma LexesBlank(rest: string)
    ensures Lexes(" ", [], rest)
  {
    assert (" " + rest)[1..] == rest;
    assert IsSpace(' ') && !IsPlain(' ');
    assert MatchLen(" " + rest) == 0;
  }

  lemma LexesMark(c: char, rest: string)
    requires IsMark(c)
    ensures Lexes([c], [Token(MarkKind(c), [c])], rest)
  {
    var s := [c] + rest;
    assert s[..1] == [c] && s[1..] == rest;
    assert MatchLen(s) == 1;
  }

  lemma {:induction false} LexesMarks(s: string, rest: string)
    requires forall i | 0 <= i < |s| :: IsMark(s[i])
    ensures Lexes(s, Marks(s), rest)
  {
    if |s| == 0 {
      LexesNothing(rest);
      assert s == "";
    } else {
      LexesMarks(s[1..], rest);
      LexesMark(s[0], s[1..] + rest);
      LexesThen([s[0]], [Token(MarkKind(s[0]), [s[0]])], s[1..], Marks(s[1..]), rest);
      assert [s[0]] + s[1..] == s;
    }
  }

  lemma {:induction false} RunStops(p: char -> bool, v: string, rest: string)
    requires (forall i | 0 <= i < |v| :: p(v[i])) && (|rest| > 0 ==> !p(rest[0]))
    ensures Run(p, v + rest) == |v|
  {
    if |v| > 0 {
      assert (v + rest)[1..] == v[1..] + rest;
      RunStops(p, v[1..], rest);
    } else {
      assert v + rest == rest;
    }
  }

  lemma LexesPlain(v: string, rest: string)
    requires PlainWord(v) && (EndsWord(rest) || rest[0] == '{')
    ensures Lexes(v, [Word(v)], rest)
  {
    var s := v + rest;
    assert IsPlain(v[0]) && s[0] == v[0];
    RunStops(IsPlain, v, rest);
    assert MatchLen(s) == |v| && s[..|v|] == v && s[|v|..] == rest;
    assert Classify(v) == Char;
  }

  /** An opening brace may follow a command too, unless that starts an environment. */
  ghost predicate EndsCommand(v: string, rest: string) {
    EndsWord(rest) || (rest[0] == '{' && v != "\\begin" && v != "\\end")
  }

  lemma NoEnvironment(v: string, rest: string, head: string)
    requires |head| > 1 && head[0] == '\\' && head[|head| - 1] == '{'
    requires CommandWord(v) && (EndsWord(rest) || (rest[0] == '{' && v != head[..|head| - 1]))
    requires forall i | 1 <= i < |head| - 1 :: IsLetter(head[i])
    ensures EnvironmentLen(v + rest, head) == 0 && !(head <= v)
  {
    var s := v + rest;
    if |v| >= |head| {
      assert s[|head| - 1] == v[|head| - 1] != '{';
    } else if |rest| > 0 {
      assert s[|v|] == rest[0];
      assert s[..|v|] == v;
    }
  }

  lemma LexesCommand(v: string, rest: string)
    requires CommandWord(v) && EndsCommand(v, rest)
    ensures Lexes(v, [Word(v)], rest)
  {
    var s := v + rest;
    assert "\\begin{"[..6] == "\\begin" && "\\end{"[..4] == "\\end";
    NoEnvironment(v, rest, "\\begin{");
    NoEnvironment(v, rest, "\\end{");
    assert s[1..] == v[1..] + rest;
    RunStops(IsLetter, v[1..], rest);
    assert s[0] == '\\' && IsLetter(s[1]) && s[1] == v[1];
    assert MatchLen(s) == |v| && s[..|v|] == v && s[|v|..] == rest;
    assert Classify(v) == Cmd;
  }

  lemma LexesWord(v: string, rest: string)
    requires PlainWord(v) || CommandWord(v)
    requires if CommandWord(v) then EndsCommand(v, rest) else EndsWord(rest) || rest[0] == '{'
    ensures Lexes(v, [Word(v)], rest)
  {
    if CommandWord(v) {
      LexesCommand(v, rest);
    } else {
      LexesPlain(v, rest);
    }
  }

  /** A printed argument in braces. */
  lemma LexesBraced(s: string, ts: seq<Token>, rest: string)
    requires Lexes(s, ts, "}" + rest)
    ensures Lexes("{" + s + "}", Marks("{") + ts + Marks("}"), rest)
  {
    LexesMarks("}", rest);
    LexesMarks("{", s + ("}" + rest));
    LexesThen("{", Marks("{"), s, ts, "}" + rest);
    LexesThen("{" + s, Marks("{") + ts, "}", Marks("}"), rest);
  }

  /** A command, opening brace, argument and closing brace. */
  lemma LexesApplied(v: string, s: string, ts: seq<Token>, rest: string)
    requires CommandWord(v) && v != "\\begin" && v != "\\end" && Lexes(s, ts, "}" + rest)
    ensures Lexes(v + "{" + s + "}", [Word(v)] + Marks("{") + ts + Marks("}"), rest)
  {
    LexesBraced(s, ts, rest);
    LexesCommand(v, "{" + s + "}" + rest);
    LexesThen(v, [Word(v)], "{" + s + "}", Marks("{") + ts + Marks("}"), rest);
    assert v + "{" + s + "}" == v + ("{" + s + "}");
    assert [Word(v)] + Marks("{") + ts + Marks("}") == [Word(v)] + (Marks("{") + ts + Marks("}"));
  }

  lemma FlattenRight<T>(a: seq<T>, b: seq<T>, c: seq<T>, d: seq<T>, e: seq<T>, f: seq<T>)
    ensures a + (b + (c + d + (e + f))) == a + b + c + d + e + f
  {
  }

  lemma FlattenFour<T>(a: seq<T>, b: seq<T>, c: seq<T>, d: seq<T>, e: seq<T>)
    ensures a + (b + (c + (d + e))) == a + b + c + d + e
  {
  }

  lemma FlattenGaps<T>(a: seq<T>, b: seq<T>, c: seq<T>)
    ensures a + ([] + (b + ([] + c))) == a + b + c
  {
  }

  lemma LexesFracText(num: string, tn: seq<Token>, den: string, td: seq<Token>, rest: string)
    requires Lexes(num, tn, "}{" + (den + "}" + rest)) && Lexes(den, td, "}" + rest)
    ensures Lexes("\\frac{" + num + "}{" + den + "}", [Word("\\frac")] + Marks("{") + tn + Marks("}{") + td + Marks("}"), rest)
  {
    LexesMarks("}", rest);
    LexesThen(den, td, "}", Marks("}"), rest);
    LexesMarks("}{", den + "}" + rest);
    LexesThen(num, tn, "}{", Marks("}{"), den + "}" + rest);
    LexesThen(num + "}{", tn + Marks("}{"), den + "}", td + Marks("}"), rest);
    var body, tb := num + "}{" + (den + "}"), tn + Marks("}{") + (td + Marks("}"));
    LexesMarks("{", body + rest);
    LexesThen("{", Marks("{"), body, tb, rest);
    LexesCommand("\\frac", "{" + body + rest);
    LexesThen("\\frac", [Word("\\frac")], "{" + body, Marks("{") + tb, rest);
    FlattenRight("\\frac", "{", num, "}{", den, "}");
    assert "\\frac" + "{" == "\\frac{";
    FlattenRight([Word("\\frac")], Marks("{"), tn, Marks("}{"), td, Marks("}"));
  }

  lemma LexesScriptText(base: string, tb: seq<Token>, mark: string, script: string, ts: seq<Token>, rest: string)
    requires mark == "^" || mark == "_"
    requires Lexes(base, tb, mark + ("{" + script + "}") + rest) && Lexes(script, ts, "}" + rest)
    ensures Lexes(base + mark + "{" + script + "}", tb + Marks(mark) + Marks("{") + ts + Marks("}"), rest)
  {
    LexesBraced(script, ts, rest);
    var arg, ta := "{" + script + "}", Marks("{") + ts + Marks("}");
    LexesMarks(mark, arg + rest);
    LexesThen(mark, Marks(mark), arg, ta, rest);
    LexesThen(base, tb, mark + arg, Marks(mark) + ta, rest);
    assert base + mark + "{" + script + "}" == base + (mark + arg);
    assert tb + Marks(mark) + Marks("{") + ts + Marks("}") == tb + (Marks(mark) + ta);
  }

  /** Both scripts, after the base: sub and sup come with braces of their own. */
  lemma LexesScriptsText(sub: string, tsub: seq<Token>, sup: string, tsup: seq<Token>, rest: string)
    requires Lexes(sub, tsub, "}^{" + (sup + "}") + rest) && Lexes(sup, tsup, "}" + rest)
    ensures Lexes("_{" + (sub + ("}^{" + (sup + "}"))), Marks("_{") + (tsub + (Marks("}^{") + (tsup + Marks("}")))), rest)
  {
    LexesMarks("}", rest);
    LexesThen(sup, tsup, "}", Marks("}"), rest);
    LexesMarks("}^{", sup + "}" + rest);
    LexesThen("}^{", Marks("}^{"), sup + "}", tsup + Marks("}"), rest);
    var upper, tu := "}^{" + (sup + "}"), Marks("}^{") + (tsup + Marks("}"));
    LexesThen(sub, tsub, upper, tu, rest);
    LexesMarks("_{", sub + upper + rest);
    LexesThen("_{", Marks("_{"), sub + upper, tsub + tu, rest);
  }

  lemma LexesBinaryText(left: string, tl: seq<Token>, op: string, right: string, tr: seq<Token>, rest: string)
    requires PlainWord(op) || CommandWord(op)
    requires Lexes(left, tl, " " + (op + (" " + right)) + rest) && Lexes(right, tr, rest)
    ensures Lexes(left + " " + op + " " + right, tl + [Word(op)] + tr, rest)
  {
    LexesBlank(right + rest);
    LexesThen(" ", [], right, tr, rest);
    LexesWord(op, " " + right + rest);
    LexesThen(op, [Word(op)], " " + right, [] + tr, rest);
    var tail, tt := op + (" " + right), [Word(op)] + ([] + tr);
    LexesBlank(tail + rest);
    LexesThen(" ", [], tail, tt, rest);
    LexesThen(left, tl, " " + tail, [] + tt, rest);
    FlattenFour(left, " ", op, " ", right);
    FlattenGaps(tl, [Word(op)], tr);
  }

  /** Which predicate describes a node, by its kind. */
  lemma ArgLevel(syn: Syntax, t: Node)
    requires IsArg(syn, t) || IsExpr(syn, t) || IsTerm(syn, t) || IsAtom(syn, t)
    ensures IsArg(syn, t)
    ensures t.kind != Root ==> IsExpr(syn, t)
    ensures t.kind != Root && t.kind != Binary ==> IsTerm(syn, t)
    ensures t.kind !in {Root, Binary, NodeType.Sup, NodeType.Sub, SubSup} ==> IsAtom(syn, t)
    ensures t.kind !in {Root, Binary, NodeType.Sup, NodeType.Sub, SubSup, Frac, Sqrt, Group, Accent} ==> IsLeaf(syn, t)
  {
    if IsAtom(syn, t) {
      assert t.kind != Root && t.kind != Binary;
      assert IsTerm(syn, t);
    }
    if IsTerm(syn, t) {
      assert t.kind != Root && t.kind != Binary;
      assert IsExpr(syn, t);
    }
  }

  /** Tokenising a printed tree gives the tokens it stands for. */
  lemma {:induction false} LexesPrinted(syn: Syntax, t: Node, rest: string)
    requires IsArg(syn, t) && EndsWord(rest)
    ensures Lexes(ToLatex(t), Printed(t), rest)
    decreases t, 1
  {
    ArgLevel(syn, t);
    match t.kind
    case Root => LexesAll(syn, t.children, rest);
    case Binary => LexesBinary(syn, t, rest);
    case Sup => LexesScript(syn, t, rest);
    case Sub => LexesScript(syn, t, rest);
    case SubSup => LexesScripts(syn, t, rest);
    case Frac => LexesFrac(syn, t, rest);
    case Sqrt => LexesSqrt(syn, t, rest);
    case Accent => LexesAccent(syn, t, rest);
    case Group =>
      LexesAll(syn, t.children, "}" + rest);
      LexesBraced(JoinLatex(" ", t.children), PrintedAll(t.children), rest);
    case _ => LexesLeaf(syn, t, rest);
  }

  lemma LexesTextNode(value: string, rest: string)
    requires value == "" || PlainWord(value)
    ensures Lexes("\\mathrm{" + value + "}",
                  [Word("\\mathrm")] + Marks("{") + (if value == "" then [] else [Word(value)]) + Marks("}"), rest)
  {
    if value == "" {
      LexesNothing("}" + rest);
    } else {
      LexesPlain(value, "}" + rest);
    }
    LexesApplied("\\mathrm", value, if value == "" then [] else [Word(value)], rest);
    assert "\\mathrm{" == "\\mathrm" + "{";
  }

  lemma LexesLeaf(syn: Syntax, t: Node, rest: string)
    requires IsLeaf(syn, t) && EndsWord(rest)
    ensures Lexes(ToLatex(t), Printed(t), rest)
  {
    LeafShape(t);
    if t.kind == Text {
      LexesTextNode(t.value, rest);
    } else {
      LexesWord(t.value, rest);
    }
  }

  lemma LeafShape(t: Node)
    requires |t.children| == 0
    ensures t.kind == Text ==>
              && ToLatex(t) == "\\mathrm{" + t.value + "}"
              && Printed(t) == [Word("\\mathrm")] + Marks("{") + (if t.value == "" then [] else [Word(t.value)]) + Marks("}")
    ensures t.kind in {Symbol, Number, Func, Lop} ==> ToLatex(t) == t.value && Printed(t) == [Word(t.value)]
  {
  }

  lemma {:induction false} LexesAll(syn: Syntax, cs: seq<Node>, rest: string)
    requires AllExprs(syn, cs) && EndsWord(rest)
    ensures Lexes(JoinLatex(" ", cs), PrintedAll(cs), rest)
    decreases cs, 0
  {
    if |cs| == 0 {
      LexesNothing(rest);
    } else {
      ArgLevel(syn, cs[0]);
      var first, tf := ToLatex(cs[0]), Printed(cs[0]);
      assert tf + [] == tf;
      if |cs| == 1 {
        LexesPrinted(syn, cs[0], rest);
      } else {
        var tail := JoinLatex(" ", cs[1..]);
        LexesAll(syn, cs[1..], rest);
        LexesBlank(tail + rest);
        LexesPrinted(syn, cs[0], " " + (tail + rest));
        LexesThen(first, tf, " ", [], tail + rest);
        LexesThen(first + " ", tf + [], tail, PrintedAll(cs[1..]), rest);
      }
    }
  }

  lemma {:induction false} LexesSqrt(syn: Syntax, t: Node, rest: string)
    requires t.kind == Sqrt && IsAtom(syn, t)
    ensures Lexes(ToLatex(t), Printed(t), rest)
    decreases t, 0
  {
    var arg := t.children[0];
    LexesPrinted(syn, arg, "}" + rest);
    LexesApplied("\\sqrt", ToLatex(arg), Printed(arg), rest);
    assert "\\sqrt{" == "\\sqrt" + "{";
  }

  lemma {:induction false} LexesAccent(syn: Syntax, t: Node, rest: string)
    requires t.kind == Accent && IsAtom(syn, t)
    ensures Lexes(ToLatex(t), Printed(t), rest)
    decreases t, 0
  {
    var arg := t.children[0];
    ArgLevel(syn, arg);
    LexesPrinted(syn, arg, "}" + rest);
    LexesApplied(t.value, ToLatex(arg), Printed(arg), rest);
  }

  lemma {:induction false} LexesFrac(syn: Syntax, t: Node, rest: string)
    requires t.kind == Frac && IsAtom(syn, t)
    ensures Lexes(ToLatex(t), Printed(t), rest)
    decreases t, 0
  {
    var num, den := t.children[0], t.children[1];
    LexesPrinted(syn, den, "}" + rest);
    LexesPrinted(syn, num, "}{" + (ToLatex(den) + "}" + rest));
    LexesFracText(ToLatex(num), Printed(num), ToLatex(den), Printed(den), rest);
  }

  lemma {:induction false} LexesScript(syn: Syntax, t: Node, rest: string)
    requires t.kind == NodeType.Sup || t.kind == NodeType.Sub
    requires IsTerm(syn, t)
    ensures Lexes(ToLatex(t), Printed(t), rest)
    decreases t, 0
  {
    var mark := if t.kind == NodeType.Sup then "^" else "_";
    var base, script := t.children[0], Inner(t.children[1]);
    ArgLevel(syn, base);
    ArgLevel(syn, t.children[1]);
    assert IsExpr(syn, script);
    ArgLevel(syn, script);
    LexesPrinted(syn, script, "}" + rest);
    LexesPrinted(syn, base, mark + ("{" + ToLatex(script) + "}") + rest);
    LexesScriptText(ToLatex(base), Printed(base), mark, ToLatex(script), Printed(script), rest);
  }

  lemma {:induction false} LexesScripts(syn: Syntax, t: Node, rest: string)
    requires t.kind == SubSup && IsTerm(syn, t)
    ensures Lexes(ToLatex(t), Printed(t), rest)
    decreases t, 0
  {
    var base, sub, sup := t.children[0], t.children[1], t.children[2];
    ArgLevel(syn, base);
    ArgLevel(syn, sub);
    ArgLevel(syn, sup);
    LexesPrinted(syn, sup, "}" + ("}" + rest));
    LexesBraced(ToLatex(sup), Printed(sup), "}" + rest);
    var p, tp := "{" + ToLatex(sup) + "}", Marks("{") + Printed(sup) + Marks("}");
    LexesPrinted(syn, sub, "}" + ("}^{" + (p + "}") + rest));
    LexesBraced(ToLatex(sub), Printed(sub), "}^{" + (p + "}") + rest);
    var b, tb := "{" + ToLatex(sub) + "}", Marks("{") + Printed(sub) + Marks("}");
    LexesScriptsText(b, tb, p, tp, rest);
    LexesPrinted(syn, base, "_{" + (b + ("}^{" + (p + "}"))) + rest);
    LexesBase(ToLatex(base), Printed(base), b, tb, p, tp, rest);
  }

  lemma LexesBase(base: string, tbase: seq<Token>, b: string, tb: seq<Token>, p: string, tp: seq<Token>, rest: string)
    requires Lexes(base, tbase, "_{" + (b + ("}^{" + (p + "}"))) + rest)
    requires Lexes("_{" + (b + ("}^{" + (p + "}"))), Marks("_{") + (tb + (Marks("}^{") + (tp + Marks("}")))), rest)
    ensures Lexes(base + "_{" + b + "}^{" + p + "}", tbase + Marks("_{") + tb + Marks("}^{") + tp + Marks("}"), rest)
  {
    LexesThen(base, tbase, "_{" + (b + ("}^{" + (p + "}"))), Marks("_{") + (tb + (Marks("}^{") + (tp + Marks("}")))), rest);
    FlattenFive(base, "_{", b, "}^{", p, "}");
    FlattenFive(tbase, Marks("_{"), tb, Marks("}^{"), tp, Marks("}"));
  }

  lemma FlattenFive<T>(a: seq<T>, b: seq<T>, c: seq<T>, d: seq<T>, e: seq<T>, f: seq<T>)
    ensures a + (b + (c + (d + (e + f)))) == a + b + c + d + e + f
  {
  }

  lemma {:induction false} LexesBinary(syn: Syntax, t: Node, rest: string)
    requires t.kind == Binary && IsExpr(syn, t) && EndsWord(rest)
    ensures Lexes(ToLatex(t), Printed(t), rest)
    decreases t, 0
  {
    var left, right := t.children[0], t.children[1];
    ArgLevel(syn, left);
    ArgLevel(syn, right);
    LexesPrinted(syn, right, rest);
    LexesPrinted(syn, left, " " + (t.value + (" " + ToLatex(right))) + rest);
    LexesBinaryText(ToLatex(left), Printed(left), t.value, ToLatex(right), Printed(right), rest);
  }
}
