/** The recursive-descent parser `_Parser` of docmirror/ocr/formula_ast.py: first as functions from the
    remaining tokens to a result and the tokens left over, then as the class with its position. */
module FormulaParser {
  import opened Options
  import opened FormulaTree
  import opened FormulaLexer

  /** The outcome of a parsing step. `Raised` is a ParseError; both say which tokens are left. */
  datatype Outcome<+T> = Parsed(value: T, rest: seq<Token>) | Raised(rest: seq<Token>)

  datatype Formulas = Formulas(nodes: seq<Node>, rest: seq<Token>)

  predicate At(ts: seq<Token>, kind: TokenKind) {
    |ts| > 0 && ts[0].kind == kind
  }

  /** The tokens at which `_parse_formula` and the operator loop stop. */
  predicate AtStop(ts: seq<Token>) {
    |ts| == 0 || ts[0].kind == RBrace || ts[0].kind == End || ts[0].kind == Amp
  }

  predicate IsOperator(syn: Syntax, t: Token) {
    (t.kind == Char && IsOperatorText(t.value)) || (t.kind == Cmd && IsBinaryCmd(syn, t.value))
  }

  function CharNode(syn: Syntax, value: string): Node {
    Node(if IsNumberText(syn, value) then Number else Symbol, value, [])
  }

  /** `_parse_formula`: expressions up to a stop; after a ParseError one token is skipped. It cannot raise. */
  function Formula(syn: Syntax, ts: seq<Token>): (r: Formulas)
    ensures |r.rest| <= |ts| && AtStop(r.rest)
    decreases |ts|, 5
  {
    if AtStop(ts) then Formulas([], ts)
    else match Expr(syn, ts)
      case Parsed(Some(child), rest) => var r := Formula(syn, rest); Formulas([child] + r.nodes, r.rest)
      case Parsed(None, rest) => Formula(syn, rest)
      case Raised(rest) => Formula(syn, if |rest| > 0 then rest[1..] else rest)
  }

  /** `_parse_expr`. */
  function Expr(syn: Syntax, ts: seq<Token>): (r: Outcome<Option<Node>>)
    ensures |r.rest| <= |ts| && (!AtStop(ts) ==> |r.rest| < |ts|)
    decreases |ts|, 4
  {
    match Term(syn, ts)
    case Raised(rest) => Raised(rest)
    case Parsed(None, rest) => Parsed(None, rest)
    case Parsed(Some(left), rest) => Operators(syn, left, rest)
  }

  /** The operator loop of `_parse_expr`, left-associative. */
  function Operators(syn: Syntax, left: Node, ts: seq<Token>): (r: Outcome<Option<Node>>)
    ensures |r.rest| <= |ts|
    decreases |ts|, 3
  {
    if AtStop(ts) || !IsOperator(syn, ts[0]) then Parsed(Some(left), ts)
    else
      var op := ts[0].value;
      match Term(syn, ts[1..])
      case Raised(rest) => Raised(rest)
      case Parsed(Some(right), rest) => Operators(syn, Node(Binary, op, [left, right]), rest)
      case Parsed(None, rest) => Parsed(Some(Node(Root, "", [left, Node(Binary, op, [])])), rest)
  }

  /** `_parse_term`: an atom, then subscripts, then superscripts. */
  function Term(syn: Syntax, ts: seq<Token>): (r: Outcome<Option<Node>>)
    ensures |r.rest| <= |ts| && (!AtStop(ts) ==> |r.rest| < |ts|)
    decreases |ts|, 2
  {
    match Atom(syn, ts)
    case Raised(rest) => Raised(rest)
    case Parsed(None, rest) => Parsed(None, rest)
    case Parsed(Some(base), rest) =>
      match Scripts(syn, SubMark, None, rest)
      case Raised(rest') => Raised(rest')
      case Parsed(sub, rest') =>
        match Scripts(syn, SuperMark, None, rest')
        case Raised(rest'') => Raised(rest'')
        case Parsed(sup, rest'') => Parsed(Some(Scripted(base, sub, sup)), rest'')
  }

  /** The script loop of `_parse_term` for one marker; a repeated script is grouped with the earlier one. */
  function Scripts(syn: Syntax, mark: TokenKind, soFar: Option<Node>, ts: seq<Token>): (r: Outcome<Option<Node>>)
    ensures |r.rest| <= |ts|
    decreases |ts|, 1
  {
    if !At(ts, mark) then Parsed(soFar, ts)
    else match Atom(syn, ts[1..])
      case Raised(rest) => Raised(rest)
      case Parsed(child, rest) => Scripts(syn, mark, JoinScript(soFar, child), rest)
  }

  function JoinScript(soFar: Option<Node>, child: Option<Node>): Option<Node> {
    match (soFar, child)
    case (_, None) => soFar
    case (None, Some(_)) => child
    case (Some(a), Some(b)) => Some(Node(Group, "", [a, b]))
  }

  /** What a large operator takes over as children from a single script. */
  function Spread(script: Node): seq<Node> {
    if script.kind == Group then script.children else [script]
  }

  function Scripted(base: Node, sub: Option<Node>, sup: Option<Node>): Node {
    match (sub, sup)
    case (Some(a), Some(b)) => Node(SubSup, "", [base, a, b])
    case (None, Some(b)) =>
      if base.kind == Lop then base.(children := base.children + Spread(b)) else Node(Sup, "", [base, b])
    case (Some(a), None) =>
      if base.kind == Lop then base.(children := base.children + Spread(a)) else Node(Sub, "", [base, a])
    case (None, None) => base
  }

  /** `_parse_atom`. */
  function Atom(syn: Syntax, ts: seq<Token>): (r: Outcome<Option<Node>>)
    ensures |r.rest| <= |ts| && (|ts| > 0 && ts[0].kind != RBrace ==> |r.rest| < |ts|)
    decreases |ts|, 1
  {
    if |ts| == 0 then Parsed(None, ts)
    else match ts[0].kind
      case Char => Parsed(Some(CharNode(syn, ts[0].value)), ts[1..])
      case Gap => Parsed(Some(Node(Space, " ", [])), ts[1..])
      case Cmd => Command(syn, ts)
      case LBrace => GroupAtom(syn, ts)
      case RBrace => Parsed(None, ts)
      case Newline => Parsed(Some(Node(Space, "\\\\", [])), ts[1..])
      case _ => Parsed(None, ts[1..])
  }

  /** `{ formula }`, raising where a brace is missing. */
  function Braced(syn: Syntax, ts: seq<Token>): (r: Outcome<seq<Node>>)
    ensures |r.rest| <= |ts| && (At(ts, LBrace) ==> |r.rest| < |ts|)
    decreases |ts|, 0, 0
  {
    if !At(ts, LBrace) then Raised(ts)
    else
      var f := Formula(syn, ts[1..]);
      if At(f.rest, RBrace) then Parsed(f.nodes, f.rest[1..]) else Raised(f.rest)
  }

  /** `_parse_group`. */
  function GroupAtom(syn: Syntax, ts: seq<Token>): (r: Outcome<Option<Node>>)
    requires At(ts, LBrace)
    ensures |r.rest| < |ts|
    decreases |ts|, 0, 1
  {
    match Braced(syn, ts)
    case Raised(rest) => Raised(rest)
    case Parsed(nodes, rest) => Parsed(Some(Node(Group, "", nodes)), rest)
  }

  /** The values up to the next closing brace. */
  function TextRun(ts: seq<Token>): (r: (string, seq<Token>))
    ensures |r.1| <= |ts|
  {
    if |ts| == 0 then ("", ts)
    else if ts[0].kind == RBrace then ("", ts[1..])
    else var r := TextRun(ts[1..]); (ts[0].value + r.0, r.1)
  }

  /** `_parse_cmd`, for the commands the tokenizer produces. */
  function Command(syn: Syntax, ts: seq<Token>): (r: Outcome<Option<Node>>)
    requires At(ts, Cmd)
    ensures |r.rest| < |ts|
    decreases |ts|, 0
  {
    var cmd, rest := ts[0].value, ts[1..];
    match ClassOf(syn, cmd)
    case FracCmd => (
      match Braced(syn, rest)
      case Raised(r) => Raised(r)
      case Parsed(num, r) =>
        match Braced(syn, r)
        case Raised(r') => Raised(r')
        case Parsed(den, r') => Parsed(Some(Node(Frac, "", [Node(Root, "", num), Node(Root, "", den)])), r'))
    case SqrtCmd => (
      if !At(rest, LBrace) then Parsed(Some(Node(Sqrt, "", [])), rest)
      else match Braced(syn, rest)
        case Raised(r) => Raised(r)
        case Parsed(content, r) => Parsed(Some(Node(Sqrt, "", [Node(Root, "", content)])), r))
    case LopCmd => Parsed(Some(Node(Lop, cmd, [])), rest)
    case FuncCmd => Parsed(Some(Node(Func, cmd, [])), rest)
    case SymbolCmd => Parsed(Some(Node(Symbol, cmd, [])), rest)
    case BinaryCmd => Parsed(Some(Node(Binary, cmd, [])), rest)
    case AccentCmd => (
      match Atom(syn, rest)
      case Raised(r) => Raised(r)
      case Parsed(arg, r) => Parsed(Some(Node(Accent, cmd, if arg.Some? then [arg.value] else [])), r))
    case TextCmd => (
      if !At(rest, LBrace) then Parsed(Some(Node(Text, "", [])), rest)
      else var t := TextRun(rest[1..]); Parsed(Some(Node(Text, t.0, [])), t.1))
    case LeftCmd => (
      var fence := if |rest| > 0 then rest[0].value else "";
      var f := Formula(syn, if |rest| > 0 then rest[1..] else rest);
      var closed := if At(f.rest, Cmd) && f.rest[0].value == "\\right" then f.rest[1..] else f.rest;
      var after := if |closed| < |f.rest| && |closed| > 0 then closed[1..] else closed;
      Parsed(Some(Node(LeftRight, fence, [Node(Root, "", f.nodes)])), after))
    case OtherCmd => Parsed(Some(Node(Symbol, cmd, [])), rest)
  }

  /** `LaTeXSymbolTree.parse`. */
  function Parse(syn: Syntax, latex: string): Node {
    Node(Root, "", Formula(syn, Tokens(latex)).nodes)
  }

  /** What a parser method returns: a value, or the ParseError it raises. */
  datatype Step<+T> = Value(value: T) | ParseError

  ghost function Outcome_<T>(step: Step<T>, rest: seq<Token>): Outcome<T> {
    match step
    case Value(v) => Parsed(v, rest)
    case ParseError => Raised(rest)
  }

  /** `_Parser`: every method does what its function says to the tokens from `pos` on, and `pos` only moves forward
      and never passes the end. */
  class Parser {
    const syn: Syntax
    const tokens: seq<Token>
    var pos: nat

    constructor (syn: Syntax, tokens: seq<Token>)
      ensures this.syn == syn && this.tokens == tokens && pos == 0
    {
      this.syn, this.tokens, this.pos := syn, tokens, 0;
    }

    ghost function Rest(): seq<Token>
      reads this
      requires pos <= |tokens|
    {
      tokens[pos..]
    }

    predicate Current(kind: TokenKind)
      reads this
      requires pos <= |tokens|
      ensures Current(kind) == At(Rest(), kind)
    {
      pos < |tokens| && tokens[pos].kind == kind
    }

    /** `parse`. No ParseError reaches it. */
    method Parse() returns (root: Node)
      requires pos <= |tokens|
      modifies this
      ensures old(pos) <= pos <= |tokens|
      ensures root == Node(Root, "", Formula(syn, old(Rest())).nodes) && Rest() == Formula(syn, old(Rest())).rest
    {
      var children := ParseFormula();
      root := Node(Root, "", children);
    }

    method ParseFormula() returns (children: seq<Node>)
      requires pos <= |tokens|
      modifies this
      ensures old(pos) <= pos <= |tokens|
      ensures Formulas(children, Rest()) == Formula(syn, old(Rest()))
      decreases |tokens| - pos, 5
    {
      children := [];
      while pos < |tokens| && tokens[pos].kind != RBrace && tokens[pos].kind != End && tokens[pos].kind != Amp
        invariant old(pos) <= pos <= |tokens|
        invariant Formula(syn, Rest()).rest == Formula(syn, old(Rest())).rest
        invariant children + Formula(syn, Rest()).nodes == Formula(syn, old(Rest())).nodes
        decreases |tokens| - pos
      {
        ghost var here := Rest();
        var child := ParseExpr();
        if child.ParseError? {
          if pos < |tokens| {
            pos := pos + 1;
          }
        } else if child.value.Some? {
          assert Formula(syn, here).nodes == [child.value.value] + Formula(syn, Rest()).nodes;
          children := children + [child.value.value];
        }
      }
    }

    method ParseExpr() returns (r: Step<Option<Node>>)
      requires pos <= |tokens|
      modifies this
      ensures old(pos) <= pos <= |tokens|
      ensures Outcome_(r, Rest()) == Expr(syn, old(Rest()))
      decreases |tokens| - pos, 4
    {
      r := ParseTerm();
      if r.ParseError? || r.value.None? {
        return;
      }
      r := ParseOperators(r.value.value);
    }

    /** The loop of `_parse_expr`. */
    method ParseOperators(first: Node) returns (r: Step<Option<Node>>)
      requires pos <= |tokens|
      modifies this
      ensures old(pos) <= pos <= |tokens|
      ensures Outcome_(r, Rest()) == Operators(syn, first, old(Rest()))
      decreases |tokens| - pos, 3
    {
      var left := first;
      ghost var all := Operators(syn, first, Rest());
      while pos < |tokens|
        invariant old(pos) <= pos <= |tokens|
        invariant Operators(syn, left, Rest()) == all
        decreases |tokens| - pos
      {
        var tok := tokens[pos];
        if tok.kind == RBrace || tok.kind == End || tok.kind == Amp || !IsOperator(syn, tok) {
          break;
        }
        pos := pos + 1;
        r := ParseTerm();
        if r.ParseError? {
          return;
        }
        if r.value.Some? {
          left := Node(Binary, tok.value, [left, r.value.value]);
        } else {
          return Value(Some(Node(Root, "", [left, Node(Binary, tok.value, [])])));
        }
      }
      r := Value(Some(left));
    }

    method ParseTerm() returns (r: Step<Option<Node>>)
      requires pos <= |tokens|
      modifies this
      ensures old(pos) <= pos <= |tokens|
      ensures Outcome_(r, Rest()) == Term(syn, old(Rest()))
      decreases |tokens| - pos, 2
    {
      var base := ParseAtom();
      if base.ParseError? || base.value.None? {
        return base;
      }
      var sub := ParseScripts(SubMark);
      if sub.ParseError? {
        return ParseError;
      }
      var sup := ParseScripts(SuperMark);
      if sup.ParseError? {
        return ParseError;
      }
      r := Value(Some(Scripted(base.value.value, sub.value, sup.value)));
    }

    /** The two script loops of `_parse_term` differ only in their marker. */
    method ParseScripts(mark: TokenKind) returns (r: Step<Option<Node>>)
      requires pos <= |tokens|
      modifies this
      ensures old(pos) <= pos <= |tokens|
      ensures Outcome_(r, Rest()) == Scripts(syn, mark, None, old(Rest()))
      decreases |tokens| - pos, 1
    {
      var script: Option<Node> := None;
      while Current(mark)
        invariant old(pos) <= pos <= |tokens|
        invariant Scripts(syn, mark, script, Rest()) == Scripts(syn, mark, None, old(Rest()))
        decreases |tokens| - pos
      {
        pos := pos + 1;
        var child := ParseAtom();
        if child.ParseError? {
          return child;
        }
        script := JoinScript(script, child.value);
      }
      r := Value(script);
    }

    method ParseAtom() returns (r: Step<Option<Node>>)
      requires pos <= |tokens|
      modifies this
      ensures old(pos) <= pos <= |tokens|
      ensures Outcome_(r, Rest()) == Atom(syn, old(Rest()))
      decreases |tokens| - pos, 1
    {
      if pos == |tokens| {
        return Value(None);
      }
      var tok := tokens[pos];
      if tok.kind == Cmd {
        r := ParseCmd();
      } else if tok.kind == LBrace {
        r := ParseGroup();
      } else if tok.kind == RBrace {
        r := Value(None);
      } else {
        pos := pos + 1;
        assert Rest() == old(Rest())[1..] && old(Rest())[0] == tok;
        if tok.kind == Char {
          r := Value(Some(CharNode(syn, tok.value)));
        } else if tok.kind == Gap {
          r := Value(Some(Node(Space, " ", [])));
        } else if tok.kind == Newline {
          r := Value(Some(Node(Space, "\\\\", [])));
        } else {
          r := Value(None);
        }
      }
    }

    /** `_expect`. */
    method Expect(kind: TokenKind) returns (ok: bool)
      requires pos <= |tokens|
      modifies this
      ensures ok == At(old(Rest()), kind)
      ensures pos == old(pos) + (if ok then 1 else 0) && pos <= |tokens|
    {
      ok := Current(kind);
      if ok {
        pos := pos + 1;
      }
    }

    method ParseBraced() returns (r: Step<seq<Node>>)
      requires pos <= |tokens|
      modifies this
      ensures old(pos) <= pos <= |tokens|
      ensures Outcome_(r, Rest()) == Braced(syn, old(Rest()))
      decreases |tokens| - pos, 0, 0
    {
      var ok := Expect(LBrace);
      if !ok {
        return ParseError;
      }
      var nodes := ParseFormula();
      ok := Expect(RBrace);
      r := if ok then Value(nodes) else ParseError;
    }

    method ParseGroup() returns (r: Step<Option<Node>>)
      requires pos <= |tokens| && Current(LBrace)
      modifies this
      ensures old(pos) <= pos <= |tokens|
      ensures Outcome_(r, Rest()) == GroupAtom(syn, old(Rest()))
      decreases |tokens| - pos, 0, 1
    {
      var nodes := ParseBraced();
      r := if nodes.Value? then Value(Some(Node(Group, "", nodes.value))) else ParseError;
    }

    method ParseCmd() returns (r: Step<Option<Node>>)
      requires pos <= |tokens| && Current(Cmd)
      modifies this
      ensures old(pos) <= pos <= |tokens|
      ensures Outcome_(r, Rest()) == Command(syn, old(Rest()))
      decreases |tokens| - pos, 0
    {
      var cmd := tokens[pos].value;
      pos := pos + 1;
      match ClassOf(syn, cmd) {
        case FracCmd => r := ParseFraction();
        case SqrtCmd =>
          if !Current(LBrace) {
            return Value(Some(Node(Sqrt, "", [])));
          }
          var content := ParseBraced();
          if content.ParseError? {
            return ParseError;
          }
          r := Value(Some(Node(Sqrt, "", [Node(Root, "", content.value)])));
        case LopCmd => r := Value(Some(Node(Lop, cmd, [])));
        case FuncCmd => r := Value(Some(Node(Func, cmd, [])));
        case SymbolCmd => r := Value(Some(Node(Symbol, cmd, [])));
        case BinaryCmd => r := Value(Some(Node(Binary, cmd, [])));
        case AccentCmd =>
          var arg := ParseAtom();
          if arg.ParseError? {
            return ParseError;
          }
          r := Value(Some(Node(Accent, cmd, if arg.value.Some? then [arg.value.value] else [])));
        case TextCmd => r := ParseText();
        case LeftCmd => r := ParseLeftRight();
        case OtherCmd => r := Value(Some(Node(Symbol, cmd, [])));
      }
    }

    method ParseFraction() returns (r: Step<Option<Node>>)
      requires 0 < pos <= |tokens| && tokens[pos - 1].kind == Cmd && ClassOf(syn, tokens[pos - 1].value) == FracCmd
      modifies this
      ensures old(pos) <= pos <= |tokens|
      ensures Outcome_(r, Rest()) == Command(syn, old(tokens[pos - 1..]))
      decreases |tokens| - pos, 6
    {
      var num := ParseBraced();
      if num.ParseError? {
        return ParseError;
      }
      var den := ParseBraced();
      if den.ParseError? {
        return ParseError;
      }
      r := Value(Some(Node(Frac, "", [Node(Root, "", num.value), Node(Root, "", den.value)])));
    }

    method ParseText() returns (r: Step<Option<Node>>)
      requires pos <= |tokens|
      modifies this
      ensures old(pos) <= pos <= |tokens|
      ensures var ts := old(Rest());
              if At(ts, LBrace) then r == Value(Some(Node(Text, TextRun(ts[1..]).0, []))) && Rest() == TextRun(ts[1..]).1
              else r == Value(Some(Node(Text, "", []))) && pos == old(pos)
    {
      if !Current(LBrace) {
        return Value(Some(Node(Text, "", [])));
      }
      pos := pos + 1;
      ghost var inner := Rest();
      var text := "";
      while pos < |tokens| && tokens[pos].kind != RBrace
        invariant old(pos) < pos <= |tokens|
        invariant text + TextRun(Rest()).0 == TextRun(inner).0 && TextRun(Rest()).1 == TextRun(inner).1
      {
        assert text + TextRun(Rest()).0 == text + tokens[pos].value + TextRun(Rest()[1..]).0;
        text := text + tokens[pos].value;
        pos := pos + 1;
      }
      assert text + "" == text;
      if pos < |tokens| {
        pos := pos + 1;
      }
      r := Value(Some(Node(Text, text, [])));
    }

    method ParseLeftRight() returns (r: Step<Option<Node>>)
      requires 0 < pos <= |tokens| && tokens[pos - 1].kind == Cmd && ClassOf(syn, tokens[pos - 1].value) == LeftCmd
      modifies this
      ensures old(pos) <= pos <= |tokens|
      ensures Outcome_(r, Rest()) == Command(syn, old(tokens[pos - 1..]))
      decreases |tokens| - pos, 6
    {
      var fence := "";
      if pos < |tokens| {
        fence := tokens[pos].value;
        pos := pos + 1;
      }
      var inner := ParseFormula();
      if Current(Cmd) && tokens[pos].value == "\\right" {
        pos := pos + 1;
        if pos < |tokens| {
          pos := pos + 1;
        }
      }
      r := Value(Some(Node(LeftRight, fence, [Node(Root, "", inner)])));
    }
  }
}
