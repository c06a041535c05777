/** Words of a formula: which are numbers, which are operators, and what a script or an operator without an operand
    leaves behind. */
module FormulaWords {
  import opened Options
  import opened FormulaTree
  import opened FormulaLexer
  import opened FormulaParser
  import opened FormulaRoundTrip
  import opened FormulaReparse

  // ----- Numbers -----

  /** Digits, at least one, with at most one point and at most one minus anywhere among them. */
  ghost predicate Numeral(syn: Syntax, s: string) {
    && (exists i | 0 <= i < |s| :: syn.isDigit(s[i]))
    && (forall i | 0 <= i < |s| :: syn.isDigit(s[i]) || s[i] == '.' || s[i] == '-')
    && (forall i, j | 0 <= i < j < |s| :: s[i] == s[j] ==> syn.isDigit(s[i]))
  }

  ghost predicate PlainDigits(syn: Syntax) {
    !syn.isDigit('.') && !syn.isDigit('-')
  }

  lemma {:induction false} RemoveNothing(s: string, c: char)
    requires c !in s
    ensures RemoveFirst(s, c) == s
  {
    if |s| > 0 {
      RemoveNothing(s[1..], c);
    }
  }

  /** What is removed is the first occurrence. */
  lemma {:induction false} RemoveOne(s: string, c: char) returns (k: nat)
    requires c in s
    ensures k < |s| && s[k] == c && c !in s[..k] && RemoveFirst(s, c) == s[..k] + s[k + 1..]
  {
    if s[0] == c {
      k := 0;
    } else {
      var n := RemoveOne(s[1..], c);
      k := n + 1;
      assert s[..k] == [s[0]] + s[1..][..n] && s[1..][n + 1..] == s[k + 1..];
    }
  }

  /** Digits, at least one, and besides them only the extra characters, each at most once. */
  ghost predicate Allowed(syn: Syntax, s: string, extra: string) {
    && (exists i | 0 <= i < |s| :: syn.isDigit(s[i]))
    && (forall i | 0 <= i < |s| :: syn.isDigit(s[i]) || s[i] in extra)
    && (forall i, j | 0 <= i < j < |s| :: s[i] == s[j] ==> syn.isDigit(s[i]))
  }

  /** Taking away the first c takes c off the extra characters. */
  lemma AllowOne(syn: Syntax, s: string, c: char, extra: string)
    requires !syn.isDigit(c) && c !in extra
    ensures Allowed(syn, s, extra + [c]) <==> Allowed(syn, RemoveFirst(s, c), extra)
  {
    if c !in s {
      RemoveNothing(s, c);
    } else {
      var k := RemoveOne(s, c);
      AllowAt(syn, s, c, extra, k, RemoveFirst(s, c));
    }
  }

  lemma AllowAt(syn: Syntax, s: string, c: char, extra: string, k: nat, r: string)
    requires !syn.isDigit(c) && c !in extra && k < |s| && s[k] == c && c !in s[..k] && r == s[..k] + s[k + 1..]
    ensures Allowed(syn, s, extra + [c]) <==> Allowed(syn, r, extra)
  {
    assert forall i | 0 <= i < k :: r[i] == s[i] && s[..k][i] == s[i] != c;
    assert forall i | k <= i < |r| :: r[i] == s[i + 1];
    if Allowed(syn, s, extra + [c]) {
      var i :| 0 <= i < |s| && syn.isDigit(s[i]);
      assert syn.isDigit(r[if i < k then i else i - 1]);
      assert forall j | k < j < |s| :: s[j] != c;
    }
    if Allowed(syn, r, extra) {
      var i :| 0 <= i < |r| && syn.isDigit(r[i]);
      assert syn.isDigit(s[if i < k then i else i + 1]);
      assert forall j | k < j < |s| :: s[j] == r[j - 1];
    }
  }

  /** The tests with `isdigit`, `startswith` and `replace` together accept exactly the numerals. */
  lemma NumberTextIff(syn: Syntax, s: string)
    requires PlainDigits(syn)
    ensures IsNumberText(syn, s) <==> Numeral(syn, s)
  {
    var r := RemoveFirst(s, '.');
    assert ['-'] + ['.'] == "-." && [] + ['-'] == "-";
    AllowOne(syn, s, '.', "-");
    AllowOne(syn, r, '-', []);
    assert Numeral(syn, s) <==> Allowed(syn, s, "-.");
    var left := RemoveFirst(r, '-');
    assert AllDigits(syn, left) ==> syn.isDigit(left[0]);
    assert AllDigits(syn, left) <==> Allowed(syn, left, []);
    if |s| > 0 && s[0] == '-' && AllDigits(syn, s[1..]) {
      assert forall i | 1 <= i < |s| :: s[i] == s[1..][i - 1];
    }
  }

  /** A character token is a NUMBER if it is a numeral and a SYMBOL otherwise, with its text as it is. */
  lemma WordIsNumberIff(syn: Syntax, s: string, rest: seq<Token>)
    requires PlainDigits(syn)
    ensures Atom(syn, [Token(Char, s)] + rest) == Parsed(Some(Node(if Numeral(syn, s) then Number else Symbol, s, [])), rest)
  {
    NumberTextIff(syn, s);
    assert ([Token(Char, s)] + rest)[1..] == rest;
  }

  // ----- Words in text -----

  /** A text without whitespace and characters with a role is one token. */
  lemma WordIsToken(s: string)
    requires PlainWord(s)
    ensures Tokens(s) == [Token(Char, s)]
  {
    LexesPlain(s, "");
    assert IsPlain(s[0]);
    assert s + "" == s && AsLexemes([Word(s)]) + Lex("") == AsLexemes([Word(s)]);
    ResolveTokens([Word(s)], false);
  }

  lemma AloneInFormula(syn: Syntax, ts: seq<Token>, node: Node)
    requires !AtStop(ts) && Atom(syn, ts) == Parsed(Some(node), [])
    ensures Formula(syn, ts) == Formulas([node], [])
  {
    var none: seq<Token> := [];
    PlainTermRule(syn, ts, node, none);
    StopRule(syn, node, none);
    ExprRule(syn, ts, node, none);
    FormulaRule(syn, ts, node, none, [], none);
    assert [node] + [] == [node];
  }

  /** The text of one word parses to one node: a NUMBER for a numeral, a SYMBOL for all else. */
  lemma WordParses(syn: Syntax, s: string)
    requires PlainDigits(syn) && PlainWord(s)
    ensures Parse(syn, s) == Node(Root, "", [Node(if Numeral(syn, s) then Number else Symbol, s, [])])
  {
    WordIsToken(s);
    var none: seq<Token> := [];
    WordIsNumberIff(syn, s, none);
    assert [Token(Char, s)] + none == [Token(Char, s)];
    AloneInFormula(syn, [Token(Char, s)], Node(if Numeral(syn, s) then Number else Symbol, s, []));
  }

  /** A non-empty run of the digits 0 to 9. */
  ghost predicate Digits(syn: Syntax, d: string) {
    |d| > 0 && forall i | 0 <= i < |d| :: '0' <= d[i] <= '9' && syn.isDigit(d[i])
  }

  ghost function OneNode(kind: NodeType, s: string): Node {
    Node(Root, "", [Node(kind, s, [])])
  }

  /** What may stand in front of the last digits of a number. */
  ghost predicate Leads(syn: Syntax, head: string) {
    && (forall i | 0 <= i < |head| :: ('0' <= head[i] <= '9' && syn.isDigit(head[i])) || head[i] == '.' || head[i] == '-')
    && (forall i, j | 0 <= i < j < |head| :: head[i] == head[j] ==> syn.isDigit(head[i]))
  }

  lemma NumberParses(syn: Syntax, head: string, d: string, s: string)
    requires PlainDigits(syn) && Digits(syn, d) && Leads(syn, head) && s == head + d
    ensures Parse(syn, s) == OneNode(Number, s)
  {
    assert forall i | 0 <= i < |head| :: s[i] == head[i];
    assert forall i | |head| <= i < |s| :: s[i] == d[i - |head|];
    assert syn.isDigit(s[|head|]);
    assert Numeral(syn, s);
    WordParses(syn, s);
  }

  lemma LeadingDigits(syn: Syntax, sign: string, a: string)
    requires PlainDigits(syn) && Digits(syn, a) && (sign == "" || sign == "-")
    ensures Leads(syn, sign) && Leads(syn, sign + a + ".")
  {
    var head := sign + a + ".";
    assert forall i | |sign| <= i < |sign| + |a| :: head[i] == a[i - |sign|];
  }

  /** Whole and decimal numbers, with or without a sign, are NUMBERs. */
  lemma DecimalsParse(syn: Syntax, sign: string, a: string, b: string)
    requires PlainDigits(syn) && Digits(syn, a) && Digits(syn, b) && (sign == "" || sign == "-")
    ensures Parse(syn, sign + a) == OneNode(Number, sign + a)
    ensures Parse(syn, sign + a + "." + b) == OneNode(Number, sign + a + "." + b)
  {
    LeadingDigits(syn, sign, a);
    NumberParses(syn, sign, a, sign + a);
    NumberParses(syn, sign + a + ".", b, sign + a + "." + b);
  }

  /** With a second point they are SYMBOLs. */
  lemma TwoPointsParse(syn: Syntax, a: string, b: string)
    requires PlainDigits(syn) && Digits(syn, a) && Digits(syn, b)
    ensures Parse(syn, a + "." + b + ".") == OneNode(Symbol, a + "." + b + ".")
  {
    var s := a + "." + b + ".";
    assert s[|a|] == s[|s| - 1] == '.' && |a| < |s| - 1;
    assert forall i | 0 <= i < |a| :: s[i] == a[i];
    assert forall i | |a| < i < |s| - 1 :: s[i] == b[i - |a| - 1];
    WordParses(syn, s);
  }
}
