/** The tokens of a formula's text: their shapes, which texts are a single token, and what they keep of the text. */
module FormulaTokens {
  import opened FormulaTree
  import opened FormulaLexer
  import opened FormulaParser
  import opened FormulaRoundTrip
  import opened FormulaReparse
  import opened FormulaWords

  /** A character without a role of its own. */
  ghost predicate NoRole(c: char) {
    !IsSpace(c) && c !in "\\^_{}&"
  }

  ghost predicate IsLatinLetter(c: char) {
    'a' <= c <= 'z' || 'A' <= c <= 'Z'
  }

  ghost predicate IsEnvironment(v: string, head: string) {
    |v| > |head| && head <= v && v[|v| - 1] == '}' && forall i | |head| <= i < |v| - 1 :: v[i] != '}'
  }

  /** What the text of a token of a kind looks like. */
  ghost predicate HasShape(t: Token) {
    var v := t.value;
    match t.kind
    case Char => |v| > 0 && forall i | 0 <= i < |v| :: NoRole(v[i])
    case Cmd => v == "\\[" || v == "\\]" || (|v| > 1 && v[0] == '\\' && forall i | 1 <= i < |v| :: IsLatinLetter(v[i]))
    case SuperMark => v == "^"
    case SubMark => v == "_"
    case LBrace => v == "{"
    case RBrace => v == "}"
    case Amp => v == "&"
    case Newline => v == "\\\\"
    case Begin => IsEnvironment(v, "\\begin{")
    case End => IsEnvironment(v, "\\end{")
    case Gap => v == " "
  }

  lemma {:induction false} RunHolds(p: char -> bool, s: string)
    ensures forall i | 0 <= i < Run(p, s) :: p(s[i])
    ensures Run(p, s) < |s| ==> !p(s[Run(p, s)])
  {
    if |s| > 0 && p(s[0]) {
      RunHolds(p, s[1..]);
      assert forall i | 1 <= i < Run(p, s) :: s[i] == s[1..][i - 1];
    }
  }

  lemma EnvironmentShape(s: string, head: string)
    requires EnvironmentLen(s, head) > 0
    ensures IsEnvironment(s[..EnvironmentLen(s, head)], head)
  {
    var n, m := EnvironmentLen(s, head), Run(c => c != '}', s[|head|..]);
    RunHolds(c => c != '}', s[|head|..]);
    assert n == |head| + m + 1;
    assert s[n - 1] == s[|head|..][m];
    forall i | |head| <= i < n - 1 ensures s[i] != '}' {
      assert s[i] == s[|head|..][i - |head|];
    }
    assert s[..n][..|head|] == s[..|head|];
  }

  lemma CommandShape(s: string)
    requires |s| > 1 && s[0] == '\\' && IsLetter(s[1]) && MatchLen(s) == 1 + Run(IsLetter, s[1..])
    ensures var v := s[..MatchLen(s)]; |v| > 1 && v[0] == '\\' && forall i | 1 <= i < |v| :: IsLatinLetter(v[i])
  {
    RunHolds(IsLetter, s[1..]);
    assert s[1..][0] == s[1];
    forall i | 1 <= i < MatchLen(s) ensures IsLatinLetter(s[i]) {
      assert s[i] == s[1..][i - 1];
    }
  }

  /** The token that the pattern matches at the start of a text. */
  lemma MatchedShape(s: string)
    requires MatchLen(s) > 0
    ensures HasShape(Token(Classify(s[..MatchLen(s)]), s[..MatchLen(s)]))
  {
    var v := s[..MatchLen(s)];
    if s[0] == '\\' {
      BackslashShape(s, v);
    } else if s[0] == '^' || s[0] == '_' || s[0] == '{' || s[0] == '}' || s[0] == '&' {
      assert v == [s[0]];
    } else {
      RunHolds(IsPlain, s);
      assert v[0] == s[0] && IsPlain(v[0]);
      assert forall i | 0 <= i < |v| :: IsPlain(v[i]) && NoRole(v[i]);
      assert Classify(v) == Char;
    }
  }

  lemma BackslashShape(s: string, v: string)
    requires MatchLen(s) > 0 && s[0] == '\\' && v == s[..MatchLen(s)]
    ensures HasShape(Token(Classify(v), v))
  {
    if s[1] == '\\' || s[1] == '[' || s[1] == ']' {
      assert v == ['\\', s[1]];
    } else if EnvironmentLen(s, "\\begin{") > 0 {
      EnvironmentShape(s, "\\begin{");
    } else if EnvironmentLen(s, "\\end{") > 0 {
      EnvironmentShape(s, "\\end{");
      assert v[1] == "\\end{"[1] && "\\begin{"[1] != "\\end{"[1];
      assert Classify(v) == End;
    } else {
      CommandShape(s);
      NoBrace(v, "\\begin{");
      NoBrace(v, "\\end{");
      assert Classify(v) == Cmd;
    }
  }

  lemma BraceInside(v: string, head: string)
    requires |head| > 1 && head[|head| - 1] == '{' && head <= v
    ensures |v| >= |head| && v[|head| - 1] == '{'
  {
  }

  lemma NoBrace(v: string, head: string)
    requires |head| > 1 && head[|head| - 1] == '{' && forall i | 1 <= i < |v| :: IsLatinLetter(v[i])
    ensures !(head <= v)
  {
    if head <= v {
      BraceInside(v, head);
    }
  }

  lemma {:induction false} LexShapes(s: string)
    ensures forall l | l in Lex(s) && l.Tok? :: HasShape(l.token)
    decreases |s|
  {
    if |s| > 0 {
      var n := MatchLen(s);
      if n > 0 {
        MatchedShape(s);
        LexShapes(s[n..]);
      } else {
        LexShapes(s[1..]);
      }
    }
  }

  /** Every token of every text has the shape of its kind. */
  lemma TokenShapes(s: string)
    ensures forall t | t in Tokens(s) :: HasShape(t)
  {
    LexShapes(s);
    ResolveKeeps(Lex(s), false, false);
  }

  /** A text of characters without a role is one character token. */
  lemma PlainTextIsToken(s: string)
    requires |s| > 0 && forall i | 0 <= i < |s| :: NoRole(s[i])
    ensures Tokens(s) == [Token(Char, s)]
  {
    forall i | 0 <= i < |s| ensures IsPlain(s[i]) {
      assert NoRole(s[i]);
      assert '\\' in "\\^_{}&" && '^' in "\\^_{}&" && '_' in "\\^_{}&" && '{' in "\\^_{}&" && '}' in "\\^_{}&" && '&' in "\\^_{}&";
    }
    WordIsToken(s);
  }

  /** A backslash and letters are one command token. */
  lemma CommandTextIsToken(name: string)
    requires |name| > 0 && forall i | 0 <= i < |name| :: IsLatinLetter(name[i])
    ensures Tokens("\\" + name) == [Token(Cmd, "\\" + name)]
  {
    var v := "\\" + name;
    forall i | 1 <= i < |v| ensures IsLetter(v[i]) {
      assert v[i] == name[i - 1];
    }
    LexesCommand(v, "");
    assert v + "" == v && AsLexemes([Word(v)]) + Lex("") == AsLexemes([Word(v)]);
    ResolveTokens([Word(v)], false);
  }

  // ----- What the tokens keep -----

  /** The characters that are neither whitespace nor backslashes, in order. */
  ghost function Visible(s: string): string {
    if |s| == 0 then "" else (if IsSpace(s[0]) || s[0] == '\\' then "" else [s[0]]) + Visible(s[1..])
  }

  ghost function Text(ts: seq<Token>): string {
    if |ts| == 0 then "" else ts[0].value + Text(ts[1..])
  }

  ghost function Covered(lexemes: seq<Lexeme>): string {
    if |lexemes| == 0 then "" else (if lexemes[0].Tok? then lexemes[0].token.value else "") + Covered(lexemes[1..])
  }

  lemma {:induction false} VisibleConcat(s: string, t: string)
    ensures Visible(s + t) == Visible(s) + Visible(t)
  {
    if |s| == 0 {
      assert s + t == t;
    } else {
      VisibleConcat(s[1..], t);
      assert (s + t)[1..] == s[1..] + t && (s + t)[0] == s[0];
    }
  }

  /** Only whitespace and backslashes are left uncovered. */
  lemma UncoveredIsBlank(s: string)
    requires |s| > 0 && MatchLen(s) == 0
    ensures IsSpace(s[0]) || s[0] == '\\'
  {
    assert IsPlain(s[0]) ==> Run(IsPlain, s) >= 1;
  }

  lemma {:induction false} LexKeepsText(s: string)
    ensures Visible(Covered(Lex(s))) == Visible(s)
    decreases |s|
  {
    if |s| > 0 {
      var n := MatchLen(s);
      if n > 0 {
        LexKeepsText(s[n..]);
        var t := Tok(Token(Classify(s[..n]), s[..n]));
        assert ([t] + Lex(s[n..]))[1..] == Lex(s[n..]);
        VisibleConcat(s[..n], Covered(Lex(s[n..])));
        VisibleConcat(s[..n], s[n..]);
        assert s[..n] + s[n..] == s;
      } else {
        UncoveredIsBlank(s);
        LexKeepsText(s[1..]);
        assert ([Junk] + Lex(s[1..]))[1..] == Lex(s[1..]);
        assert "" + Covered(Lex(s[1..])) == Covered(Lex(s[1..])) && "" + Visible(s[1..]) == Visible(s[1..]);
      }
    }
  }

  lemma SpaceIsInvisible(ts: seq<Token>)
    ensures Visible(Text([SPACE_TOKEN] + ts)) == Visible(Text(ts))
  {
    assert ([SPACE_TOKEN] + ts)[1..] == ts;
    VisibleConcat(" ", Text(ts));
    assert " "[1..] == "" && Visible(" ") == "";
  }

  lemma {:induction false} ResolveKeepsText(lexemes: seq<Lexeme>, afterChar: bool, junk: bool)
    ensures Visible(Text(Resolve(lexemes, afterChar, junk))) == Visible(Covered(lexemes))
  {
    if |lexemes| > 0 {
      var rest := lexemes[1..];
      match lexemes[0] {
        case Junk =>
          ResolveKeepsText(rest, afterChar, true);
          assert "" + Covered(rest) == Covered(rest);
        case Tok(t) =>
          ResolveKeepsText(rest, t.kind == Char, false);
          var tail := Resolve(rest, t.kind == Char, false);
          TokenFirst(t, tail, Covered(rest));
          if junk && afterChar {
            SpaceIsInvisible([t] + tail);
            assert [SPACE_TOKEN] + [t] + tail == [SPACE_TOKEN] + ([t] + tail);
          } else {
            assert [] + [t] + tail == [t] + tail;
          }
      }
    }
  }

  lemma TokenFirst(t: Token, tail: seq<Token>, covered: string)
    requires Visible(Text(tail)) == Visible(covered)
    ensures Visible(Text([t] + tail)) == Visible(t.value + covered)
  {
    assert ([t] + tail)[1..] == tail;
    VisibleConcat(t.value, Text(tail));
    VisibleConcat(t.value, covered);
  }

  /** The tokens keep every character of the text but whitespace and backslashes, in order. */
  lemma TokensKeepText(s: string)
    ensures Visible(Text(Tokens(s))) == Visible(s)
  {
    LexKeepsText(s);
    ResolveKeepsText(Lex(s), false, false);
  }

  /** The start and the end of an environment are one token each, up to the closing brace. */
  lemma EnvironmentTokens(name: string)
    requires forall i | 0 <= i < |name| :: name[i] != '}'
    ensures Tokens("\\begin{" + name + "}") == [Token(Begin, "\\begin{" + name + "}")]
    ensures Tokens("\\end{" + name + "}") == [Token(End, "\\end{" + name + "}")]
  {
    EnvironmentIsToken("\\begin{", name, Begin);
    EnvironmentIsToken("\\end{", name, End);
  }

  lemma EnvironmentIsToken(head: string, name: string, kind: TokenKind)
    requires forall i | 0 <= i < |name| :: name[i] != '}'
    requires (head == "\\begin{" && kind == Begin) || (head == "\\end{" && kind == End)
    ensures Tokens(head + name + "}") == [Token(kind, head + name + "}")]
  {
    var s := head + name + "}";
    EnvironmentMatches(head, name, s);
    LoneToken(s, kind);
  }

  lemma EnvironmentMatches(head: string, name: string, s: string)
    requires forall i | 0 <= i < |name| :: name[i] != '}'
    requires (head == "\\begin{" || head == "\\end{") && s == head + name + "}"
    ensures MatchLen(s) == |s| && head <= s && (head == "\\end{" ==> !("\\begin{" <= s))
  {
    EnvironmentWhole(head, name, s);
    assert s[0] == '\\' && s[1] == head[1];
    assert "\\begin{"[1] == 'b' && "\\end{"[1] == 'e';
    assert head == "\\end{" ==> !("\\begin{" <= s);
  }

  lemma EnvironmentWhole(head: string, name: string, s: string)
    requires (forall i | 0 <= i < |name| :: name[i] != '}') && s == head + name + "}"
    ensures head <= s && EnvironmentLen(s, head) == |s|
  {
    RunStops(c => c != '}', name, "}");
    assert s[|head|..] == name + "}" && head <= s;
  }

  lemma LoneToken(s: string, kind: TokenKind)
    requires |s| > 0 && MatchLen(s) == |s| && Classify(s) == kind
    ensures Tokens(s) == [Token(kind, s)]
  {
    assert s[..|s|] == s && s[|s|..] == "";
    assert Lex(s) == [Tok(Token(kind, s))] + Lex("");
    assert AsLexemes([Token(kind, s)]) == [Tok(Token(kind, s))] + [];
    ResolveTokens([Token(kind, s)], false);
  }
}
