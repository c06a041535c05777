/** `tokenize_latex` of docmirror/ocr/formula_ast.py. */
module FormulaLexer {

  datatype TokenKind = Cmd | LBrace | RBrace | SuperMark | SubMark | Char | Amp | Newline | Begin | End | Gap

  datatype Token = Token(kind: TokenKind, value: string)

  /** The whitespace characters of Python strings. */
  predicate IsSpace(c: char) {
    || c == ' ' || '\t' <= c <= '\r' || '\U{1C}' <= c <= '\U{1F}'
    || c == '\U{85}' || c == '\U{A0}' || c == '\U{1680}' || '\U{2000}' <= c <= '\U{200A}'
    || c == '\U{2028}' || c == '\U{2029}' || c == '\U{202F}' || c == '\U{205F}' || c == '\U{3000}'
  }

  predicate IsLetter(c: char) {
    'a' <= c <= 'z' || 'A' <= c <= 'Z'
  }

  /** Neither whitespace nor one of the characters with a syntactic role. */
  predicate IsPlain(c: char) {
    !IsSpace(c) && c != '\\' && c != '^' && c != '_' && c != '{' && c != '}' && c != '&'
  }

  /** The length of the longest prefix whose characters all satisfy p. */
  function Run(p: char -> bool, s: string): (n: nat)
    ensures n <= |s|
  {
    if |s| > 0 && p(s[0]) then 1 + Run(p, s[1..]) else 0
  }

  /** The length of `\begin{...}` or `\end{...}` at the start of s, or 0. */
  function EnvironmentLen(s: string, head: string): (n: nat)
    ensures n <= |s| && (n > 0 ==> n > |head| && head <= s)
  {
    if !(head <= s) then 0
    else
      var n := |head| + Run(c => c != '}', s[|head|..]);
      if n < |s| then n + 1 else 0
  }

  /** How many characters the token pattern matches at the start of s; 0 when it does not match there. */
  function MatchLen(s: string): (n: nat)
    ensures n <= |s|
  {
    if |s| == 0 then 0
    else if s[0] == '\\' then
      if |s| > 1 && (s[1] == '\\' || s[1] == '[' || s[1] == ']') then 2
      else if EnvironmentLen(s, "\\begin{") > 0 then EnvironmentLen(s, "\\begin{")
      else if EnvironmentLen(s, "\\end{") > 0 then EnvironmentLen(s, "\\end{")
      else if |s| > 1 && IsLetter(s[1]) then 1 + Run(IsLetter, s[1..])
      else 0
    else if s[0] == '^' || s[0] == '_' || s[0] == '{' || s[0] == '}' || s[0] == '&' then 1
    else Run(IsPlain, s)
  }

  function Classify(text: string): TokenKind {
    if text == "\\\\" then Newline
    else if "\\begin{" <= text then Begin
    else if "\\end{" <= text then End
    else if text == "^" then SuperMark
    else if text == "_" then SubMark
    else if text == "{" then LBrace
    else if text == "}" then RBrace
    else if text == "&" then Amp
    else if "\\" <= text then Cmd
    else Char
  }

  /** A matched token, or a character that no token covers and that is not whitespace. */
  datatype Lexeme = Tok(token: Token) | Junk

  function Lex(s: string): seq<Lexeme> {
    if |s| == 0 then []
    else
      var n := MatchLen(s);
      if n > 0 then [Tok(Token(Classify(s[..n]), s[..n]))] + Lex(s[n..])
      else if IsSpace(s[0]) then Lex(s[1..])
      else [Junk] + Lex(s[1..])
  }

  const SPACE_TOKEN := Token(Gap, " ")

  /** Junk between two tokens leaves a space token if the earlier one is a character token. */
  function Resolve(lexemes: seq<Lexeme>, afterChar: bool, junk: bool): seq<Token> {
    if |lexemes| == 0 then []
    else match lexemes[0]
      case Junk => Resolve(lexemes[1..], afterChar, true)
      case Tok(t) => (if junk && afterChar then [SPACE_TOKEN] else []) + [t] + Resolve(lexemes[1..], t.kind == Char, false)
  }

  function Tokens(s: string): seq<Token> {
    Resolve(Lex(s), false, false)
  }

  predicate HasText(s: string) {
    exists i | 0 <= i < |s| :: !IsSpace(s[i])
  }

  lemma {:induction false} BlankHasNoTokens(s: string)
    requires !HasText(s)
    ensures Lex(s) == []
  {
    if |s| > 0 {
      assert IsSpace(s[0]);
      assert MatchLen(s) == 0;
      forall i | 0 <= i < |s[1..]| ensures IsSpace(s[1..][i]) {
        assert s[1..][i] == s[i + 1];
      }
      BlankHasNoTokens(s[1..]);
    }
  }

  /** Passing over one uncovered character. */
  lemma SkipChar(s: string, from: nat, at: nat, afterChar: bool)
    requires from <= at < |s| && MatchLen(s[at..]) == 0
    ensures Resolve(Lex(s[at..]), afterChar, HasText(s[from..at])) == Resolve(Lex(s[at + 1..]), afterChar, HasText(s[from..at + 1]))
  {
    assert s[at..][1..] == s[at + 1..];
    assert s[from..at + 1] == s[from..at] + [s[at]];
    assert forall i | 0 <= i < at - from :: s[from..at + 1][i] == s[from..at][i];
    if !IsSpace(s[at]) {
      assert s[from..at + 1][at - from] == s[at];
      assert Lex(s[at..])[1..] == Lex(s[at + 1..]);
    } else if HasText(s[from..at]) {
      var i :| 0 <= i < at - from && !IsSpace(s[from..at][i]);
      assert !IsSpace(s[from..at + 1][i]);
    }
  }

  /** A token that matches at the start of s is the next lexeme. */
  lemma LexemeHere(s: string, n: nat)
    requires |s| > 0 && n == MatchLen(s) && n > 0
    ensures Lex(s) == [Tok(Token(Classify(s[..n]), s[..n]))] + Lex(s[n..])
  {
  }

  predicate AfterChar(tokens: seq<Token>) {
    |tokens| > 0 && tokens[|tokens| - 1].kind == Char
  }

  lemma Regroup<T>(a: seq<T>, b: seq<T>, c: seq<T>, d: seq<T>)
    ensures a + (b + c + d) == a + b + c + d
  {
  }

  function SpaceIf(junk: bool, tokens: seq<Token>): seq<Token> {
    if junk && AfterChar(tokens) then [SPACE_TOKEN] else []
  }

  /** Appending a token, after a space if text was passed over, leaves the rest of the tokens to come. */
  lemma NextToken(tokens: seq<Token>, junk: bool, t: Token, here: seq<Lexeme>, after: seq<Lexeme>, tokens': seq<Token>,
                  todo: seq<Token>, rest: seq<Token>)
    requires here == [Tok(t)] + after && todo == Resolve(here, AfterChar(tokens), junk)
    requires tokens' == tokens + SpaceIf(junk, tokens) + [t] && rest == Resolve(after, AfterChar(tokens'), false)
    ensures tokens' + rest == tokens + todo
  {
    assert here[1..] == after;
    Regroup(tokens, SpaceIf(junk, tokens), [t], rest);
  }

  /** What is still to come after the tokens so far. */
  ghost function Rest(s: string, pos: nat, tokens: seq<Token>): seq<Token>
    requires pos <= |s|
  {
    Resolve(Lex(s[pos..]), AfterChar(tokens), false)
  }

  /** The scan over the pattern's matches. */
  method TokenizeLatex(latex: string) returns (tokens: seq<Token>)
    ensures tokens == Tokens(latex)
  {
    tokens := [];
    if !HasText(latex) {
      BlankHasNoTokens(latex);
      return;
    }
    var pos := 0;
    ghost var rest := Rest(latex, 0, []);
    assert latex[0..] == latex;
    while pos < |latex|
      invariant 0 <= pos <= |latex| && rest == Rest(latex, pos, tokens)
      invariant tokens + rest == Tokens(latex)
    {
      var start := NextMatch(latex, pos, AfterChar(tokens));
      if start == |latex| {
        return;
      }
      pos, tokens, rest := TakeToken(latex, pos, start, tokens, rest);
    }
  }

  /** Appends the token that matches at `start`. */
  method TakeToken(latex: string, pos: nat, start: nat, tokens: seq<Token>, ghost todo: seq<Token>)
    returns (next: nat, tokens': seq<Token>, ghost rest: seq<Token>)
    requires pos <= start < |latex| && MatchesAt(latex, start)
    requires todo == Resolve(Lex(latex[start..]), AfterChar(tokens), pos < start && HasText(latex[pos..start]))
    ensures start < next <= |latex| && rest == Rest(latex, next, tokens') && tokens' + rest == tokens + todo
  {
    var n, t := ReadToken(latex, start);
    var junk := pos < start && HasText(latex[pos..start]);
    tokens' := tokens + SpaceIf(junk, tokens) + [t];
    next := start + n;
    rest := Rest(latex, next, tokens');
    NextToken(tokens, junk, t, Lex(latex[start..]), Lex(latex[start + n..]), tokens', todo, rest);
  }

  predicate MatchesAt(latex: string, start: nat)
    requires start < |latex|
  {
    MatchLen(latex[start..]) > 0
  }

  /** The start of the next match at or after pos, or the end of the text. */
  method NextMatch(latex: string, pos: nat, ghost afterChar: bool) returns (start: nat)
    requires pos <= |latex|
    ensures pos <= start <= |latex| && (start < |latex| ==> MatchesAt(latex, start))
    ensures Resolve(Lex(latex[pos..]), afterChar, false)
            == Resolve(Lex(latex[start..]), afterChar, pos < start && HasText(latex[pos..start]))
  {
    start := pos;
    while start < |latex| && !MatchesAt(latex, start)
      invariant pos <= start <= |latex|
      invariant Resolve(Lex(latex[pos..]), afterChar, false) == Resolve(Lex(latex[start..]), afterChar, HasText(latex[pos..start]))
    {
      SkipChar(latex, pos, start, afterChar);
      start := start + 1;
    }
  }

  method ReadToken(latex: string, start: nat) returns (n: nat, t: Token)
    requires start < |latex| && MatchesAt(latex, start)
    ensures 0 < n <= |latex| - start && Lex(latex[start..]) == [Tok(t)] + Lex(latex[start + n..])
  {
    var here := latex[start..];
    n := MatchLen(here);
    t := Token(Classify(here[..n]), here[..n]);
    LexemeHere(here, n);
    assert here[n..] == latex[start + n..];
  }

  /** A matched environment delimiter is never classified as a command, so the parser's matrix branch is not reached
      by tokenized text. */
  lemma {:induction false} NoBeginCommand(s: string)
    ensures forall t | t in Tokens(s) && t.kind == Cmd :: !("\\begin{" <= t.value)
  {
    LexNoBegin(s);
    ResolveKeeps(Lex(s), false, false);
  }

  lemma {:induction false} LexNoBegin(s: string)
    ensures forall l | l in Lex(s) && l.Tok? && l.token.kind == Cmd :: !("\\begin{" <= l.token.value)
  {
    if |s| > 0 {
      var n := MatchLen(s);
      LexNoBegin(s[if n > 0 then n else 1..]);
    }
  }

  lemma {:induction false} ResolveKeeps(lexemes: seq<Lexeme>, afterChar: bool, junk: bool)
    ensures forall t | t in Resolve(lexemes, afterChar, junk) :: t == SPACE_TOKEN || Tok(t) in lexemes
  {
    if |lexemes| > 0 {
      var rest := lexemes[1..];
      match lexemes[0] {
        case Junk => ResolveKeeps(rest, afterChar, true);
        case Tok(t) => ResolveKeeps(rest, t.kind == Char, false);
      }
    }
  }
}
