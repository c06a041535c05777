/** The formula tree and the command classes of docmirror/ocr/formula_ast.py. */
module FormulaTree {

  datatype NodeType =
    | Root | Frac | Sqrt | Sup | Sub | SubSup | Lop | Binary | Symbol | Number | Text
    | Matrix | Group | Func | Accent | LeftRight | Space

  datatype Node = Node(kind: NodeType, value: string, children: seq<Node>)

  /** What the parser and the normaliser look up: the two Unicode character classes they ask Python for,
      and the command tables. */
  datatype Syntax = Syntax(
    isDigit: char -> bool, isAlpha: char -> bool,
    binaryCmds: set<string>, relationCmds: set<string>, symbolCmds: set<string>, funcCmds: set<string>,
    lopCmds: set<string>, accentCmds: set<string>, textCmds: set<string>)

  const BINARY_CMDS: set<string> := {
    "\\pm", "\\mp", "\\times", "\\div", "\\cdot", "\\circ", "\\oplus", "\\otimes", "\\odot", "\\ominus", "\\cup",
    "\\cap", "\\setminus", "\\wedge", "\\vee"
  }

  const RELATION_CMDS: set<string> := {
    "\\leq", "\\geq", "\\neq", "\\approx", "\\equiv", "\\sim", "\\simeq", "\\cong", "\\propto", "\\subset",
    "\\supset", "\\subseteq", "\\supseteq", "\\in", "\\notin", "\\ni", "\\prec", "\\succ", "\\preceq", "\\succeq",
    "\\ll", "\\gg", "\\perp", "\\parallel", "\\to", "\\rightarrow", "\\leftarrow", "\\Rightarrow", "\\Leftarrow",
    "\\mapsto"
  }

  const GREEK_LOWERCASE: set<string> := {
    "\\alpha", "\\beta", "\\gamma", "\\delta", "\\epsilon", "\\varepsilon", "\\zeta", "\\eta", "\\theta",
    "\\vartheta", "\\iota", "\\kappa", "\\lambda", "\\mu", "\\nu", "\\xi", "\\pi", "\\varpi", "\\rho", "\\varrho",
    "\\sigma", "\\varsigma", "\\tau", "\\upsilon", "\\phi", "\\varphi", "\\chi", "\\psi", "\\omega"
  }

  const GREEK_UPPERCASE: set<string> := {
    "\\Gamma", "\\Delta", "\\Theta", "\\Lambda", "\\Xi", "\\Pi", "\\Sigma", "\\Upsilon", "\\Phi", "\\Psi", "\\Omega"
  }

  const MISCELLANEOUS: set<string> := {
    "\\infty", "\\partial", "\\nabla", "\\emptyset", "\\forall", "\\exists", "\\neg", "\\angle", "\\triangle",
    "\\square", "\\diamond", "\\sharp", "\\flat", "\\natural", "\\ell", "\\wp", "\\Re", "\\Im", "\\aleph", "\\hbar",
    "\\dagger", "\\ddagger", "\\ldots", "\\cdots", "\\vdots", "\\ddots"
  }

  const ARROWS: set<string> := {
    "\\uparrow", "\\downarrow", "\\nearrow", "\\searrow", "\\leftrightarrow", "\\Leftrightarrow"
  }

  const BRACKETS: set<string> := {
    "\\langle", "\\rangle", "\\lceil", "\\rceil", "\\lfloor", "\\rfloor"
  }

  const SYMBOL_CMDS: set<string> := GREEK_LOWERCASE + GREEK_UPPERCASE + MISCELLANEOUS + ARROWS + BRACKETS

  const FUNC_CMDS: set<string> := {
    "\\sin", "\\cos", "\\tan", "\\csc", "\\sec", "\\cot", "\\arcsin", "\\arccos", "\\arctan", "\\sinh", "\\cosh",
    "\\tanh", "\\log", "\\ln", "\\lg", "\\exp", "\\lim", "\\limsup", "\\liminf", "\\max", "\\min", "\\sup", "\\inf",
    "\\gcd", "\\det", "\\dim", "\\hom", "\\ker", "\\Pr", "\\arg"
  }

  const LOP_CMDS: set<string> := {
    "\\sum", "\\prod", "\\int", "\\oint", "\\iint", "\\iiint", "\\bigcup", "\\bigcap", "\\bigsqcup", "\\bigvee",
    "\\bigwedge", "\\bigoplus", "\\bigotimes", "\\bigodot"
  }

  const ACCENT_CMDS: set<string> := {
    "\\bar", "\\hat", "\\tilde", "\\dot", "\\ddot", "\\vec", "\\widehat", "\\widetilde", "\\overline", "\\underline"
  }

  const TEXT_CMDS: set<string> := {"\\text", "\\mathrm", "\\mathit", "\\mathbf", "\\mathsf", "\\mathtt", "\\mbox"}

  const OPERATOR_CHARS := "+-*/=<>"

  predicate IsBinaryCmd(syn: Syntax, cmd: string) {
    cmd in syn.binaryCmds || cmd in syn.relationCmds
  }

  /** Python's `in` on strings: a substring test, not a membership test. */
  predicate IsOperatorText(value: string) {
    exists i | 0 <= i <= |OPERATOR_CHARS| :: value <= OPERATOR_CHARS[i..]
  }

  datatype CmdClass = FracCmd | SqrtCmd | LopCmd | FuncCmd | SymbolCmd | BinaryCmd | AccentCmd | TextCmd | LeftCmd | OtherCmd

  /** The branch the parser takes for a command; the conditions apply in this order. */
  function ClassOf(syn: Syntax, cmd: string): CmdClass {
    if cmd == "\\frac" then FracCmd
    else if cmd == "\\sqrt" then SqrtCmd
    else if cmd in syn.lopCmds then LopCmd
    else if cmd in syn.funcCmds then FuncCmd
    else if cmd in syn.symbolCmds then SymbolCmd
    else if IsBinaryCmd(syn, cmd) then BinaryCmd
    else if cmd in syn.accentCmds then AccentCmd
    else if cmd in syn.textCmds then TextCmd
    else if cmd == "\\left" then LeftCmd
    else OtherCmd
  }

  predicate AllDigits(syn: Syntax, s: string) {
    |s| > 0 && forall i | 0 <= i < |s| :: syn.isDigit(s[i])
  }

  /** `s.replace(c, "", 1)`. */
  function RemoveFirst(s: string, c: char): string {
    if |s| == 0 then [] else if s[0] == c then s[1..] else [s[0]] + RemoveFirst(s[1..], c)
  }

  predicate IsNumberText(syn: Syntax, s: string) {
    || AllDigits(syn, s)
    || (|s| > 0 && s[0] == '-' && AllDigits(syn, s[1..]))
    || AllDigits(syn, RemoveFirst(RemoveFirst(s, '.'), '-'))
  }

  /** The tables of the source. */
  function LatexSyntax(isDigit: char -> bool, isAlpha: char -> bool): Syntax {
    Syntax(isDigit, isAlpha, BINARY_CMDS, RELATION_CMDS, SYMBOL_CMDS, FUNC_CMDS, LOP_CMDS, ACCENT_CMDS, TEXT_CMDS)
  }

  /** What the results below need of the tables: the commands with an argument of their own are no operators,
      and the printer's text command is read back as one. */
  ghost predicate Sound(syn: Syntax) {
    && ClassOf(syn, "\\mathrm") == TextCmd && !IsBinaryCmd(syn, "\\mathrm")
    && !IsBinaryCmd(syn, "\\frac") && !IsBinaryCmd(syn, "\\sqrt")
  }

  lemma NotGreek()
    ensures forall c | c in ["\\mathrm", "\\left"] :: c !in GREEK_LOWERCASE && c !in GREEK_UPPERCASE
  {
  }

  lemma NotMiscellaneous()
    ensures forall c | c in ["\\mathrm", "\\left"] :: c !in MISCELLANEOUS && c !in ARROWS && c !in BRACKETS
  {
  }

  lemma NotNamed()
    ensures forall c | c in ["\\mathrm", "\\left"] :: c !in LOP_CMDS && c !in FUNC_CMDS
  {
  }

  lemma NoOperators()
    ensures forall c | c in ["\\mathrm", "\\frac", "\\sqrt", "\\left"] :: c !in BINARY_CMDS && c !in RELATION_CMDS
  {
  }

  lemma NotAccents()
    ensures forall c | c in ["\\mathrm", "\\left"] :: c !in ACCENT_CMDS
    ensures "\\mathrm" in TEXT_CMDS && "\\left" !in TEXT_CMDS
  {
  }

  lemma Unlisted(syn: Syntax, cmd: string)
    requires cmd != "\\frac" && cmd != "\\sqrt" && cmd !in syn.lopCmds && cmd !in syn.funcCmds && cmd !in syn.symbolCmds
    requires !IsBinaryCmd(syn, cmd) && cmd !in syn.accentCmds
    ensures cmd in syn.textCmds ==> ClassOf(syn, cmd) == TextCmd
    ensures cmd !in syn.textCmds && cmd == "\\left" ==> ClassOf(syn, cmd) == LeftCmd
  {
  }

  lemma MathrmIsText(isDigit: char -> bool, isAlpha: char -> bool)
    ensures ClassOf(LatexSyntax(isDigit, isAlpha), "\\mathrm") == TextCmd
  {
    NotGreek();
    NotMiscellaneous();
    NotNamed();
    NoOperators();
    NotAccents();
    Unlisted(LatexSyntax(isDigit, isAlpha), "\\mathrm");
  }

  lemma LeftIsLeft(isDigit: char -> bool, isAlpha: char -> bool)
    ensures ClassOf(LatexSyntax(isDigit, isAlpha), "\\left") == LeftCmd
  {
    NotGreek();
    NotMiscellaneous();
    NotNamed();
    NoOperators();
    NotAccents();
    Unlisted(LatexSyntax(isDigit, isAlpha), "\\left");
  }

  lemma LatexSyntaxIsSound(isDigit: char -> bool, isAlpha: char -> bool)
    ensures Sound(LatexSyntax(isDigit, isAlpha))
  {
    MathrmIsText(isDigit, isAlpha);
    NoOperators();
  }
}
