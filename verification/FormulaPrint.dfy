/** `_serialize_to_latex` of docmirror/ocr/formula_ast.py. */
module FormulaPrint {
  import opened FormulaTree

  function ToLatex(t: Node): string
    decreases t, 1
  {
    var cs := t.children;
    match t.kind
    case Root => JoinLatex(" ", cs)
    case Symbol => t.value
    case Number => t.value
    case Text => "\\mathrm{" + t.value + "}"
    case Binary => if |cs| >= 2 then ToLatex(cs[0]) + " " + t.value + " " + ToLatex(cs[1]) else t.value
    case Func => if |cs| > 0 then t.value + " " + JoinLatex(" ", cs) else t.value
    case Accent => t.value + "{" + (if |cs| > 0 then ToLatex(cs[0]) else "") + "}"
    case Lop => t.value + AppendLatex(cs)
    case Sup => ScriptLatex(cs, "^")
    case Sub => ScriptLatex(cs, "_")
    case SubSup =>
      var base := if |cs| >= 1 then ToLatex(cs[0]) else "";
      var sub := if |cs| >= 2 then "{" + ToLatex(cs[1]) + "}" else "";
      var sup := if |cs| >= 3 then "{" + ToLatex(cs[2]) + "}" else "";
      base + "_{" + sub + "}^{" + sup + "}"
    case Frac =>
      var num := if |cs| >= 1 then ToLatex(cs[0]) else "";
      var den := if |cs| >= 2 then ToLatex(cs[1]) else "";
      "\\frac{" + num + "}{" + den + "}"
    case Sqrt => "\\sqrt{" + (if |cs| > 0 then ToLatex(cs[0]) else "") + "}"
    case Group => "{" + JoinLatex(" ", cs) + "}"
    case LeftRight =>
      "\\left" + t.value + " " + (if |cs| > 0 then ToLatex(cs[0]) else "") + " \\right" + t.value
    case Matrix =>
      var env := if |t.value| > 0 then t.value else "matrix";
      "\\begin{" + env + "} " + JoinRows(cs) + " \\end{" + env + "}"
    case Space => " "
  }

  /** The serialized nodes with a separator between them. */
  function JoinLatex(separator: string, cs: seq<Node>): string
    decreases cs, 0
  {
    if |cs| == 0 then ""
    else if |cs| == 1 then ToLatex(cs[0])
    else ToLatex(cs[0]) + separator + JoinLatex(separator, cs[1..])
  }

  /** A superscript or subscript; one layer of a single-child group is left to the braces. */
  function ScriptLatex(cs: seq<Node>, mark: string): string
    decreases cs, 0
  {
    var base := if |cs| >= 1 then ToLatex(cs[0]) else "";
    if |cs| < 2 then base + mark + "{}"
    else
      var inner := if cs[1].kind == Group && |cs[1].children| == 1 then ToLatex(cs[1].children[0]) else ToLatex(cs[1]);
      base + mark + "{" + inner + "}"
  }

  function AppendLatex(cs: seq<Node>): string
    decreases cs, 0
  {
    if |cs| == 0 then "" else " " + ToLatex(cs[0]) + AppendLatex(cs[1..])
  }

  function JoinRows(rows: seq<Node>): string
    decreases rows, 0
  {
    if |rows| == 0 then ""
    else if |rows| == 1 then JoinLatex(" & ", rows[0].children)
    else JoinLatex(" & ", rows[0].children) + " \\\\ " + JoinRows(rows[1..])
  }
}
