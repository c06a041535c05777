# DocMirror: verified models of its algorithms

DocMirror turns documents into structured data. Most of it drives foreign libraries; this project models the parts that
are algorithms of their own and proves what they promise, for all inputs and all runs:

- **Aho-Corasick matching** (`PatternSpec`, `LinkCost`, `Automaton`, `LeftmostLongest`). The trie, the breadth-first failure
  links and the scan, as a class that fills its tables in place; against the naive definition of an occurrence, with the
  amortised bounds on failure steps, of the construction and of the scan; and the leftmost-longest filter against a scan of the text.
- **LaTeX formulas** (`FormulaLexer`, `FormulaTree`, `FormulaParser`, `FormulaConsume`, `FormulaPrint`, `FormulaRoundTrip`,
  `FormulaReparse`, `FormulaTokens`, `FormulaWords`, `FormulaShapes`, `FormulaNormal`, `FormulaNormalForm`, `FormulaDiff`, `FormulaValues`).
  Tokenizer, recursive-descent parser with recovery from errors, printer, normaliser, structural equality and diff; the round
  trip from tree to text and back, what normalising twice does, the laws of equality and diff, and which texts are numbers,
  which values count and what each kind of node does.
- **Column detection** (`Columns`, `ColumnRecursion`, `ColumnClosedForm`, `ColumnStripes`). Projection, gap scan, split and
  recursion, with the exact condition under which every block ends up in exactly one column, its closed form on well-formed
  pages, where the recursion never splits anything, and the result said on the boxes: columns are what empty stripes separate.
- **The page pipeline** (`PagePipeline`). A pool of workers whose chunks complete, fail or come back damaged in any order,
  as a state machine over its steps and as the loop that drains it, up to the exception that ends it.
- **Canonical facts** (`FactPayload`, `FactDiff`). What the payload of a result forgets; exactness, duality and patching of
  the diff, and the strings of its paths.
- **Grid assignment** (`OcrTokens`, `GridAssign`, `GridTies`, `TokenCoalescing`, `GridMaterialize`, `TokenLaws`). The
  best-cell scan whose tie rule is not transitive, with the drift it allows and the exact condition for a best cell; deduplication by rank and
  overlap, the coalescing of fragments, and exclusivity from end to end.
- **Audit attestation** (`Attestation`, `AuditDirectory`, `AuditFields`, `AttestationWorld`). Finalizing and verifying a
  directory of files, with every field that decides about it written out, and a codec and a hash with which it can be done.
- **Graph diff and canonical form** (`GraphDiff`, `GraphDiffLaws`, `GraphDiffStatus`, `CanonicalGraph`). Tally, duality,
  exactness, counters and status as properties of the two graphs, and what the canonical form forgets.
- **Fused watermark pass** (`Watermark`, `WatermarkLaws`), **affine boxes** (`QuadBox`) and **evidence ids** (`EvidenceIds`).

`Options`, `Reals`, `Sequences`, `Sorting`, `Decimals` and `JsonValue` are shared. Code that changes state step by step is a method proved
against a function; the laws are lemmas about that function. Floats are reals, but the
floats of JSON documents, which must survive writing and reading, are binary numbers with a mantissa and an exponent. An exception is a result without a value. The definitions that the laws are phrased with have laws of their own on the data, with
names and numbers written out: on characters, kinds of nodes, boxes, JSON fields, fields of graph nodes, tokens and glyphs.

Where a claim about the code is false, the project says so and gives the exact condition:

- The matcher is exact on all texts if and only if no pattern is empty (`ExactIffNoEmptyPattern`, `EmptyPatternIsMissed`); the loader strips patterns and drops empty ones.
- `\left` before an opening brace takes it as its fence, a text argument ends at the first closing brace, and a separator stops
  the parse; in streams without a stray closing brace only so are tokens left unread (`LatexLosesBraces`, `SeparatorStops`, `ConsumesEverything`). `\right` never closes
  anything (`RightClosesNothing`).
- A large operator with one script does not print back (`LargeOperatorLosesScript`).
- `normalize` is not idempotent (`NormalizeTwiceDiffers`): it is on a tree if and only if its result is tidy
  (`NormalizeTwiceIff`), and on trees as parsed without spaces if and only if no group of several children consists of
  letters alone (`PlainTwiceIff`). A fraction keeps two children if and only if neither is a space and not both are letters
  (`FractionKeepsIff`, `LetterFractionMerges`).
- `structural_equals` takes a sum for a product and a bar for a hat (`SumEqualsProduct`), and is no congruence
  (`EqualsIsNoCongruence`): an equal subtree can be put in the place of another everywhere but in one case, which `ReplaceIff`
  gives exactly: as one of two different operands of a commutative operator, when it sorts to the other side.
- Swapping commutative operands is visible if and only if they print alike without being equal (`SwapOperands`), as do `\sqrt`
  and `\sqrt{}` (`SwapShows`).
- `diff` never looks at the operands of an operator (`DiffMissesOperands`); `DiffEmptyIff` says what it does look at.
- Two changes can share one path string, and one is lost (`ChangeIsLost`); with clean keys none is (`ReportedExactly`).
- `detect_columns` reads a sub-assignment that was never set, or that stems from another column, when its inner guard fails
  (`UnsetSubAssignmentRaises`, `DetectIff`); on well-formed pages `KeepsBlocksIff` is the condition, and the defaults meet it
  (`DefaultsAreSafe`). Blocks without a box make it raise at the defaults too (`BoxlessPageRaises`).
- When a serial retry raises, pages that could have been extracted are lost with their chunk (`ChunkLosesPages`): pool and
  serial mode yield the same pages if and only if no page fails or the first that fails is the first of its chunk
  (`PoolIsSerialIff`).
- The chosen grid cell need not be the best one (`DriftIsReal`). It is, in every order of the bands, if a best cell is nearer
  than all that are worse by at most the tolerance (`EveryOrderChoosesTop`); in a grid of one row also only if (`OneRowIff`),
  with two rows not (`TwoRowsNeedLess`). A token that matches can be left out (`TinyScoreIsLost`), on some grid if and only if
  the threshold is not positive (`ChosenIfMatchedIff`).
- Pages with the same number keep their order in the canonical form, so their order shows (`EqualNumbersShow`); and the
  canonical form has no quality decision, so `diff_graphs` never reports a change of it between canonical graphs
  (`DecisionIsLost`), although its report has a counter for it.
- `watermark_found` is also true when only duplicates were removed (`DuplicatesCountAsWatermarks`).
- A rounded box can cut off a corner of the image (`RoundedCanMiss`).

Where comments and code disagree the model follows the code: the tokenizer's description speaks of a space token for
whitespace between characters, but only uncovered characters that are not whitespace leave one; the parser's description
allows scripts in any order, but only `_` before `^` is read; `structural_equals` says `+` or `*`, but the table of
commutative operators has `\times`, `\cdot` and others and no `*`.

## Model

| member | source | states |
|---|---|---|
| AhoCorasickSpec.LongestExtends | docmirror/layout/vocabulary.py:139-141 | reading one more character from the longest suffix of the text that is a trie path gives again the longest such suffix, so one state is memory enough |
| AhoCorasickSpec.FailureStep | docmirror/layout/vocabulary.py:123-124 | when the current string cannot be extended by the character, its border (longest proper suffix in the trie) can be tried instead without losing a candidate |
| AhoCorasickSpec.OutExact | docmirror/layout/vocabulary.py:110-128 | an output list holds each non-empty pattern exactly once if it is a suffix of the state's string, and no other |
| AhoCorasickSpec.HitsAtExact | docmirror/layout/vocabulary.py:142-145 | the reports after one character are the occurrences that end just there, once each |
| AhoCorasickSpec.SearchExact | docmirror/layout/vocabulary.py:130-146 | for non-empty patterns every (pattern index, start, end) is reported once if the text has that pattern there, and never otherwise |
| AhoCorasickSpec.ReportedIffFound | docmirror/layout/vocabulary.py:130-146 | a triple is returned if and only if its text is a pattern and stands at that place |
| AhoCorasickSpec.ExactIffNoEmptyPattern | docmirror/layout/vocabulary.py:66-69 | the search is exact on all texts if and only if no pattern is empty |
| AhoCorasickSpec.EmptyPatternIsMissed | docmirror/layout/vocabulary.py:114-116 | an empty pattern is missed even behind the first character when that begins a pattern: the root's list never reaches the states of depth one |
| Automaton.PathSpelled | docmirror/layout/vocabulary.py:99-110 | every prefix of a pattern is spelled by a state of the trie |
| Automaton.GotoIffInTrie | docmirror/layout/vocabulary.py:103-109 | a state's dictionary has a character exactly if its string extended by it is a prefix of a pattern |
| Automaton.LevelsSeen | docmirror/layout/vocabulary.py:118-121 | when breadth-first search expands a state, every state that is no deeper has been seen already |
| Automaton.FrontierEnd | docmirror/layout/vocabulary.py:118-121 | when the queue is empty every state has been seen |
| Automaton.LinkOne | docmirror/layout/vocabulary.py:125-128 | linking a state to a finished state that spells its border makes its link and its output list final |
| Automaton.AhoCorasick.constructor | docmirror/layout/vocabulary.py:93-128 | after construction every failure link leads to the longest proper suffix in the trie and every output list is final |
| Automaton.AhoCorasick.BuildTrie | docmirror/layout/vocabulary.py:99-110 | the states are prefixes of patterns, all patterns are spelled, and each state lists its own patterns |
| LinkCost.BorderGrows | docmirror/layout/vocabulary.py:122-127 | the link of a state leads at most one level deeper than that of its parent |
| LinkCost.PathRoom | docmirror/layout/vocabulary.py:118-128 | along the path of a string the links that may be followed are at most as many as its characters, less the depth of its own link |
| LinkCost.BillIsSmall | docmirror/layout/vocabulary.py:118-128 | spent once per state, on the paths of all patterns, they are at most as many as the patterns have characters |
| Automaton.AhoCorasick.BuildFailureLinks | docmirror/layout/vocabulary.py:112-128 | breadth-first search gives every state its final link and output list, from a trie that has only own patterns, and follows at most as many links as the patterns have characters together |
| Automaton.AhoCorasick.FindLink | docmirror/layout/vocabulary.py:122-127 | the walk ends at the state of the border, which is no deeper than the parent, so its list is final and the self-link guard never fires; the links it follows are paid for by depth |
| Automaton.AhoCorasick.Advance | docmirror/layout/vocabulary.py:139-141 | one character leads to the longest suffix in the trie, and the links followed are paid for by depth |
| Automaton.AhoCorasick.Search | docmirror/layout/vocabulary.py:130-146 | the scan returns the reports of the specification in order and follows at most one failure link per character of the text overall |
| LeftmostLongest.ScanDisjoint | docmirror/layout/vocabulary.py:148-173 | the selected matches are occurrences, in order, disjoint, and each the longest at its start |
| LeftmostLongest.ScanComplete | docmirror/layout/vocabulary.py:166-171 | every occurrence left out overlaps a selected one that starts no later and, from the same start, is no shorter |
| LeftmostLongest.GreedyKeep | docmirror/layout/vocabulary.py:168-171 | a match whose positions are all unused is the next one of the leftmost-longest scan |
| LeftmostLongest.SearchLongestNonOverlapping | docmirror/layout/vocabulary.py:148-173 | the sorted greedy filter with its set of used positions equals the leftmost-longest scan of the text |
| FormulaLexer.TokenizeLatex | docmirror/ocr/formula_ast.py:106-157 | the scan over the matches gives the token list defined character by character, with a space token only for uncovered text after a character token |
| FormulaLexer.NoBeginCommand | docmirror/ocr/formula_ast.py:138-141 | no command token of any text starts an environment, so the parser's matrix branch is unreachable |
| FormulaTokens.TokenShapes | docmirror/ocr/formula_ast.py:89-157 | every token of every text has the shape of its kind: words without whitespace and special characters, commands of letters, single marks, whole environment delimiters |
| FormulaTokens.PlainTextIsToken | docmirror/ocr/formula_ast.py:98-98 | a text without whitespace and special characters is one character token |
| FormulaTokens.CommandTextIsToken | docmirror/ocr/formula_ast.py:92-92 | a backslash and letters are one command token |
| FormulaTokens.TokensKeepText | docmirror/ocr/formula_ast.py:106-157 | the tokens of any text keep, in order, all its characters but whitespace and backslashes |
| FormulaTokens.EnvironmentTokens | docmirror/ocr/formula_ast.py:89-103 | the start and the end of an environment are one token each, up to the closing brace |
| FormulaTree.LatexSyntaxIsSound | docmirror/ocr/formula_ast.py:684-695 | the command tables meet what the round trip needs: the printer's text command is read as one, and commands with arguments are no operators |
| FormulaParser.Parser.Parse | docmirror/ocr/formula_ast.py:437-466 | for every token list the parser terminates with a tree, the one of the grammar functions; no ParseError escapes |
| FormulaParser.Parser.ParseExpr | docmirror/ocr/formula_ast.py:470-503 | the position never moves back or past the end, and tree, error and rest are those of the grammar |
| FormulaParser.Parser.ParseTerm | docmirror/ocr/formula_ast.py:507-556 | likewise for an atom with its scripts, with both markers, repeated scripts and large operators |
| FormulaParser.Parser.ParseAtom | docmirror/ocr/formula_ast.py:560-615 | likewise for the kinds of atoms |
| FormulaParser.Parser.ParseCmd | docmirror/ocr/formula_ast.py:617-731 | likewise for the commands the tokenizer produces |
| FormulaWords.NumberTextIff | docmirror/ocr/formula_ast.py:574-577 | the three tests together accept exactly the texts with at least one digit in which every other character is a point or a minus that occurs at most once |
| FormulaWords.WordIsNumberIff | docmirror/ocr/formula_ast.py:571-578 | such a character token is a NUMBER with its text, and every other one a SYMBOL |
| FormulaWords.WordParses | docmirror/ocr/formula_ast.py:793-812 | a text of one word parses to one node, a NUMBER or a SYMBOL by the same condition |
| FormulaWords.DecimalsParse | docmirror/ocr/formula_ast.py:574-577 | whole and decimal numbers with or without a sign are NUMBERs |
| FormulaWords.TwoPointsParse | docmirror/ocr/formula_ast.py:574-578 | with a second point they are SYMBOLs |
| FormulaShapes.OperatorParses | docmirror/ocr/formula_ast.py:476-503 | of three words the middle one is an operator over the others exactly if it is a stretch of `+-*/=<>`, and otherwise the three stand side by side |
| FormulaShapes.OperatorAloneParses | docmirror/ocr/formula_ast.py:484-491 | an operator without a right operand is kept behind its left operand, in a node of its own |
| FormulaShapes.ScriptsParse | docmirror/ocr/formula_ast.py:518-556 | repeated scripts are grouped in order, a subscript before a superscript joins it, and one behind a superscript is lost as a subscript |
| FormulaShapes.SpacesParse | docmirror/ocr/formula_ast.py:580-605 | a line break and a stray backslash are SPACE nodes between their neighbours |
| FormulaShapes.FractionParses | docmirror/ocr/formula_ast.py:454-466 | a fraction without braces is dropped together with the token in the place of the brace, and parsing goes on behind it |
| FormulaShapes.TextParses | docmirror/ocr/formula_ast.py:684-695 | the words of a text argument are run together |
| FormulaShapes.LeadingOperatorParses | docmirror/ocr/formula_ast.py:676-677 | an operator command in front stands by itself |
| FormulaConsume.FormulaReads | docmirror/ocr/formula_ast.py:454-466 | without row separators and environment ends, with no \left before an opening brace and no opening brace inside a text argument, a formula that stops early has closed at least the braces it opened, whatever it recovers from |
| FormulaConsume.ConsumesEverything | docmirror/ocr/formula_ast.py:454-466 | on such streams, if no prefix closes more braces than it opens, the parser consumes every token |
| FormulaConsume.LeftTakesABrace | docmirror/ocr/formula_ast.py:698-711 | with \left before an opening brace a balanced stream is not consumed: its closing brace stops the parse |
| FormulaConsume.TextTakesABrace | docmirror/ocr/formula_ast.py:684-695 | nor is one with an opening brace inside a text argument: the argument ends at the first closing brace |
| FormulaConsume.LatexLosesBraces | docmirror/ocr/formula_ast.py:684-711 | both happen with the command tables of the source |
| FormulaConsume.RightClosesNothing | docmirror/ocr/formula_ast.py:705-709 | the test for \right never succeeds: the formula behind \left runs on to a brace or separator |
| FormulaConsume.SeparatorStops | docmirror/ocr/formula_ast.py:454-466 | a separator or environment end in front stops the parse at once |
| FormulaRoundTrip.LexesPrinted | docmirror/ocr/formula_ast.py:893-970 | tokenising the printed text of a tree of the fragment, before any text that cannot run into it, gives the tokens the tree stands for |
| FormulaReparse.TokensOfPrinted | docmirror/ocr/formula_ast.py:106-157 | the whole printed text tokenises to exactly these tokens, without space tokens |
| FormulaReparse.ParsePrinted | docmirror/ocr/formula_ast.py:437-773 | parsing the printed text gives the tree with its braces turned into groups, and no token is left unread |
| FormulaReparse.LargeOperatorLosesScript | docmirror/ocr/formula_ast.py:543-554 | a lower and an upper script of a large operator parse alike, so the printed text cannot tell them apart |
| FormulaNormal.MergeConsecutiveSymbols | docmirror/ocr/formula_ast.py:1250-1313 | the loop with its buffer computes the merged list |
| FormulaNormal.MergeKeepsText | docmirror/ocr/formula_ast.py:1250-1313 | merging keeps the letters of the symbols and all other nodes, in order |
| FormulaNormal.NormalizeStripped | docmirror/ocr/formula_ast.py:1111-1117 | single-child groups and roots, however deep, do not change the normal form |
| FormulaNormal.EqualsIsEquivalence | docmirror/ocr/formula_ast.py:1180-1200 | structural equality is reflexive, symmetric and transitive |
| FormulaNormal.SwapOperands | docmirror/ocr/formula_ast.py:1150-1156 | swapping the operands of a commutative operator is invisible exactly when the normalised operands print differently, or have the same structure, or one of them is a space |
| FormulaNormal.ReplaceChild | docmirror/ocr/formula_ast.py:1119-1122 | replacing a child by one with the same normal form leaves the normal form above unchanged |
| FormulaNormal.LetterFractionMerges | docmirror/ocr/formula_ast.py:1126-1135 | a fraction of two letters loses its denominator in the normal form |
| FormulaNormal.FractionKeepsIff | docmirror/ocr/formula_ast.py:1119-1148 | a fraction keeps two children exactly when, single-child groups aside, neither is a space and not both are letters |
| FormulaNormal.SwapShows | docmirror/ocr/formula_ast.py:1150-1156 | two operands that print alike and are not equal: swapping them is visible |
| FormulaNormal.ValueIsIgnored | docmirror/ocr/formula_ast.py:1180-1200 | nodes of a kind whose value is not compared are equal whatever their values |
| FormulaNormal.SumEqualsProduct | docmirror/ocr/formula_ast.py:1185-1188 | a sum equals a product, and a bar over anything a hat over it |
| FormulaNormal.ReplaceIff | docmirror/ocr/formula_ast.py:1107-1200 | replacing any child of any node by an equal tree keeps the formula equal, unless the node is a commutative operator with two different operands left and the new one sorts to the other side; then it does not |
| FormulaNormal.ReplaceOperandIff | docmirror/ocr/formula_ast.py:1150-1200 | the instance used next, for the first operand: it keeps the formula equal exactly when it sorts to the same side, or equals the other operand, or one is a space |
| FormulaNormal.EqualsIsNoCongruence | docmirror/ocr/formula_ast.py:1150-1200 | sum and product are equal, but not after adding the same operand to both |
| FormulaNormalForm.NormalizeTwiceDiffers | docmirror/ocr/formula_ast.py:1107-1177 | normalising twice can differ from normalising once |
| FormulaNormalForm.NormalIsShaped | docmirror/ocr/formula_ast.py:1107-1177 | every normal form has no spaces outside text, no variant letters, sorted commutative operands and merged letters in groups |
| FormulaNormalForm.NormalShrinks | docmirror/ocr/formula_ast.py:1107-1177 | normalising never adds nodes, and removes one from every tree that is not tidy |
| FormulaNormalForm.NormalizeTwiceIff | docmirror/ocr/formula_ast.py:1107-1177 | normalising twice is normalising once exactly when the result has no single-child ROOT or GROUP and no letters that could still be merged |
| FormulaNormalForm.PlainTwiceIff | docmirror/ocr/formula_ast.py:1107-1177 | on trees as parsed without spaces: exactly when nowhere several children of a ROOT, or of a GROUP outside braces, are all letters, single-child groups aside |
| FormulaNormalForm.NormalizeTwice | docmirror/ocr/formula_ast.py:1107-1177 | on all trees without spaces this condition suffices, and it holds where there are no single letters |
| FormulaDiff.DiffLog.Compute | docmirror/ocr/formula_ast.py:1203-1240 | the calls that share one list append the entries of the diff, in order |
| FormulaDiff.DiffEmptyIff | docmirror/ocr/formula_ast.py:1203-1240 | the diff is empty exactly when the parts it looks at have the same structure |
| FormulaDiff.EqualHasNoDiff | docmirror/ocr/formula_ast.py:857-885 | structurally equal formulas have an empty diff |
| FormulaDiff.DiffMissesOperands | docmirror/ocr/formula_ast.py:1215-1224 | below any operator the diff is empty, whatever and however many the operands |
| FormulaDiff.OperandsMatter | docmirror/ocr/formula_ast.py:1180-1200 | while equality compares the operands of an operator that is not commutative |
| FormulaDiff.SortedOperandsMatter | docmirror/ocr/formula_ast.py:1150-1200 | and the sorted operands of a commutative one |
| FormulaDiff.RootSignsParse | docmirror/ocr/formula_ast.py:644-657 | both operands whose swap is visible are parsed from LaTeX |
| FormulaDiff.NoDiffMeansEqual | docmirror/ocr/formula_ast.py:1203-1240 | where the value-compared nodes of the normal forms are leaves, an empty diff means structural equality |
| FormulaValues.EqualsIffErased | docmirror/ocr/formula_ast.py:1180-1200 | formulas are equal exactly if their normal forms have the same kinds of nodes in the same places, and there the same numbers, symbols, functions, texts and operators |
| FormulaValues.LeavesEqualIff | docmirror/ocr/formula_ast.py:1185-1188 | numbers, functions and texts are equal exactly if they are the same, and otherwise the diff reports one changed value |
| FormulaValues.SymbolsEqualIff | docmirror/ocr/formula_ast.py:1094-1101 | symbols likewise, up to the six variant commands |
| FormulaValues.OperatorsDiffer | docmirror/ocr/formula_ast.py:1185-1188 | formulas under different operators are never equal, and the diff says so |
| FormulaValues.WordsEqualIff | docmirror/ocr/formula_ast.py:857-885 | two texts of one word are equal formulas, with an empty diff, exactly if they are the same text |
| FormulaValues.SwapSymbolsIff | docmirror/ocr/formula_ast.py:1104-1104 | swapping two different symbols is invisible under exactly eight operators |
| FormulaValues.DiffReportsIff | docmirror/ocr/formula_ast.py:1203-1240 | the entries of the diff are exactly the differences in kind, value and number of children of the nodes it gets to, which are those below nodes that agree in kind and number of children and have no value of their own |
| FormulaValues.LettersMergeBelow | docmirror/ocr/formula_ast.py:1126-1135 | two letters become one symbol below exactly seven kinds of nodes |
| FormulaValues.SymbolsMergeIff | docmirror/ocr/formula_ast.py:1250-1313 | symbols are merged exactly if both are single letters |
| FormulaValues.BracesOpenBelow | docmirror/ocr/formula_ast.py:1158-1163 | braces that hold more than one letter are opened below exactly five kinds of nodes |
| FormulaValues.SpacesStayBelow | docmirror/ocr/formula_ast.py:1119-1122 | spaces are dropped below every kind of node but a text |
| FormulaValues.FractionIsCut | docmirror/ocr/formula_ast.py:1146-1148 | a fraction, and nothing else, is cut to two children |
| FormulaDiff.RoundTrip | docmirror/ocr/formula_ast.py:795-821 | for every tree of the fragment, parsing the printed text gives the tree back up to single-child groups |
| FormulaDiff.RoundTripEquals | docmirror/ocr/formula_ast.py:857-885 | hence the reparsed formula is structurally equal to the original and has no diff against it |
| FormulaDiff.PrintingIsInjective | docmirror/ocr/formula_ast.py:893-970 | trees of the fragment with the same printed text are equal up to single-child groups |
| Columns.BuildProfile | docmirror/layout/columns.py:75-88 | a point of the projection is set exactly if some block covers it |
| Columns.GapsAreMaximalRuns | docmirror/layout/columns.py:90-111 | the gaps are exactly the maximal zero runs of at least the minimum width, from left to right |
| Columns.FindGaps | docmirror/layout/columns.py:90-111 | the scan with its flag and its trailing case finds these gaps |
| Columns.AssignColumns | docmirror/layout/columns.py:124-143 | the loop puts every block into the column of its center |
| Columns.SplitTimes | docmirror/layout/columns.py:124-143 | every block is in exactly one column of the split |
| Columns.ColumnsAreSeparated | docmirror/layout/columns.py:113-143 | in the top-level split two blocks that start on the page and are in different columns are separated by more than the minimum gap |
| ColumnRecursion.SubCallSmaller | docmirror/layout/columns.py:158-170 | a sub-call has fewer blocks, or the same ones and for the first time their own width as the page width, and then the 0.95 guard holds for no parameters, so the recursion ends |
| ColumnRecursion.DetectColumns | docmirror/layout/columns.py:50-196 | the loop over the columns, with the variable that outlives its branch, returns the columns of the specification or raises as it does |
| ColumnRecursion.DetectIff | docmirror/layout/columns.py:145-175 | every block is returned in exactly one column if and only if each column that passes the outer guard either passes the inner one, with a sub-call that does the same, or reuses the sub-call of an earlier column with as many blocks |
| ColumnRecursion.OuterGuardSuffices | docmirror/layout/columns.py:159-162 | with a minimum column width of at least 2.5 minimum gaps the inner guard follows from the outer one |
| ColumnRecursion.BetweenTheGuards | docmirror/layout/columns.py:158-162 | the widths that pass the outer guard and fail the inner one, in numbers |
| ColumnRecursion.UnsetSubAssignmentRaises | docmirror/layout/columns.py:162-173 | a concrete page on which the sub-assignment is read before it is set |
| ColumnClosedForm.SubCallNeverSplits | docmirror/layout/columns.py:158-175 | on a well-formed page a sub-call, which keeps page coordinates, finds no gap but the margin left of its column and returns all its blocks together |
| ColumnClosedForm.RecursionAddsNothing | docmirror/layout/columns.py:145-175 | so the columns are those of the top-level split, with at most empty ones added |
| ColumnClosedForm.KeepsBlocksIff | docmirror/layout/columns.py:145-175 | on a well-formed page no block is lost or repeated and nothing raised exactly when each column past the outer guard passes the inner one or has as many blocks as the last that passed both |
| ColumnClosedForm.DefaultsAreSafe | docmirror/layout/columns.py:27-29 | with the ratio of the default widths every well-formed page keeps its blocks, in the columns of the top-level split |
| ColumnStripes.SplitIffApart | docmirror/layout/columns.py:75-143 | on a well-formed page the split puts a block further left than another if and only if a stripe of at least the minimum gap lies between them on the page that no box reaches into |
| ColumnStripes.ColumnsIffApart | docmirror/layout/columns.py:50-196 | where the inner guard holds, two blocks are in different columns of the result if and only if there is such a stripe between them, and the columns are in its order |
| ColumnStripes.DefaultColumns | docmirror/layout/columns.py:27-29 | at the defaults that holds on every well-formed page, and every block is in one column |
| ColumnStripes.PositionsIff | docmirror/layout/columns.py:113-117 | the reported gap positions are, from left to right, the middles of the stripes that cannot be widened |
| ColumnClosedForm.BoxlessPageRaises | docmirror/layout/columns.py:150-156 | enough blocks without a box on a page as wide as the minimum gap make the call raise, at the defaults too |
| PagePipeline.StepKeeps | docmirror/evidence/plane.py:1126-1159 | every submission, completion, failure and consumption keeps order, contiguity of the ranges and the bound on pending chunks |
| PagePipeline.RunKeeps | docmirror/evidence/plane.py:1126-1159 | in every run the pages yielded so far are 0, 1, 2, ... and at most two chunks per worker are pending; after an exception the next chunk has a page that cannot be extracted |
| PagePipeline.DoneIff | docmirror/evidence/plane.py:1148-1159 | unless it raised, the queue is empty exactly when all pages have been yielded |
| PagePipeline.NeverStuck | docmirror/evidence/plane.py:1148-1151 | until then a step is possible |
| PagePipeline.RunBound | docmirror/evidence/plane.py:1148-1159 | every schedule has a bounded number of steps |
| PagePipeline.RunStaysSerial | docmirror/evidence/plane.py:1149-1158 | with workers whose replies carry the right pages, the output is at every moment a prefix of the serial extraction |
| PagePipeline.FinishedRun | docmirror/evidence/plane.py:1144-1159 | a finished run has yielded every page once, in order, or raised behind the pages 0 to k-1 because one of the next four cannot be extracted; with such workers it yields exactly the whole chunks in front of the first page that cannot be extracted, and raises exactly if there is one |
| PagePipeline.PoolIsSerialIff | docmirror/evidence/plane.py:1101-1159 | with such workers pool and serial mode yield the same pages exactly when no page fails or the number of the first that does is a multiple of the chunk size |
| PagePipeline.ChunkLosesPages | docmirror/evidence/plane.py:1153-1158 | a failing retry yields none of its chunk, so a page that the serial mode yields can be lost |
| PagePipeline.SerialPages | docmirror/evidence/plane.py:1101-1104 | the serial mode yields all pages in front of the first that cannot be extracted |
| PagePipeline.PageRun.ConsumeChunk | docmirror/evidence/plane.py:1149-1159 | one turn of the loop is one consuming step: a failed, incomplete or reordered reply is replaced by serial extraction |
| PagePipeline.PageRun.Drain | docmirror/evidence/plane.py:1148-1159 | the loop, with workers finishing in any order, is a run that ends with an empty queue or an exception |
| PagePipeline.IterPages | docmirror/evidence/plane.py:1084-1161 | in all modes the pages come out once each in order, all of them or those in front of an exception that the extraction of one of the next four raises; which ones exactly is said for the serial modes and, with such workers, for the pool |
| PagePipeline.ChunkSizeIff | docmirror/evidence/plane.py:1126-1126 | a chunk has more than n pages, up to four, exactly if n pages per granted worker are not enough |
| PagePipeline.WorkersIff | docmirror/evidence/plane.py:1098-1098 | as many workers are asked for as the request, the processors and the pages allow, up to four |
| PagePipeline.PoolIff | docmirror/evidence/plane.py:1100-1121 | the pool is used exactly from two requested and granted workers, two processors and four pages on, outside of a daemon |
| FactPayload.PopSeen | docmirror/models/fingerprint.py:39-43 | removing an entry hides what lies under its path and changes what is seen at no other path |
| FactPayload.SamePayloadIff | docmirror/models/fingerprint.py:33-75 | two results have the same payload exactly when their fact fields agree everywhere but under the five volatile entries |
| FactPayload.PayloadShows | docmirror/models/fingerprint.py:17-75 | of a dump the payload shows the twelve fact fields, null for a missing one, and of them all but what lies under five entries, each written out |
| FactPayload.CanonicalFactPayload | docmirror/models/fingerprint.py:33-75 | the nested copies, tests and removals take away exactly the five entries, whatever is missing or no dictionary on the way |
| FactDiff.CanonicalFactDiff | docmirror/models/fingerprint.py:89-130 | the recursive walk into one shared dictionary reports every change of the specification under its rendered path and nothing else |
| FactDiff.SomeChange | docmirror/models/fingerprint.py:104-127 | different values have a reported change |
| FactDiff.NoChange | docmirror/models/fingerprint.py:104-127 | equal values have none |
| FactDiff.SwapSides | docmirror/models/fingerprint.py:89-130 | swapping the arguments swaps each pair and keeps the paths |
| FactDiff.PrefixFree | docmirror/models/fingerprint.py:104-127 | no reported path lies below another |
| FactDiff.ChangesOf | docmirror/models/fingerprint.py:104-127 | the changes between any two values, collected by recursion, are exactly the reported ones under their paths |
| FactDiff.PatchGivesAfter | docmirror/models/fingerprint.py:89-130 | applying the changes to the first value gives the second, up to keys absent on one side and null on the other |
| FactDiff.RenderInjective | docmirror/models/fingerprint.py:111-124 | non-empty keys without dot and bracket make different paths different strings |
| FactDiff.PathText | docmirror/models/fingerprint.py:111-124 | a path joins its keys by dots and has its indices in brackets, as decimal numerals that count from zero |
| FactDiff.UncleanKeysCollide | docmirror/models/fingerprint.py:111-112 | a key with a dot can have the string of a path of two keys |
| FactDiff.ChangeIsLost | docmirror/models/fingerprint.py:104-130 | on dictionaries with such keys two different changes share one entry, and one is lost |
| FactDiff.ReportedExactly | docmirror/models/fingerprint.py:89-130 | with such keys the returned dictionary is exactly the set of changes |
| FactDiff.ReturnedReadsBack | docmirror/models/fingerprint.py:89-130 | it can be read back as paths |
| FactDiff.PatchReturned | docmirror/models/fingerprint.py:89-130 | however it is read back, as a patch it turns the first value into the second, up to absent and null keys |
| GridAssign.DriftBound | docmirror/ocr/grid_materialize.py:97-117 | the chosen candidate's score is at least every candidate's minus one tolerance per other candidate |
| GridTies.DriftIsReal | docmirror/ocr/grid_materialize.py:114-117 | for every number of columns there is a token and a grid on which this bound is attained |
| GridTies.ChoosesTopIff | docmirror/ocr/grid_materialize.py:97-117 | a cell of the highest score is held at the end of every permutation of the list of matching cells exactly when some best one is nearer than all that are worse by at most the tolerance |
| GridTies.EveryOrderChoosesTop | docmirror/ocr/grid_materialize.py:92-119 | in that case it is chosen in every order of the rows and columns |
| GridTies.OneRowIff | docmirror/ocr/grid_materialize.py:123-141 | in a grid of one row it is chosen in every order of the columns exactly in that case |
| GridTies.TwoRowsNeedLess | docmirror/ocr/grid_materialize.py:92-119 | a grid of two rows and three columns on which it is chosen in all twelve orders, although a tied cell is as near as the best one |
| GridTies.SeparatedChoosesTop | docmirror/ocr/grid_materialize.py:97-117 | in particular if any two scores are equal or more than the tolerance apart |
| GridTies.ChoiceIsBest | docmirror/ocr/grid_materialize.py:96-119 | a token with such a cell goes to a cell with the highest score of all that match |
| GridAssign.CandidatesMatch | docmirror/ocr/grid_materialize.py:64-81 | the candidates are exactly the cells that match |
| GridAssign.ChoiceIsNearlyBest | docmirror/ocr/grid_materialize.py:96-119 | the chosen cell matches, and its score is within the drift of every matching cell's |
| GridAssign.ChosenIffMatched | docmirror/ocr/grid_materialize.py:96-119 | a token gets a cell if and only if some cell matches, when a match needs some overlap |
| GridAssign.ClearMatchIsChosen | docmirror/ocr/grid_materialize.py:118-119 | for any threshold a match with a score above the drift is never lost |
| GridTies.TinyScoreIsLost | docmirror/ocr/grid_materialize.py:114-118 | a token and two columns: its positive score within the tolerance of zero is lost to a nearer cell with score zero |
| GridTies.ChosenIfMatchedIff | docmirror/ocr/grid_materialize.py:96-119 | having a cell is having a match with a positive score, on all grids, exactly when the threshold is positive |
| GridAssign.BestCell | docmirror/ocr/grid_materialize.py:97-117 | the nested loops compute the best candidate in row-major order |
| GridAssign.AssignTokens | docmirror/ocr/grid_materialize.py:92-119 | every key of the grid has the tokens that choose it, in order |
| GridAssign.BucketTimes | docmirror/ocr/grid_materialize.py:91-119 | exclusive: a token is in its chosen cell's bucket as often as it was given and in no other |
| TokenLaws.MatchIs | docmirror/ocr/grid_materialize.py:64-81 | the score of a cell is the share of the token's width times the share of its height that lie in it, with 0.05 more if it holds the middle; too small a share counts only with the middle; the distance is that of the middles along both axes |
| TokenLaws.ScoreRange | docmirror/ocr/grid_materialize.py:64-81 | a token inside its cell scores 1.05, which is the most, and one outside does not match |
| TokenLaws.FirstOfEqualCells | docmirror/ocr/grid_materialize.py:96-119 | if all matching cells are equally good the token goes to the first of them, row by row and from left to right |
| TokenCoalescing.DedupeVisualTokens | docmirror/ocr/field_grid/tokens.py:57-76 | the nested loops keep, in rank order, the tokens with text that duplicate none kept before, and return them in reading order |
| TokenCoalescing.DedupeKeepsOneEach | docmirror/ocr/field_grid/tokens.py:57-76 | the result is part of the input, no two of its tokens are duplicates, and every token with text is in it or has a duplicate in it of no lower rank |
| TokenCoalescing.DedupeForgetsOrder | docmirror/ocr/field_grid/tokens.py:58-61 | the order of the input shows only among tokens of equal rank |
| TokenCoalescing.DedupeTwice | docmirror/ocr/field_grid/tokens.py:57-76 | a second deduplication changes nothing |
| TokenLaws.BestIsReturned | docmirror/ocr/field_grid/tokens.py:57-76 | a token with text that is not returned has a duplicate that is, with no worse source, and of an equally good source with no lower confidence |
| TokenLaws.BetterOfTwo | docmirror/ocr/field_grid/tokens.py:14-61 | of two duplicates the one of the better source, or else of the higher confidence, is returned, in whatever order they come |
| TokenLaws.ReadingOrder | docmirror/ocr/field_grid/tokens.py:76-76 | the result runs from top to bottom and then from left to right |
| TokenLaws.IouAtLeast | docmirror/ocr/field_grid/geometry.py:36-42 | boxes reach an overlap threshold exactly if the part they have in common is that share of all that they cover |
| TokenCoalescing.GroupedIsBest | docmirror/ocr/grid_materialize.py:159-164 | the dictionary holds for every group its first token of the highest priority, once |
| TokenCoalescing.CoalesceTokensPreferNative | docmirror/ocr/grid_materialize.py:146-165 | the loops compute the coalesced list |
| TokenCoalescing.CoalescedTokens | docmirror/ocr/grid_materialize.py:146-165 | every token returned is given, no fragment of a native token, and the best of its group; groups are different and no two are duplicates |
| TokenCoalescing.CoalescedCovers | docmirror/ocr/grid_materialize.py:146-165 | every token has the best one of its group, or of its native parent's, answered for in the result, unless that one has no text |
| TokenCoalescing.CoalesceTwice | docmirror/ocr/grid_materialize.py:146-165 | a second coalescing changes nothing |
| TokenLaws.NoFragmentOfWhole | docmirror/ocr/grid_materialize.py:151-158 | no token split from a given token that is whole, that is, split neither from a token nor from a line, is returned |
| TokenLaws.BestOfGroup | docmirror/ocr/grid_materialize.py:159-164 | of tokens with a common origin at most one is returned, and only fragments of whole tokens among them have a better source |
| GridMaterialize.ExclusiveAssignTokensToGrid | docmirror/ocr/grid_materialize.py:84-120 | deduplication, assignment and coalescing give every cell with tokens its coalesced bucket and no other cell anything |
| GridMaterialize.GridIsExclusive | docmirror/ocr/grid_materialize.py:84-120 | a token in the result was given, has text, chose its cell, and is in no other |
| GridMaterialize.GridCovers | docmirror/ocr/grid_materialize.py:84-120 | every token with text is stood for by one whose cell, if it has one, answers for it by the best of its group |
| Attestation.ValidIffPasses | scripts/verify_personal_detail_final_audit.py:767-776 | records are valid exactly when the dictionary by id has the contract's ids and a pass for each |
| Attestation.ValidateResultRecords | scripts/verify_personal_detail_final_audit.py:754-779 | the checks succeed exactly on one passing record per case, in any order, and return records of the input in contract order that are valid again |
| AuditFields.ValidIffCatalog | scripts/verify_personal_detail_final_audit.py:754-779 | records are valid exactly if there is one for every case, with the node-result schema, phase and node of the case, status "passed", an exit code equal to 0 and no errors |
| AuditFields.RecordOfCasePasses | scripts/verify_personal_detail_final_audit.py:769-776 | among valid records the one with the id of a case has all of these |
| AuditFields.SnapshotsIff | scripts/verify_personal_detail_final_audit.py:444-459 | snapshots match exactly if both have the schema and agree in the fingerprints of code, source PDFs and runtime and in the composite one |
| AuditDirectory.VerifyManifest | scripts/verify_personal_detail_final_audit.py:940-949 | succeeds exactly when the manifest lists the evidence in the directory with the right sizes and hashes |
| AuditDirectory.VerifyCompletedAudit | scripts/verify_personal_detail_final_audit.py:913-958 | the checks in their order succeed exactly when marker, matrix, manifest and snapshots hold together |
| AuditFields.ManifestIff | scripts/verify_personal_detail_final_audit.py:940-949 | the manifest is right exactly if its rows name the files that are neither temporary nor called like manifest or marker, and the last row of each has its size and hash |
| AuditFields.VerifiedIff | scripts/verify_personal_detail_final_audit.py:913-958 | verification succeeds exactly if each named field of marker, matrix, manifest and snapshots has the value written out there |
| AuditFields.DefectIsNoticed | scripts/verify_personal_detail_final_audit.py:771-776 | a record in the matrix with the id of a case and one wrong field makes verification fail |
| AuditFields.DriftIsNoticed | scripts/verify_personal_detail_final_audit.py:444-459 | one different fingerprint or a wrong schema of the two snapshots makes verification and finalizing fail |
| AuditDirectory.TamperEvident | scripts/verify_personal_detail_final_audit.py:913-958 | with manifest and marker fixed and an injective hash, a directory verifies exactly as long as its artifacts are those of the verified one |
| AuditDirectory.OrderIsIrrelevant | scripts/verify_personal_detail_final_audit.py:810-812 | whether the result files are valid does not depend on the order in which they are read |
| AuditDirectory.FinalizedVerifies | scripts/verify_personal_detail_final_audit.py:842-910 | a directory with a checked matrix, to which the manifest of its files and the marker are added, passes verification |
| AttestationWorld.WorldExists | scripts/verify_personal_detail_final_audit.py:219-236 | what the audit asks of reading back, and of the hash, is met by some codec and some hash |
| AttestationWorld.ContractFinalizes | scripts/verify_personal_detail_final_audit.py:842-910 | for every contract with distinct ids that can be file names, equal snapshots and a passing record for each case let finalizing succeed |
| AttestationWorld.SomeAuditFinalizes | scripts/verify_personal_detail_final_audit.py:842-910 | there is such a directory for a contract with a live and a saved case |
| AuditDirectory.Audit.AtomicWriteJson | scripts/verify_personal_detail_final_audit.py:227-236 | the target has the new content, the temporary file is gone, and nothing else changes |
| AuditFields.TemporaryIs | scripts/verify_personal_detail_final_audit.py:227-236 | the temporary file lies beside the target, with a dot before its name and the ending .tmp |
| AuditDirectory.Audit.ArtifactManifest | scripts/verify_personal_detail_final_audit.py:828-839 | the rows are, in the order of their paths, one true record for every file but the attestation |
| AuditDirectory.Audit.Finalize | scripts/verify_personal_detail_final_audit.py:842-910 | succeeds exactly when the evidence is complete and matches the baseline; then verification of the directory succeeds and only matrix, manifest and marker are new; otherwise at most the matrix is |
| AuditFields.FinalizableIff | scripts/verify_personal_detail_final_audit.py:842-889 | finalizing succeeds exactly if nothing is left over, the snapshots agree, the checkpoints and the results are complete and right field by field, every live case has its report, and catalog and source PDFs are as expected |
| AuditFields.DefectBlocksFinalizing | scripts/verify_personal_detail_final_audit.py:771-776 | a result file with the id of a case and one wrong field makes it fail |
| GraphDiff.CountersAddUp | docmirror/evidence/diff_engine.py:79-92 | the total is the sum of the counters plus the number of review changes, which have no counter |
| GraphDiff.IdsAreUnique | docmirror/evidence/diff_engine.py:186-189 | no two changes share an id |
| GraphDiff.DiffReport.Record | docmirror/evidence/diff_engine.py:238-275 | the running index stays the number of changes, and every counter the number of changes of its kind |
| GraphDiff.DiffReport.AddOverlay | docmirror/evidence/diff_engine.py:338-361 | an entry is appended for a node with a box on a positive page and only then |
| GraphDiff.DiffReport.Diff | docmirror/evidence/diff_engine.py:144-335 | the loops report the changes of all nodes in the order of their ids, of the edges in the order of their endpoints, and of the decision, with tally, overlay and status; it raises exactly where a comparison does |
| GraphDiffLaws.VisitIsUnique | docmirror/evidence/diff_engine.py:179-181 | the sorted visit is unique, so changes and overlay of a report are determined by the two graphs |
| GraphDiffLaws.AnyNodeOrder | docmirror/evidence/diff_engine.py:179-181 | every count is the same in whatever order the nodes are visited |
| GraphDiffLaws.SwapCounts | docmirror/evidence/diff_engine.py:144-335 | swapping the graphs exchanges the counts of added and removed nodes and edges and keeps every other count |
| GraphDiffLaws.StatusIsSymmetric | docmirror/evidence/diff_engine.py:324-333 | total, number of severe changes and status do not depend on which graph is the base |
| GraphDiffLaws.NoChangeIffAgree | docmirror/evidence/diff_engine.py:167-322 | there is no change exactly when the graphs agree on node ids, the eleven compared fields, edge endpoints and the decision |
| GraphDiffLaws.PassMeansAgree | docmirror/evidence/diff_engine.py:324-333 | the gate passes exactly when they agree and the budget is not negative |
| GraphDiffStatus.SevereCount | docmirror/evidence/diff_engine.py:238-259 | the severe changes are the nodes with another value, those with another raw value, those whose confidence differs by more than 0.2, and the decision |
| GraphDiffStatus.StatusIff | docmirror/evidence/diff_engine.py:324-333 | the gate fails exactly if these are more than allowed, warns exactly if they are not but the graphs differ, and passes exactly if they are not and the graphs agree |
| GraphDiffStatus.FailsIff | docmirror/evidence/diff_engine.py:324-333 | with none allowed it fails exactly if the decision, some value or some raw value differs or some confidence jumps |
| GraphDiffStatus.LargerBudget | docmirror/evidence/diff_engine.py:324-333 | a larger budget never makes the status worse |
| GraphDiffStatus.CounterIs | docmirror/evidence/diff_engine.py:190-322 | every counter, as a number of nodes, edges or decisions of the two graphs |
| GraphDiffStatus.ReportedIff | docmirror/evidence/diff_engine.py:183-322 | the reported changes are exactly those of nodes, compared fields, edges and the decision, each with its kind, severity and both sides |
| GraphDiffStatus.RaisesIff | docmirror/evidence/diff_engine.py:238-277 | the comparison raises exactly if two different confidences are not both numbers or empty, or a box is to be drawn on a page that is no number |
| GraphDiffStatus.DiffIdSays | docmirror/evidence/diff_engine.py:189-189 | the n-th change has n in its id, in four digits or more |
| GraphDiffLaws.OverlayIsReported | docmirror/evidence/diff_engine.py:200-277 | whatever is drawn is a reported change with the same kind and severity, and has a box on a page |
| GraphDiffStatus.DrawnIff | docmirror/evidence/diff_engine.py:338-361 | the boxes drawn are exactly those of nodes in one graph only and of moved nodes that have a box and a positive page |
| CanonicalGraph.Canonicalize | docmirror/evidence/diff_canonicalizer.py:15-64 | the loops over the sorted pages and the nodes compute the canonical form, and raise exactly when a number cannot be read |
| CanonicalGraph.SameCanonicalIff | docmirror/evidence/diff_canonicalizer.py:32-51 | for the same nodes, two graphs have the same canonical form exactly when pages with equal numbers and edges with equal endpoints come in the same order, whatever else is reordered |
| CanonicalGraph.ReorderIsInvisible | docmirror/evidence/diff_canonicalizer.py:32-51 | pages with distinct numbers, node lists, and edges with distinct endpoints may come in any order |
| CanonicalGraph.NodeListForgotten | docmirror/evidence/diff_canonicalizer.py:34-35 | the order of a page's node list is forgotten |
| CanonicalGraph.EqualNumbersShow | docmirror/evidence/diff_canonicalizer.py:33 | swapping two different pages with the same number changes the canonical form |
| CanonicalGraph.CanonicalizeTwice | docmirror/evidence/diff_canonicalizer.py:15-64 | canonicalizing a canonical graph changes nothing |
| CanonicalGraph.RoundedNodeIs | docmirror/evidence/diff_canonicalizer.py:37-46 | a node keeps its fields but for coordinates, rounded to two places, and confidence, rounded to four |
| CanonicalGraph.PagesInOrder | docmirror/evidence/diff_canonicalizer.py:33-35 | the pages come in the order of their numbers and list their nodes in order |
| CanonicalGraph.CanonicalAgreeIff | docmirror/evidence/diff_engine.py:167-175 | the diff of canonical graphs is empty exactly when the rounded nodes agree on the compared fields and the endpoints are the same, so order and pages are invisible to it |
| CanonicalGraph.DecisionIsLost | docmirror/evidence/diff_canonicalizer.py:53-64 | between canonical graphs a change of the quality decision is never reported, though it is between the graphs themselves |
| Watermark.DedupOverlappingChars | docmirror/layout/watermark.py:158-182 | of the characters of a bucket the first is kept, and all other objects are |
| Watermark.FusedFilterAndDedup | docmirror/layout/watermark.py:185-225 | the pass keeps what is no watermark and first in its bucket among those, and its flag says whether anything was dropped |
| Watermark.FusedIsFilterThenDedup | docmirror/layout/watermark.py:76-78 | the single pass keeps the objects, in order, that the watermark filter followed by the duplicate filter keeps |
| Watermark.SurvivorsAreClean | docmirror/layout/watermark.py:185-225 | no watermark and no duplicate is left, and every bucket of a character that is no watermark is still taken |
| Watermark.CleanStays | docmirror/layout/watermark.py:219-221 | a page is unchanged exactly when it has no watermark and no duplicate |
| Watermark.DuplicatesCountAsWatermarks | docmirror/layout/watermark.py:219-225 | duplicates alone set the flag named after watermarks |
| WatermarkLaws.TextIff | docmirror/layout/watermark.py:65-73 | a character is no watermark exactly if it is upright, skewed by at most 0.1 each way, and has no list of colours or one with a component of at most 0.5 |
| WatermarkLaws.SurvivorsAre | docmirror/layout/watermark.py:185-225 | the pass keeps, in order, what is no character and the characters that are no watermark and the first of their text in their square of three points |
| WatermarkLaws.FirstsAre | docmirror/layout/watermark.py:158-182 | the duplicate pass keeps what is no character and the first characters of their text in their square |
| WatermarkLaws.FlagIff | docmirror/layout/watermark.py:219-225 | the flag says whether the page has changed |
| Watermark.DedupThenFilterLosesText | docmirror/layout/watermark.py:198-217 | in the other order the two passes can lose a character |
| QuadBox.BoundsCoverImage | docmirror/evidence/plane.py:1755-1780 | the unrounded bounds cover the image of every point of the rectangle under every affine matrix |
| QuadBox.BoundsAreTight | docmirror/evidence/plane.py:1755-1780 | a box covers the image exactly when it contains these bounds |
| QuadBox.RoundedOnce | docmirror/evidence/plane.py:1760-1773 | rounding the corners and then the box is rounding the exact bounds once |
| QuadBox.TiesToEven | docmirror/evidence/plane.py:1760-1773 | halfway cases are rounded to the even number |
| QuadBox.FourPlaces | docmirror/evidence/plane.py:1760-1773 | what is rounded has four decimal places |
| QuadBox.ColumnsAreImages | docmirror/evidence/plane.py:1775-1780 | the columns of the matrix are the images of the origin and the unit vectors |
| QuadBox.RoundedBoxIsNear | docmirror/evidence/plane.py:1760-1773 | each edge of the rounded box is off by at most 0.00005 |
| QuadBox.RoundedCoversIff | docmirror/evidence/plane.py:1770-1773 | the rounded box covers the image exactly when no edge is rounded inwards |
| QuadBox.RoundedCanMiss | docmirror/evidence/plane.py:1770-1773 | there is a box on which one is |
| QuadBox.ThereAndBack | docmirror/evidence/plane.py:1740-1746 | mapping a box forth and its bounds back by an inverse matrix covers the box |
| EvidenceIds.IdInjective | docmirror/evidence/plane.py:217-224 | ids are equal only for the same page, kind and count, even for kinds with colons |
| EvidenceIds.IdSays | docmirror/evidence/plane.py:221-224 | an id has the page in four digits, the kind, and the count in six digits |
| EvidenceIds.EvidenceIdFactory.Next | docmirror/evidence/plane.py:221-224 | every id handed out differs from all earlier ones, and the counts of a page and kind are 1, 2, 3, ... |
| Sorting.SortEqualIff | docmirror/evidence/diff_canonicalizer.py:49-51 | stable sorting gives the same list exactly when elements the order cannot tell apart come in the same order |
| Sorting.StringLeIff | docmirror/evidence/diff_engine.py:179-181 | strings are ordered by their first difference, a prefix before its continuations |
| Decimals.PaddedInjective | docmirror/evidence/diff_engine.py:189 | zero-padded numerals of different numbers differ |

## Left out

- Readers for PDF, images, Office, OFD and e-mail, the command line, YAML loaders, licensing, network providers, logging: I/O and foreign libraries.
- Formulas: the positions of tokens, and the boxes, confidences and attributes of nodes, which no modelled result depends on; MathML and spoken text, which are lossy by design; the matrix branch, which no text reaches (`NoBeginCommand`); the branch of `parse` that catches an escaped ParseError, which is dead.
- FormulaDiff.RoundTrip: holds on symbols, numbers, text, functions, fractions, one-argument roots, scripts over anything but a large operator, both scripts, groups, accents and left-nested operators; for a large operator with one script it is false (`LargeOperatorLosesScript`), and fences and explicit spaces do not print back.
- FormulaConsume.ConsumesEverything: for token streams without row separators and environment ends, without `\left` before an opening brace and without an opening brace inside a text argument; with them it is false (`SeparatorStops`, `LatexLosesBraces`).
- Unicode classes of characters (`isdigit`, `isalpha`) are parameters of the formula model.
- AhoCorasickSpec.SearchExact: for non-empty patterns, as the loader guarantees; otherwise it is false (`ExactIffNoEmptyPattern`).
- The regex row heuristics and the Unicode normalisation of `vocabulary.py`.
- The built-in sort is a stable insertion sort. Sets and dictionaries are visited in any order where the source's order is not part of the result; the order of the keys in the returned fact diff and of result files is left open.
- Columns.ColumnsAreSeparated: for the top-level split, as recursive calls keep page coordinates. Confidence and the degraded flag of the column result are not modelled.
- The allocation of worker processes, the daemon test and the number of processors are parameters; the content of a page, or the exception of its extraction, is a function of its index.
- `canonical_fact_fingerprint`: the JSON text and its hash.
- FactDiff.ReportedExactly: needs keys that are not empty and have no dot or bracket; with others two changes can share an entry (`ChangeIsLost`).
- Tokens carry their stripped text, and whether their lower-case source has the two split markers.
- Cell text, confidence and audit fields of materialized grid cells.
- FormulaNormalForm.NormalizeTwiceIff: assumes that a backslash is no letter, as in Python; on trees with spaces the condition is on the first result, not on the input.
- ColumnClosedForm.KeepsBlocksIff: for pages whose blocks all have boxes that start on the page and do not end before they start, and a positive minimum block count; `DetectIff` is the condition for all pages.
- Floats are reals: no rounding of arithmetic, no infinities and no NaN. The initial infinite distance is a missing one.
- Snapshot comparison and the completion totals compare JSON values as Python does for integers only; elsewhere `1`, `1.0` and `True` differ in the audit model. The capture of snapshots, JUnit, git and schema validation are parameters, I/O failures in the middle of a write are not modelled.
- AuditDirectory.TamperEvident: the hash is injective, as the source relies on for SHA-256.
- GraphDiff.DiffReport.Diff: the texts of messages and labels, the page and the source references of a change and the style of the overlay are not modelled; values are taken up to Python's `==`, so `1`, `1.0` and `True` are one value; a missing decision and a null one are one value; a node is never null.
- CanonicalGraph.Canonicalize: works on values, so it does not show that the page dictionaries of the caller get their node lists sorted in place; the order of the keys of a dictionary given as a box is a parameter; endpoints are strings.
- The other canonicalizers and the `to_dict` and `from_dict` pairs: branch-level or easy.
- `separate_watermark_layer`, pikepdf, seal detection and watermark style probing. A matrix has at least three entries, as pdfplumber guarantees.
