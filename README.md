# wxMaxima's XML-to-cell parser and three of its cell classes, in Dafny

This project models the part of wxMaxima that turns Maxima's XML output, and the
XML stored in `.wxmx` files, into the tree of cells the worksheet displays. It
models four C++ sources.

- `MathParser` walks the XML sibling by sibling. It hands each element to the
  builder registered for its tag. Text nodes become text cells, split into
  lines. Missing children become the "Bug: Missing contents" placeholder. The
  builders for fractions, derivatives, sums, integrals, limits, functions,
  index, sub/superscript and multi-script elements, tables, editors,
  highlighting and group cells are modelled, as are the length gate of
  `ParseLine` and the saving and restoring of the parser's own state.
- `SubSupCell` is a base with four optional script roles and the ordered list
  `m_scriptCells`. The model covers its setters, its layout arithmetic and its
  six serialisers (text, MATLAB, TeX, MathML, OMML, XML).
- `LimitCell` and `FunCell` are modelled with their setters, their width and
  height rules, their serialisers and `BreakUp`, which rewires the draw order.

The model works on values:
- An XML node is `Text(content)` or `Element(name, attrs, children)`.
- A node's "next sibling" is an index into its parent's child sequence; the
  index equal to the length of that sequence is the null pointer.
- A list of cells linked by `m_next` is a `Chain` (`seq<Cell>`); the null
  pointer is the empty chain.

The classes whose methods change fields in place are Dafny classes and carry
frames. `MathParser` has its fields `m_ParserStyle`, `m_FracStyle` and
`m_highlight`; each cell class has its children, layout fields and links. Every
`MathParser` method is proved to compute a function of module `ParserSpec`, and
the properties are proved as lemmas about those functions. The XML writers of
the cell classes are connected to the builders that read them back:
- `pos` names and the positional child order (`ToXML` against `ParseSubSupTag`, `ParseLimitTag` and `ParseFunTag`);
- the `<mmultiscripts>` children (`ToMathML` against `ParseMmultiscriptsTag`): the
  alternation of the builder gives each child the role of the slot it was
  written for. As written, though, no script cell survives the trip, because
  `ParseTag(child, false)` yields null for every element child (see
  `MmLoopOfElements`).

The quirks of the source are modelled as written:
- `supHeight` is computed from `subHeight`.
- Multi-script TeX writes every script with `^`.
- `<msubsup>` drops the post-superscript's MathML.
- The MATLAB separator flag is inverted.
- `ParseTag` links an element's result only when it is null.

Where the code does not do what its own comments say, the model follows the code:
- The comment at src/MathParser.cpp:1039 says the element's cell `tmp` is
  appended to the cells parsed so far. The test below it, `if (!tmp)` at
  src/MathParser.cpp:1040, appends `tmp` only when it is null. So `ParseTag`
  returns text cells only: see `ParseTagOnlyText` and `ParseTagOfElementsIsNull`.
- The comment at src/MathParser.cpp:1077 says the user is told about the
  problem. That branch cannot be taken, because `warning` starts equal to
  `all` and is tested as `warning && !all` (src/MathParser.cpp:1017, 1075).
  Even if it were taken, `cell` is null there, so `name` stays empty and no
  message is shown.

Files, in dependency order:

| file | contents |
|---|---|
| `wrappers.dfy` | `Option`, small sequence lemmas |
| `wxstring.dfy` | the `wxString` behaviour the code relies on: `Find`, `Mid`/`SubString` with `size_t` wrap-around, `Replace`, `wxStringTokenizer`, `%i` |
| `xml.dfy` | XML nodes, `SkipWhitespaceNode`, `GetNextTag` |
| `cells.dfy` | cells as values, `HandleNullPointer`, the serialisers of the cell classes outside this model |
| `subsup.dfy`, `limit.dfy`, `fun.dfy` | the three cell classes |
| `parser_spec.dfy` | what each parser operation builds, as functions, and the lemmas about them |
| `parser.dfy` | class `MathParser`, its methods proved against `parser_spec.dfy` |

## Model

| member | source | states |
|---|---|---|
| WxString.SizeT | src/LimitCell.cpp:148-150 | a signed position converted to `size_t` wraps modulo 2^64; in-range values are unchanged |
| WxString.Find | src/LimitCell.cpp:148 | `Find` returns the first occurrence of the pattern, or `wxNOT_FOUND` exactly when there is none |
| WxString.SubStringSlice | src/LimitCell.cpp:148-150 | an in-range `SubString(from, to)` is the inclusive slice, and `to == from - 1` gives "" |
| WxString.SubStringFromNotFound | src/LimitCell.cpp:148 | `SubString(0, wxNOT_FOUND - 1)` wraps around to the whole string |
| WxString.SubStringOfEmpty | src/LimitCell.cpp:149-150 | on the empty string, `SubString(1, Length() - 1)` is "" |
| WxString.ReplaceChar | src/MathParser.cpp:748 | the replacement keeps the length and changes exactly the occurrences of the character |
| WxString.Tokens | src/MathParser.cpp:750-751 | no token the tokenizer returns is empty or holds the delimiter |
| WxString.TokensCoverInput | src/MathParser.cpp:750-780 | the tokens, joined, are the input with the delimiters removed |
| WxString.TokensNonEmpty | src/MathParser.cpp:750-751 | input with any character other than the delimiter gives at least one token |
| WxString.NatToString | src/MathParser.cpp:467 | `%i` of a natural number is a non-empty string of decimal digits |
| WxString.NatToStringInjective | src/MathParser.cpp:467-472 | different indices give different `answer%i` keys |
| Xml.SkipWhitespaceNode | src/MathParser.cpp:62-77 | steps past the node exactly when it is a text node whose right-trimmed content has at most one character, otherwise stays; never past an element |
| Xml.GetNextTag | src/MathParser.cpp:79-84 | moves one or two siblings on, two exactly when the next sibling is a skippable text node; null stays null |
| Xml.ChildAtWithoutWhitespace | src/MathParser.cpp:79-84 | without skippable siblings, the `k`-th child a builder reads is the `k`-th child, or null past the end |
| Cells.HandleNullPointer | src/MathParser.cpp:480-492 | never null; non-null input is unchanged; null becomes the `TS_ERROR` text "Bug: Missing contents" with the bug-report tooltip |
| Cells.InvalidCellOr | src/LimitCell.cpp:64-68 | never null; a null child becomes a visibly invalid cell, anything else is kept |
| Cells.WithExponentFlag | src/MathParser.cpp:641-642 | only the first cell of the list changes, and only its exponent flag, which is set |
| Cells.WithStyle | src/FunCell.cpp:49-53 | only the first cell of the list changes, and only its style |
| SubSupCells.Erase | src/SubSupCell.cpp:67-71 | `RemoveCell` leaves exactly the other roles listed, and keeps the list free of repeats |
| SubSupCells.EraseAbsent | src/SubSupCell.cpp:67-71 | erasing a role that is not listed changes nothing |
| SubSupCells.RemoveOneCount | src/SubSupCell.cpp:67-71 | erasing a listed role shortens a repeat-free list by one |
| SubSupCells.WithBase | src/SubSupCell.cpp:117-122 | `SetBase` ignores null and otherwise replaces the base only |
| SubSupCells.Put | src/SubSupCell.cpp:73-107 | one role is replaced; the base, the other roles and the script list are unchanged |
| SubSupCells.SetRole | src/SubSupCell.cpp:73-107 | a multi-script setter ignores null; otherwise it replaces the role, moves it to the end of `m_scriptCells`, changes no other role, and keeps every role listed at most once and only when set |
| SubSupCells.SetTwoScript | src/SubSupCell.cpp:109-130 | `SetIndex`/`SetExponent` replace post-sub/post-sup and erase the role from the script list without appending it; the invariant is kept |
| SubSupCells.TwoScriptFormStaysEmpty | src/SubSupCell.cpp:109-130 | starting from a new cell, base, index and exponent leave `m_scriptCells` empty |
| SubSupCells.SetRoleOrder | src/SubSupCell.cpp:73-107 | a multi-script setter adds the role to the list when it was absent and keeps the length otherwise; the role set last is last |
| SubSupCells.SubSupCell.constructor | src/SubSupCell.cpp:38-43 | a new cell has a visibly invalid base, no scripts and an empty script list |
| SubSupCells.SubSupCell.SetBase | src/SubSupCell.cpp:117-122 | the new state is `WithBase` of the old one; the invariant is kept |
| SubSupCells.SubSupCell.SetPreSup | src/SubSupCell.cpp:73-80 | the new state is `SetRole(old, PreSup, c)`; the invariant is kept |
| SubSupCells.SubSupCell.SetPreSub | src/SubSupCell.cpp:82-89 | the new state is `SetRole(old, PreSub, c)`; the invariant is kept |
| SubSupCells.SubSupCell.SetPostSup | src/SubSupCell.cpp:91-98 | the new state is `SetRole(old, PostSup, c)`; the invariant is kept |
| SubSupCells.SubSupCell.SetPostSub | src/SubSupCell.cpp:100-107 | the new state is `SetRole(old, PostSub, c)`; the invariant is kept |
| SubSupCells.SubSupCell.SetIndex | src/SubSupCell.cpp:109-115 | the new state is `SetTwoScript(old, PostSub, c)`; the invariant is kept |
| SubSupCells.SubSupCell.SetExponent | src/SubSupCell.cpp:124-130 | the new state is `SetTwoScript(old, PostSup, c)`; the invariant is kept |
| SubSupCells.SubSupCell.Recalculate | src/SubSupCell.cpp:132-184 | scripts are measured at `max(MC_MIN_SIZE, fontsize - 3)`; height and centre as written, the pre-superscript compared with `subHeight`; width = max of the pre widths + base width + max of the post widths, absent roles counting 0 |
| SubSupCells.SubSupCell.ToString | src/SubSupCell.cpp:241-267 | alt-copy text verbatim; else the base, parenthesised when compound, then `[sub]^sup` for an empty script list or one `[..]` per listed role in list order; `None` exactly where the source dereferences a missing script |
| SubSupCells.SubSupCell.ToMatlab | src/SubSupCell.cpp:269-301 | as `ToString` without alt-copy; the multi-script list is `[;` followed by the entries with no separator between them |
| SubSupCells.SubSupCell.PreTeX | src/SubSupCell.cpp:337-344 | every set pre-script appears as a `^{...}` group |
| SubSupCells.TeXSup | src/SubSupCell.cpp:346-349 | a present script appears as a `^{...}` group |
| SubSupCells.TeXScriptsAreSuperscripts | src/SubSupCell.cpp:335-350 | in the multi-script TeX form every set script, the subscripts included, appears as a `^{...}` group |
| SubSupCells.SubSupCell.ToTeX | src/SubSupCell.cpp:303-352 | the two-script form holds the braced base, the `_{...}` subscript group and the `^{...}` superscript group in that order, with one more closing brace between them when `TeXExponentsAfterSubscript` is set; the multi-script form holds the braced base |
| SubSupCells.MultiScriptSups | src/SubSupCell.cpp:337-349 | the pre-script group, the braced base and the post `^{...}` groups together hold a `^{...}` group for every set script |
| SubSupCells.SubSupCell.MathMLScripts | src/SubSupCell.cpp:374-396 | the post pair is written exactly when a post script is set, then `<mprescripts/>` and the pre pair exactly when a pre script is set; within a written pair, a slot is `<none/>` with no role exactly when its script is null, and otherwise carries its role, which is set |
| SubSupCells.SubSupCell.MathMLScriptsOnce | src/SubSupCell.cpp:374-396 | every set script is written in exactly one slot |
| SubSupCells.SubSupCell.ToMathML | src/SubSupCell.cpp:354-400 | the multi-script form writes the base followed directly by the script slots inside `<mmultiscripts>`; the two-script form writes `<msubsup>`, the base and the subscript (or `<mrow/>`), and with a superscript set adds no character of it |
| SubSupCells.SubSupCell.ToOMML | src/SubSupCell.cpp:401-430 | the output ends with the `m:sSubSup` of the base and the post-scripts (`<m:r></m:r>` for a null slot); it is exactly that element when no pre-script is set, and starts with the empty-base `m:sSubSup` of the pre-scripts when one is |
| SubSupCells.SubSupCell.OMMLWritesEveryScript | src/SubSupCell.cpp:401-430 | the OMML of every set script, pre or post, occurs in the output |
| SubSupCells.SubSupCell.XMLFlags | src/SubSupCell.cpp:434-439 | starts with `breakline="true"` when a line break is forced; with no alt-copy text it is that attribute or nothing; an `altCopy` attribute is written exactly when there is alt-copy text, holding its escaped form |
| SubSupCells.SubSupCell.XMLScripts | src/SubSupCell.cpp:455-463 | every `pos` child written carries a set role, and its `pos` value is that role's name; the children come in the order presup, presub, postsup, postsub |
| SubSupCells.SubSupCell.XMLScriptsCover | src/SubSupCell.cpp:455-463 | every set script is written as some `pos` child |
| SubSupCells.SubSupCell.ToXML | src/SubSupCell.cpp:432-467 | an `<ie` element whose open tag carries exactly the `XMLFlags` attributes; the two-script form holds three positional `<r>` children, base, subscript and superscript (empty for a null script); the multi-script form holds the base `<r>` followed by the `pos` children |
| LimitCells.UnderFontSize | src/LimitCell.cpp:76 | the under text is measured at `max(8, fontsize - 1)` |
| LimitCells.LimitCell.constructor | src/LimitCell.cpp:35-50 | a new limit has three visibly invalid children, is not broken up and has no links |
| LimitCells.LimitCell.SetName | src/LimitCell.cpp:64 | the name is never null: null becomes a visibly invalid cell |
| LimitCells.LimitCell.SetBase | src/LimitCell.cpp:66 | the base is never null: null becomes a visibly invalid cell |
| LimitCells.LimitCell.SetUnder | src/LimitCell.cpp:68 | the under text is never null: null becomes a visibly invalid cell |
| LimitCells.LimitCell.RecalculateWidths | src/LimitCell.cpp:70-90 | 0 when broken up; otherwise max(name width, under width) + base width, so at least either sum |
| LimitCells.LimitCell.RecalculateHeight | src/LimitCell.cpp:92-116 | not broken: the centre is the larger of base and name centre, and the height is centre + max(name drop + under height, base drop), both bounds proved; broken: the name's height and centre |
| LimitCells.LimitCell.ToString | src/LimitCell.cpp:143-158 | with a `->` in the under text: `limit(base,var,to)` with `var` before the first arrow and `to` after it, a trailing `+`/`-` becoming `,plus`/`,minus` |
| LimitCells.LimitCell.ToMatlab | src/LimitCell.cpp:160-175 | the same as `ToString`, from the MATLAB texts of the lists |
| LimitCells.LimitSplit | src/LimitCell.cpp:148-150 | with an arrow: the text before and after the first `->`, the first part free of arrows; without one, the wrap-around gives the whole text and all but its first character |
| LimitCells.NoEarlierArrow | src/LimitCell.cpp:148 | the text before the first `->` contains no `->` |
| LimitCells.LimitSplitRejoins | src/LimitCell.cpp:148-150 | `var`, the arrow and `to` make up the under text again |
| LimitCells.PlusMinus | src/LimitCell.cpp:151-154 | a trailing `+` becomes `,plus`, a trailing `-` becomes `,minus`, anything else is kept |
| LimitCells.LimitCell.ToTeX | src/LimitCell.cpp:177-203 | `\lim_{var\to to}{base}`, cut at the first `->` (`to` 2 after it), else at the first `\mbox{\rightarrow }` (`to` 19 after it), else an empty `var` and the whole text as `to` |
| LimitCells.TeXSplitParts | src/LimitCell.cpp:181-200 | the cut `ToTeX` makes, in the three cases, as slices of the under text |
| LimitCells.CutAround | src/LimitCell.cpp:198-200 | the two `SubString` calls around a found arrow are the prefix before it and the suffix after it |
| LimitCells.LimitCell.ToMathML | src/LimitCell.cpp:205-216 | an empty under text gives `lim` and the base; a non-empty one gives `lim` over the under text, and the base is dropped |
| LimitCells.LimitCell.ToXML | src/LimitCell.cpp:218-227 | an `<lm` element, whose open tag is `<lm breakline="true">` when a line break is forced and `<lm>` otherwise, holding the name, the under text and the base as three `<r>` children, in that order |
| LimitCells.LimitCell.ToOMML | src/LimitCell.cpp:229-237 | the under text, its `->` replaced by U+2192, is the `limLow`'s limit and contains no `->`; the base is the function's argument |
| LimitCells.FirstOfOMMLUnder | src/LimitCell.cpp:231-232 | the first character of the replaced under text is U+2192 exactly when the text starts with `->` |
| LimitCells.NoArrowOMMLUnder | src/LimitCell.cpp:231-232 | after the replacement no `-` is directly followed by `>` |
| LimitCells.ArrowFree | src/LimitCell.cpp:231-232 | after the replacement the under text contains no `->` |
| LimitCells.LimitCell.BreakUp | src/LimitCell.cpp:240-254 | a second call changes nothing and returns false; the first sets the flag and chains name, `(`, base, `,`, under, `)`, then the cell's old next |
| FunCells.FunctionName | src/FunCell.cpp:49-53 | never null, and the first cell has the `TS_FUNCTION` style; other cells unchanged |
| FunCells.FunCell.constructor | src/FunCell.cpp:31-39 | a new function cell has placeholder name and argument, is not broken up and has no links |
| FunCells.FunCell.SetName | src/FunCell.cpp:49-53 | the name is `FunctionName(c)`, never null, styled as a function |
| FunCells.FunCell.SetArg | src/FunCell.cpp:55-58 | the argument is never null: null becomes a visibly invalid cell |
| FunCells.FunCell.RecalculateWidths | src/FunCell.cpp:60-72 | name width + argument width - `Scale_Px(1)`, and 0 when broken up |
| FunCells.FunCell.RecalculateHeight | src/FunCell.cpp:74-89 | not broken: the centre is the larger centre and the height is centre + the larger drop, both bounds proved; broken: height 0, centre unchanged |
| FunCells.FunCell.ToString | src/FunCell.cpp:105-112 | "" when broken up; else the alt-copy text when set; else the name's text followed by the argument's |
| FunCells.FunCell.ToTeX | src/FunCell.cpp:124-147 | "" when broken up; a name among sin, cos, cosh, sinh, log, cot, sec, csc, tan gives `\name{arg}`; any other name gives the plain concatenation |
| FunCells.FunCell.ToXML | src/FunCell.cpp:149-158 | an `<fn` element, whose open tag is `<fn breakline="true">` when a line break is forced and `<fn>` otherwise, holding the name in an `<r>` child, directly followed by the argument's XML |
| FunCells.FunCell.ToMathML | src/FunCell.cpp:160-166 | the name and the argument with the function-application operator U+2061 between them |
| FunCells.FunCell.ToOMML | src/FunCell.cpp:168-172 | the name's OMML directly followed by the argument's, nothing else |
| FunCells.FunCell.BreakUp | src/FunCell.cpp:174-185 | a second call returns false and changes nothing; the first sets the flag, zeroes the width and links the name list to the argument list and the argument list to the old next |
| ParserSpec.CommonAttrsEffect | src/MathParser.cpp:802-816 | `breakline="true"` forces a break, and a `tooltip` or `altCopy` attribute that is present replaces the cell's own; nothing else changes, and a null node changes nothing |
| ParserSpec.WithCommonAttrs | src/MathParser.cpp:792 | the common attributes go to the first cell only |
| ParserSpec.LineCells | src/MathParser.cpp:750-785 | one cell per line, each the text cell of that line, forced onto a new line after the first |
| ParserSpec.LineCellsStep | src/MathParser.cpp:779-785 | one more line appends one more cell |
| ParserSpec.TextCellType | src/MathParser.cpp:755-772 | error and warning text get the error and warning types, both label styles the label type, and every other style the parser's type |
| ParserSpec.TextCellTypeIgnoresParser | src/MathParser.cpp:755-772 | a text cell's type is independent of the parser's type exactly for the error, warning and label styles |
| ParserSpec.ParseTextIsText | src/MathParser.cpp:788-793 | `ParseText` never returns null, and only text cells |
| ParserSpec.ParseTextLines | src/MathParser.cpp:750-785 | one cell per `'\n'` token, each holding its token in the given style; every cell after the first has a forced line break; the first carries the node's common attributes |
| ParserSpec.ParseTextEmpty | src/MathParser.cpp:746-790 | a null node, or content with nothing but newlines, gives one empty text cell with the node's common attributes |
| ParserSpec.ParseTextKeepsText | src/MathParser.cpp:746-782 | the cells' texts, joined, are the content with `-` replaced by U+2212 and the newlines removed; no `-` is left |
| ParserSpec.Child | src/MathParser.cpp:536-540 | a child a positional builder reads is never null |
| ParserSpec.ParseTagOne | src/MathParser.cpp:1020-1094 | without `all`, `ParseTag` reads one node: a text node gives its text cells; an element or the end of the list gives null |
| ParserSpec.ElementChildIsMissing | src/MathParser.cpp:1036-1040 | a positional child that is an element becomes the missing-contents placeholder |
| ParserSpec.ParseTagOnlyText | src/MathParser.cpp:1024-1073 | `ParseTag` only ever returns text cells: the cells built for elements never reach its result |
| ParserSpec.ParseTagConcatenatesText | src/MathParser.cpp:1051-1073 | siblings that are all text give all their cells, in order |
| ParserSpec.ParseTagOfElementsIsNull | src/MathParser.cpp:1024-1050 | siblings that are all elements give null, whatever they build |
| ParserSpec.ParseTagLosesTextAfterElement | src/MathParser.cpp:1040-1073 | text, element, text: the second text is lost when the first makes one cell |
| ParserSpec.RunStep | src/MathParser.cpp:1022-1094 | one iteration of `ParseTag`'s loop: where Visit leaves the walk, the rest of the loop gives the same result |
| ParserSpec.RunEquivalent | src/MathParser.cpp:1022-1094 | an `ownedCell` that `cell` does not point into never affects the result |
| ParserSpec.FracSpec | src/MathParser.cpp:531-551 | numerator and denominator are never null; `diffstyle="yes"` gives a derivative, else `line="no"` a binomial, else the parser's fraction style |
| ParserSpec.DiffSpec | src/MathParser.cpp:553-573 | with a first child, the differential is that child read in derivative fraction style; without one, an empty cell with the node's attributes only |
| ParserSpec.SubSpec | src/MathParser.cpp:690-706 | base and index are never null, and the index is exponent-flagged |
| ParserSpec.LimitSpec | src/MathParser.cpp:902-916 | name, under text and base are never null |
| ParserSpec.SumSpec | src/MathParser.cpp:918-938 | `type` defaults to "sum"; "prod" gives a product; the upper limit is null exactly for "lsum"; the base is the third child |
| ParserSpec.IntSpec | src/MathParser.cpp:940-971 | definite exactly when `def` (default "true") is "true"; definite: both limits set and the third child as base; indefinite: no limits and the first child as base |
| ParserSpec.FunSpec | src/MathParser.cpp:724-740 | name and argument are never null, and the name is styled as a function |
| ParserSpec.FunLambdaHint | src/MathParser.cpp:736-738 | the tooltip is the lambda hint exactly when the function's text shows `)(`, and the `tooltip` attribute otherwise |
| ParserSpec.RoleOfPos | src/MathParser.cpp:618-627 | a role exactly for presub, presup, postsub and postsup, and the role whose `pos` name that is |
| ParserSpec.PosNamesReadBack | src/SubSupCell.cpp:457-463 | every `pos` value the XML writer uses is read back as the role it was written for |
| ParserSpec.PosLoop | src/MathParser.cpp:614-631 | the `pos` loop keeps the base and the cell invariant |
| ParserSpec.PosStep | src/MathParser.cpp:618-629 | an unknown `pos` changes nothing; a known one puts the child, never null, in the role it names and moves that role to the end of the script list, leaving the other roles and the base alone; the invariant is kept |
| ParserSpec.SubSupSpec | src/MathParser.cpp:606-650 | the cell built satisfies the `SubSupCell` invariant |
| ParserSpec.SubSupPositionalOrder | src/MathParser.cpp:633-648 | without `pos`, three children are read as base, exponent-flagged subscript and exponent-flagged superscript, the order the XML writer's two-script form uses, with no other script |
| ParserSpec.LimitPositionalOrder | src/MathParser.cpp:902-911 | three children are read as name, under text and base, the order `LimitCell::ToXML` writes them in |
| ParserSpec.FunPositionalOrder | src/MathParser.cpp:730-734 | the first two children are read as name and argument, the order `FunCell::ToXML` writes them in |
| ParserSpec.MmLoop | src/MathParser.cpp:661-686 | the multi-script loop keeps the cell invariant; what it gives each child is `MmLoopFollowsAssign` |
| ParserSpec.MmultiscriptsSpec | src/MathParser.cpp:652-688 | the cell built satisfies the `SubSupCell` invariant |
| ParserSpec.Assign | src/MathParser.cpp:661-686 | the reference alternation over tag names: one role or none per child |
| ParserSpec.AssignAlternates | src/MathParser.cpp:661-686 | without `mprescripts`, the roles alternate sub, sup, sub, ... from the start, and a `none` takes its turn but is given nothing |
| ParserSpec.AssignAppend | src/MathParser.cpp:661-686 | the roles of a concatenation are those of the first part, then those of the second part started from the flags the first part left |
| ParserSpec.PrescriptsRestart | src/MathParser.cpp:663-669 | `mprescripts` is given nothing, switches to the pre-scripts and starts again at the subscript, whatever came before |
| ParserSpec.PairReadBack | src/MathParser.cpp:661-686 | a sub/sup pair in order is read back as that pair, and the flags return to their values |
| ParserSpec.PrePairReadBack | src/MathParser.cpp:661-686 | `mprescripts` then a pre pair are read back as no role and that pair, whatever the flags |
| ParserSpec.MmLoopFollowsAssign | src/MathParser.cpp:661-686 | without white space, the loop gives every child the role `Assign` computes from the tag names, in order, each child's parse going into its role |
| ParserSpec.MathMLScriptsReadBack | src/SubSupCell.cpp:373-396 | the alternation, run over the tag names `ToMathML` writes after the base of `<mmultiscripts>`, gives back the roles the slots were written for |
| ParserSpec.MmultiscriptsReadsMathMLRoles | src/MathParser.cpp:661-686 | the loop over children named as `ToMathML` names its slots gives each child the role of its slot, and nothing to `<none/>` and `<mprescripts/>` |
| ParserSpec.MmLoopOfElements | src/MathParser.cpp:671-681 | as written, element children leave the cell unchanged: each element parses to null, which the setters ignore |
| ParserSpec.XMLScriptsReadBack | src/SubSupCell.cpp:455-463 | every `pos` child the XML writer writes is read back as the role it was written for |
| ParserSpec.Visited | src/MathParser.cpp:992-1004 | the siblings a walk visits lie ahead of the start, within the list |
| ParserSpec.VisitedAll | src/MathParser.cpp:992-1004 | without white space every sibling is visited, in order |
| ParserSpec.RowCells | src/MathParser.cpp:996-1002 | a row has one cell for every visited child |
| ParserSpec.RowCellsAt | src/MathParser.cpp:996-1002 | cell `k` of a row is `HandleNullPointer(ParseTag(..., false))` of the `k`-th visited child, so an element child becomes the missing-contents placeholder |
| ParserSpec.TableRows | src/MathParser.cpp:992-1004 | one row for every visited child, each as long as that child's visited children |
| ParserSpec.TableRowsAt | src/MathParser.cpp:992-1004 | row `k` is the row of cells read from the children of the `k`-th visited child, starting after leading white space |
| ParserSpec.TableSpec | src/MathParser.cpp:973-1010 | a matrix; special exactly when `special` or `inference` is set, so inference implies special |
| ParserSpec.TableShape | src/MathParser.cpp:992-1004 | without white space, row `k` holds one cell per child of the `k`-th child |
| ParserSpec.TableRowOf | src/MathParser.cpp:992-1004 | without white space, row `k` is the row of cells of the `k`-th child |
| ParserSpec.RowCellOf | src/MathParser.cpp:996-1002 | without white space, cell `m` of a row is the positional read of the `m`-th child |
| ParserSpec.TableCells | src/MathParser.cpp:992-1004 | without white space, matrix cell `(k, m)` is the positional read (`HandleNullPointer(ParseTag(..., false))`) of the `m`-th child of the `k`-th child |
| ParserSpec.EditorType | src/MathParser.cpp:497-513 | a cell type is selected exactly for the eight recognised `type` values, `input` (the default) selecting the input type; none of them selects an error, warning, label or default type |
| ParserSpec.EditorTypeInjective | src/MathParser.cpp:497-513 | different recognised `type` values select different cell types |
| ParserSpec.JoinLinesCons | src/MathParser.cpp:515-525 | lines are joined with a newline between them |
| ParserSpec.EditorLineStep | src/MathParser.cpp:517-522 | one `<line>` step of the loop continues the newline-joined text |
| ParserSpec.EditorJoinsLines | src/MathParser.cpp:515-527 | when no `<line>` is empty, the editor text is the lines' contents joined by newlines |
| ParserSpec.SectioningLevel | src/MathParser.cpp:429-449 | "0" and "3" give a subsection, "4" a subsubsection, "5" heading 5, any other value heading 6 |
| ParserSpec.SubsectionGroup | src/MathParser.cpp:429-449 | the group type is that of `sectioning_level` (default "0"), with no answers and the tooltip marker as `hideToolTip` says |
| ParserSpec.AnswersStep | src/MathParser.cpp:467-473 | a present `answer<i>` gives the next pair |
| ParserSpec.AnswersRead | src/MathParser.cpp:464-474 | the `k`-th answer comes from `answer<i+k>`, paired with `question<i+k>` or "Question #<i+k>"; the loop stops at the first missing index |
| ParserSpec.AnswerKeysCount | src/MathParser.cpp:464-474 | the loop ends: `i` answer keys take `i` attributes |
| ParserSpec.CodeGroup | src/MathParser.cpp:458-477 | a code group, answering automatically exactly when `auto_answer` is "yes", with the tooltip marker as `hideToolTip` says |
| ParserSpec.LengthCeiling | src/MathParser.cpp:1109-1125 | the `ShowLength` ceiling is absent exactly for setting 3, otherwise between 6000 and 250000 characters, and 50000 for a setting outside 0-3 |
| ParserSpec.AdmittedDownward | src/MathParser.cpp:1109-1129 | the length gate admits any shorter line too, and setting 3 admits any length |
| ParserSpec.LineSpec | src/MathParser.cpp:1100-1148 | a line at or above the `ShowLength` ceiling gives exactly the one forced-break warning cell with its tooltip, and no XML is read; a line below it with no root gives null |
| Parser.MathParser.constructor | src/MathParser.cpp:86-155 | a new parser has the default cell type, no highlighting and normal fractions |
| Parser.MathParser.ParseText | src/MathParser.cpp:742-794 | the loop builds exactly `ParseTextSpec` |
| Parser.MathParser.ParseTag | src/MathParser.cpp:1012-1098 | the loop builds exactly `ParseTagSpec`, and the parser's state is unchanged |
| Parser.MathParser.BuildElement | src/MathParser.cpp:1028-1037 | the element branch builds exactly `ElementSpec`: the builder's result, else the children as a list |
| Parser.MathParser.CallBuilder | src/MathParser.cpp:91-135 | the call through `m_innerTags` builds exactly `BuilderSpec` of the tag's builder |
| ParserSpec.InnerTag | src/MathParser.cpp:93-134 | the tags the modelled writers emit select the builders that read them: exactly `ie` the sub/superscript builder, `lm` the limit builder, `fn` the function builder, `mmultiscripts` its builder, `r`/`mrow` the contents builder, `f`/`mfrac` the fraction builder, `i`/`munder` the index builder; `none` and `mprescripts` select none |
| Parser.MathParser.ParseTagContents | src/MathParser.cpp:167-172 | the children as a list; state unchanged |
| Parser.MathParser.ParseHighlightTag | src/MathParser.cpp:174-181 | the children as a list parsed with highlighting on; `m_highlight` is restored |
| Parser.MathParser.ParseFracTag | src/MathParser.cpp:531-551 | builds exactly `FracSpec`; state unchanged |
| Parser.MathParser.ParseDiffTag | src/MathParser.cpp:553-573 | builds exactly `DiffSpec`; `m_FracStyle` is restored |
| Parser.MathParser.ParseSubTag | src/MathParser.cpp:690-706 | builds exactly `SubSpec`; state unchanged |
| Parser.MathParser.ParseLimitTag | src/MathParser.cpp:902-916 | builds exactly `LimitSpec`; state unchanged |
| Parser.MathParser.ParseSumTag | src/MathParser.cpp:918-938 | builds exactly `SumSpec`; state unchanged |
| Parser.MathParser.ParseIntTag | src/MathParser.cpp:940-971 | builds exactly `IntSpec`; state unchanged |
| Parser.MathParser.ParseFunTag | src/MathParser.cpp:724-740 | builds exactly `FunSpec`; state unchanged |
| Parser.MathParser.ParseNameAndArg | src/MathParser.cpp:727-734 | sets the name and the argument from the first two children, in the parser's type and the function style |
| Parser.MathParser.ParseFunctionName | src/MathParser.cpp:727-731 | the name is the first child, styled as a function; returns the position of the second |
| Parser.MathParser.ParseSubSupTag | src/MathParser.cpp:606-650 | builds exactly `SubSupSpec`; state unchanged |
| Parser.MathParser.ParseBase | src/MathParser.cpp:608-612 | the base is the first child; returns the position of the second |
| Parser.MathParser.ParseIndexAndExponent | src/MathParser.cpp:633-648 | index and exponent are the next two children, both exponent-flagged |
| Parser.MathParser.ParsePositionedScripts | src/MathParser.cpp:614-631 | the loop builds exactly `PosLoop` |
| Parser.MathParser.ParsePositionedScript | src/MathParser.cpp:618-629 | one step builds exactly `PosStep` |
| Parser.MathParser.ParseMmultiscriptsTag | src/MathParser.cpp:652-688 | builds exactly `MmultiscriptsSpec`; state unchanged |
| Parser.MathParser.ParsePairedScripts | src/MathParser.cpp:661-686 | the loop builds exactly `MmLoop` |
| Parser.MathParser.ParseTableTag | src/MathParser.cpp:973-1010 | builds exactly `TableSpec`; state unchanged |
| Parser.MathParser.ParseTableRow | src/MathParser.cpp:995-1002 | one row: one cell per visited child |
| Parser.MathParser.ParseEditorTag | src/MathParser.cpp:494-529 | builds exactly `EditorSpec` |
| Parser.MathParser.GroupCellFromSubsectionTag | src/MathParser.cpp:429-449 | builds exactly `SubsectionGroup` |
| Parser.MathParser.GroupCellFromCodeTag | src/MathParser.cpp:458-477 | the answer loop builds exactly `CodeGroup` |
| Parser.MathParser.ParseLine | src/MathParser.cpp:1100-1148 | builds exactly `LineSpec`; the parser's type is the given style, highlighting is off and fractions are normal |

## Left out

- SubSupCells.SubSupCell.Recalculate: the width is stated only when every present script has a non-negative width. When a subscript is set and its superscript partner is not, the source takes that subscript's width as it is, while the stated maximum with the absent script's 0 would clamp a negative width.
- Drawing (`Draw` of every cell class) is left out, because it is toolkit painting.
- The `Scale_Px(...)` values are integer parameters (`expIndent`, `onePx`), because the source computes them in floating point from the configuration. `MC_MIN_SIZE` is a parameter too.
- SubSupCells.SubSupCell.Recalculate: the font size (`AFontSize`, a floating-point value, src/SubSupCell.cpp:132-134) is an `int`, so `fontsize - SUBSUP_DEC` and its clamp at `MC_MIN_SIZE` are integer arithmetic; fractional sizes are not modelled.
- The `_()` translation of the fixed texts is left out; the model uses the English texts: "Bug: Missing contents" and its tooltip (src/MathParser.cpp:485-488), the lambda hint (src/MathParser.cpp:737) and the too-long text and its tooltip (src/MathParser.cpp:1141-1143). The translation depends on the run-time locale catalogue.
- The `TeXExponentsAfterSubscript` configuration read is a boolean parameter of `SubSupCell::ToTeX`, because it is a `wxConfig` lookup.
- `ParseLine` is given the document root as a parameter. Loading the XML (`wxXmlDocument::Load`) and the control-character clean-up are left out, because they are library I/O.
- The warning `ParseTag` would show for an unknown tag (`LoggingMessageBox`) is left out, because it is user interface and its branch cannot be taken.
- The cell classes outside this model are left out: `TextCell`, `FracCell`, `ExptCell`, `SumCell`, `IntCell`, `DiffCell`, `MatrCell`, `EditorCell`, `GroupCell`, `VisiblyInvalidCell` and the `ListTo*` serialisers. They appear only as the fields the parser sets and as the functions of a `Renderer`, because their source is not part of this model.
- The builders registered for `v`/`mi` (variable names), `mo` (operators), `t` (miscellaneous text), `n`/`mn` (numbers), `p` (parentheses), `e`/`msup` (exponents), `g` (Greek letters), `s` (special constants), `fnm` (function names), `q` (square roots), `mspace`, `at`, `a` (absolute values), `cj` (conjugates), `mth`/`line`, `lbl` (output labels), `st` (strings), `h` (hidden operators), `img` (images), `slide` (slide shows) and `ascii` (character codes) are not modelled. `ParserSpec.InnerTag` maps each of them, like `cell` (see the next line), to `NotModelled`, which answers `None`, because they depend on cell classes outside this model or on the file system.
- `ParseCellTag` and the group builders other than subsection and code are left out. `ParseCellTag` splices raw draw links, and its `continue` does not advance on a null parse.
- The zip file-system set-up in the constructor is left out, because it is I/O.
- src/MathParser.h is not part of this model; it holds declarations only.
- `FunCell::ToMatlab` is left out: with alt-copy text set it appends `Cell::ListToMatlab()` of the cell's own list, whose serialisation is not part of this model.
- LimitCells.LimitCell.RecalculateWidths: the `NeedsRecalculation(fontsize)` early exit (src/LimitCell.cpp:72) is not modelled; the model describes a recalculation that runs, and keeps no layout cache.
- LimitCells.LimitCell.RecalculateHeight: the same early exit (src/LimitCell.cpp:94) is not modelled, for the same reason.
- FunCells.FunCell.RecalculateWidths: the `NeedsRecalculation(fontsize)` early exit (src/FunCell.cpp:62) is not modelled, for the same reason.
- FunCells.FunCell.RecalculateHeight: the same early exit (src/FunCell.cpp:76) is not modelled, for the same reason.
- LimitCells.LimitCell.BreakUp: the `ResetData()` call (src/LimitCell.cpp:252), which clears the layout cache, is not modelled, since the model keeps no cache.
- FunCells.FunCell.BreakUp: the `ResetData()` call (src/FunCell.cpp:183) is not modelled, for the same reason.
- The ownership of cells (`unique_ptr` moves, the freeing of `ownedCell`) is modelled only as which list a cell ends up in.
