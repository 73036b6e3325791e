/**
 * The XML-to-cell translation of `MathParser`, as functions of the parsed
 * document and of the parser's state (`m_ParserStyle`, `m_highlight`,
 * `m_FracStyle`).  The `MathParser` class computes these step by step.
 */
module ParserSpec {
  import opened Wrappers
  import opened Cells
  import opened Xml
  import WxString
  import SubSupCells
  import FunCells

  /** The parser fields the builders read. */
  datatype Ctx = Ctx(parserStyle: CellType, highlight: bool, fracStyle: FracStyle)

  // ---------------------------------------------------------------- ParseCommonAttrs

  /**
   * `ParseCommonAttrs`: `breakline="true"` forces a line break, a `tooltip`
   * or `altCopy` attribute that is present (even empty) replaces the cell's
   * one; a null node changes nothing.
   */
  function CommonAttrs(n: Option<Node>, c: Common): Common
  {
    if n.None? then c
    else
      var node := n.value;
      var c1 := if Attribute(node, "breakline", "false") == "true" then c.(forceBreak := true) else c;
      var c2 := if HasAttribute(node, "tooltip") then c1.(toolTip := node.attrs["tooltip"]) else c1;
      if HasAttribute(node, "altCopy") then c2.(altCopy := node.attrs["altCopy"]) else c2
  }

  lemma CommonAttrsEffect(n: Option<Node>, c: Common)
    ensures var r := CommonAttrs(n, c);
      && (n.None? ==> r == c)
      && (n.Some? ==> r.forceBreak == (c.forceBreak || Attribute(n.value, "breakline", "false") == "true"))
      && (n.Some? ==> r.toolTip == Attribute(n.value, "tooltip", c.toolTip))
      && (n.Some? ==> r.altCopy == Attribute(n.value, "altCopy", c.altCopy))
      && r.(forceBreak := c.forceBreak, toolTip := c.toolTip, altCopy := c.altCopy) == c
  {
  }

  /** `ParseCommonAttrs` applied to the first cell of a list. */
  function WithCommonAttrs(n: Option<Node>, cells: Chain): (r: Chain)
    requires cells != []
    ensures |r| == |cells| && r[1..] == cells[1..]
    ensures r[0] == cells[0].(common := CommonAttrs(n, cells[0].common))
  {
    [cells[0].(common := CommonAttrs(n, cells[0].common))] + cells[1..]
  }

  // ---------------------------------------------------------------- ParseText

  /** U+2212 MINUS SIGN, which replaces every `-`. */
  const UnicodeMinus: char := '\U{2212}'

  /** The cell type `ParseText` gives a text cell of a given style. */
  function TextCellType(style: TextStyle, parserStyle: CellType): (t: CellType)
    ensures style.Error? ==> t == TypeError
    ensures style.Warning? ==> t == TypeWarning
    ensures style.Label? || style.UserLabel? ==> t == TypeLabel
    ensures !OwnTypeStyle(style) ==> t == parserStyle
  {
    match style
    case Error => TypeError
    case Warning => TypeWarning
    case Label => TypeLabel
    case UserLabel => TypeLabel
    case _ => parserStyle
  }

  /** The styles that give a text cell a type of their own rather than the parser's. */
  predicate OwnTypeStyle(style: TextStyle)
  {
    style.Error? || style.Warning? || style.Label? || style.UserLabel?
  }

  /** A text cell's type ignores the parser's style exactly for the error, warning and label styles. */
  lemma TextCellTypeIgnoresParser(style: TextStyle)
    ensures (forall p, q :: TextCellType(style, p) == TextCellType(style, q)) <==> OwnTypeStyle(style)
  {
    if !OwnTypeStyle(style) {
      assert TextCellType(style, TypeInput) != TextCellType(style, TypeText);
    }
  }

  /** The text cell of one line; every line after the first starts a new line. */
  function LineCell(token: string, style: TextStyle, ctx: Ctx, follows: bool): Cell
  {
    Cell(Fresh.(cellType := TextCellType(style, ctx.parserStyle), style := style,
                highlight := ctx.highlight, forceBreak := follows),
         TextBody(token))
  }

  function LineCells(tokens: seq<string>, style: TextStyle, ctx: Ctx): (c: Chain)
    ensures |c| == |tokens|
    ensures forall k :: 0 <= k < |c| ==> c[k] == LineCell(tokens[k], style, ctx, k > 0)
  {
    if tokens == [] then []
    else LineCells(tokens[..|tokens| - 1], style, ctx) + [LineCell(tokens[|tokens| - 1], style, ctx, |tokens| > 1)]
  }

  /** `LineCells` of one more token: one more cell at the end. */
  lemma LineCellsStep(tokens: seq<string>, k: nat, style: TextStyle, ctx: Ctx)
    requires k < |tokens|
    ensures LineCells(tokens[..k + 1], style, ctx) == LineCells(tokens[..k], style, ctx) + [LineCell(tokens[k], style, ctx, k > 0)]
  {
    assert tokens[..k + 1][..k] == tokens[..k];
  }

  /** The text of a node, minus signs replaced. */
  function TextOf(n: Option<Node>): string
  {
    var str := if n.Some? then Content(n.value) else "";
    WxString.ReplaceChar(str, '-', UnicodeMinus)
  }

  /** The lines `ParseText` makes cells of: the `'\n'`-separated tokens of the content. */
  function TextLines(n: Option<Node>): seq<string>
  {
    var str := if n.Some? then Content(n.value) else "";
    if str != "" then WxString.Tokens(TextOf(n), '\n') else []
  }

  /** The empty text cell `ParseText` returns when there is nothing to show. */
  const EmptyText: Cell := Cell(Fresh, TextBody(""))

  /** `ParseText(node, style)` */
  function ParseTextSpec(n: Option<Node>, style: TextStyle, ctx: Ctx): Chain
  {
    var cells := LineCells(TextLines(n), style, ctx);
    WithCommonAttrs(n, if cells == [] then [EmptyText] else cells)
  }

  /** `ParseText` never returns null, and only text cells. */
  lemma ParseTextIsText(n: Option<Node>, style: TextStyle, ctx: Ctx)
    ensures ParseTextSpec(n, style, ctx) != []
    ensures AllText(ParseTextSpec(n, style, ctx))
  {
  }

  function TextValue(c: Cell): string
  {
    if c.body.TextBody? then c.body.value else ""
  }

  function TextValues(c: Chain): string
  {
    if c == [] then "" else TextValue(c[0]) + TextValues(c[1..])
  }

  /**
   * `ParseText` makes one cell per line, each with the line as its text and
   * the given style; every cell after the first has a forced line break.
   */
  lemma ParseTextLines(n: Option<Node>, style: TextStyle, ctx: Ctx)
    requires TextLines(n) != []
    ensures var c := ParseTextSpec(n, style, ctx);
      && |c| == |TextLines(n)|
      && (forall k :: 0 <= k < |c| ==> c[k].body == TextBody(TextLines(n)[k]) && c[k].common.style == style)
      && (forall k :: 1 <= k < |c| ==> c[k].common.forceBreak)
      && c[0].common == CommonAttrs(n, LineCell(TextLines(n)[0], style, ctx, false).common)
  {
    var cells := LineCells(TextLines(n), style, ctx);
    var c := WithCommonAttrs(n, cells);
    assert c == ParseTextSpec(n, style, ctx);
    forall k | 1 <= k < |c|
      ensures c[k] == cells[k]
    {
      assert c[k] == c[1..][k - 1];
    }
  }

  /**
   * Null, empty or newline-only content gives a single empty text cell
   * (carrying the node's common attributes).
   */
  lemma {:induction false} ParseTextEmpty(n: Option<Node>, style: TextStyle, ctx: Ctx)
    requires n.None? || WxString.Without(Content(n.value), '\n') == ""
    ensures ParseTextSpec(n, style, ctx) == [EmptyText.(common := CommonAttrs(n, Fresh))]
  {
    if n.Some? && Content(n.value) != "" {
      WithoutOfReplaced(Content(n.value));
      WxString.TokensCoverInput(TextOf(n), '\n');
      var ts := WxString.Tokens(TextOf(n), '\n');
      if ts != [] {
        ConcatNonEmpty(ts);
      }
    }
  }

  /**
   * Nothing but the line breaks is lost: the cells' texts, joined, are the
   * content with `-` replaced by U+2212 and the newlines removed, and no `-`
   * is left.
   */
  lemma ParseTextKeepsText(n: Option<Node>, style: TextStyle, ctx: Ctx)
    ensures TextValues(ParseTextSpec(n, style, ctx)) == WxString.Without(TextOf(n), '\n')
    ensures forall k :: 0 <= k < |ParseTextSpec(n, style, ctx)| ==> '-' !in TextValue(ParseTextSpec(n, style, ctx)[k])
  {
    var c := ParseTextSpec(n, style, ctx);
    var str := if n.Some? then Content(n.value) else "";
    if str == "" {
      assert TextOf(n) == "";
      assert TextValues(c) == "";
    } else {
      var ts := WxString.Tokens(TextOf(n), '\n');
      WxString.TokensCoverInput(TextOf(n), '\n');
      if ts == [] {
        assert TextValues(c) == "" + TextValues(c[1..]);
      } else {
        ValuesOfLines(c, ts);
      }
    }
    forall k | 0 <= k < |c|
      ensures '-' !in TextValue(c[k])
    {
      if str != "" && TextLines(n) != [] {
        TokenInReplaced(TextOf(n), k);
      }
    }
  }

  lemma {:induction false} ValuesOfLines(c: Chain, ts: seq<string>)
    requires |c| == |ts| && forall k :: 0 <= k < |c| ==> c[k].body == TextBody(ts[k])
    ensures TextValues(c) == WxString.Concat(ts)
  {
    if c != [] {
      ValuesOfLines(c[1..], ts[1..]);
    }
  }

  lemma {:induction false} ConcatNonEmpty(ts: seq<string>)
    requires ts != [] && ts[0] != []
    ensures WxString.Concat(ts) != ""
  {
  }

  lemma {:induction false} WithoutOfReplaced(s: string)
    ensures WxString.Without(WxString.ReplaceChar(s, '-', UnicodeMinus), '\n') == "" <==> WxString.Without(s, '\n') == ""
    decreases |s|
  {
    if s != [] {
      var r := WxString.ReplaceChar(s, '-', UnicodeMinus);
      assert r[1..] == WxString.ReplaceChar(s[1..], '-', UnicodeMinus);
      WithoutOfReplaced(s[1..]);
    }
  }

  lemma TokenInReplaced(s: string, k: nat)
    requires forall j :: 0 <= j < |s| ==> s[j] != '-'
    requires k < |WxString.Tokens(s, '\n')|
    ensures '-' !in WxString.Tokens(s, '\n')[k]
  {
    TokensFromChars(s, '\n', '-');
  }

  lemma {:induction false} TokensFromChars(s: string, delim: char, x: char)
    requires x !in s
    ensures forall k :: 0 <= k < |WxString.Tokens(s, delim)| ==> x !in WxString.Tokens(s, delim)[k]
    decreases |s|
  {
    if s != [] {
      if s[0] == delim {
        TokensFromChars(s[1..], delim, x);
      } else {
        var k := WxString.RunLength(s, delim);
        assert x !in s[..k] && x !in s[k..] by {
          assert forall j :: 0 <= j < k ==> s[..k][j] == s[j];
          assert forall j :: 0 <= j < |s| - k ==> s[k..][j] == s[k + j];
        }
        TokensFromChars(s[k..], delim, x);
      }
    }
  }

  // ---------------------------------------------------------------- ParseTag

  /**
   * Where `ParseTag`'s local `cell` points: nowhere, at the `k`-th cell of
   * the result list `retval`, or at the `k`-th cell of the list held by the
   * local `ownedCell`, which is never linked into the result.
   */
  datatype Cursor = Null | InResult(k: nat) | InOrphan(k: nat)

  /** The locals `retval`, `ownedCell` and `cell` of `ParseTag`. */
  datatype Walk = Walk(result: Chain, orphan: Chain, cursor: Cursor)

  const Start: Walk := Walk([], [], Null)

  /** `cell = cell->m_next` */
  function Advance(w: Walk): Walk
  {
    match w.cursor
    case Null => w
    case InResult(k) => w.(cursor := if k + 1 < |w.result| then InResult(k + 1) else Null)
    case InOrphan(k) => w.(cursor := if k + 1 < |w.orphan| then InOrphan(k + 1) else Null)
  }

  /**
   * The first half of a loop iteration.  An element's own result is only
   * used when it is null, and then it replaces `ownedCell` or is appended as
   * nothing; a text node's cells start `ownedCell` or go to the end of the
   * list `cell` is in.
   */
  function Absorb(w: Walk, node: Node, text: Node -> Chain): Walk
  {
    if node.Element? then
      if w.cursor.Null? then w.(orphan := []) else w
    else
      var lines := text(node);
      match w.cursor
      case Null => Walk(w.result, lines, InOrphan(0))
      case InResult(_) => w.(result := w.result + lines)
      case InOrphan(_) => w.(orphan := w.orphan + lines)
  }

  /**
   * The second half: with `cell` set, an empty `retval` takes over
   * `ownedCell` (and `cell` stays where it is), otherwise `cell` moves on.
   */
  function Link(w: Walk): Walk
  {
    if w.cursor.Null? then w
    else if w.result == [] then Walk(w.orphan, [], match w.cursor case InOrphan(k) => InResult(k) case c => c)
    else Advance(w)
  }

  function Visit(w: Walk, node: Node, text: Node -> Chain): Walk
  {
    Link(Absorb(w, node, text))
  }

  /** The cells `ParseText` makes of a text node in the default style. */
  function TextCellsOf(ctx: Ctx): Node -> Chain
  {
    n => ParseTextSpec(Some(n), Default, ctx)
  }

  /** The loop of `ParseTag` from sibling `j` on; without `all` it stops after one node. */
  function Run(sibs: seq<Node>, j: nat, all: bool, w: Walk, text: Node -> Chain): Walk
    requires j <= |sibs|
    decreases |sibs| - j
  {
    if j == |sibs| then w
    else
      var w' := Visit(w, sibs[j], text);
      if !all then w' else Run(sibs, GetNextTag(sibs, j), all, w', text)
  }

  /** `ParseTag(node, all)` for the node at index `i` of its sibling list. */
  function ParseTagSpec(sibs: seq<Node>, i: nat, all: bool, ctx: Ctx): Chain
    requires i <= |sibs|
  {
    Run(sibs, SkipWhitespaceNode(sibs, i), all, Start, TextCellsOf(ctx)).result
  }

  /** `HandleNullPointer(ParseTag(child, false))`, the way positional builders read a child. */
  function Child(sibs: seq<Node>, j: nat, ctx: Ctx): (c: Chain)
    requires j <= |sibs|
    ensures c != []
  {
    HandleNullPointer(ParseTagSpec(sibs, j, false, ctx))
  }

  /**
   * `ParseTag(node, false)` reads one node: a text node gives its text
   * cells, an element (whatever it builds) and the end of the list give null.
   */
  lemma ParseTagOne(sibs: seq<Node>, i: nat, ctx: Ctx)
    requires i <= |sibs|
    ensures var j := SkipWhitespaceNode(sibs, i);
      ParseTagSpec(sibs, i, false, ctx) == if j < |sibs| && sibs[j].Text? then ParseTextSpec(Some(sibs[j]), Default, ctx) else []
  {
  }

  /** So a positional child that is an element always becomes the missing-contents placeholder. */
  lemma ElementChildIsMissing(sibs: seq<Node>, j: nat, ctx: Ctx)
    requires j <= |sibs|
    requires SkipWhitespaceNode(sibs, j) < |sibs| && sibs[SkipWhitespaceNode(sibs, j)].Element?
    ensures Child(sibs, j, ctx) == [MissingContents]
  {
    ParseTagOne(sibs, j, ctx);
  }

  predicate AllText(c: Chain)
  {
    forall k :: 0 <= k < |c| ==> c[k].body.TextBody?
  }

  lemma {:induction false} RunKeepsText(sibs: seq<Node>, j: nat, all: bool, w: Walk, text: Node -> Chain)
    requires j <= |sibs| && AllText(w.result) && AllText(w.orphan)
    requires forall k :: 0 <= k < |sibs| && sibs[k].Text? ==> AllText(text(sibs[k]))
    ensures AllText(Run(sibs, j, all, w, text).result)
    decreases |sibs| - j
  {
    if j < |sibs| {
      var w' := Visit(w, sibs[j], text);
      assert AllText(w'.result) && AllText(w'.orphan);
      if all {
        RunKeepsText(sibs, GetNextTag(sibs, j), all, w', text);
      }
    }
  }

  /** `ParseTag` only ever returns text cells: the cells built for elements never reach its result. */
  lemma ParseTagOnlyText(sibs: seq<Node>, i: nat, all: bool, ctx: Ctx)
    requires i <= |sibs|
    ensures AllText(ParseTagSpec(sibs, i, all, ctx))
  {
    forall k | 0 <= k < |sibs| && sibs[k].Text?
      ensures AllText(TextCellsOf(ctx)(sibs[k]))
    {
      ParseTextIsText(Some(sibs[k]), Default, ctx);
    }
    RunKeepsText(sibs, SkipWhitespaceNode(sibs, i), all, Start, TextCellsOf(ctx));
  }

  /** Sibling lists of text nodes that are not skipped as whitespace. */
  predicate PlainText(sibs: seq<Node>)
  {
    forall k :: 0 <= k < |sibs| ==> sibs[k].Text? && !IsSkippable(sibs[k])
  }

  /** The text cells of each node, in order. */
  function TextCells(sibs: seq<Node>, text: Node -> Chain): Chain
  {
    if sibs == [] then [] else text(sibs[0]) + TextCells(sibs[1..], text)
  }

  /** A text node met while `cell` is in the result appends its cells, and `cell` moves one on. */
  lemma VisitText(w: Walk, node: Node, text: Node -> Chain)
    requires node.Text? && w.cursor.InResult? && w.cursor.k < |w.result| && text(node) != []
    ensures Visit(w, node, text) == Walk(w.result + text(node), w.orphan, InResult(w.cursor.k + 1))
  {
  }

  lemma {:induction false} RunAppendsText(sibs: seq<Node>, j: nat, w: Walk, text: Node -> Chain)
    requires j <= |sibs| && PlainText(sibs)
    requires forall k :: 0 <= k < |sibs| ==> text(sibs[k]) != []
    requires w.cursor.InResult? && w.cursor.k < |w.result|
    ensures Run(sibs, j, true, w, text).result == w.result + TextCells(sibs[j..], text)
    decreases |sibs| - j
  {
    if j == |sibs| {
      assert sibs[j..] == [];
    } else {
      VisitText(w, sibs[j], text);
      var w' := Walk(w.result + text(sibs[j]), w.orphan, InResult(w.cursor.k + 1));
      assert GetNextTag(sibs, j) == j + 1 by {
        assert j + 1 == |sibs| || !IsSkippable(sibs[j + 1]);
      }
      RunAppendsText(sibs, j + 1, w', text);
      assert sibs[j..] == [sibs[j]] + sibs[j + 1..];
      assert TextCells(sibs[j..], text) == text(sibs[j]) + TextCells(sibs[j + 1..], text);
    }
  }

  /** Text siblings alone are concatenated: `ParseTag` returns all their cells, in order. */
  lemma ParseTagConcatenatesText(sibs: seq<Node>, ctx: Ctx)
    requires PlainText(sibs)
    ensures ParseTagSpec(sibs, 0, true, ctx) == TextCells(sibs, TextCellsOf(ctx))
  {
    if sibs != [] {
      var text := TextCellsOf(ctx);
      forall k | 0 <= k < |sibs|
        ensures text(sibs[k]) != []
      {
        ParseTextIsText(Some(sibs[k]), Default, ctx);
      }
      var w := Visit(Start, sibs[0], text);
      assert w == Walk(text(sibs[0]), [], InResult(0));
      RunAppendsText(sibs, 1, w, text);
      assert sibs[1..] == sibs[0..][1..];
    }
  }

  /** Elements alone give null, whatever they build. */
  lemma {:induction false} RunOverElements(sibs: seq<Node>, j: nat, all: bool, text: Node -> Chain)
    requires j <= |sibs| && forall k :: 0 <= k < |sibs| ==> sibs[k].Element?
    ensures Run(sibs, j, all, Start, text) == Start
    decreases |sibs| - j
  {
    if j < |sibs| && all {
      RunOverElements(sibs, GetNextTag(sibs, j), all, text);
    }
  }

  lemma ParseTagOfElementsIsNull(sibs: seq<Node>, i: nat, all: bool, ctx: Ctx)
    requires i <= |sibs| && forall k :: 0 <= k < |sibs| ==> sibs[k].Element?
    ensures ParseTagSpec(sibs, i, all, ctx) == []
  {
    RunOverElements(sibs, SkipWhitespaceNode(sibs, i), all, TextCellsOf(ctx));
  }

  /**
   * Text after an element can be lost: an element after a one-cell text
   * moves `cell` past the end of the result, and the next text's cells go to
   * `ownedCell`, which is freed.
   */
  lemma ParseTagLosesTextAfterElement(a: Node, e: Node, b: Node, ctx: Ctx)
    requires a.Text? && !IsSkippable(a) && e.Element? && b.Text? && !IsSkippable(b)
    requires |ParseTextSpec(Some(a), Default, ctx)| == 1
    ensures ParseTagSpec([a, e, b], 0, true, ctx) == ParseTextSpec(Some(a), Default, ctx)
  {
    var sibs := [a, e, b];
    var text := TextCellsOf(ctx);
    var la := text(a);
    var w1 := Visit(Start, a, text);
    assert w1 == Walk(la, [], InResult(0));
    var w2 := Visit(w1, e, text);
    assert w2 == Walk(la, [], Null);
    var w3 := Visit(w2, b, text);
    assert w3.result == la;
    assert GetNextTag(sibs, 0) == 1 && GetNextTag(sibs, 1) == 2 && GetNextTag(sibs, 2) == 3;
    assert Run(sibs, 3, true, w3, text) == w3;
    assert Run(sibs, 2, true, w2, text) == w3;
    assert Run(sibs, 1, true, w1, text) == w3;
  }

  /**
   * Two walks that differ at most in an `ownedCell` that `cell` does not
   * point into.  Such an `ownedCell` is never read again: the next text node
   * replaces it.
   */
  predicate Equivalent(a: Walk, b: Walk)
  {
    a.result == b.result && a.cursor == b.cursor && (!a.cursor.Null? ==> a.orphan == b.orphan)
  }

  lemma LinkEquivalent(a: Walk, b: Walk)
    requires Equivalent(a, b)
    ensures Equivalent(Link(a), Link(b))
  {
  }

  lemma VisitEquivalent(a: Walk, b: Walk, node: Node, text: Node -> Chain)
    requires Equivalent(a, b)
    ensures Equivalent(Visit(a, node, text), Visit(b, node, text))
  {
    LinkEquivalent(Absorb(a, node, text), Absorb(b, node, text));
  }

  /**
   * One loop iteration of `ParseTag`: a walk equivalent to the visited one
   * carries on to the same result, or is the result when `all` is off.
   */
  lemma RunStep(sibs: seq<Node>, j: nat, all: bool, w: Walk, w': Walk, text: Node -> Chain)
    requires j < |sibs| && Equivalent(w', Visit(w, sibs[j], text))
    ensures all ==> Run(sibs, GetNextTag(sibs, j), all, w', text).result == Run(sibs, j, all, w, text).result
    ensures !all ==> w'.result == Run(sibs, j, all, w, text).result
  {
    RunEquivalent(sibs, GetNextTag(sibs, j), all, w', Visit(w, sibs[j], text), text);
  }

  /** Equivalent walks give the same result, whatever siblings follow. */
  lemma {:induction false} RunEquivalent(sibs: seq<Node>, j: nat, all: bool, a: Walk, b: Walk, text: Node -> Chain)
    requires j <= |sibs| && Equivalent(a, b)
    ensures Equivalent(Run(sibs, j, all, a, text), Run(sibs, j, all, b, text))
    decreases |sibs| - j
  {
    if j < |sibs| {
      VisitEquivalent(a, b, sibs[j], text);
      if all {
        RunEquivalent(sibs, GetNextTag(sibs, j), all, Visit(a, sibs[j], text), Visit(b, sibs[j], text), text);
      }
    }
  }

  // ---------------------------------------------------------------- positional builders

  /** The common data of a built cell: the parser's type and the given style, then the node's attributes. */
  function Built(node: Node, ctx: Ctx, style: TextStyle, highlighted: bool): Common
  {
    CommonAttrs(Some(node), Fresh.(cellType := ctx.parserStyle, style := style,
                                   highlight := if highlighted then ctx.highlight else false))
  }

  /** `ParseFracTag`: numerator and denominator; `line="no"` gives a binomial, `diffstyle="yes"` a derivative. */
  function FracSpec(node: Node, ctx: Ctx): (c: Cell)
    ensures c.body.Frac? && c.body.num != [] && c.body.denom != []
    ensures c.body.fracStyle == if Attribute(node, "diffstyle", "") == "yes" then FracDiff
                                else if Attribute(node, "line", "") == "no" then FracChoose
                                else ctx.fracStyle
  {
    var sibs := Children(node);
    var style := if Attribute(node, "line", "") == "no" then FracChoose else ctx.fracStyle;
    var style := if Attribute(node, "diffstyle", "") == "yes" then FracDiff else style;
    Cell(Built(node, ctx, Variable, true), Frac(Child(sibs, ChildAt(sibs, 0), ctx), Child(sibs, ChildAt(sibs, 1), ctx), style))
  }

  /**
   * `ParseDiffTag`: with a first child, the differential is parsed in
   * derivative fraction style and the base with `all`; without one, only
   * the common attributes are set.
   */
  function DiffSpec(node: Node, ctx: Ctx): (c: Cell)
    ensures c.body.Diff?
    ensures ChildAt(Children(node), 0) < |Children(node)| ==>
      c.body.diff == Child(Children(node), ChildAt(Children(node), 0), ctx.(fracStyle := FracDiff))
    ensures ChildAt(Children(node), 0) == |Children(node)| ==> c == Cell(CommonAttrs(Some(node), Fresh), Diff([], []))
  {
    var sibs := Children(node);
    var c0 := ChildAt(sibs, 0);
    if c0 < |sibs| then
      Cell(Built(node, ctx, Variable, false),
           Diff(Child(sibs, c0, ctx.(fracStyle := FracDiff)),
                HandleNullPointer(ParseTagSpec(sibs, GetNextTag(sibs, c0), true, ctx))))
    else Cell(CommonAttrs(Some(node), Fresh), Diff([], []))
  }

  /** `ParseSubTag`: a base and an exponent-flagged index. */
  function SubSpec(node: Node, ctx: Ctx): (c: Cell)
    ensures c.body.Sub? && c.body.base != [] && c.body.index != [] && c.body.index[0].common.exponent
  {
    var sibs := Children(node);
    Cell(Built(node, ctx, Variable, false),
         Sub(Child(sibs, ChildAt(sibs, 0), ctx), WithExponentFlag(Child(sibs, ChildAt(sibs, 1), ctx))))
  }

  /** `ParseLimitTag`: name, under text and base, in that order. */
  function LimitSpec(node: Node, ctx: Ctx): (c: Cell)
    ensures c.body.Limit? && c.body.name != [] && c.body.under != [] && c.body.base != []
  {
    var sibs := Children(node);
    Cell(Built(node, ctx, Variable, false),
         Limit(InvalidCellOr(Child(sibs, ChildAt(sibs, 0), ctx)),
               InvalidCellOr(Child(sibs, ChildAt(sibs, 1), ctx)),
               InvalidCellOr(Child(sibs, ChildAt(sibs, 2), ctx))))
  }

  /**
   * `ParseSumTag`: `type` defaults to "sum"; "prod" selects a product; a
   * "lsum" has no upper limit, but its second child is still stepped over.
   */
  function SumSpec(node: Node, ctx: Ctx): (c: Cell)
    ensures c.body.Sum?
    ensures c.body.sumStyle == (if Attribute(node, "type", "sum") == "prod" then SumProd else SumSum)
    ensures (c.body.over == []) <==> Attribute(node, "type", "sum") == "lsum"
    ensures c.body.base == Child(Children(node), ChildAt(Children(node), 2), ctx)
  {
    var sibs := Children(node);
    var t := Attribute(node, "type", "sum");
    Cell(Built(node, ctx, Variable, true),
         Sum(if t == "prod" then SumProd else SumSum,
             Child(sibs, ChildAt(sibs, 0), ctx),
             if t != "lsum" then Child(sibs, ChildAt(sibs, 1), ctx) else [],
             Child(sibs, ChildAt(sibs, 2), ctx)))
  }

  /**
   * `ParseIntTag`: `def` defaults to "true"; a definite integral reads
   * under, over, base and variable, an indefinite one base and variable.
   * The variable is parsed with `all`.
   */
  function IntSpec(node: Node, ctx: Ctx): (c: Cell)
    ensures c.body.Integral?
    ensures c.body.definite <==> Attribute(node, "def", "true") == "true"
    ensures c.body.base != [] && c.body.variable != []
    ensures !c.body.definite ==>
      (c.body.under == [] && c.body.over == [] && c.body.base == Child(Children(node), ChildAt(Children(node), 0), ctx))
    ensures c.body.definite ==>
      (c.body.under != [] && c.body.over != [] && c.body.base == Child(Children(node), ChildAt(Children(node), 2), ctx))
  {
    var sibs := Children(node);
    var common := Built(node, ctx, Variable, true);
    if Attribute(node, "def", "true") != "true" then
      Cell(common, Integral(false, [], [], Child(sibs, ChildAt(sibs, 0), ctx),
                            HandleNullPointer(ParseTagSpec(sibs, ChildAt(sibs, 1), true, ctx))))
    else
      Cell(common, Integral(true, Child(sibs, ChildAt(sibs, 0), ctx), Child(sibs, ChildAt(sibs, 1), ctx),
                            Child(sibs, ChildAt(sibs, 2), ctx),
                            HandleNullPointer(ParseTagSpec(sibs, ChildAt(sibs, 3), true, ctx))))
  }

  /** The hint `ParseFunTag` attaches when the text of a function shows `)(`. */
  const LambdaHint: string :=
    "If this isn't a function returning a lambda() expression,"
    + " a multiplication sign (*) between closing and opening parenthesis is missing here."

  /** `ParseFunTag`: a name (styled as a function name) and an argument. */
  function FunSpec(node: Node, ctx: Ctx, r: Renderer): (c: Cell)
    ensures c.body.Fun? && c.body.name != [] && c.body.arg != [] && c.body.name[0].common.style == Function
  {
    var sibs := Children(node);
    var name := FunCells.FunctionName(Child(sibs, ChildAt(sibs, 0), ctx));
    var arg := InvalidCellOr(Child(sibs, ChildAt(sibs, 1), ctx));
    var common := Built(node, ctx, Function, false);
    if WxString.Contains(FunCells.FunText(false, common.altCopy, name, arg, r), ")(") then
      Cell(common.(toolTip := LambdaHint), Fun(name, arg))
    else Cell(common, Fun(name, arg))
  }

  /**
   * A function cell whose text shows `)(` gets the lambda hint as its
   * tooltip; otherwise it keeps the node's `tooltip` attribute.
   */
  lemma FunLambdaHint(node: Node, ctx: Ctx, r: Renderer)
    ensures var c := FunSpec(node, ctx, r);
      var shown := FunCells.FunText(false, c.common.altCopy, c.body.name, c.body.arg, r);
      && c.common.style == Function && c.common.cellType == ctx.parserStyle
      && (WxString.Contains(shown, ")(") ==> c.common.toolTip == LambdaHint)
      && (!WxString.Contains(shown, ")(") ==> c.common.toolTip == Attribute(node, "tooltip", ""))
  {
    var common := Built(node, ctx, Function, false);
    CommonAttrsEffect(Some(node), Fresh.(cellType := ctx.parserStyle, style := Function, highlight := false));
    assert common.altCopy == FunSpec(node, ctx, r).common.altCopy;
  }

  // ---------------------------------------------------------------- ParseSubSupTag

  /** The script role a `pos` attribute names; any other value names none. */
  function RoleOfPos(pos: string): (r: Option<Role>)
    ensures r.Some? <==> pos in {"presub", "presup", "postsub", "postsup"}
    ensures r.Some? ==> SubSupCells.PosName(r.value) == pos
  {
    if pos == "presub" then Some(PreSub)
    else if pos == "presup" then Some(PreSup)
    else if pos == "postsup" then Some(PostSup)
    else if pos == "postsub" then Some(PostSub)
    else None
  }

  /** Every `pos` value the XML writer uses is read back as the role it was written for. */
  lemma PosNamesReadBack(role: Role)
    ensures RoleOfPos(SubSupCells.PosName(role)) == Some(role)
  {
  }

  /** The `pos` loop: each remaining child goes to the role its `pos` names. */
  function PosLoop(sibs: seq<Node>, j: nat, s: Scripts, ctx: Ctx): (t: Scripts)
    requires j <= |sibs|
    ensures SubSupCells.WellFormed(s) ==> SubSupCells.WellFormed(t)
    ensures t.base == s.base
    decreases |sibs| - j
  {
    if j == |sibs| then s
    else PosLoop(sibs, GetNextTag(sibs, SkipWhitespaceNode(sibs, j)), PosStep(sibs, j, s, ctx), ctx)
  }

  /** One child of the `pos` form: its cell goes into the role its `pos` names; an unknown `pos` is ignored. */
  function PosStep(sibs: seq<Node>, j: nat, s: Scripts, ctx: Ctx): (t: Scripts)
    requires j < |sibs|
    ensures SubSupCells.WellFormed(s) ==> SubSupCells.WellFormed(t)
    ensures t.base == s.base
    ensures var p := RoleOfPos(Attribute(sibs[j], "pos", ""));
      p.None? ==> t == s
    ensures var p := RoleOfPos(Attribute(sibs[j], "pos", ""));
      p.Some? ==>
        && t.Get(p.value) == Child(sibs, j, ctx)
        && t.order == SubSupCells.Erase(s.order, p.value) + [p.value]
        && forall q :: q != p.value ==> t.Get(q) == s.Get(q)
  {
    match RoleOfPos(Attribute(sibs[j], "pos", ""))
    case Some(role) => SubSupCells.SetRole(s, role, Child(sibs, j, ctx))
    case None => s
  }

  /**
   * `ParseSubSupTag`: after the base, a child with a non-empty `pos` selects
   * the multi-script form; otherwise index and exponent are read
   * positionally, both exponent-flagged.
   */
  function SubSupSpec(node: Node, ctx: Ctx): (c: Cell)
    ensures c.body.SubSup? && SubSupCells.WellFormed(c.body.scripts)
  {
    var sibs := Children(node);
    var c1 := ChildAt(sibs, 1);
    var s0 := SubSupCells.WithBase(SubSupCells.Initial, Child(sibs, ChildAt(sibs, 0), ctx));
    if c1 < |sibs| && Attribute(sibs[c1], "pos", "") != "" then
      Cell(Fresh, SubSup(PosLoop(sibs, c1, s0, ctx)))
    else
      var s1 := SubSupCells.SetTwoScript(s0, PostSub, WithExponentFlag(Child(sibs, c1, ctx)));
      var s2 := SubSupCells.SetTwoScript(s1, PostSup, WithExponentFlag(Child(sibs, GetNextTag(sibs, c1), ctx)));
      Cell(Built(node, ctx, Variable, false), SubSup(s2))
  }

  /** Siblings none of which is skipped as whitespace. */
  predicate NoWhitespace(sibs: seq<Node>)
  {
    forall k :: 0 <= k < |sibs| ==> !IsSkippable(sibs[k])
  }

  /**
   * The positional form reads its children in the order the XML writer's
   * two-script form writes them: base, subscript, superscript.
   */
  lemma SubSupPositionalOrder(node: Node, ctx: Ctx)
    requires |Children(node)| == 3 && NoWhitespace(Children(node))
    requires Attribute(Children(node)[1], "pos", "") == ""
    ensures var sibs := Children(node);
      var s := SubSupSpec(node, ctx).body.scripts;
      && s.base == Child(sibs, 0, ctx)
      && s.postSub == WithExponentFlag(Child(sibs, 1, ctx))
      && s.postSup == WithExponentFlag(Child(sibs, 2, ctx))
      && s.preSub == [] && s.preSup == [] && s.order == []
  {
    var sibs := Children(node);
    ChildAtWithoutWhitespace(sibs, 0);
    ChildAtWithoutWhitespace(sibs, 1);
  }

  /** `ParseLimitTag` reads name, under and base in the order `LimitCell::ToXML` writes them. */
  lemma LimitPositionalOrder(node: Node, ctx: Ctx)
    requires |Children(node)| == 3 && NoWhitespace(Children(node))
    ensures var sibs := Children(node);
      LimitSpec(node, ctx).body == Limit(Child(sibs, 0, ctx), Child(sibs, 1, ctx), Child(sibs, 2, ctx))
  {
    var sibs := Children(node);
    ChildAtWithoutWhitespace(sibs, 0);
    ChildAtWithoutWhitespace(sibs, 1);
    ChildAtWithoutWhitespace(sibs, 2);
  }

  /** `ParseFunTag` reads the name and then the next tag, the order `FunCell::ToXML` writes them in. */
  lemma FunPositionalOrder(node: Node, ctx: Ctx, r: Renderer)
    requires |Children(node)| >= 2 && NoWhitespace(Children(node))
    ensures var sibs := Children(node);
      FunSpec(node, ctx, r).body == Fun(FunCells.FunctionName(Child(sibs, 0, ctx)), Child(sibs, 1, ctx))
  {
    var sibs := Children(node);
    ChildAtWithoutWhitespace(sibs, 0);
    ChildAtWithoutWhitespace(sibs, 1);
  }

  // ---------------------------------------------------------------- ParseMmultiscriptsTag

  /** The role the flags `pre` and `subscript` select. */
  function RoleFor(pre: bool, sub: bool): Role
  {
    if pre then (if sub then PreSub else PreSup) else (if sub then PostSub else PostSup)
  }

  /** The script loop of `ParseMmultiscriptsTag`, from sibling `j` on. */
  function MmLoop(sibs: seq<Node>, j: nat, pre: bool, sub: bool, s: Scripts, ctx: Ctx): (t: Scripts)
    requires j <= |sibs|
    ensures SubSupCells.WellFormed(s) ==> SubSupCells.WellFormed(t)
    decreases |sibs| - j
  {
    if j == |sibs| then s
    else if Name(sibs[j]) == "mprescripts" then MmLoop(sibs, GetNextTag(sibs, j), true, true, s, ctx)
    else
      var s' := if Name(sibs[j]) != "none" then SubSupCells.SetRole(s, RoleFor(pre, sub), ParseTagSpec(sibs, j, false, ctx))
                else s;
      MmLoop(sibs, GetNextTag(sibs, SkipWhitespaceNode(sibs, j)), pre, !sub, s', ctx)
  }

  /** `ParseMmultiscriptsTag` */
  function MmultiscriptsSpec(node: Node, ctx: Ctx): (c: Cell)
    ensures c.body.SubSup? && SubSupCells.WellFormed(c.body.scripts)
  {
    var sibs := Children(node);
    var s0 := SubSupCells.WithBase(SubSupCells.Initial, Child(sibs, ChildAt(sibs, 0), ctx));
    Cell(Fresh, SubSup(MmLoop(sibs, ChildAt(sibs, 1), false, true, s0, ctx)))
  }

  /**
   * The role alternation of MathML 3.0, section 3.4.7, as a reference
   * definition over the children's names: the role each child is given
   * (`None` for `<none/>` and `<mprescripts/>`).
   */
  function Assign(names: seq<string>, pre: bool, sub: bool): (rs: seq<Option<Role>>)
    ensures |rs| == |names|
    decreases |names|
  {
    if names == [] then []
    else if names[0] == "mprescripts" then [None] + Assign(names[1..], true, true)
    else [if names[0] != "none" then Some(RoleFor(pre, sub)) else None] + Assign(names[1..], pre, !sub)
  }

  /** The flags after reading `names`. */
  function AssignState(names: seq<string>, pre: bool, sub: bool): (bool, bool)
    decreases |names|
  {
    if names == [] then (pre, sub)
    else if names[0] == "mprescripts" then AssignState(names[1..], true, true)
    else AssignState(names[1..], pre, !sub)
  }

  /** Without `<mprescripts/>` the roles alternate sub, sup, sub, ..., `<none/>` taking its turn. */
  lemma {:induction false} AssignAlternates(names: seq<string>, pre: bool, sub: bool)
    requires "mprescripts" !in names
    ensures forall k :: 0 <= k < |names| && names[k] != "none" ==>
      Assign(names, pre, sub)[k] == Some(RoleFor(pre, if k % 2 == 0 then sub else !sub))
    ensures forall k :: 0 <= k < |names| && names[k] == "none" ==> Assign(names, pre, sub)[k] == None
    decreases |names|
  {
    if names != [] {
      assert "mprescripts" !in names[1..];
      AssignAlternates(names[1..], pre, !sub);
      var rs, rest := Assign(names, pre, sub), Assign(names[1..], pre, !sub);
      assert rs == [rs[0]] + rest;
      forall k | 1 <= k < |names|
        ensures rs[k] == rest[k - 1] && names[k] == names[1..][k - 1]
        ensures (k - 1) % 2 == 0 <==> k % 2 != 0
      {
      }
    }
  }

  lemma {:induction false} AssignAppend(a: seq<string>, b: seq<string>, pre: bool, sub: bool)
    ensures Assign(a + b, pre, sub)
         == Assign(a, pre, sub) + Assign(b, AssignState(a, pre, sub).0, AssignState(a, pre, sub).1)
    decreases |a|
  {
    if a == [] {
      assert a + b == b;
    } else {
      ConsParts(a, b);
      if a[0] == "mprescripts" {
        AssignAppend(a[1..], b, true, true);
      } else {
        AssignAppend(a[1..], b, pre, !sub);
      }
    }
  }

  /** `<mprescripts/>` switches to the pre-scripts and restarts at the subscript, whatever came before. */
  lemma PrescriptsRestart(a: seq<string>, b: seq<string>, pre: bool, sub: bool)
    ensures Assign(a + ["mprescripts"] + b, pre, sub) == Assign(a, pre, sub) + [None] + Assign(b, true, true)
  {
    AssignAppend(a, ["mprescripts"] + b, pre, sub);
    assert a + ["mprescripts"] + b == a + (["mprescripts"] + b);
    var st := AssignState(a, pre, sub);
    assert (["mprescripts"] + b)[1..] == b;
  }

  /** The tag names of a sibling list. */
  function Names(sibs: seq<Node>): (ns: seq<string>)
    ensures |ns| == |sibs|
  {
    seq(|sibs|, k requires 0 <= k < |sibs| => Name(sibs[k]))
  }

  /**
   * Gives sibling `j + k` the role `rs[k]`, in order: its parse goes into
   * that role (null being ignored); `None` gives it nothing.
   */
  function ApplyRoles(s: Scripts, rs: seq<Option<Role>>, sibs: seq<Node>, j: nat, ctx: Ctx): Scripts
    requires j + |rs| <= |sibs|
    decreases |rs|
  {
    if rs == [] then s
    else
      var s' := match rs[0]
        case Some(q) => SubSupCells.SetRole(s, q, ParseTagSpec(sibs, j, false, ctx))
        case None => s;
      ApplyRoles(s', rs[1..], sibs, j + 1, ctx)
  }

  /**
   * Without white space between the children, the script loop gives every
   * child from `j` on the role the alternation assigns to its tag name.
   */
  lemma {:induction false} MmLoopFollowsAssign(sibs: seq<Node>, j: nat, pre: bool, sub: bool, s: Scripts, ctx: Ctx)
    requires j <= |sibs| && NoWhitespace(sibs)
    ensures MmLoop(sibs, j, pre, sub, s, ctx) == ApplyRoles(s, Assign(Names(sibs)[j..], pre, sub), sibs, j, ctx)
    decreases |sibs| - j
  {
    var ns := Names(sibs)[j..];
    if j == |sibs| {
      assert ns == [];
    } else {
      assert !IsSkippable(sibs[j]);
      assert j + 1 < |sibs| ==> !IsSkippable(sibs[j + 1]);
      assert SkipWhitespaceNode(sibs, j) == j && GetNextTag(sibs, j) == j + 1;
      assert ns[0] == Name(sibs[j]) && ns[1..] == Names(sibs)[j + 1..];
      if Name(sibs[j]) == "mprescripts" {
        MmLoopFollowsAssign(sibs, j + 1, true, true, s, ctx);
      } else {
        var s' := if Name(sibs[j]) != "none" then SubSupCells.SetRole(s, RoleFor(pre, sub), ParseTagSpec(sibs, j, false, ctx))
                  else s;
        MmLoopFollowsAssign(sibs, j + 1, pre, !sub, s', ctx);
      }
    }
  }

  function Tags(s: seq<SubSupCells.Slot>): seq<string>
  {
    seq(|s|, k requires 0 <= k < |s| => s[k].tag)
  }

  function Roles(s: seq<SubSupCells.Slot>): seq<Option<Role>>
  {
    seq(|s|, k requires 0 <= k < |s| => s[k].role)
  }

  /** A slot of the multi-script form: "none" for an absent script, "mrow" for the script of `role`. */
  predicate SlotFor(s: SubSupCells.Slot, role: Role)
  {
    (s.tag == "none" && s.role == None) || (s.tag == "mrow" && s.role == Some(role))
  }

  /** A sub/sup pair written in order is read back as that pair, and the flags come back as they were. */
  lemma PairReadBack(a: SubSupCells.Slot, b: SubSupCells.Slot, pre: bool)
    requires SlotFor(a, RoleFor(pre, true)) && SlotFor(b, RoleFor(pre, false))
    ensures Assign([a.tag, b.tag], pre, true) == [a.role, b.role]
    ensures AssignState([a.tag, b.tag], pre, true) == (pre, true)
  {
    assert [a.tag, b.tag][1..] == [b.tag];
    assert [b.tag][1..] == [];
    assert AssignState([b.tag], pre, false) == AssignState([], pre, true);
  }

  /** `<mprescripts/>` and a pre pair are read back as no role and that pair, whatever the flags. */
  lemma PrePairReadBack(c: SubSupCells.Slot, d: SubSupCells.Slot, pre: bool, sub: bool)
    requires SlotFor(c, PreSub) && SlotFor(d, PreSup)
    ensures Assign(["mprescripts", c.tag, d.tag], pre, sub) == [None, c.role, d.role]
  {
    assert ["mprescripts", c.tag, d.tag][1..] == [c.tag, d.tag];
    PairReadBack(c, d, true);
  }

  /**
   * The children `SubSupCell::ToMathML` writes after the base of an
   * `<mmultiscripts>` are given back their roles by the alternation
   * `ParseMmultiscriptsTag` applies.
   */
  lemma MathMLScriptsReadBack(cell: SubSupCells.SubSupCell, r: Renderer)
    ensures Assign(Tags(cell.MathMLScripts(r)), false, true) == Roles(cell.MathMLScripts(r))
  {
    var a, b := cell.MathMLSlot(PostSub, r), cell.MathMLSlot(PostSup, r);
    var c, d := cell.MathMLSlot(PreSub, r), cell.MathMLSlot(PreSup, r);
    var m := SubSupCells.Slot("mprescripts", None, "<mprescripts/>");
    assert SlotFor(a, PostSub) && SlotFor(b, PostSup) && SlotFor(c, PreSub) && SlotFor(d, PreSup);
    var post := if cell.postSub != [] || cell.postSup != [] then [a, b] else [];
    var pre := if cell.preSub != [] || cell.preSup != [] then [m, c, d] else [];
    assert cell.MathMLScripts(r) == post + pre;
    TagsRolesAppend(post, pre);
    AssignAppend(Tags(post), Tags(pre), false, true);
    if post != [] {
      TagsRolesPair(a, b);
      PairReadBack(a, b, false);
    }
    if pre != [] {
      TagsRolesTriple(m, c, d);
      PrePairReadBack(c, d, false, true);
    }
  }

  /**
   * `ParseMmultiscriptsTag` reading children named as `SubSupCell::ToMathML`
   * names its script slots gives each child the role of the slot it stands
   * for, and nothing to the `<none/>` and `<mprescripts/>` children.
   */
  lemma MmultiscriptsReadsMathMLRoles(cell: SubSupCells.SubSupCell, r: Renderer, sibs: seq<Node>, j: nat, s: Scripts, ctx: Ctx)
    requires j <= |sibs| && NoWhitespace(sibs)
    requires Names(sibs)[j..] == Tags(cell.MathMLScripts(r))
    ensures MmLoop(sibs, j, false, true, s, ctx) == ApplyRoles(s, Roles(cell.MathMLScripts(r)), sibs, j, ctx)
  {
    MmLoopFollowsAssign(sibs, j, false, true, s, ctx);
    MathMLScriptsReadBack(cell, r);
  }

  /**
   * As written, an element child gives the script loop nothing: `ParseTag`
   * drops every element's cells, and the setters ignore null.  So the
   * `<mrow>` scripts `ToMathML` writes are not read back as cells.
   */
  lemma {:induction false} MmLoopOfElements(sibs: seq<Node>, j: nat, pre: bool, sub: bool, s: Scripts, ctx: Ctx)
    requires j <= |sibs|
    requires forall k :: j <= k < |sibs| ==> sibs[k].Element?
    ensures MmLoop(sibs, j, pre, sub, s, ctx) == s
    decreases |sibs| - j
  {
    if j < |sibs| {
      ParseTagOne(sibs, j, ctx);
      if Name(sibs[j]) == "mprescripts" {
        MmLoopOfElements(sibs, GetNextTag(sibs, j), true, true, s, ctx);
      } else {
        MmLoopOfElements(sibs, GetNextTag(sibs, SkipWhitespaceNode(sibs, j)), pre, !sub, s, ctx);
      }
    }
  }

  /** `Tags` and `Roles` of two and of three slots. */
  lemma TagsRolesPair(a: SubSupCells.Slot, b: SubSupCells.Slot)
    ensures Tags([a, b]) == [a.tag, b.tag] && Roles([a, b]) == [a.role, b.role]
  {
  }

  lemma TagsRolesTriple(a: SubSupCells.Slot, b: SubSupCells.Slot, c: SubSupCells.Slot)
    ensures Tags([a, b, c]) == [a.tag, b.tag, c.tag] && Roles([a, b, c]) == [a.role, b.role, c.role]
  {
  }

  /** `Tags` and `Roles` distribute over concatenation. */
  lemma TagsRolesAppend(s: seq<SubSupCells.Slot>, t: seq<SubSupCells.Slot>)
    ensures Tags(s + t) == Tags(s) + Tags(t) && Roles(s + t) == Roles(s) + Roles(t)
  {
  }

  /** The roles of the XML writer's `pos` children are read back from their `pos` values. */
  lemma XMLScriptsReadBack(cell: SubSupCells.SubSupCell, r: Renderer)
    ensures forall k :: 0 <= k < |cell.XMLScripts(r)| ==>
      RoleOfPos(cell.XMLScripts(r)[k].tag) == cell.XMLScripts(r)[k].role
  {
  }

  // ---------------------------------------------------------------- ParseTableTag

  /** The positions a walk over `sibs` from `j` visits: each sibling that is not skippable white space, in order. */
  function Visited(sibs: seq<Node>, j: nat): (ps: seq<nat>)
    requires j <= |sibs|
    ensures forall k :: 0 <= k < |ps| ==> j <= ps[k] < |sibs|
    decreases |sibs| - j
  {
    if j == |sibs| then [] else [j] + Visited(sibs, GetNextTag(sibs, j))
  }

  /** Without white space every sibling from `j` on is visited. */
  lemma {:induction false} VisitedAll(sibs: seq<Node>, j: nat)
    requires j <= |sibs| && NoWhitespace(sibs)
    ensures |Visited(sibs, j)| == |sibs| - j
    ensures forall k :: 0 <= k < |sibs| - j ==> Visited(sibs, j)[k] == j + k
    decreases |sibs| - j
  {
    if j < |sibs| {
      assert GetNextTag(sibs, j) == j + 1 by {
        assert j + 1 == |sibs| || !IsSkippable(sibs[j + 1]);
      }
      VisitedAll(sibs, j + 1);
    }
  }

  /** The cells of one table row: one for every visited child. */
  function RowCells(cells: seq<Node>, j: nat, ctx: Ctx): (row: seq<Chain>)
    requires j <= |cells|
    ensures |row| == |Visited(cells, j)|
    decreases |cells| - j
  {
    if j == |cells| then [] else [Child(cells, j, ctx)] + RowCells(cells, GetNextTag(cells, j), ctx)
  }

  /** The rows of a table: one for every visited child, holding that child's row cells. */
  function TableRows(rows: seq<Node>, j: nat, ctx: Ctx): (t: seq<seq<Chain>>)
    requires j <= |rows|
    ensures |t| == |Visited(rows, j)|
    ensures forall k :: 0 <= k < |t| ==>
      var cells := Children(rows[Visited(rows, j)[k]]);
      |t[k]| == |Visited(cells, SkipWhitespaceNode(cells, 0))|
    decreases |rows| - j
  {
    if j == |rows| then []
    else
      var cells := Children(rows[j]);
      [RowCells(cells, SkipWhitespaceNode(cells, 0), ctx)] + TableRows(rows, GetNextTag(rows, j), ctx)
  }

  function Flag(node: Node, key: string): bool
  {
    Attribute(node, key, "false") == "true"
  }

  /** `ParseTableTag`: one row per child, one cell per grandchild; `inference` implies `special`. */
  function TableSpec(node: Node, ctx: Ctx): (c: Cell)
    ensures c.body.Matrix?
    ensures c.body.inference ==> c.body.special
    ensures c.body.special <==> Flag(node, "special") || Flag(node, "inference")
  {
    var sibs := Children(node);
    Cell(Built(node, ctx, Variable, true),
         Matrix(TableRows(sibs, SkipWhitespaceNode(sibs, 0), ctx),
                Flag(node, "special") || Flag(node, "inference"), Flag(node, "inference"),
                Flag(node, "colnames"), Flag(node, "rownames"), Flag(node, "roundedParens")))
  }

  /** Without whitespace, row `k` of the matrix holds the `k`-th child's children, one cell each. */
  lemma TableShape(rows: seq<Node>, ctx: Ctx)
    requires NoWhitespace(rows)
    requires forall k :: 0 <= k < |rows| ==> NoWhitespace(Children(rows[k]))
    ensures |TableRows(rows, 0, ctx)| == |rows|
    ensures forall k :: 0 <= k < |rows| ==> |TableRows(rows, 0, ctx)[k]| == |Children(rows[k])|
  {
    VisitedAll(rows, 0);
    forall k | 0 <= k < |rows|
      ensures |TableRows(rows, 0, ctx)[k]| == |Children(rows[k])|
    {
      var cells := Children(rows[k]);
      assert SkipWhitespaceNode(cells, 0) == 0 by {
        assert cells == [] || !IsSkippable(cells[0]);
      }
      VisitedAll(cells, 0);
    }
  }

  /** Cell `k` of a row is the parse of the `k`-th visited child, read as a positional child. */
  lemma {:induction false} RowCellsAt(cells: seq<Node>, j: nat, ctx: Ctx)
    requires j <= |cells|
    ensures forall k :: 0 <= k < |RowCells(cells, j, ctx)| ==> RowCells(cells, j, ctx)[k] == Child(cells, Visited(cells, j)[k], ctx)
    decreases |cells| - j
  {
    if j < |cells| {
      var n := GetNextTag(cells, j);
      RowCellsAt(cells, n, ctx);
      var row, ps := RowCells(cells, j, ctx), Visited(cells, j);
      assert row == [Child(cells, j, ctx)] + RowCells(cells, n, ctx);
      assert ps == [j] + Visited(cells, n);
      forall k | 0 <= k < |row|
        ensures row[k] == Child(cells, ps[k], ctx)
      {
        if k > 0 {
          assert row[k] == RowCells(cells, n, ctx)[k - 1];
          assert ps[k] == Visited(cells, n)[k - 1];
        }
      }
    }
  }

  /** Row `k` of a table is the row of cells of the `k`-th visited child. */
  lemma {:induction false} TableRowsAt(rows: seq<Node>, j: nat, ctx: Ctx)
    requires j <= |rows|
    ensures forall k :: 0 <= k < |TableRows(rows, j, ctx)| ==>
      var cells := Children(rows[Visited(rows, j)[k]]);
      TableRows(rows, j, ctx)[k] == RowCells(cells, SkipWhitespaceNode(cells, 0), ctx)
    decreases |rows| - j
  {
    if j < |rows| {
      TableRowsAt(rows, GetNextTag(rows, j), ctx);
    }
  }

  /** Without white space, row `k` is the row of cells of the `k`-th child, read from its first child. */
  lemma TableRowOf(rows: seq<Node>, ctx: Ctx, k: nat)
    requires NoWhitespace(rows) && k < |rows|
    ensures k < |TableRows(rows, 0, ctx)| && TableRows(rows, 0, ctx)[k] == RowCells(Children(rows[k]), SkipWhitespaceNode(Children(rows[k]), 0), ctx)
  {
    VisitedAll(rows, 0);
    TableRowsAt(rows, 0, ctx);
    assert Visited(rows, 0)[k] == k;
  }

  /** Without white space, cell `m` of a row read from the first child is the `m`-th child. */
  lemma RowCellOf(cells: seq<Node>, ctx: Ctx, m: nat)
    requires NoWhitespace(cells) && m < |cells|
    ensures SkipWhitespaceNode(cells, 0) == 0
    ensures m < |RowCells(cells, 0, ctx)| && RowCells(cells, 0, ctx)[m] == Child(cells, m, ctx)
  {
    assert !IsSkippable(cells[0]);
    VisitedAll(cells, 0);
    RowCellsAt(cells, 0, ctx);
    assert Visited(cells, 0)[m] == m;
  }

  /** Without white space, cell `(k, m)` of the matrix is the `m`-th child of the `k`-th child, read as a positional child. */
  lemma TableCells(rows: seq<Node>, ctx: Ctx, k: nat, m: nat)
    requires NoWhitespace(rows)
    requires forall i :: 0 <= i < |rows| ==> NoWhitespace(Children(rows[i]))
    requires k < |rows| && m < |Children(rows[k])|
    ensures |TableRows(rows, 0, ctx)| == |rows| && |TableRows(rows, 0, ctx)[k]| == |Children(rows[k])|
    ensures TableRows(rows, 0, ctx)[k][m] == Child(Children(rows[k]), m, ctx)
  {
    TableShape(rows, ctx);
    TableRowOf(rows, ctx, k);
    RowCellOf(Children(rows[k]), ctx, m);
  }

  // ---------------------------------------------------------------- ParseEditorTag

  /** The cell type the `type` attribute of an editor selects; `None` leaves the editor's own. */
  function EditorType(t: string): (c: Option<CellType>)
    ensures c.Some? <==> t in EditorTypeNames
    ensures t == "input" ==> c == Some(TypeInput)
    ensures c.Some? ==> c.value != TypeDefault && c.value != TypeError && c.value != TypeWarning && c.value != TypeLabel
  {
    if t == "input" then Some(TypeInput)
    else if t == "text" then Some(TypeText)
    else if t == "title" then Some(TypeTitle)
    else if t == "section" then Some(TypeSection)
    else if t == "subsection" then Some(TypeSubsection)
    else if t == "subsubsection" then Some(TypeSubsubsection)
    else if t == "heading5" then Some(TypeHeading5)
    else if t == "heading6" then Some(TypeHeading6)
    else None
  }

  /** The `type` values an editor recognises. */
  const EditorTypeNames: set<string> :=
    {"input", "text", "title", "section", "subsection", "subsubsection", "heading5", "heading6"}

  /** Different recognised `type` values select different cell types. */
  lemma EditorTypeInjective(t: string, u: string)
    requires EditorType(t).Some? && EditorType(t) == EditorType(u)
    ensures t == u
  {
  }

  /** The joining loop over the children of an `<editor>`: `<line>` contents, a newline before all but the first non-empty text. */
  function EditorText(sibs: seq<Node>, text: string): string
    decreases |sibs|
  {
    if sibs == [] then text
    else
      var t := if Name(sibs[0]) == "line" then (if text != "" then text + "\n" else text) + NodeContent(sibs[0]) else text;
      EditorText(sibs[1..], t)
  }

  /** `ParseEditorTag` */
  function EditorSpec(node: Node): Cell
  {
    Cell(Fresh, Editor(EditorType(Attribute(node, "type", "input")), EditorText(Children(node), "")))
  }

  /** The contents of the `<line>` children, in order. */
  function LineContents(sibs: seq<Node>): seq<string>
  {
    if sibs == [] then []
    else (if Name(sibs[0]) == "line" then [NodeContent(sibs[0])] else []) + LineContents(sibs[1..])
  }

  function JoinLines(ls: seq<string>): string
  {
    if ls == [] then "" else if |ls| == 1 then ls[0] else ls[0] + "\n" + JoinLines(ls[1..])
  }

  lemma JoinLinesCons(c: string, rest: seq<string>)
    ensures JoinLines([c] + rest) == if rest == [] then c else c + "\n" + JoinLines(rest)
  {
    assert ([c] + rest)[1..] == rest;
  }

  /** One step of the joining loop over a `<line>` child. */
  lemma EditorLineStep(text: string, c: string, rest: seq<string>)
    requires c != ""
    ensures var t := (if text != "" then text + "\n" else text) + c;
      var after := if rest == [] then t else t + "\n" + JoinLines(rest);
      var ls := [c] + rest;
      after == if text == "" then JoinLines(ls) else text + "\n" + JoinLines(ls)
  {
    JoinLinesCons(c, rest);
    if rest != [] {
      if text != "" {
        assert text + "\n" + c + "\n" + JoinLines(rest) == text + "\n" + (c + "\n" + JoinLines(rest));
      }
    }
  }

  /** When no line is empty, the editor text is the lines joined by newlines. */
  lemma {:induction false} EditorJoinsLines(sibs: seq<Node>, text: string)
    requires forall k :: 0 <= k < |sibs| && Name(sibs[k]) == "line" ==> NodeContent(sibs[k]) != ""
    ensures var ls := LineContents(sibs);
      EditorText(sibs, text) == if text == "" then JoinLines(ls) else if ls == [] then text else text + "\n" + JoinLines(ls)
    decreases |sibs|
  {
    if sibs != [] {
      var rest := LineContents(sibs[1..]);
      if Name(sibs[0]) == "line" {
        var c := NodeContent(sibs[0]);
        var t := (if text != "" then text + "\n" else text) + c;
        assert EditorText(sibs, text) == EditorText(sibs[1..], t);
        EditorJoinsLines(sibs[1..], t);
        assert t != "";
        assert LineContents(sibs) == [c] + rest;
        EditorLineStep(text, c, rest);
      } else {
        assert EditorText(sibs, text) == EditorText(sibs[1..], text);
        EditorJoinsLines(sibs[1..], text);
        assert LineContents(sibs) == rest;
      }
    }
  }

  // ---------------------------------------------------------------- group cells

  /** The group type `GroupCellFromSubsectionTag` gives a `sectioning_level` (default "0"). */
  function SectioningLevel(level: string): (g: GroupType)
    ensures level == "0" || level == "3" ==> g == GroupSubsection
    ensures level == "4" ==> g == GroupSubsubsection
    ensures level == "5" ==> g == GroupHeading5
    ensures level !in {"0", "3", "4", "5"} ==> g == GroupHeading6
  {
    if level == "0" || level == "3" then GroupSubsection
    else if level == "4" then GroupSubsubsection
    else if level == "5" then GroupHeading5
    else GroupHeading6
  }

  /** `ParseCommonGroupCellAttrs`: `hideToolTip="true"` suppresses the tooltip marker. */
  function HidesToolTip(node: Node): bool
  {
    Attribute(node, "hideToolTip", "") == "true"
  }

  /** `GroupCellFromSubsectionTag` */
  function SubsectionGroup(node: Node): (g: Group)
    ensures g.groupType == SectioningLevel(Attribute(node, "sectioning_level", "0"))
    ensures g.suppressTooltipMarker == HidesToolTip(node) && !g.autoAnswer && g.answers == []
  {
    Group(SectioningLevel(Attribute(node, "sectioning_level", "0")), false, [], HidesToolTip(node))
  }

  function AnswerKey(i: nat): string
  {
    "answer" + WxString.NatToString(i)
  }

  function QuestionKey(i: nat): string
  {
    "question" + WxString.NatToString(i)
  }

  function AnswerPair(node: Node, i: nat): (string, string)
    requires HasAttribute(node, AnswerKey(i))
  {
    var question := if HasAttribute(node, QuestionKey(i)) then node.attrs[QuestionKey(i)]
                    else "Question #" + WxString.NatToString(i);
    (question, node.attrs[AnswerKey(i)])
  }

  /**
   * The answer loop of `GroupCellFromCodeTag` from index `i` on: an
   * `answer<i>` attribute gives an answer, to `question<i>` when that is
   * present and to "Question #<i>" otherwise; the first missing index ends it.
   */
  function Answers(node: Node, i: nat): seq<(string, string)>
    requires 1 <= i && forall m :: 1 <= m < i ==> HasAttribute(node, AnswerKey(m))
    decreases |Attrs(node)| + 1 - i
  {
    if !HasAttribute(node, AnswerKey(i)) then []
    else
      AnswerKeysCount(node, i);
      [AnswerPair(node, i)] + Answers(node, i + 1)
  }

  /** One step of the answer loop: a present `answer<i>` gives the next pair. */
  lemma AnswersStep(node: Node, i: nat)
    requires 1 <= i && forall m :: 1 <= m <= i ==> HasAttribute(node, AnswerKey(m))
    ensures Answers(node, i) == [AnswerPair(node, i)] + Answers(node, i + 1)
  {
  }

  /** `p` is what the loop makes of `answer<j>`. */
  predicate AnswerAt(node: Node, j: nat, p: (string, string))
  {
    HasAttribute(node, AnswerKey(j)) && p == AnswerPair(node, j)
  }

  /**
   * The loop reads `answer<i>`, `answer<i+1>`, ... up to the first one
   * missing: the `k`-th pair is the `(i+k)`-th answer.
   */
  lemma {:induction false} AnswersRead(node: Node, i: nat)
    requires 1 <= i && forall m :: 1 <= m < i ==> HasAttribute(node, AnswerKey(m))
    ensures var a := Answers(node, i);
      && (forall k :: 0 <= k < |a| ==> AnswerAt(node, i + k, a[k]))
      && !HasAttribute(node, AnswerKey(i + |a|))
    decreases |Attrs(node)| + 1 - i
  {
    if HasAttribute(node, AnswerKey(i)) {
      AnswerKeysCount(node, i);
      AnswersRead(node, i + 1);
      var a := Answers(node, i);
      var rest := Answers(node, i + 1);
      assert a == [AnswerPair(node, i)] + rest;
      forall k | 0 <= k < |a|
        ensures AnswerAt(node, i + k, a[k])
      {
        if k == 0 {
          assert i + k == i;
        } else {
          assert a[k] == rest[k - 1];
          assert AnswerAt(node, i + 1 + (k - 1), rest[k - 1]);
          assert i + 1 + (k - 1) == i + k;
        }
      }
      assert i + |a| == i + 1 + |rest|;
    }
  }

  /** The attributes of an element; a text node has none. */
  function Attrs(node: Node): map<string, string>
  {
    if node.Element? then node.attrs else map[]
  }

  /** Answer keys `1..i` present means at least `i` attributes. */
  lemma AnswerKeysCount(node: Node, i: nat)
    requires 1 <= i && forall m :: 1 <= m <= i ==> HasAttribute(node, AnswerKey(m))
    ensures |Attrs(node)| >= i
  {
    AnswerKeysPresent(node, i);
    AnswerKeysSize(i);
    SubsetSize(AnswerKeys(i), Attrs(node).Keys);
  }

  function AnswerKeys(i: nat): set<string>
  {
    if i == 0 then {} else AnswerKeys(i - 1) + {AnswerKey(i)}
  }

  lemma AnswerKeyInjective(m: nat, n: nat)
    requires AnswerKey(m) == AnswerKey(n)
    ensures m == n
  {
    assert AnswerKey(m)[6..] == WxString.NatToString(m);
    assert AnswerKey(n)[6..] == WxString.NatToString(n);
    WxString.NatToStringInjective(m, n);
  }

  lemma {:induction false} AnswerKeysPresent(node: Node, i: nat)
    requires forall m :: 1 <= m <= i ==> HasAttribute(node, AnswerKey(m))
    ensures AnswerKeys(i) <= Attrs(node).Keys
  {
    if i > 0 {
      AnswerKeysPresent(node, i - 1);
    }
  }

  lemma {:induction false} AnswerKeysSize(i: nat)
    ensures |AnswerKeys(i)| == i
    ensures forall m: nat :: m > i ==> AnswerKey(m) !in AnswerKeys(i)
  {
    if i > 0 {
      AnswerKeysSize(i - 1);
      forall m: nat | m > i
        ensures AnswerKey(m) !in AnswerKeys(i)
      {
        if AnswerKey(m) == AnswerKey(i) {
          AnswerKeyInjective(m, i);
        }
      }
    }
  }

  lemma SubsetSize<T>(a: set<T>, b: set<T>)
    requires a <= b
    ensures |a| <= |b|
  {
    assert b == a + (b - a);
  }

  /** `GroupCellFromCodeTag` */
  function CodeGroup(node: Node): (g: Group)
    ensures g.groupType == GroupCode
    ensures g.autoAnswer <==> Attribute(node, "auto_answer", "no") == "yes"
    ensures g.suppressTooltipMarker == HidesToolTip(node)
  {
    Group(GroupCode, Attribute(node, "auto_answer", "no") == "yes", Answers(node, 1), HidesToolTip(node))
  }

  // ---------------------------------------------------------------- ParseLine

  /** The `ShowLength` setting's ceiling on the length of a line; 0 means no ceiling. */
  function LengthCeiling(setting: int): (c: nat)
    ensures c == 0 <==> setting == 3
    ensures c != 0 ==> 6000 <= c <= 250000
    ensures (setting < 0 || setting > 3) ==> c == 50000
  {
    match setting
    case 0 => 6000
    case 1 => 20000
    case 2 => 250000
    case 3 => 0
    case _ => 50000
  }

  /** Whether a line of `length` characters is parsed at all. */
  predicate Admitted(setting: int, length: nat)
  {
    length < LengthCeiling(setting) || LengthCeiling(setting) == 0
  }

  /** The gate admits a prefix of everything it admits, and setting 3 admits everything. */
  lemma AdmittedDownward(setting: int, m: nat, n: nat)
    requires m <= n && Admitted(setting, n)
    ensures Admitted(setting, m)
    ensures Admitted(3, n)
  {
  }

  const TooLongText: string := "(Expression longer than allowed by the configuration setting)"
  const TooLongToolTip: string :=
    "The maximum size of the expressions wxMaxima is allowed to display can be changed in the configuration dialogue."

  /** The warning that stands in for a line that is too long. */
  const TooLong: Cell := Cell(Fresh.(style := Warning, toolTip := TooLongToolTip, forceBreak := true), TextBody(TooLongText))

  /**
   * `ParseLine(s, style)`.  `doc` is the document's root element as the XML
   * loader gives it for `s` (none for a malformed document).
   */
  function LineSpec(s: string, style: CellType, setting: int, doc: Option<Node>): (c: Chain)
    ensures !Admitted(setting, |s|) ==> c == [TooLong]
    ensures Admitted(setting, |s|) && doc.None? ==> c == []
  {
    if Admitted(setting, |s|) then
      if doc.Some? then ParseTagSpec(Children(doc.value), 0, true, Ctx(style, false, FracNormal)) else []
    else [TooLong]
  }

  // ---------------------------------------------------------------- the tag table

  /** The builders of `m_innerTags`; `NotModelled` stands for the ones outside this model. */
  datatype Builder =
    | FracTag | DiffTag | SubTag | LimitTag | SumTag | IntTag | FunTag | SubSupTag | MmultiscriptsTag
    | TableTag | EditorTag | HighlightTag | TagContents | NotModelled

  /** `m_innerTags`: the builder registered for a tag name, if any. */
  function InnerTag(name: string): (b: Option<Builder>)
    ensures b == Some(SubSupTag) <==> name == "ie"
    ensures b == Some(LimitTag) <==> name == "lm"
    ensures b == Some(FunTag) <==> name == "fn"
    ensures b == Some(MmultiscriptsTag) <==> name == "mmultiscripts"
    ensures b == Some(TagContents) <==> name == "r" || name == "mrow"
    ensures b == Some(FracTag) <==> name == "f" || name == "mfrac"
    ensures b == Some(SubTag) <==> name == "i" || name == "munder"
    ensures name == "none" || name == "mprescripts" ==> b == None
  {
    if name in {"f", "mfrac"} then Some(FracTag)
    else if name == "d" then Some(DiffTag)
    else if name in {"i", "munder"} then Some(SubTag)
    else if name == "lm" then Some(LimitTag)
    else if name == "sm" then Some(SumTag)
    else if name == "in" then Some(IntTag)
    else if name == "fn" then Some(FunTag)
    else if name == "ie" then Some(SubSupTag)
    else if name == "mmultiscripts" then Some(MmultiscriptsTag)
    else if name == "tb" then Some(TableTag)
    else if name == "editor" then Some(EditorTag)
    else if name == "hl" then Some(HighlightTag)
    else if name in {"r", "mrow"} then Some(TagContents)
    else if name in {"v", "mi", "mo", "t", "n", "mn", "p", "e", "msup", "g", "s", "fnm", "q", "mspace",
                     "at", "a", "cj", "mth", "line", "lbl", "st", "h", "img", "slide", "cell", "ascii"} then
      Some(NotModelled)
    else None
  }

  /**
   * What the builder registered for a tag makes of an element; `None` for
   * the builders outside this model.
   */
  function BuilderSpec(b: Builder, node: Node, ctx: Ctx, r: Renderer): Option<Chain>
  {
    match b
    case FracTag => Some([FracSpec(node, ctx)])
    case DiffTag => Some([DiffSpec(node, ctx)])
    case SubTag => Some([SubSpec(node, ctx)])
    case LimitTag => Some([LimitSpec(node, ctx)])
    case SumTag => Some([SumSpec(node, ctx)])
    case IntTag => Some([IntSpec(node, ctx)])
    case FunTag => Some([FunSpec(node, ctx, r)])
    case SubSupTag => Some([SubSupSpec(node, ctx)])
    case MmultiscriptsTag => Some([MmultiscriptsSpec(node, ctx)])
    case TableTag => Some([TableSpec(node, ctx)])
    case EditorTag => Some([EditorSpec(node)])
    case HighlightTag => Some(ParseTagSpec(Children(node), 0, true, ctx.(highlight := true)))
    case TagContents => Some(ParseTagSpec(Children(node), 0, true, ctx))
    case NotModelled => None
  }

  /**
   * The element branch of `ParseTag` for an element whose tag has the
   * builder `tag` registered: the builder's result, and when that is null
   * (or no builder is registered) the element's children parsed as a list.
   */
  function ElementSpec(tag: Option<Builder>, node: Node, ctx: Ctx, r: Renderer): Option<Chain>
  {
    var t := match tag case None => Some([]) case Some(b) => BuilderSpec(b, node, ctx, r);
    if t == Some([]) && Children(node) != [] then Some(ParseTagSpec(Children(node), 0, true, ctx)) else t
  }
}
