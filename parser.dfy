/**
 * `MathParser`: turns the XML that Maxima and the `.wxmx` format produce into
 * lists of cells.  The parser's state is the cell type, fraction style and
 * highlight flag it hands down to the cells it builds; every builder leaves
 * that state as it found it.  Each method is proved to compute the function
 * of `ParserSpec` that says what it builds.
 */
module Parser {
  import opened Wrappers
  import opened Cells
  import opened Xml
  import opened ParserSpec
  import WxString
  import SubSupCells
  import LimitCells
  import FunCells

  class MathParser {
    /** `m_ParserStyle` */
    var parserStyle: CellType
    /** `m_FracStyle` */
    var fracStyle: FracStyle
    /** `m_highlight` */
    var highlight: bool
    /** The serialisers of the cell classes outside this model, which `FunCell::ToString` needs. */
    const renderer: Renderer

    function State(): Ctx
      reads this
    {
      Ctx(parserStyle, highlight, fracStyle)
    }

    constructor (r: Renderer)
      ensures State() == Ctx(TypeDefault, false, FracNormal) && renderer == r
    {
      parserStyle := TypeDefault;
      fracStyle := FracNormal;
      highlight := false;
      renderer := r;
    }

    // ------------------------------------------------------------ text and lists

    /** `ParseText(node, style)`: one text cell per line of the node's content. */
    method ParseText(n: Option<Node>, style: TextStyle) returns (c: Chain)
      ensures c == ParseTextSpec(n, style, State())
    {
      var lines: seq<string> := [];
      if n.Some? && Content(n.value) != "" {
        var str := WxString.ReplaceChar(Content(n.value), '-', UnicodeMinus);
        lines := WxString.Tokens(str, '\n');
      }
      assert lines == TextLines(n);
      var retval: Chain := [];
      var k := 0;
      while k < |lines|
        invariant k <= |lines|
        invariant retval == LineCells(lines[..k], style, State())
      {
        var cell := Cell(Fresh.(cellType := TextCellType(style, parserStyle), style := style,
                                highlight := highlight, forceBreak := retval != []),
                         TextBody(lines[k]));
        assert cell == LineCell(lines[k], style, State(), k > 0);
        LineCellsStep(lines, k, style, State());
        retval := retval + [cell];
        k := k + 1;
      }
      assert lines[..k] == lines;
      if retval == [] {
        retval := [EmptyText];
      }
      c := WithCommonAttrs(n, retval);
    }

    /**
     * `ParseTag(node, all)` for the node at index `i` of `sibs`: walks the
     * siblings (only the first one without `all`), building every element
     * and linking text cells as the source links them.
     */
    method ParseTag(sibs: seq<Node>, i: nat, all: bool) returns (c: Chain)
      requires i <= |sibs|
      modifies this
      ensures State() == old(State())
      ensures c == ParseTagSpec(sibs, i, all, old(State()))
      decreases SeqSize(sibs), 3
    {
      ghost var text := TextCellsOf(State());
      ghost var target := ParseTagSpec(sibs, i, all, State());
      var retval: Chain := [];
      var ownedCell: Chain := [];
      var cell: Cursor := Null;
      var j := SkipWhitespaceNode(sibs, i);
      while j < |sibs|
        invariant j <= |sibs|
        invariant State() == old(State())
        invariant Run(sibs, j, all, Walk(retval, ownedCell, cell), text).result == target
        decreases |sibs| - j
      {
        ghost var w := Walk(retval, ownedCell, cell);
        var node := sibs[j];
        if node.Element? {
          ElementSize(sibs, j);
          var tmp := BuildElement(node);
          if tmp == Some([]) && cell.Null? {
            ownedCell := [];
          }
          assert Equivalent(Walk(retval, ownedCell, cell), Absorb(w, node, text));
        } else {
          var lines := ParseText(Some(node), Default);
          assert lines == text(node);
          match cell {
            case Null =>
              ownedCell := lines;
              cell := InOrphan(0);
            case InResult(_) =>
              retval := retval + lines;
            case InOrphan(_) =>
              ownedCell := ownedCell + lines;
          }
          assert Walk(retval, ownedCell, cell) == Absorb(w, node, text);
        }
        ghost var absorbed := Walk(retval, ownedCell, cell);
        if !cell.Null? {
          if retval == [] {
            retval, ownedCell := ownedCell, [];
            cell := match cell case InOrphan(k) => InResult(k) case other => other;
          } else {
            // cell = cell->m_next
            cell := Advance(Walk(retval, ownedCell, cell)).cursor;
          }
        }
        assert Walk(retval, ownedCell, cell) == Link(absorbed);
        LinkEquivalent(absorbed, Absorb(w, node, text));
        RunStep(sibs, j, all, w, Walk(retval, ownedCell, cell), text);
        j := GetNextTag(sibs, j);
        if !all {
          assert retval == target;
          break;
        }
      }
      c := retval;
    }

    /**
     * The element branch of `ParseTag`: the builder `m_innerTags` registers
     * for the tag, then, when it gave null, the children as a list.  `None`
     * stands for the result of a builder outside this model.
     */
    method BuildElement(node: Node) returns (tmp: Option<Chain>)
      modifies this
      ensures State() == old(State())
      ensures tmp == ElementSpec(InnerTag(Name(node)), node, old(State()), renderer)
      decreases Size(node), 2
    {
      match InnerTag(Name(node)) {
        case None =>
          tmp := Some([]);
        case Some(b) =>
          tmp := CallBuilder(b, node);
      }
      if tmp == Some([]) && Children(node) != [] {
        ChildrenSmaller(node);
        var c := ParseTag(Children(node), 0, true);
        tmp := Some(c);
      }
    }

    /** The call through `m_innerTags`: the builder registered for the tag, `None` for a builder outside this model. */
    method CallBuilder(b: Builder, node: Node) returns (tmp: Option<Chain>)
      modifies this
      ensures State() == old(State())
      ensures tmp == BuilderSpec(b, node, old(State()), renderer)
      decreases Size(node), 1
    {
      match b {
        case FracTag => var c := ParseFracTag(node); tmp := Some([c]);
        case DiffTag => var c := ParseDiffTag(node); tmp := Some([c]);
        case SubTag => var c := ParseSubTag(node); tmp := Some([c]);
        case LimitTag => var c := ParseLimitTag(node); tmp := Some([c]);
        case SumTag => var c := ParseSumTag(node); tmp := Some([c]);
        case IntTag => var c := ParseIntTag(node); tmp := Some([c]);
        case FunTag => var c := ParseFunTag(node); tmp := Some([c]);
        case SubSupTag => var c := ParseSubSupTag(node); tmp := Some([c]);
        case MmultiscriptsTag => var c := ParseMmultiscriptsTag(node); tmp := Some([c]);
        case TableTag => var c := ParseTableTag(node); tmp := Some([c]);
        case EditorTag => var c := ParseEditorTag(node); tmp := Some([c]);
        case HighlightTag => var c := ParseHighlightTag(node); tmp := Some(c);
        case TagContents => var c := ParseTagContents(node); tmp := Some(c);
        case NotModelled => tmp := None;
      }
    }

    /** `ParseTagContents`: the children as a list. */
    method ParseTagContents(node: Node) returns (c: Chain)
      modifies this
      ensures State() == old(State())
      ensures c == ParseTagSpec(Children(node), 0, true, old(State()))
      decreases Size(node), 0
    {
      c := [];
      if Children(node) != [] {
        ChildrenSmaller(node);
        c := ParseTag(Children(node), 0, true);
      }
    }

    /** `ParseHighlightTag`: the children as a list, parsed with the highlight flag set. */
    method ParseHighlightTag(node: Node) returns (c: Chain)
      modifies this
      ensures State() == old(State())
      ensures c == ParseTagSpec(Children(node), 0, true, old(State()).(highlight := true))
      decreases Size(node), 0
    {
      var saved := highlight;
      highlight := true;
      ChildrenSmaller(node);
      c := ParseTag(Children(node), 0, true);
      highlight := saved;
    }

    // ------------------------------------------------------------ positional builders

    method ParseFracTag(node: Node) returns (c: Cell)
      modifies this
      ensures State() == old(State())
      ensures c == FracSpec(node, old(State()))
      decreases Size(node), 0
    {
      var style := fracStyle;
      var common := Fresh.(highlight := highlight);
      var sibs := Children(node);
      ChildrenSmaller(node);
      var child := SkipWhitespaceNode(sibs, 0);
      var num := ParseTag(sibs, child, false);
      child := GetNextTag(sibs, child);
      var denom := ParseTag(sibs, child, false);
      if Attribute(node, "line", "") == "no" {
        style := FracChoose;
      }
      if Attribute(node, "diffstyle", "") == "yes" {
        style := FracDiff;
      }
      common := common.(cellType := parserStyle, style := Variable);
      common := CommonAttrs(Some(node), common);
      c := Cell(common, Frac(HandleNullPointer(num), HandleNullPointer(denom), style));
    }

    method ParseDiffTag(node: Node) returns (c: Cell)
      modifies this
      ensures State() == old(State())
      ensures c == DiffSpec(node, old(State()))
      decreases Size(node), 0
    {
      var common := Fresh;
      var diff: Chain, base: Chain := [], [];
      var sibs := Children(node);
      ChildrenSmaller(node);
      var child := SkipWhitespaceNode(sibs, 0);
      if child < |sibs| {
        var fc := fracStyle;
        fracStyle := FracDiff;
        var d := ParseTag(sibs, child, false);
        diff := HandleNullPointer(d);
        fracStyle := fc;
        child := GetNextTag(sibs, child);
        var b := ParseTag(sibs, child, true);
        base := HandleNullPointer(b);
        common := common.(cellType := parserStyle, style := Variable);
      }
      common := CommonAttrs(Some(node), common);
      c := Cell(common, Diff(diff, base));
    }

    method ParseSubTag(node: Node) returns (c: Cell)
      modifies this
      ensures State() == old(State())
      ensures c == SubSpec(node, old(State()))
      decreases Size(node), 0
    {
      var sibs := Children(node);
      ChildrenSmaller(node);
      var child := SkipWhitespaceNode(sibs, 0);
      var base := ParseTag(sibs, child, false);
      child := GetNextTag(sibs, child);
      var index := ParseTag(sibs, child, false);
      var common := Fresh.(cellType := parserStyle, style := Variable);
      common := CommonAttrs(Some(node), common);
      c := Cell(common, Sub(HandleNullPointer(base), WithExponentFlag(HandleNullPointer(index))));
    }

    method ParseLimitTag(node: Node) returns (c: Cell)
      modifies this
      ensures State() == old(State())
      ensures c == LimitSpec(node, old(State()))
      decreases Size(node), 0
    {
      var limit := new LimitCells.LimitCell();
      var sibs := Children(node);
      ChildrenSmaller(node);
      var child := SkipWhitespaceNode(sibs, 0);
      var name := ParseTag(sibs, child, false);
      limit.SetName(HandleNullPointer(name));
      child := GetNextTag(sibs, child);
      var under := ParseTag(sibs, child, false);
      limit.SetUnder(HandleNullPointer(under));
      child := GetNextTag(sibs, child);
      var base := ParseTag(sibs, child, false);
      limit.SetBase(HandleNullPointer(base));
      limit.common := limit.common.(cellType := parserStyle, style := Variable);
      limit.common := CommonAttrs(Some(node), limit.common);
      c := Cell(limit.common, Limit(limit.name, limit.under, limit.base));
    }

    method ParseSumTag(node: Node) returns (c: Cell)
      modifies this
      ensures State() == old(State())
      ensures c == SumSpec(node, old(State()))
      decreases Size(node), 0
    {
      ghost var ctx := State();
      var sibs := Children(node);
      ChildrenSmaller(node);
      var child := SkipWhitespaceNode(sibs, 0);
      var t := Attribute(node, "type", "sum");
      var style := SumSum;
      if t == "prod" {
        style := SumProd;
      }
      var common := Fresh.(highlight := highlight);
      var under := ParseTag(sibs, child, false);
      assert HandleNullPointer(under) == Child(sibs, ChildAt(sibs, 0), ctx);
      child := GetNextTag(sibs, child);
      var over: Chain := [];
      if t != "lsum" {
        var o := ParseTag(sibs, child, false);
        over := HandleNullPointer(o);
        assert over == Child(sibs, ChildAt(sibs, 1), ctx);
      }
      child := GetNextTag(sibs, child);
      var base := ParseTag(sibs, child, false);
      assert HandleNullPointer(base) == Child(sibs, ChildAt(sibs, 2), ctx);
      common := common.(cellType := parserStyle, style := Variable);
      common := CommonAttrs(Some(node), common);
      assert common == Built(node, ctx, Variable, true);
      c := Cell(common, Sum(style, HandleNullPointer(under), over, HandleNullPointer(base)));
    }

    method ParseIntTag(node: Node) returns (c: Cell)
      modifies this
      ensures State() == old(State())
      ensures c == IntSpec(node, old(State()))
      decreases Size(node), 0
    {
      var sibs := Children(node);
      ChildrenSmaller(node);
      var child := SkipWhitespaceNode(sibs, 0);
      var common := Fresh.(highlight := highlight);
      var body: Body;
      if Attribute(node, "def", "true") != "true" {
        var base := ParseTag(sibs, child, false);
        child := GetNextTag(sibs, child);
        var variable := ParseTag(sibs, child, true);
        body := Integral(false, [], [], HandleNullPointer(base), HandleNullPointer(variable));
      } else {
        var under := ParseTag(sibs, child, false);
        child := GetNextTag(sibs, child);
        var over := ParseTag(sibs, child, false);
        child := GetNextTag(sibs, child);
        var base := ParseTag(sibs, child, false);
        child := GetNextTag(sibs, child);
        var variable := ParseTag(sibs, child, true);
        body := Integral(true, HandleNullPointer(under), HandleNullPointer(over),
                         HandleNullPointer(base), HandleNullPointer(variable));
      }
      common := common.(cellType := parserStyle, style := Variable);
      common := CommonAttrs(Some(node), common);
      c := Cell(common, body);
    }

    method ParseFunTag(node: Node) returns (c: Cell)
      modifies this
      ensures State() == old(State())
      ensures c == FunSpec(node, old(State()), renderer)
      decreases Size(node), 0
    {
      ghost var ctx := State();
      var fun := new FunCells.FunCell();
      var sibs := Children(node);
      ChildrenSmaller(node);
      ParseNameAndArg(fun, sibs);
      fun.common := CommonAttrs(Some(node), fun.common);
      assert fun.common == Built(node, ctx, Function, false);
      ghost var lambda := WxString.Contains(FunCells.FunText(false, fun.common.altCopy, fun.name, fun.arg, renderer), ")(");
      assert FunSpec(node, ctx, renderer) == Cell(if lambda then fun.common.(toolTip := LambdaHint) else fun.common, Fun(fun.name, fun.arg));
      if WxString.Contains(fun.ToString(renderer), ")(") {
        fun.common := fun.common.(toolTip := LambdaHint);
      }
      c := Cell(fun.common, Fun(fun.name, fun.arg));
    }

    /** The two children of `ParseFunTag`: the function's name and its argument, in the parser's style. */
    method ParseNameAndArg(fun: FunCells.FunCell, sibs: seq<Node>)
      requires fun.Valid()
      modifies this, fun
      ensures State() == old(State())
      ensures fun.Valid() && fun.broken == old(fun.broken)
      ensures fun.name == FunCells.FunctionName(Child(sibs, ChildAt(sibs, 0), old(State())))
      ensures fun.arg == InvalidCellOr(Child(sibs, ChildAt(sibs, 1), old(State())))
      ensures fun.common == old(fun.common).(cellType := parserStyle, style := Function)
      decreases SeqSize(sibs), 5
    {
      var child := ParseFunctionName(fun, sibs);
      fun.common := fun.common.(cellType := parserStyle, style := Function);
      var arg := ParseTag(sibs, child, false);
      fun.SetArg(HandleNullPointer(arg));
    }

    /** The first child of a function element is its name; the result is the position of the child after it. */
    method ParseFunctionName(fun: FunCells.FunCell, sibs: seq<Node>) returns (child: nat)
      requires fun.Valid()
      modifies this, fun`name
      ensures State() == old(State())
      ensures fun.Valid()
      ensures fun.name == FunCells.FunctionName(Child(sibs, ChildAt(sibs, 0), old(State())))
      ensures child == ChildAt(sibs, 1)
      decreases SeqSize(sibs), 4
    {
      child := SkipWhitespaceNode(sibs, 0);
      var name := ParseTag(sibs, child, false);
      fun.SetName(HandleNullPointer(name));
      child := GetNextTag(sibs, child);
    }

    method ParseSubSupTag(node: Node) returns (c: Cell)
      modifies this
      ensures State() == old(State())
      ensures c == SubSupSpec(node, old(State()))
      decreases Size(node), 0
    {
      ghost var ctx := State();
      var subsup := new SubSupCells.SubSupCell();
      var sibs := Children(node);
      ChildrenSmaller(node);
      var child := ParseBase(subsup, sibs);
      if child < |sibs| && Attribute(sibs[child], "pos", "") != "" {
        ParsePositionedScripts(subsup, sibs, child);
        assert Cell(subsup.common, SubSup(subsup.Value())) == SubSupSpec(node, ctx);
      } else {
        ParseIndexAndExponent(subsup, sibs, child);
        subsup.common := subsup.common.(cellType := parserStyle, style := Variable);
        subsup.common := CommonAttrs(Some(node), subsup.common);
        assert Cell(subsup.common, SubSup(subsup.Value())) == SubSupSpec(node, ctx);
      }
      c := Cell(subsup.common, SubSup(subsup.Value()));
    }

    /** The first child of a script element is the base; the result is the position of the child after it. */
    method ParseBase(subsup: SubSupCells.SubSupCell, sibs: seq<Node>) returns (child: nat)
      requires subsup.Valid()
      modifies this, subsup
      ensures State() == old(State())
      ensures subsup.Valid() && subsup.common == old(subsup.common)
      ensures subsup.Value() == SubSupCells.WithBase(old(subsup.Value()), Child(sibs, ChildAt(sibs, 0), old(State())))
      ensures child == ChildAt(sibs, 1)
      decreases SeqSize(sibs), 4
    {
      child := SkipWhitespaceNode(sibs, 0);
      var base := ParseTag(sibs, child, false);
      subsup.SetBase(HandleNullPointer(base));
      child := GetNextTag(sibs, child);
    }

    /** The positional form of `ParseSubSupTag`: the child at `first` is the index, the next one the exponent. */
    method ParseIndexAndExponent(subsup: SubSupCells.SubSupCell, sibs: seq<Node>, first: nat)
      requires first <= |sibs| && subsup.Valid()
      modifies this, subsup
      ensures State() == old(State())
      ensures subsup.Valid() && subsup.common == old(subsup.common)
      ensures subsup.Value() ==
        SubSupCells.SetTwoScript(
          SubSupCells.SetTwoScript(old(subsup.Value()), PostSub, WithExponentFlag(Child(sibs, first, old(State())))),
          PostSup, WithExponentFlag(Child(sibs, GetNextTag(sibs, first), old(State()))))
      decreases SeqSize(sibs), 4
    {
      ghost var ctx, s0 := State(), subsup.Value();
      var index := ParseTag(sibs, first, false);
      subsup.SetIndex(WithExponentFlag(HandleNullPointer(index)));
      ghost var s1 := subsup.Value();
      assert s1 == SubSupCells.SetTwoScript(s0, PostSub, WithExponentFlag(Child(sibs, first, ctx)));
      var child := GetNextTag(sibs, first);
      var power := ParseTag(sibs, child, false);
      subsup.SetExponent(WithExponentFlag(HandleNullPointer(power)));
    }

    /** The `pos` loop of `ParseSubSupTag`: every child from `child` on is set in the role its `pos` names. */
    method ParsePositionedScripts(subsup: SubSupCells.SubSupCell, sibs: seq<Node>, first: nat)
      requires first <= |sibs| && subsup.Valid()
      modifies this, subsup
      ensures State() == old(State())
      ensures subsup.Valid() && subsup.common == old(subsup.common)
      ensures subsup.Value() == PosLoop(sibs, first, old(subsup.Value()), old(State()))
      decreases SeqSize(sibs), 5
    {
      ghost var ctx, s0 := State(), subsup.Value();
      var child := first;
      while child < |sibs|
        invariant child <= |sibs|
        invariant subsup.Valid() && subsup.common == old(subsup.common)
        invariant State() == ctx
        invariant PosLoop(sibs, child, subsup.Value(), ctx) == PosLoop(sibs, first, s0, ctx)
        decreases |sibs| - child
      {
        ParsePositionedScript(subsup, sibs, child);
        child := SkipWhitespaceNode(sibs, child);
        child := GetNextTag(sibs, child);
      }
    }

    /** One child of the `pos` loop of `ParseSubSupTag`. */
    method ParsePositionedScript(subsup: SubSupCells.SubSupCell, sibs: seq<Node>, child: nat)
      requires child < |sibs| && subsup.Valid()
      modifies this, subsup
      ensures State() == old(State())
      ensures subsup.Valid() && subsup.common == old(subsup.common)
      ensures subsup.Value() == PosStep(sibs, child, old(subsup.Value()), old(State()))
      decreases SeqSize(sibs), 4
    {
      var pos := Attribute(sibs[child], "pos", "");
      var t := ParseTag(sibs, child, false);
      var cell := HandleNullPointer(t);
      if pos == "presub" {
        subsup.SetPreSub(cell);
      } else if pos == "presup" {
        subsup.SetPreSup(cell);
      } else if pos == "postsup" {
        subsup.SetPostSup(cell);
      } else if pos == "postsub" {
        subsup.SetPostSub(cell);
      }
    }

    method ParseMmultiscriptsTag(node: Node) returns (c: Cell)
      modifies this
      ensures State() == old(State())
      ensures c == MmultiscriptsSpec(node, old(State()))
      decreases Size(node), 0
    {
      ghost var ctx := State();
      var subsup := new SubSupCells.SubSupCell();
      var sibs := Children(node);
      ChildrenSmaller(node);
      var child := ParseBase(subsup, sibs);
      ParsePairedScripts(subsup, sibs, child);
      c := Cell(subsup.common, SubSup(subsup.Value()));
    }

    /**
     * The script loop of `ParseMmultiscriptsTag`: children alternate subscript
     * and superscript, `mprescripts` switches to the pre-scripts, `none` leaves a
     * slot empty.
     */
    method ParsePairedScripts(subsup: SubSupCells.SubSupCell, sibs: seq<Node>, first: nat)
      requires first <= |sibs| && subsup.Valid()
      modifies this, subsup
      ensures State() == old(State())
      ensures subsup.Valid() && subsup.common == old(subsup.common)
      ensures subsup.Value() == MmLoop(sibs, first, false, true, old(subsup.Value()), old(State()))
      decreases SeqSize(sibs), 4
    {
      ghost var ctx, s0 := State(), subsup.Value();
      var pre, subscript := false, true;
      var child := first;
      while child < |sibs|
        invariant child <= |sibs|
        invariant subsup.Valid() && subsup.common == old(subsup.common)
        invariant State() == ctx
        invariant MmLoop(sibs, child, pre, subscript, subsup.Value(), ctx) == MmLoop(sibs, first, false, true, s0, ctx)
        decreases |sibs| - child
      {
        if Name(sibs[child]) == "mprescripts" {
          pre, subscript := true, true;
          child := GetNextTag(sibs, child);
          continue;
        }
        ghost var before, here := subsup.Value(), child;
        if Name(sibs[child]) != "none" {
          var cell := ParseTag(sibs, child, false);
          if pre && subscript {
            subsup.SetPreSub(cell);
          }
          if pre && !subscript {
            subsup.SetPreSup(cell);
          }
          if !pre && subscript {
            subsup.SetPostSub(cell);
          }
          if !pre && !subscript {
            subsup.SetPostSup(cell);
          }
          assert subsup.Value() == SubSupCells.SetRole(before, RoleFor(pre, subscript), cell);
        }
        subscript := !subscript;
        child := SkipWhitespaceNode(sibs, child);
        child := GetNextTag(sibs, child);
        assert MmLoop(sibs, here, pre, !subscript, before, ctx) == MmLoop(sibs, child, pre, subscript, subsup.Value(), ctx);
      }
    }

    // ------------------------------------------------------------ tables and editors

    method ParseTableTag(node: Node) returns (c: Cell)
      modifies this
      ensures State() == old(State())
      ensures c == TableSpec(node, old(State()))
      decreases Size(node), 0
    {
      ghost var ctx := State();
      var common := Fresh.(highlight := highlight);
      var special, inference, colNames, rowNames, roundedParens := false, false, false, false, false;
      if Attribute(node, "special", "false") == "true" {
        special := true;
      }
      if Attribute(node, "inference", "false") == "true" {
        inference, special := true, true;
      }
      if Attribute(node, "colnames", "false") == "true" {
        colNames := true;
      }
      if Attribute(node, "rownames", "false") == "true" {
        rowNames := true;
      }
      if Attribute(node, "roundedParens", "false") == "true" {
        roundedParens := true;
      }
      assert special == (Flag(node, "special") || Flag(node, "inference")) && inference == Flag(node, "inference");
      assert colNames == Flag(node, "colnames") && rowNames == Flag(node, "rownames");
      assert roundedParens == Flag(node, "roundedParens");
      var sibs := Children(node);
      ChildrenSmaller(node);
      var matrix: seq<seq<Chain>> := [];
      var rows := SkipWhitespaceNode(sibs, 0);
      ghost var all := TableRows(sibs, rows, ctx);
      while rows < |sibs|
        invariant rows <= |sibs|
        invariant State() == old(State())
        invariant matrix + TableRows(sibs, rows, ctx) == all
        decreases |sibs| - rows
      {
        ElementSize(sibs, rows);
        var row := ParseTableRow(sibs[rows]);
        ghost var rest := TableRows(sibs, GetNextTag(sibs, rows), ctx);
        AppendAssoc(matrix, [row], rest);
        matrix := matrix + [row];
        rows := GetNextTag(sibs, rows);
      }
      common := common.(cellType := parserStyle, style := Variable);
      common := CommonAttrs(Some(node), common);
      assert common == Built(node, ctx, Variable, true);
      assert matrix == all by {
        assert TableRows(sibs, rows, ctx) == [];
      }
      c := Cell(common, Matrix(matrix, special, inference, colNames, rowNames, roundedParens));
    }

    /** One row of `ParseTableTag`: a new row, then one cell per child of the row element. */
    method ParseTableRow(rowNode: Node) returns (row: seq<Chain>)
      modifies this
      ensures State() == old(State())
      ensures row == RowCells(Children(rowNode), SkipWhitespaceNode(Children(rowNode), 0), old(State()))
      decreases Size(rowNode), 0
    {
      ghost var ctx := State();
      var cells := Children(rowNode);
      ChildrenSmaller(rowNode);
      row := [];
      var cell := SkipWhitespaceNode(cells, 0);
      ghost var all := RowCells(cells, cell, ctx);
      while cell < |cells|
        invariant cell <= |cells|
        invariant State() == old(State())
        invariant row + RowCells(cells, cell, ctx) == all
        decreases |cells| - cell
      {
        var t := ParseTag(cells, cell, false);
        ghost var rest := RowCells(cells, GetNextTag(cells, cell), ctx);
        AppendAssoc(row, [HandleNullPointer(t)], rest);
        row := row + [HandleNullPointer(t)];
        cell := GetNextTag(cells, cell);
      }
    }

    method ParseEditorTag(node: Node) returns (c: Cell)
      ensures c == EditorSpec(node)
    {
      var editorType: Option<CellType> := None;
      var t := Attribute(node, "type", "input");
      if t == "input" {
        editorType := Some(TypeInput);
      } else if t == "text" {
        editorType := Some(TypeText);
      } else if t == "title" {
        editorType := Some(TypeTitle);
      } else if t == "section" {
        editorType := Some(TypeSection);
      } else if t == "subsection" {
        editorType := Some(TypeSubsection);
      } else if t == "subsubsection" {
        editorType := Some(TypeSubsubsection);
      } else if t == "heading5" {
        editorType := Some(TypeHeading5);
      } else if t == "heading6" {
        editorType := Some(TypeHeading6);
      }
      var sibs := Children(node);
      var text := "";
      var line := 0;
      while line < |sibs|
        invariant line <= |sibs|
        invariant EditorText(sibs[line..], text) == EditorText(sibs, "")
      {
        assert sibs[line..][1..] == sibs[line + 1..];
        if Name(sibs[line]) == "line" {
          if text != "" {
            text := text + "\n";
          }
          text := text + NodeContent(sibs[line]);
        }
        line := line + 1;
      }
      c := Cell(Fresh, Editor(editorType, text));
    }

    // ------------------------------------------------------------ group cells

    method GroupCellFromSubsectionTag(node: Node) returns (g: Group)
      ensures g == SubsectionGroup(node)
    {
      var level := Attribute(node, "sectioning_level", "0");
      var groupType: Option<GroupType> := None;
      if level == "0" || level == "3" {
        groupType := Some(GroupSubsection);
      }
      if level == "4" {
        groupType := Some(GroupSubsubsection);
      }
      if level == "5" {
        groupType := Some(GroupHeading5);
      }
      if groupType.None? {
        groupType := Some(GroupHeading6);
      }
      g := Group(groupType.value, false, [], false);
      if Attribute(node, "hideToolTip", "") == "true" {
        g := g.(suppressTooltipMarker := true);
      }
    }

    method GroupCellFromCodeTag(node: Node) returns (g: Group)
      ensures g == CodeGroup(node)
    {
      g := Group(GroupCode, false, [], false);
      if Attribute(node, "auto_answer", "no") == "yes" {
        g := g.(autoAnswer := true);
      }
      var i := 1;
      while HasAttribute(node, AnswerKey(i))
        invariant 1 <= i && forall m :: 1 <= m < i ==> HasAttribute(node, AnswerKey(m))
        invariant g.answers + Answers(node, i) == Answers(node, 1)
        invariant g.groupType == GroupCode && !g.suppressTooltipMarker
        invariant g.autoAnswer <==> Attribute(node, "auto_answer", "no") == "yes"
        decreases |Attrs(node)| + 1 - i
      {
        AnswerKeysCount(node, i);
        var answer := node.attrs[AnswerKey(i)];
        var question := "Question #" + WxString.NatToString(i);
        if HasAttribute(node, QuestionKey(i)) {
          question := node.attrs[QuestionKey(i)];
        }
        assert (question, answer) == AnswerPair(node, i);
        AnswersStep(node, i);
        AppendAssoc(g.answers, [(question, answer)], Answers(node, i + 1));
        g := g.(answers := g.answers + [(question, answer)]);
        i := i + 1;
      }
      if Attribute(node, "hideToolTip", "") == "true" {
        g := g.(suppressTooltipMarker := true);
      }
    }

    // ------------------------------------------------------------ ParseLine

    /**
     * `ParseLine(s, style)`.  `setting` is the `ShowLength` configuration
     * value and `doc` the root the XML loader finds in `s` (none when `s` is
     * not well-formed).
     */
    method ParseLine(s: string, style: CellType, setting: int, doc: Option<Node>) returns (c: Chain)
      modifies this
      ensures State() == Ctx(style, false, FracNormal)
      ensures c == LineSpec(s, style, setting, doc)
    {
      parserStyle := style;
      fracStyle := FracNormal;
      highlight := false;
      c := [];
      var showLength: int;
      match setting {
        case 0 => showLength := 6000;
        case 1 => showLength := 20000;
        case 2 => showLength := 250000;
        case 3 => showLength := 0;
        case _ => showLength := 50000;
      }
      if |s| < showLength || showLength == 0 {
        if doc.Some? {
          c := ParseTag(Children(doc.value), 0, true);
        }
      } else {
        c := [TooLong];
      }
    }
  }
}
