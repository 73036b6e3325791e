/**
 * FunCell: a function application that needs no special layout, drawn as its
 * name followed by its (parenthesised) argument list.
 */
module FunCells {
  import opened Cells
  import WxString

  /** The names `ToTeX` writes as TeX operators (`\sin{...}` and so on). */
  const TeXFunctions: set<string> := {"sin", "cos", "cosh", "sinh", "log", "cot", "sec", "csc", "tan"}

  /** The two lists a broken-up function is drawn as. */
  datatype FunPart = NameList | ArgList

  /** `InvalidCellOr` followed by `SetStyle(TS_FUNCTION)` on the head. */
  function FunctionName(c: Chain): (n: Chain)
    ensures n != [] && n[0].common.style == Function
    ensures c != [] ==> n == WithStyle(c, Function)
    ensures c == [] ==> n == [InvalidCell.(common := InvalidCell.common.(style := Function))]
  {
    WithStyle(InvalidCellOr(c), Function)
  }

  /** The text `FunCell::ToString` gives a cell in the given state. */
  function FunText(broken: bool, altCopy: string, name: Chain, arg: Chain, r: Renderer): string
  {
    if broken then ""
    else if altCopy != "" then altCopy
    else r.listToString(name) + r.listToString(arg)
  }

  class FunCell {
    var common: Common
    var name: Chain
    var arg: Chain
    var width: int
    var height: int
    var center: int
    /** `m_isBrokenIntoLines` */
    var broken: bool
    /** The cell's own next-to-draw pointer, kept by the `Cell` base class. */
    var next: DrawTarget<FunPart>
    /** The next-to-draw pointer of the last cell of each list. */
    var links: map<FunPart, DrawTarget<FunPart>>

    /** Neither list is ever null, and the name is styled as a function name. */
    ghost predicate Valid()
      reads this
    {
      name != [] && arg != [] && name[0].common.style == Function
    }

    constructor ()
      ensures Valid() && common == Fresh
      ensures name == FunctionName([]) && arg == [InvalidCell]
      ensures !broken && next == Unlinked && links == map[]
    {
      common := Fresh;
      name := FunctionName([]);
      arg := InvalidCellOr([]);
      width, height, center := 0, 0, 0;
      broken := false;
      next := Unlinked;
      links := map[];
    }

    method SetName(c: Chain)
      requires Valid()
      modifies this`name
      ensures name == FunctionName(c)
      ensures Valid()
    {
      name := FunctionName(c);
    }

    method SetArg(c: Chain)
      requires Valid()
      modifies this`arg
      ensures arg == InvalidCellOr(c)
      ensures Valid()
    {
      arg := InvalidCellOr(c);
    }

    /** `RecalculateWidths`; `onePx` is the pixel value of `Scale_Px(1)`. */
    method RecalculateWidths(fontsize: int, onePx: int, r: Renderer)
      modifies this`width
      ensures broken ==> width == 0
      ensures !broken ==> width == r.measure(name, fontsize).fullWidth + r.measure(arg, fontsize).fullWidth - onePx
    {
      width := r.measure(name, fontsize).fullWidth + r.measure(arg, fontsize).fullWidth - onePx;
      if broken {
        width := 0;
      }
    }

    /**
     * `RecalculateHeight`: name and argument share a centre line.  Broken up,
     * the cell takes no height and keeps its centre.
     */
    method RecalculateHeight(fontsize: int, r: Renderer)
      modifies this`height, this`center
      ensures !broken ==>
        var n := r.measure(name, fontsize);
        var a := r.measure(arg, fontsize);
        && center == WxString.Max(n.center, a.center)
        && height == center + WxString.Max(n.maxDrop, a.maxDrop)
        && center >= n.center && center >= a.center
        && height >= center + n.maxDrop && height >= center + a.maxDrop
      ensures broken ==> height == 0 && center == old(center)
    {
      if !broken {
        var n := r.measure(name, fontsize);
        var a := r.measure(arg, fontsize);
        center := WxString.Max(n.center, a.center);
        height := center + WxString.Max(n.maxDrop, a.maxDrop);
      } else {
        height := 0;
      }
    }

    /** `ToString` */
    function ToString(r: Renderer): (s: string)
      reads this
      ensures broken ==> s == ""
      ensures !broken && common.altCopy != "" ==> s == common.altCopy
      ensures !broken && common.altCopy == "" ==> s == r.listToString(name) + r.listToString(arg)
    {
      FunText(broken, common.altCopy, name, arg, r)
    }

    /**
     * `ToTeX`: a known function name, tested on the name's first cell, is
     * written as the TeX operator applied to the argument in braces.
     */
    function ToTeX(r: Renderer): (s: string)
      reads this
      requires Valid()
      ensures broken ==> s == ""
      ensures !broken && r.cellToString(name[0]) in TeXFunctions ==>
        s == "\\" + r.cellToString(name[0]) + "{" + r.listToTeX(arg) + "}"
      ensures !broken && r.cellToString(name[0]) !in TeXFunctions ==> s == r.listToTeX(name) + r.listToTeX(arg)
    {
      if broken then ""
      else
        var n := r.cellToString(name[0]);
        if n == "sin" || n == "cos" || n == "cosh" || n == "sinh" || n == "log"
           || n == "cot" || n == "sec" || n == "csc" || n == "tan" then
          "\\" + n + "{" + r.listToTeX(arg) + "}"
        else
          r.listToTeX(name) + r.listToTeX(arg)
    }

    /**
     * `ToXML`: `<fn>`, carrying the `breakline` attribute exactly when a line
     * break is forced, the name wrapped in `<r>`, then the argument's XML unwrapped.
     */
    function ToXML(r: Renderer): (s: string)
      reads this
      ensures |s| >= 3 && s[..3] == "<fn"
      ensures common.forceBreak ==> |s| >= |"<fn" + BreakLineAttr + ">"| && s[..|"<fn" + BreakLineAttr + ">"|] == "<fn" + BreakLineAttr + ">"
      ensures !common.forceBreak ==> |s| >= 4 && s[..4] == "<fn>"
      ensures WxString.Contains(s, "<r>" + r.listToXML(name) + "</r>" + r.listToXML(arg) + "</fn>")
    {
      var open := "<fn" + (if common.forceBreak then BreakLineAttr else "") + ">";
      assert open[..3] == "<fn";
      WxString.Framed(open, "<r>" + r.listToXML(name) + "</r>" + r.listToXML(arg) + "</fn>", "")
    }

    /** `ToMathML`: name, U+2061 FUNCTION APPLICATION, argument. */
    function ToMathML(r: Renderer): (s: string)
      reads this
      ensures WxString.Contains(s, r.listToMathML(name) + "<mo>&#x2061;</mo>" + r.listToMathML(arg))
    {
      WxString.Framed("<mrow>", r.listToMathML(name) + "<mo>&#x2061;</mo>" + r.listToMathML(arg), "</mrow>\n")
    }

    /** `ToOMML`: the name's OMML directly followed by the argument's. */
    function ToOMML(r: Renderer): (s: string)
      reads this
      ensures |s| == |r.listToOMML(name)| + |r.listToOMML(arg)|
      ensures s[..|r.listToOMML(name)|] == r.listToOMML(name) && s[|r.listToOMML(name)|..] == r.listToOMML(arg)
    {
      r.listToOMML(name) + r.listToOMML(arg)
    }

    /**
     * `BreakUp`: a one-shot switch to line-broken drawing, which chains the
     * name list to the argument list and the argument list to whatever
     * followed the cell.
     */
    method BreakUp() returns (changed: bool)
      modifies this`broken, this`width, this`links
      ensures changed == !old(broken)
      ensures broken
      ensures old(broken) ==> width == old(width) && links == old(links)
      ensures !old(broken) ==> width == 0 && links == map[NameList := ToPart(ArgList), ArgList := next]
    {
      if broken {
        return false;
      }
      broken := true;
      links := map[NameList := ToPart(ArgList), ArgList := next];
      width := 0;
      return true;
    }
  }
}
