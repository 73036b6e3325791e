/**
 * LimitCell: Maxima's `limit(base, var, to)`, drawn as a name ("lim") with
 * the `var->to` text underneath and the base beside them.
 */
module LimitCells {
  import opened Cells
  import opened WxString

  /** `MIN_LIMIT_FONT_SIZE` and `LIMIT_FONT_SIZE_DECREASE` */
  const MinLimitFontSize: int := 8
  const LimitFontSizeDecrease: int := 1

  /** The font size the under text is measured at. */
  function UnderFontSize(fontsize: int): (f: int)
    ensures f >= MinLimitFontSize && f >= fontsize - LimitFontSizeDecrease
    ensures f == MinLimitFontSize || f == fontsize - LimitFontSizeDecrease
  {
    Max(MinLimitFontSize, fontsize - LimitFontSizeDecrease)
  }

  /**
   * The parts a broken-up limit is drawn as, in the order they are linked:
   * the name list, `(`, the base list, `,`, the under list, `)`.
   */
  datatype LimitPart = NamePart | OpenParen | BasePart | Comma | UnderPart | CloseParen

  /** The parts visited from `from`, following at most `steps` links to parts of this cell. */
  function Follow(links: map<LimitPart, DrawTarget<LimitPart>>, from: LimitPart, steps: nat): seq<LimitPart>
    decreases steps
  {
    if steps > 0 && from in links && links[from].ToPart? then [from] + Follow(links, links[from].part, steps - 1)
    else [from]
  }

  class LimitCell {
    var common: Common
    var name: Chain
    var base: Chain
    var under: Chain
    var width: int
    var height: int
    var center: int
    /** `m_isBrokenIntoLines` */
    var broken: bool
    /** The cell's own next-to-draw pointer, kept by the `Cell` base class. */
    var next: DrawTarget<LimitPart>
    /** The next-to-draw pointer of the parenthesis cells and of the last cell of each list. */
    var links: map<LimitPart, DrawTarget<LimitPart>>

    /** The three children are never null. */
    ghost predicate Valid()
      reads this
    {
      name != [] && base != [] && under != []
    }

    constructor ()
      ensures Valid() && common == Fresh
      ensures name == [InvalidCell] && base == [InvalidCell] && under == [InvalidCell]
      ensures !broken && next == Unlinked && links == map[]
    {
      common := Fresh;
      name, base, under := [InvalidCell], [InvalidCell], [InvalidCell];
      width, height, center := 0, 0, 0;
      broken := false;
      next := Unlinked;
      links := map[];
    }

    method SetName(c: Chain)
      modifies this`name
      ensures name == InvalidCellOr(c) && name != []
    {
      name := InvalidCellOr(c);
    }

    method SetBase(c: Chain)
      modifies this`base
      ensures base == InvalidCellOr(c) && base != []
    {
      base := InvalidCellOr(c);
    }

    method SetUnder(c: Chain)
      modifies this`under
      ensures under == InvalidCellOr(c) && under != []
    {
      under := InvalidCellOr(c);
    }

    /** `RecalculateWidths`: the name and the under text share a column; broken up, the cell takes no width. */
    method RecalculateWidths(fontsize: int, r: Renderer)
      modifies this`width
      ensures broken ==> width == 0
      ensures !broken ==>
        width == Max(r.measure(name, fontsize).fullWidth, r.measure(under, UnderFontSize(fontsize)).fullWidth)
                 + r.measure(base, fontsize).fullWidth
      ensures !broken ==> width >= r.measure(name, fontsize).fullWidth + r.measure(base, fontsize).fullWidth
      ensures !broken ==> width >= r.measure(under, UnderFontSize(fontsize)).fullWidth + r.measure(base, fontsize).fullWidth
    {
      if !broken {
        width := Max(r.measure(name, fontsize).fullWidth, r.measure(under, UnderFontSize(fontsize)).fullWidth)
                 + r.measure(base, fontsize).fullWidth;
      } else {
        width := 0;
      }
    }

    /**
     * `RecalculateHeight`: the name and the base share a centre line, the
     * under text hangs below the name.  Broken up, the cell is as high as its name.
     */
    method RecalculateHeight(fontsize: int, r: Renderer)
      modifies this`height, this`center
      ensures !broken ==>
        var n := r.measure(name, fontsize);
        var b := r.measure(base, fontsize);
        var u := r.measure(under, UnderFontSize(fontsize));
        && center == Max(b.center, n.center)
        && height == center + Max(n.maxDrop + u.height, b.maxDrop)
        && center >= b.center && center >= n.center
        && height >= center + b.maxDrop && height >= center + n.maxDrop + u.height
      ensures broken ==> height == r.measure(name, fontsize).height && center == r.measure(name, fontsize).center
    {
      var n := r.measure(name, fontsize);
      if !broken {
        var b := r.measure(base, fontsize);
        var u := r.measure(under, UnderFontSize(fontsize));
        center := Max(b.center, n.center);
        height := center + Max(n.maxDrop + u.height, b.maxDrop);
      } else {
        height := n.height;
        center := n.center;
      }
    }

    /** `ToString`: `limit(base,var,to)`. */
    function ToString(r: Renderer): (s: string)
      reads this
      ensures var u := r.listToString(under);
        |u| < NPos && Find(u, "->") != NotFound ==>
          s == LimitCall(r.listToString(base), u[..Find(u, "->")], PlusMinus(u[Find(u, "->") + 2..]))
    {
      LimitText(r.listToString(under), r.listToString(base))
    }

    /** `ToMatlab`: the same text as `ToString`, from the MATLAB forms of the lists. */
    function ToMatlab(r: Renderer): (s: string)
      reads this
      ensures var u := r.listToMatlab(under);
        |u| < NPos && Find(u, "->") != NotFound ==>
          s == LimitCall(r.listToMatlab(base), u[..Find(u, "->")], PlusMinus(u[Find(u, "->") + 2..]))
    {
      LimitText(r.listToMatlab(under), r.listToMatlab(base))
    }

    /**
     * `ToTeX`: `\lim_{var\to to}{base}`, the under text cut at its first `->`,
     * else at its first TeX arrow; without either, `var` is empty.
     */
    function ToTeX(r: Renderer): (s: string)
      reads this
      ensures var u, b := r.listToTeX(under), r.listToTeX(base);
        |u| < NPos && Find(u, "->") != NotFound ==>
          s == "\\lim_{" + u[..Find(u, "->")] + "\\to " + u[Find(u, "->") + 2..] + "}{" + b + "}"
      ensures var u, b := r.listToTeX(under), r.listToTeX(base);
        |u| < NPos && Find(u, "->") == NotFound && Find(u, TeXArrow) != NotFound ==>
          s == "\\lim_{" + u[..Find(u, TeXArrow)] + "\\to " + u[Find(u, TeXArrow) + |TeXArrow|..] + "}{" + b + "}"
      ensures var u, b := r.listToTeX(under), r.listToTeX(base);
        |u| < NPos && Find(u, "->") == NotFound && Find(u, TeXArrow) == NotFound ==>
          s == "\\lim_{\\to " + u + "}{" + b + "}"
    {
      var u := r.listToTeX(under);
      TeXSplitParts(u);
      var p := TeXSplit(u);
      "\\lim_{" + p.0 + "\\to " + p.1 + "}{" + r.listToTeX(base) + "}"
    }

    /** `ToMathML`.  With a non-empty under text the base's MathML is computed but not written. */
    function ToMathML(r: Renderer): (s: string)
      reads this
      ensures r.listToMathML(under) == "" ==> s == "<mo>lim</mo>" + r.listToMathML(base)
      ensures r.listToMathML(under) != "" ==> s == "<munder><mo>lim</mo>" + r.listToMathML(under) + "</munder>\n"
    {
      var b := r.listToMathML(base);
      var from := r.listToMathML(under);
      if from == "" then "<mo>lim</mo>" + b else "<munder><mo>lim</mo>" + from + "</munder>\n"
    }

    /**
     * `ToXML`: `<lm>`, carrying the `breakline` attribute exactly when a line
     * break is forced, then name, under and base as three `<r>` children, in that order.
     */
    function ToXML(r: Renderer): (s: string)
      reads this
      ensures |s| >= 3 && s[..3] == "<lm"
      ensures common.forceBreak ==> |s| >= |"<lm" + BreakLineAttr + ">"| && s[..|"<lm" + BreakLineAttr + ">"|] == "<lm" + BreakLineAttr + ">"
      ensures !common.forceBreak ==> |s| >= 4 && s[..4] == "<lm>"
      ensures WxString.Contains(s, RChild(r.listToXML(name)) + RChild(r.listToXML(under)) + RChild(r.listToXML(base)) + "</lm>")
    {
      var flags := if common.forceBreak then BreakLineAttr else "";
      var open := "<lm" + flags + ">";
      assert open[..3] == "<lm";
      WxString.Framed(open, RChild(r.listToXML(name)) + RChild(r.listToXML(under)) + RChild(r.listToXML(base)) + "</lm>", "")
    }

    /**
     * `ToOMML` (ECMA-376 Part 1, section 22.1.2.55 `limLow`): the under text,
     * its arrows `->` replaced by U+2192 so that none is left, is the limit of
     * the `limLow`; the base is the function's argument.
     */
    function ToOMML(r: Renderer): (s: string)
      reads this
      ensures var u := OMMLUnder(r.listToOMML(under));
        && Contains(s, "<m:lim>" + u + "</m:lim>") && !Contains(u, "->")
        && Contains(s, "</m:fName><m:e>" + r.listToOMML(base) + "</m:e></m:func>")
    {
      var u := OMMLUnder(r.listToOMML(under));
      var head := "<m:func><m:fName><m:limLow><m:e><m:r>lim</m:r></m:e>";
      var lim := "<m:lim>" + u + "</m:lim>";
      var arg := "</m:fName><m:e>" + r.listToOMML(base) + "</m:e></m:func>";
      var s := head + lim + "</m:limLow>" + arg;
      ArrowFree(r.listToOMML(under));
      ContainsPart(head, lim, "</m:limLow>" + arg);
      assert s == head + lim + ("</m:limLow>" + arg);
      ContainsPart(head + lim + "</m:limLow>", arg, "");
      assert s == head + lim + "</m:limLow>" + arg + "";
      s
    }

    /**
     * `BreakUp`: a one-shot switch to line-broken drawing, which chains the
     * parts name, `(`, base, `,`, under, `)` and then whatever followed the cell.
     */
    method BreakUp() returns (changed: bool)
      modifies this`broken, this`links
      ensures changed == !old(broken)
      ensures broken
      ensures old(broken) ==> links == old(links)
      ensures !old(broken) ==> links == map[NamePart := ToPart(OpenParen), OpenParen := ToPart(BasePart),
                                            BasePart := ToPart(Comma), Comma := ToPart(UnderPart),
                                            UnderPart := ToPart(CloseParen), CloseParen := next]
      ensures !old(broken) ==> Follow(links, NamePart, 5) == [NamePart, OpenParen, BasePart, Comma, UnderPart, CloseParen]
      ensures !old(broken) ==> links[CloseParen] == old(next)
    {
      if broken {
        return false;
      }
      broken := true;
      links := map[NamePart := ToPart(OpenParen), OpenParen := ToPart(BasePart),
                   BasePart := ToPart(Comma), Comma := ToPart(UnderPart),
                   UnderPart := ToPart(CloseParen), CloseParen := next];
      return true;
    }
  }

  function RChild(x: string): string
  {
    "<r>" + x + "</r>"
  }

  /** The text `ToString` and `ToMatlab` produce from the under and base texts. */
  function LimitText(under: string, base: string): string
  {
    var p := LimitSplit(under);
    LimitCall(base, p.0, PlusMinus(p.1))
  }

  function LimitCall(base: string, v: string, to: string): string
  {
    "limit" + ("(" + base + "," + v + "," + to + ")")
  }

  /**
   * The `var` and `to` texts cut from the under text by
   * `SubString(0, Find("->") - 1)` and `SubString(Find("->") + 2, Length() - 1)`.
   * Without an arrow, `var` is the whole text and `to` all but its first character.
   */
  function LimitSplit(u: string): (p: (string, string))
    ensures |u| < NPos && Find(u, "->") != NotFound ==>
      p == (u[..Find(u, "->")], u[Find(u, "->") + 2..])
    ensures |u| < NPos && Find(u, "->") != NotFound ==> !Contains(p.0, "->")
    ensures |u| < NPos && Find(u, "->") == NotFound ==> p == (u, if u == [] then [] else u[1..])
  {
    var k := Find(u, "->");
    // every branch evaluates the same two calls; the branches only differ in the facts they establish
    if |u| < NPos && k != NotFound then
      assert OccursAt(u, "->", k);
      SubStringSlice(u, 0, k - 1);
      SubStringSlice(u, k + 2, |u| - 1);
      assert u[0..k] == u[..k] && u[k + 2..|u|] == u[k + 2..];
      NoEarlierArrow(u, k);
      (SubString(u, 0, k - 1), SubString(u, k + 2, |u| - 1))
    else if |u| < NPos && u != [] then
      SubStringFromNotFound(u);
      SubStringSlice(u, 1, |u| - 1);
      assert u[1..|u|] == u[1..];
      (SubString(u, 0, k - 1), SubString(u, k + 2, |u| - 1))
    else if u == [] then
      SubStringFromNotFound(u);
      SubStringOfEmpty();
      (SubString(u, 0, k - 1), SubString(u, k + 2, |u| - 1))
    else
      (SubString(u, 0, k - 1), SubString(u, k + 2, |u| - 1))
  }

  /** The text before the first occurrence of a pattern does not contain it. */
  lemma NoEarlierArrow(u: string, k: int)
    requires k == Find(u, "->") && k != NotFound
    ensures !Contains(u[..k], "->")
  {
    var v := u[..k];
    forall j | 0 <= j <= |v|
      ensures !OccursAt(v, "->", j)
    {
      if OccursAt(v, "->", j) {
        assert u[j..j + 2] == v[j..j + 2];
        assert OccursAt(u, "->", j);
      }
    }
  }

  /** Splitting at the first arrow loses nothing: `var`, the arrow and `to` make up the under text. */
  lemma LimitSplitRejoins(u: string)
    requires |u| < NPos && Find(u, "->") != NotFound
    ensures LimitSplit(u).0 + "->" + LimitSplit(u).1 == u
  {
    var k := Find(u, "->");
    assert u[k..k + 2] == "->";
    assert u == u[..k] + u[k..k + 2] + u[k + 2..];
  }

  /** The `,plus`/`,minus` suffix that replaces a one-sided direction sign. */
  function PlusMinus(to: string): (r: string)
    ensures Last(to) == "+" ==> r == to[..|to| - 1] + ",plus"
    ensures Last(to) == "-" ==> r == to[..|to| - 1] + ",minus"
    ensures Last(to) != "+" && Last(to) != "-" ==> r == to
  {
    var t := if Last(to) == "+" then to[..|to| - 1] + ",plus" else to;
    assert Last(to) == "+" ==> Last(t) == "s";
    if Last(t) == "-" then t[..|t| - 1] + ",minus" else t
  }

  /** The spelling of the arrow in the TeX form of the under text. */
  const TeXArrow: string := "\\mbox{\\rightarrow }"

  /**
   * `ToTeX`'s split of the under text: at the first `->`, else at the first
   * TeX arrow, else an empty `var` and the whole text as `to`.
   */
  function TeXSplit(u: string): (string, string)
  {
    var arrow := Find(u, "->");
    var tex := Find(u, TeXArrow);
    var varEnd := if arrow != NotFound then arrow - 1 else if tex != NotFound then tex - 1 else NotFound;
    var toStart := if arrow != NotFound then arrow + 2 else if tex != NotFound then tex + 19 else 0;
    (SubString(u, 0, varEnd), SubString(u, toStart, |u| - 1))
  }

  /** On any string shorter than `npos`, `TeXSplit` cuts around the arrow it found and drops the arrow. */
  lemma TeXSplitParts(u: string)
    ensures |u| < NPos && Find(u, "->") != NotFound ==>
      TeXSplit(u) == (u[..Find(u, "->")], u[Find(u, "->") + 2..])
    ensures |u| < NPos && Find(u, "->") == NotFound && Find(u, TeXArrow) != NotFound ==>
      TeXSplit(u) == (u[..Find(u, TeXArrow)], u[Find(u, TeXArrow) + |TeXArrow|..])
    ensures |u| < NPos && Find(u, "->") == NotFound && Find(u, TeXArrow) == NotFound ==> TeXSplit(u) == ("", u)
  {
    var arrow := Find(u, "->");
    var tex := Find(u, TeXArrow);
    assert |TeXArrow| == 19;
    if |u| >= NPos {
    } else if arrow != NotFound {
      assert OccursAt(u, "->", arrow);
      CutAround(u, arrow, 2);
    } else if tex != NotFound {
      assert OccursAt(u, TeXArrow, tex);
      CutAround(u, tex, 19);
    } else {
      CutAround(u, 0, 0);
    }
  }

  /** The text before position `at` and the text after the `len` characters there. */
  lemma CutAround(u: string, at: nat, len: nat)
    requires at + len <= |u| < NPos
    ensures SubString(u, 0, at - 1) == u[..at] && SubString(u, at + len, |u| - 1) == u[at + len..]
  {
    SubStringSlice(u, 0, at - 1);
    SubStringSlice(u, at + len, |u| - 1);
  }

  /** The under text as `ToOMML` writes it. */
  function OMMLUnder(u: string): string
  {
    ReplaceAll(u, "->", "→")
  }

  lemma {:induction false} FirstOfOMMLUnder(u: string)
    requires OMMLUnder(u) != []
    ensures OMMLUnder(u)[0] == if |u| >= 2 && u[..2] == "->" then '→' else u[0]
  {
  }

  /** No `-` is directly followed by `>`. */
  predicate NoArrow(s: string)
  {
    forall j :: 0 <= j < |s| - 1 ==> !(s[j] == '-' && s[j + 1] == '>')
  }

  lemma {:induction false} NoArrowOMMLUnder(u: string)
    ensures NoArrow(OMMLUnder(u))
    decreases |u|
  {
    var s := OMMLUnder(u);
    if |u| >= 2 {
      var arrow := u[0] == '-' && u[1] == '>';
      assert arrow <==> u[..2] == "->";
      var rest := if arrow then u[2..] else u[1..];
      assert s == (if arrow then "→" else [u[0]]) + OMMLUnder(rest);
      NoArrowOMMLUnder(rest);
      if |s| >= 2 {
        FirstOfOMMLUnder(rest);
        assert s[1] == OMMLUnder(rest)[0];
      }
      forall j | 1 <= j < |s| - 1
        ensures !(s[j] == '-' && s[j + 1] == '>')
      {
        assert s[j] == OMMLUnder(rest)[j - 1] && s[j + 1] == OMMLUnder(rest)[j];
      }
    }
  }

  /** After the replacement no `->` is left in the under text. */
  lemma ArrowFree(u: string)
    ensures !Contains(OMMLUnder(u), "->")
  {
    var s := OMMLUnder(u);
    NoArrowOMMLUnder(u);
    forall j | 0 <= j <= |s|
      ensures !OccursAt(s, "->", j)
    {
      if j + 2 <= |s| {
        assert s[j..j + 2][0] == s[j] && s[j..j + 2][1] == s[j + 1];
      }
    }
  }
}
