/**
 * SubSupCell: a base with up to four optional scripts (pre-subscript,
 * pre-superscript, post-subscript, post-superscript).  Besides the four role
 * fields the cell keeps `m_scriptCells`, the roles in the order they were set
 * by the multi-script setters; an empty list selects the two-script form
 * (`base[sub]^sup`, `<msubsup>`), a non-empty one the multi-script form.
 */
module SubSupCells {
  import opened Wrappers
  import opened Cells
  import WxString

  /** `SUBSUP_DEC`: scripts are drawn this much smaller than the base. */
  const SubSupDecrement: int := 3

  /** No role occurs twice. */
  predicate Distinct(order: seq<Role>)
  {
    forall j, k :: 0 <= j < k < |order| ==> order[j] != order[k]
  }

  /** `RemoveCell`: erases the cell of role `r` from the ordered script list. */
  function Erase(order: seq<Role>, r: Role): (t: seq<Role>)
    ensures r !in t
    ensures forall x :: x in t <==> x in order && x != r
    ensures Distinct(order) ==> Distinct(t)
  {
    if order == [] then []
    else
      var rest := Erase(order[1..], r);
      assert Distinct(order) ==> order[0] !in order[1..];
      if order[0] == r then rest else [order[0]] + rest
  }

  /** Erasing a role that is not in the list changes nothing. */
  lemma {:induction false} EraseAbsent(order: seq<Role>, r: Role)
    requires r !in order
    ensures Erase(order, r) == order
  {
    if order != [] {
      EraseAbsent(order[1..], r);
    }
  }

  /** The class invariant: a base is present, and `m_scriptCells` lists set roles, each once. */
  predicate WellFormed(s: Scripts)
  {
    && s.base != []
    && (forall k :: 0 <= k < |s.order| ==> s.Get(s.order[k]) != [])
    && Distinct(s.order)
  }

  /** A new SubSupCell: a visibly invalid base and nothing else. */
  const Initial: Scripts := Scripts([InvalidCell], [], [], [], [], [])

  /** `SetBase`, which ignores null. */
  function WithBase(s: Scripts, c: Chain): (t: Scripts)
    ensures c == [] ==> t == s
    ensures c != [] ==> t == s.(base := c)
  {
    if c == [] then s else s.(base := c)
  }

  function Put(s: Scripts, r: Role, c: Chain): (t: Scripts)
    ensures t.Get(r) == c && t.base == s.base && t.order == s.order
    ensures forall q :: q != r ==> t.Get(q) == s.Get(q)
  {
    match r
    case PreSub => s.(preSub := c)
    case PreSup => s.(preSup := c)
    case PostSub => s.(postSub := c)
    case PostSup => s.(postSup := c)
  }

  /**
   * `SetPreSub`, `SetPreSup`, `SetPostSub`, `SetPostSup`: null is ignored;
   * otherwise the role is replaced and moves to the end of the script list.
   */
  function SetRole(s: Scripts, r: Role, c: Chain): (t: Scripts)
    ensures c == [] ==> t == s
    ensures c != [] ==> t.Get(r) == c && t.order == Erase(s.order, r) + [r]
    ensures forall q :: q != r ==> t.Get(q) == s.Get(q)
    ensures t.base == s.base
    ensures WellFormed(s) ==> WellFormed(t)
  {
    if c == [] then s
    else
      var t := Put(s, r, c).(order := Erase(s.order, r) + [r]);
      assert forall k :: 0 <= k < |t.order| - 1 ==> t.order[k] in s.order && t.order[k] != r;
      t
  }

  /**
   * `SetIndex` (role `PostSub`) and `SetExponent` (role `PostSup`) of the
   * two-script form: the role is replaced and leaves the script list without
   * being appended again.
   */
  function SetTwoScript(s: Scripts, r: Role, c: Chain): (t: Scripts)
    requires r == PostSub || r == PostSup
    ensures c == [] ==> t == s
    ensures c != [] ==> t.Get(r) == c && t.order == Erase(s.order, r)
    ensures forall q :: q != r ==> t.Get(q) == s.Get(q)
    ensures t.base == s.base
    ensures WellFormed(s) ==> WellFormed(t)
  {
    if c == [] then s
    else
      var t := Put(s, r, c).(order := Erase(s.order, r));
      assert forall k :: 0 <= k < |t.order| ==> t.order[k] in s.order && t.order[k] != r;
      t
  }

  /** Starting from a new cell, the two-script setters leave `m_scriptCells` empty. */
  lemma TwoScriptFormStaysEmpty(b: Chain, sub: Chain, sup: Chain)
    ensures SetTwoScript(SetTwoScript(WithBase(Initial, b), PostSub, sub), PostSup, sup).order == []
  {
  }

  /** The multi-script setters list exactly the roles that were set, last-set last. */
  lemma {:induction false} SetRoleOrder(s: Scripts, r: Role, c: Chain)
    requires WellFormed(s) && c != []
    ensures var t := SetRole(s, r, c);
      && |t.order| == (if r in s.order then |s.order| else |s.order| + 1)
      && t.order[|t.order| - 1] == r
  {
    var e := Erase(s.order, r);
    if r in s.order {
      RemoveOneCount(s.order, r);
    } else {
      EraseAbsent(s.order, r);
    }
  }

  lemma {:induction false} RemoveOneCount(order: seq<Role>, r: Role)
    requires Distinct(order) && r in order
    ensures |Erase(order, r)| == |order| - 1
  {
    if order[0] == r {
      EraseAbsent(order[1..], r);
    } else {
      RemoveOneCount(order[1..], r);
    }
  }

  /** Width of a list that may be absent. */
  function WidthOf(c: Chain, m: (Chain, int) -> Metrics, size: int): int
  {
    if c == [] then 0 else m(c, size).fullWidth
  }

  function HeightOf(c: Chain, m: (Chain, int) -> Metrics, size: int): int
  {
    if c == [] then 0 else m(c, size).height
  }

  class SubSupCell {
    var common: Common
    var base: Chain
    var preSub: Chain
    var preSup: Chain
    var postSub: Chain
    var postSup: Chain
    /** `m_scriptCells` */
    var scriptCells: seq<Role>
    var width: int
    var height: int
    var center: int

    function Value(): Scripts
      reads this
    {
      Scripts(base, preSub, preSup, postSub, postSup, scriptCells)
    }

    ghost predicate Valid()
      reads this
    {
      WellFormed(Value())
    }

    constructor ()
      ensures Value() == Initial && common == Fresh
      ensures Valid()
      ensures width == 0 && height == 0 && center == 0
    {
      common := Fresh;
      base := [InvalidCell];
      preSub, preSup, postSub, postSup := [], [], [], [];
      scriptCells := [];
      width, height, center := 0, 0, 0;
    }

    method SetBase(c: Chain)
      requires Valid()
      modifies this`base
      ensures Value() == WithBase(old(Value()), c)
      ensures Valid()
    {
      if c != [] {
        base := c;
      }
    }

    method SetPreSup(c: Chain)
      requires Valid()
      modifies this`preSup, this`scriptCells
      ensures Value() == SetRole(old(Value()), PreSup, c)
      ensures Valid()
    {
      if c == [] {
        return;
      }
      scriptCells := Erase(scriptCells, PreSup);
      preSup := c;
      scriptCells := scriptCells + [PreSup];
    }

    method SetPreSub(c: Chain)
      requires Valid()
      modifies this`preSub, this`scriptCells
      ensures Value() == SetRole(old(Value()), PreSub, c)
      ensures Valid()
    {
      if c == [] {
        return;
      }
      scriptCells := Erase(scriptCells, PreSub);
      preSub := c;
      scriptCells := scriptCells + [PreSub];
    }

    method SetPostSup(c: Chain)
      requires Valid()
      modifies this`postSup, this`scriptCells
      ensures Value() == SetRole(old(Value()), PostSup, c)
      ensures Valid()
    {
      if c == [] {
        return;
      }
      scriptCells := Erase(scriptCells, PostSup);
      postSup := c;
      scriptCells := scriptCells + [PostSup];
    }

    method SetPostSub(c: Chain)
      requires Valid()
      modifies this`postSub, this`scriptCells
      ensures Value() == SetRole(old(Value()), PostSub, c)
      ensures Valid()
    {
      if c == [] {
        return;
      }
      scriptCells := Erase(scriptCells, PostSub);
      postSub := c;
      scriptCells := scriptCells + [PostSub];
    }

    method SetIndex(c: Chain)
      requires Valid()
      modifies this`postSub, this`scriptCells
      ensures Value() == SetTwoScript(old(Value()), PostSub, c)
      ensures Valid()
    {
      if c == [] {
        return;
      }
      scriptCells := Erase(scriptCells, PostSub);
      postSub := c;
    }

    method SetExponent(c: Chain)
      requires Valid()
      modifies this`postSup, this`scriptCells
      ensures Value() == SetTwoScript(old(Value()), PostSup, c)
      ensures Valid()
    {
      if c == [] {
        return;
      }
      scriptCells := Erase(scriptCells, PostSup);
      postSup := c;
    }

    /**
     * `Recalculate`: the base is measured at `fontsize`, the scripts at
     * `max(minSize, fontsize - 3)`; `expIndent` is the pixel value of
     * `Scale_Px(.8 * fontsize + MC_EXP_INDENT)`.
     */
    method Recalculate(fontsize: int, minSize: int, expIndent: int, r: Renderer)
      requires Valid()
      modifies this`width, this`height, this`center
      ensures
        var small := WxString.Max(minSize, fontsize - SubSupDecrement);
        var m := r.measure;
        var b := m(base, fontsize);
        var subHeight := WxString.Max(HeightOf(postSub, m, small), HeightOf(preSub, m, small));
        var subHeight' := if preSub == [] then HeightOf(postSub, m, small) else subHeight;
        // the pre-superscript is compared with the subscript height, not with
        // the post-superscript height
        var supHeight := if preSup == [] then HeightOf(postSup, m, small)
                         else WxString.Max(subHeight', m(preSup, small).height);
        && height == b.height + subHeight' + supHeight - 2 * expIndent
        && center == supHeight + b.center - expIndent
      ensures
        var small := WxString.Max(minSize, fontsize - SubSupDecrement);
        var m := r.measure;
        (forall c :: c in [preSub, preSup, postSub, postSup] && c != [] ==> m(c, small).fullWidth >= 0) ==>
          width == WxString.Max(WidthOf(preSub, m, small), WidthOf(preSup, m, small))
                   + m(base, fontsize).fullWidth
                   + WxString.Max(WidthOf(postSub, m, small), WidthOf(postSup, m, small))
    {
      var small := WxString.Max(minSize, fontsize - SubSupDecrement);
      var m := r.measure;
      var preWidth, postWidth, subHeight, supHeight := 0, 0, 0, 0;
      if postSub != [] {
        postWidth := m(postSub, small).fullWidth;
        subHeight := m(postSub, small).height;
      }
      if postSup != [] {
        postWidth := WxString.Max(postWidth, m(postSup, small).fullWidth);
        supHeight := m(postSup, small).height;
      }
      if preSub != [] {
        preWidth := m(preSub, small).fullWidth;
        subHeight := WxString.Max(subHeight, m(preSub, small).height);
      }
      if preSup != [] {
        preWidth := WxString.Max(preWidth, m(preSup, small).fullWidth);
        supHeight := WxString.Max(subHeight, m(preSup, small).height);
      }
      width := preWidth + m(base, fontsize).fullWidth + postWidth;
      height := m(base, fontsize).height + subHeight + supHeight - 2 * expIndent;
      center := supHeight + m(base, fontsize).center - expIndent;
    }

    /** The base's text, parenthesised when it is compound. */
    function BaseText(list: Chain -> string, r: Renderer): string
      reads this
      requires Valid()
    {
      if r.isCompound(base[0]) then "(" + list(base) + ")" else list(base)
    }

    /** The two-script tail `[sub]^sup`, the superscript parenthesised when compound. */
    function TwoScriptTail(list: Chain -> string, r: Renderer): string
      reads this
      requires postSub != [] && postSup != []
    {
      "[" + list(postSub) + "]" + "^"
      + (if r.isCompound(postSup[0]) then "(" + list(postSup) + ")" else list(postSup))
    }

    function Entry(role: Role, r: Renderer): string
      reads this
    {
      "[" + r.listToString(Value().Get(role)) + "]"
    }

    /** One bracketed entry per role of `order`, in that order. */
    function Bracketed(order: seq<Role>, r: Renderer): string
      reads this
    {
      if order == [] then "" else Bracketed(order[..|order| - 1], r) + Entry(order[|order| - 1], r)
    }

    /**
     * `ToString`.  `None` stands for the two-script form with a missing
     * post-subscript or post-superscript, which the source dereferences.
     */
    method ToString(r: Renderer) returns (s: Option<string>)
      requires Valid()
      ensures s.None? <==> common.altCopy == "" && scriptCells == [] && (postSub == [] || postSup == [])
      ensures common.altCopy != "" ==> s == Some(common.altCopy)
      ensures common.altCopy == "" && scriptCells == [] && postSub != [] && postSup != [] ==>
        s == Some(BaseText(r.listToString, r) + TwoScriptTail(r.listToString, r))
      ensures common.altCopy == "" && scriptCells != [] ==>
        s == Some(BaseText(r.listToString, r) + Bracketed(scriptCells, r))
    {
      if common.altCopy != "" {
        return Some(common.altCopy);
      }
      var t := if r.isCompound(base[0]) then "(" + r.listToString(base) + ")" else r.listToString(base);
      if scriptCells == [] {
        if postSub == [] || postSup == [] {
          return None;
        }
        var tail := "[" + r.listToString(postSub) + "]" + "^";
        if r.isCompound(postSup[0]) {
          tail := tail + ("(" + r.listToString(postSup) + ")");
        } else {
          tail := tail + r.listToString(postSup);
        }
        return Some(t + tail);
      }
      ghost var head := t;
      var k := 0;
      while k < |scriptCells|
        invariant 0 <= k <= |scriptCells|
        invariant t == head + Bracketed(scriptCells[..k], r)
      {
        assert scriptCells[..k + 1][..k] == scriptCells[..k];
        var entry := "[" + r.listToString(Value().Get(scriptCells[k])) + "]";
        assert Bracketed(scriptCells[..k + 1], r) == Bracketed(scriptCells[..k], r) + entry;
        AppendAssoc(head, Bracketed(scriptCells[..k], r), entry);
        t := t + entry;
        k := k + 1;
      }
      assert scriptCells[..k] == scriptCells;
      return Some(t);
    }

    /** The MATLAB texts of the roles of `order`, concatenated without separators. */
    function MatlabEntries(order: seq<Role>, r: Renderer): string
      reads this
    {
      if order == [] then ""
      else MatlabEntries(order[..|order| - 1], r) + r.listToMatlab(Value().Get(order[|order| - 1]))
    }

    /**
     * `ToMatlab`.  The separator flag is inverted in the source, so the list
     * gets one `;` right after `[` and none between entries.
     */
    method ToMatlab(r: Renderer) returns (s: Option<string>)
      requires Valid()
      ensures s.None? <==> scriptCells == [] && (postSub == [] || postSup == [])
      ensures scriptCells == [] && postSub != [] && postSup != [] ==>
        s == Some(BaseText(r.listToMatlab, r) + TwoScriptTail(r.listToMatlab, r))
      ensures scriptCells != [] ==>
        s == Some(BaseText(r.listToMatlab, r) + "[" + ";" + MatlabEntries(scriptCells, r) + "]")
    {
      var t := if r.isCompound(base[0]) then "(" + r.listToMatlab(base) + ")" else r.listToMatlab(base);
      if scriptCells == [] {
        if postSub == [] || postSup == [] {
          return None;
        }
        var tail := "[" + r.listToMatlab(postSub) + "]" + "^";
        if r.isCompound(postSup[0]) {
          tail := tail + ("(" + r.listToMatlab(postSup) + ")");
        } else {
          tail := tail + r.listToMatlab(postSup);
        }
        return Some(t + tail);
      }
      ghost var head := t + "[";
      t := t + "[";
      var first := false;
      var k := 0;
      while k < |scriptCells|
        invariant 0 <= k <= |scriptCells|
        invariant first == (k > 0)
        invariant t == head + (if k > 0 then ";" else "") + MatlabEntries(scriptCells[..k], r)
      {
        assert scriptCells[..k + 1][..k] == scriptCells[..k];
        var entry := r.listToMatlab(Value().Get(scriptCells[k]));
        if !first {
          t := t + ";";
        }
        first := true;
        assert head + ";" + MatlabEntries(scriptCells[..k + 1], r)
            == head + ";" + MatlabEntries(scriptCells[..k], r) + entry;
        t := t + entry;
        k := k + 1;
      }
      assert scriptCells[..k] == scriptCells;
      return Some(t + "]");
    }

    /** The empty-base group `{}` carrying the pre-scripts, when there are any. */
    function PreTeX(r: Renderer): (s: string)
      reads this
      ensures preSub != [] ==> WxString.Contains(s, "^{" + r.listToTeX(preSub) + "}")
      ensures preSup != [] ==> WxString.Contains(s, "^{" + r.listToTeX(preSup) + "}")
    {
      if preSup != [] || preSub != [] then
        SupIn("{}", preSup, TeXSup(preSub, r), r);
        SupAtEnd("{}" + TeXSup(preSup, r), preSub, r);
        "{}" + TeXSup(preSup, r) + TeXSup(preSub, r)
      else ""
    }

    /**
     * `ToTeX`; `exponentsAfterSubscript` is the `TeXExponentsAfterSubscript`
     * configuration value.  In the multi-script form every script, the
     * subscripts included, is written as a superscript group `^{...}`.
     */
    function ToTeX(r: Renderer, exponentsAfterSubscript: bool): (s: string)
      reads this
      requires Valid()
      ensures scriptCells == [] ==>
        WxString.Contains(s, "{" + r.listToTeX(base) + "}" + TeXSub(postSub, r)
                             + (if exponentsAfterSubscript then "}" else "") + TeXSup(postSup, r) + "}")
      ensures scriptCells != [] ==> WxString.Contains(s, "{" + r.listToTeX(base) + "}")
    {
      var mid := "{" + r.listToTeX(base) + "}";
      if scriptCells == [] then
        var open := if exponentsAfterSubscript then "{{" else "{";
        var close := if exponentsAfterSubscript then "}" else "";
        WxString.Framed(open, mid + TeXSub(postSub, r) + close + TeXSup(postSup, r) + "}", "")
      else
        WxString.Framed(PreTeX(r), mid, TeXSup(postSup, r) + TeXSup(postSub, r))
    }

    /** The MathML slot of one script: its markup, or `<none/>` when absent. */
    function MathMLSlot(role: Role, r: Renderer): Slot
      reads this
    {
      var c := Value().Get(role);
      if c == [] then Slot("none", None, "<none/>")
      else Slot("mrow", Some(role), "<mrow>" + r.listToMathML(c) + "</mrow>")
    }

    /**
     * The children written after the base in the multi-script form
     * (`<mmultiscripts>` of MathML 3.0, section 3.4.7): the post-script pair,
     * then `<mprescripts/>` and the pre-script pair, each pair only when one
     * of its two scripts is set.
     */
    function MathMLScripts(r: Renderer): (s: seq<Slot>)
      reads this
      ensures var post := postSub != [] || postSup != [];
        var pre := preSub != [] || preSup != [];
        var p := if post then 2 else 0;
        && |s| == p + (if pre then 3 else 0)
        && (post ==> StandsFor(s[0], PostSub, postSub) && StandsFor(s[1], PostSup, postSup))
        && (pre ==> && s[p].tag == "mprescripts" && s[p].role == None
                    && StandsFor(s[p + 1], PreSub, preSub) && StandsFor(s[p + 2], PreSup, preSup))
      ensures forall k :: 0 <= k < |s| && s[k].role.Some? ==> Value().Get(s[k].role.value) != []
    {
      var a, b := MathMLSlot(PostSub, r), MathMLSlot(PostSup, r);
      var m := Slot("mprescripts", None, "<mprescripts/>");
      var c, d := MathMLSlot(PreSub, r), MathMLSlot(PreSup, r);
      var post, pre := postSub != [] || postSup != [], preSub != [] || preSup != [];
      if post && pre then [a, b, m, c, d]
      else if post then [a, b]
      else if pre then [m, c, d]
      else []
    }

    /** Every set script is written in exactly one slot of the multi-script MathML form. */
    lemma MathMLScriptsOnce(r: Renderer)
      ensures var s := MathMLScripts(r);
        forall q: Role :: Value().Get(q) != [] ==> exists k :: 0 <= k < |s| && s[k].role == Some(q)
      ensures var s := MathMLScripts(r);
        forall j, k :: 0 <= j < k < |s| && s[j].role.Some? ==> s[k].role != s[j].role
    {
      var s := MathMLScripts(r);
      var p := if postSub != [] || postSup != [] then 2 else 0;
      forall q: Role | Value().Get(q) != []
        ensures exists k :: 0 <= k < |s| && s[k].role == Some(q)
      {
        match q
        case PostSub => assert s[0].role == Some(q);
        case PostSup => assert s[1].role == Some(q);
        case PreSub => assert s[p + 1].role == Some(q);
        case PreSup => assert s[p + 2].role == Some(q);
      }
    }

    /**
     * `ToMathML`.  In the two-script form the post-superscript's MathML is
     * computed but not appended, so `<msubsup>` gets a base and a subscript
     * only, padded with `<mrow/>` for absent scripts.
     */
    function ToMathML(r: Renderer): (s: string)
      reads this
      requires Valid()
      ensures scriptCells != [] ==>
        WxString.Contains(s, "<mmultiscripts>" + r.listToMathML(base) + Markup(MathMLScripts(r)))
      ensures scriptCells == [] ==>
        WxString.Contains(s, "<msubsup>" + r.listToMathML(base) + (if postSub != [] then r.listToMathML(postSub) else "<mrow/>"))
      ensures scriptCells == [] && postSup != [] ==>
        |s| == |"<msubsup>"| + |r.listToMathML(base)| + |if postSub != [] then r.listToMathML(postSub) else "<mrow/>"| + |"</msubsup>\n"|
    {
      if scriptCells == [] then
        var head := "<msubsup>" + r.listToMathML(base) + (if postSub != [] then r.listToMathML(postSub) else "<mrow/>");
        var tail := (if postSup != [] then "" else "<mrow/>") + "</msubsup>\n";
        WxString.ContainsPart("", head, tail);
        assert "" + head + tail == head + tail;
        head + tail
      else
        var head := "<mmultiscripts>" + r.listToMathML(base) + Markup(MathMLScripts(r));
        WxString.ContainsPart("", head, "</mmultiscripts>\n");
        assert "" + head + "</mmultiscripts>\n" == head + "</mmultiscripts>\n";
        head + "</mmultiscripts>\n"
    }

    /**
     * `ToOMML` (ECMA-376 Part 1, section 22.1): pre-scripts, when there are
     * any, become an `m:sSubSup` over an empty base in front of the one that
     * carries the base and the post-scripts.
     */
    function ToOMML(r: Renderer): (s: string)
      reads this
      requires Valid()
      ensures WxString.Contains(s, "<m:e>" + r.listToOMML(base) + "</m:e>")
      ensures var post := OMMLPair("<m:e>" + r.listToOMML(base) + "</m:e>", postSub, postSup, r);
        |s| >= |post| && s[|s| - |post|..] == post
      ensures preSup == [] && preSub == [] ==> s == OMMLPair("<m:e>" + r.listToOMML(base) + "</m:e>", postSub, postSup, r)
      ensures preSup != [] || preSub != [] ==>
        var pre := OMMLPair(OMMLEmptyBase, preSub, preSup, r); |s| > |pre| && s[..|pre|] == pre
    {
      var e := "<m:e>" + r.listToOMML(base) + "</m:e>";
      var post := OMMLPair(e, postSub, postSup, r);
      var pre := if preSup != [] || preSub != [] then OMMLPair(OMMLEmptyBase, preSub, preSup, r) else "";
      OMMLPairParts(e, postSub, postSup, r);
      WxString.ContainsIn(pre, post, "", e);
      assert pre + post + "" == pre + post;
      assert (pre + post)[..|pre|] == pre && (pre + post)[|pre|..] == post;
      pre + post
    }

    /** Every set script's OMML is written, in one of the two `m:sSubSup` elements. */
    lemma OMMLWritesEveryScript(r: Renderer)
      requires Valid()
      ensures forall q: Role :: Value().Get(q) != [] ==> WxString.Contains(ToOMML(r), r.listToOMML(Value().Get(q)))
    {
      var e := "<m:e>" + r.listToOMML(base) + "</m:e>";
      var post := OMMLPair(e, postSub, postSup, r);
      var pre := if preSup != [] || preSub != [] then OMMLPair(OMMLEmptyBase, preSub, preSup, r) else "";
      assert ToOMML(r) == pre + post;
      OMMLPairParts(e, postSub, postSup, r);
      OMMLPairParts(OMMLEmptyBase, preSub, preSup, r);
      forall q: Role | Value().Get(q) != []
        ensures WxString.Contains(pre + post, r.listToOMML(Value().Get(q)))
      {
        match q
        case PreSub => WxString.ContainsEither(pre, post, r.listToOMML(preSub));
        case PreSup => WxString.ContainsEither(pre, post, r.listToOMML(preSup));
        case PostSub => WxString.ContainsEither(pre, post, r.listToOMML(postSub));
        case PostSup => WxString.ContainsEither(pre, post, r.listToOMML(postSup));
      }
    }

    /** The `breakline` and `altCopy` attributes, each only when set. */
    function XMLFlags(r: Renderer): (f: string)
      reads this
      ensures common.forceBreak ==> |f| >= |BreakLineAttr| && f[..|BreakLineAttr|] == BreakLineAttr
      ensures common.altCopy == "" ==> f == (if common.forceBreak then BreakLineAttr else "")
      ensures common.altCopy != "" ==> WxString.Contains(f, AltCopyAttr + r.xmlEscape(common.altCopy) + "\"")
      ensures common.altCopy != "" <==> WxString.Contains(f, AltCopyAttr)
    {
      var b := if common.forceBreak then BreakLineAttr else "";
      if common.altCopy != "" then
        var a := r.xmlEscape(common.altCopy);
        AltCopyIn(b, a);
        b + AltCopyAttr + a + "\""
      else
        AltCopyNotInFlags();
        b
    }

    /** The `pos`-tagged children of the multi-script XML form, in the order they are written. */
    function XMLScripts(r: Renderer): (s: seq<Slot>)
      reads this
      ensures Tagged(Value(), s)
      ensures forall j, k :: 0 <= j < k < |s| ==> Rank(s[j].role.value) < Rank(s[k].role.value)
    {
      var a := if preSup != [] then [PosChild(PreSup, preSup, r)] else [];
      var b := if preSub != [] then [PosChild(PreSub, preSub, r)] else [];
      var c := if postSup != [] then [PosChild(PostSup, postSup, r)] else [];
      var d := if postSub != [] then [PosChild(PostSub, postSub, r)] else [];
      TaggedAppend(Value(), a, b);
      TaggedAppend(Value(), a + b, c);
      TaggedAppend(Value(), a + b + c, d);
      a + b + c + d
    }

    /** Every set script is written: some `pos` child carries its role. */
    lemma XMLScriptsCover(r: Renderer)
      ensures forall q: Role :: Value().Get(q) != [] ==> exists k :: 0 <= k < |XMLScripts(r)| && XMLScripts(r)[k].role == Some(q)
    {
      var a := if preSup != [] then [PosChild(PreSup, preSup, r)] else [];
      var b := if preSub != [] then [PosChild(PreSub, preSub, r)] else [];
      var c := if postSup != [] then [PosChild(PostSup, postSup, r)] else [];
      var s := XMLScripts(r);
      assert s == a + b + c + (if postSub != [] then [PosChild(PostSub, postSub, r)] else []);
      forall q: Role | Value().Get(q) != []
        ensures exists k :: 0 <= k < |s| && s[k].role == Some(q)
      {
        match q
        case PreSup => assert s[0].role == Some(q);
        case PreSub => assert s[|a|].role == Some(q);
        case PostSup => assert s[|a| + |b|].role == Some(q);
        case PostSub => assert s[|a| + |b| + |c|].role == Some(q);
      }
    }

    /**
     * `ToXML`.  The two-script form writes base, post-subscript and
     * post-superscript as three positional `<r>` children; the multi-script
     * form writes the base and then one `pos`-tagged `<r>` per set role.
     */
    function ToXML(r: Renderer): (s: string)
      reads this
      requires Valid()
      ensures |s| >= 3 && s[..3] == "<ie"
      ensures var open := "<ie" + XMLFlags(r) + ">"; |s| >= |open| && s[..|open|] == open
      ensures scriptCells == [] ==>
        WxString.Contains(s, "<r>" + r.listToXML(base) + "</r>"
                             + "<r>" + (if postSub != [] then r.listToXML(postSub) else "") + "</r>"
                             + "<r>" + (if postSup != [] then r.listToXML(postSup) else "") + "</r></ie>")
      ensures scriptCells != [] ==>
        WxString.Contains(s, "<r>" + r.listToXML(base) + "</r>" + Markup(XMLScripts(r)) + "</ie>")
    {
      var open := "<ie" + XMLFlags(r) + ">";
      assert open[..3] == "<ie";
      if scriptCells == [] then
        WxString.Framed(open, "<r>" + r.listToXML(base) + "</r>"
                              + "<r>" + (if postSub != [] then r.listToXML(postSub) else "") + "</r>"
                              + "<r>" + (if postSup != [] then r.listToXML(postSup) else "") + "</r></ie>", "")
      else
        WxString.Framed(open, "<r>" + r.listToXML(base) + "</r>" + Markup(XMLScripts(r)) + "</ie>", "")
    }
  }

  /** The opening of the `altCopy` attribute. */
  const AltCopyAttr: string := " altCopy=\""

  /** With no alt-copy text, neither possible flag string holds an `altCopy` attribute. */
  lemma AltCopyNotInFlags()
    ensures !WxString.Contains("", AltCopyAttr)
    ensures !WxString.Contains(BreakLineAttr, AltCopyAttr)
  {
    forall k | 0 <= k <= |BreakLineAttr|
      ensures !WxString.OccursAt(BreakLineAttr, AltCopyAttr, k)
    {
      if k + |AltCopyAttr| <= |BreakLineAttr| {
        var w := BreakLineAttr[k..k + |AltCopyAttr|];
        if k == 0 {
          assert w[1] == 'b' != AltCopyAttr[1];
        } else {
          assert w[0] == BreakLineAttr[k] != ' ';
        }
      }
    }
  }

  /** An `altCopy` attribute written after the flags in front of it is found, whole and by its opening. */
  lemma AltCopyIn(b: string, a: string)
    ensures WxString.Contains(b + AltCopyAttr + a + "\"", AltCopyAttr + a + "\"")
    ensures WxString.Contains(b + AltCopyAttr + a + "\"", AltCopyAttr)
  {
    WxString.ContainsPart(b, AltCopyAttr + a + "\"", "");
    WxString.ContainsPart(b, AltCopyAttr, a + "\"");
    assert b + AltCopyAttr + (a + "\"") == b + (AltCopyAttr + a + "\"") + "" == b + AltCopyAttr + a + "\"";
  }

  /** The order in which the multi-script XML form writes the roles. */
  function Rank(q: Role): nat
  {
    match q
    case PreSup => 0
    case PreSub => 1
    case PostSup => 2
    case PostSub => 3
  }

  /**
   * A MathML script slot standing for role `q` holding `c`: `<none/>`, with
   * no role, when `c` is null, and a slot carrying `q` otherwise.
   */
  predicate StandsFor(sl: Slot, q: Role, c: Chain)
  {
    && (sl.tag == "none" <==> c == [])
    && (c == [] ==> sl.role == None)
    && (c != [] ==> sl.tag == "mrow" && sl.role == Some(q))
  }

  /**
   * One child element of a serialised script list: its tag (or, for the XML
   * form, its `pos` value), the role it carries, and its markup.
   */
  datatype Slot = Slot(tag: string, role: Option<Role>, markup: string)

  function Markup(s: seq<Slot>): string
  {
    if s == [] then "" else s[0].markup + Markup(s[1..])
  }

  /** The `pos` attribute value the XML writer uses for each role. */
  function PosName(r: Role): string
  {
    match r
    case PreSub => "presub"
    case PreSup => "presup"
    case PostSub => "postsub"
    case PostSup => "postsup"
  }

  /** Every slot carries a set role, and its tag is that role's `pos` name. */
  predicate Tagged(v: Scripts, s: seq<Slot>)
  {
    forall k :: 0 <= k < |s| ==> s[k].role.Some? && v.Get(s[k].role.value) != [] && s[k].tag == PosName(s[k].role.value)
  }

  lemma TaggedAppend(v: Scripts, s: seq<Slot>, t: seq<Slot>)
    requires Tagged(v, s) && Tagged(v, t)
    ensures Tagged(v, s + t)
  {
    assert forall k :: |s| <= k < |s + t| ==> (s + t)[k] == t[k - |s|];
  }

  function PosChild(role: Role, c: Chain, r: Renderer): Slot
  {
    Slot(PosName(role), Some(role), "<r pos=\"" + PosName(role) + "\">" + r.listToXML(c) + "</r>")
  }

  lemma SupIn(a: string, c: Chain, rest: string, r: Renderer)
    ensures c != [] ==> WxString.Contains(a + TeXSup(c, r) + rest, "^{" + r.listToTeX(c) + "}")
  {
    if c != [] {
      WxString.ContainsIn(a, TeXSup(c, r), rest, "^{" + r.listToTeX(c) + "}");
    }
  }

  /** In the multi-script TeX form every script, subscripts included, appears as a `^{...}` group. */
  lemma TeXScriptsAreSuperscripts(cell: SubSupCell, r: Renderer, exponentsAfterSubscript: bool)
    requires cell.Valid() && cell.scriptCells != []
    ensures forall role: Role :: cell.Value().Get(role) != [] ==>
      WxString.Contains(cell.ToTeX(r, exponentsAfterSubscript), "^{" + r.listToTeX(cell.Value().Get(role)) + "}")
  {
    var pre := cell.PreTeX(r);
    var mid := "{" + r.listToTeX(cell.base) + "}";
    assert cell.ToTeX(r, exponentsAfterSubscript) == pre + mid + (TeXSup(cell.postSup, r) + TeXSup(cell.postSub, r));
    MultiScriptSups(cell.Value(), pre, mid, r);
  }

  /** The multi-script TeX text, built from its parts, holds a `^{...}` group per set script. */
  lemma MultiScriptSups(v: Scripts, pre: string, mid: string, r: Renderer)
    requires v.preSub != [] ==> WxString.Contains(pre, "^{" + r.listToTeX(v.preSub) + "}")
    requires v.preSup != [] ==> WxString.Contains(pre, "^{" + r.listToTeX(v.preSup) + "}")
    ensures forall role: Role :: v.Get(role) != [] ==>
      WxString.Contains(pre + mid + (TeXSup(v.postSup, r) + TeXSup(v.postSub, r)), "^{" + r.listToTeX(v.Get(role)) + "}")
  {
    var sup := TeXSup(v.postSup, r);
    var sub := TeXSup(v.postSub, r);
    var s := pre + mid + (sup + sub);
    forall role: Role | v.Get(role) != []
      ensures WxString.Contains(s, "^{" + r.listToTeX(v.Get(role)) + "}")
    {
      match role
      case PostSup =>
        assert s == pre + mid + sup + sub;
        SupIn(pre + mid, v.postSup, sub, r);
      case PostSub =>
        assert s == pre + mid + sup + sub;
        SupAtEnd(pre + mid + sup, v.postSub, r);
      case PreSub =>
        assert s == pre + (mid + sup + sub);
        SupWithin(pre, mid + sup + sub, v.preSub, r);
      case PreSup =>
        assert s == pre + (mid + sup + sub);
        SupWithin(pre, mid + sup + sub, v.preSup, r);
    }
  }

  lemma SupAtEnd(a: string, c: Chain, r: Renderer)
    ensures c != [] ==> WxString.Contains(a + TeXSup(c, r), "^{" + r.listToTeX(c) + "}")
  {
    if c != [] {
      var p := "^{" + r.listToTeX(c) + "}";
      assert (a + TeXSup(c, r))[|a|..|a| + |p|] == p;
      assert WxString.OccursAt(a + TeXSup(c, r), p, |a|);
    }
  }

  lemma SupWithin(pre: string, rest: string, c: Chain, r: Renderer)
    requires c != [] ==> WxString.Contains(pre, "^{" + r.listToTeX(c) + "}")
    ensures c != [] ==> WxString.Contains(pre + rest, "^{" + r.listToTeX(c) + "}")
  {
    if c != [] {
      var p := "^{" + r.listToTeX(c) + "}";
      var k := WxString.Find(pre, p);
      assert (pre + rest)[k..k + |p|] == pre[k..k + |p|];
      assert WxString.OccursAt(pre + rest, p, k);
    }
  }

  /** `^{...}` for a present list, nothing for an absent one. */
  function TeXSup(c: Chain, r: Renderer): (s: string)
    ensures c != [] ==> WxString.Contains(s, "^{" + r.listToTeX(c) + "}")
  {
    if c == [] then "" else
      assert WxString.OccursAt("^{" + r.listToTeX(c) + "}", "^{" + r.listToTeX(c) + "}", 0);
      "^{" + r.listToTeX(c) + "}"
  }

  function TeXSub(c: Chain, r: Renderer): string
  {
    if c == [] then "" else "_{" + r.listToTeX(c) + "}"
  }

  function OMMLSlot(c: Chain, r: Renderer): string
  {
    if c == [] then "<m:r></m:r>" else r.listToOMML(c)
  }

  /** The `m:e` element of the empty base the pre-scripts are attached to. */
  const OMMLEmptyBase: string := "<m:e><m:r></m:r></m:e>"

  /** One `m:sSubSup` element: the base element `e`, then the subscript and superscript slots. */
  function OMMLPair(e: string, sub: Chain, sup: Chain, r: Renderer): string
  {
    "<m:sSubSup>" + e + "<m:sub>" + OMMLSlot(sub, r) + "</m:sub><m:sup>" + OMMLSlot(sup, r) + "</m:sup></m:sSubSup>\n"
  }

  /** An `m:sSubSup` element holds its base element and the OMML of each script it is given. */
  lemma OMMLPairParts(e: string, sub: Chain, sup: Chain, r: Renderer)
    ensures WxString.Contains(OMMLPair(e, sub, sup, r), e)
    ensures sub != [] ==> WxString.Contains(OMMLPair(e, sub, sup, r), r.listToOMML(sub))
    ensures sup != [] ==> WxString.Contains(OMMLPair(e, sub, sup, r), r.listToOMML(sup))
  {
    WxString.ContainsPieces("<m:sSubSup>", e, "<m:sub>", OMMLSlot(sub, r), "</m:sub><m:sup>", OMMLSlot(sup, r), "</m:sup></m:sSubSup>\n");
  }
}
