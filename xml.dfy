/**
 * The read-only view of a parsed XML document that the parser walks
 * (wxWidgets' `wxXmlNode`).  A node's "next sibling" pointer is an index into
 * the sequence of its parent's children; the index equal to the length of
 * that sequence plays the part of the null pointer.
 */
module Xml {

  import WxString

  datatype Node =
    | Text(content: string)
    | Element(name: string, attrs: map<string, string>, children: seq<Node>)

  /** `wxXmlNode::GetName`: text nodes carry the name "text". */
  function Name(n: Node): string
  {
    if n.Text? then "text" else n.name
  }

  /** `wxXmlNode::GetContent`: the text of a text node; elements have none of their own. */
  function Content(n: Node): string
  {
    if n.Text? then n.content else ""
  }

  /** `wxXmlNode::GetChildren`, as the whole sibling sequence of the children. */
  function Children(n: Node): seq<Node>
  {
    if n.Element? then n.children else []
  }

  predicate HasAttribute(n: Node, key: string)
  {
    n.Element? && key in n.attrs
  }

  /** `wxXmlNode::GetAttribute(key, default)` */
  function Attribute(n: Node, key: string, default: string): (v: string)
    ensures HasAttribute(n, key) ==> v == n.attrs[key]
    ensures !HasAttribute(n, key) ==> v == default
  {
    if HasAttribute(n, key) then n.attrs[key] else default
  }

  /** `wxXmlNode::GetNodeContent`: the content of the first text child. */
  function NodeContent(n: Node): string
  {
    FirstText(Children(n))
  }

  function FirstText(s: seq<Node>): string
  {
    if s == [] then "" else if s[0].Text? then s[0].content else FirstText(s[1..])
  }

  /** The characters `wxString::Trim()` removes (C `isspace`). */
  predicate IsSpace(c: char)
  {
    c == ' ' || c == '\t' || c == '\n' || c == '\r' || c == '\U{000B}' || c == '\U{000C}'
  }

  /** `wxString::Trim()`, which trims the right-hand end only. */
  function TrimRight(s: string): string
  {
    if s != [] && IsSpace(s[|s| - 1]) then TrimRight(s[..|s| - 1]) else s
  }

  /** `TrimRight` removes exactly the trailing run of white space: a prefix remains, ending in no space. */
  lemma {:induction false} TrimRightTrims(s: string)
    ensures var t := TrimRight(s);
      && |t| <= |s| && t == s[..|t|]
      && (t == [] || !IsSpace(t[|t| - 1]))
      && forall k :: |t| <= k < |s| ==> IsSpace(s[k])
  {
    if s != [] && IsSpace(s[|s| - 1]) {
      TrimRightTrims(s[..|s| - 1]);
      assert s[..|s| - 1][..|TrimRight(s)|] == s[..|TrimRight(s)|];
    }
  }

  /** A text node that `SkipWhitespaceNode` steps over: at most one character once trimmed. */
  predicate IsSkippable(n: Node)
  {
    n.Text? && |TrimRight(n.content)| <= 1
  }

  /**
   * `MathParser::SkipWhitespaceNode`: steps over the node at `i` when it is a
   * skippable text node, and over nothing else.
   */
  function SkipWhitespaceNode(sibs: seq<Node>, i: nat): (j: nat)
    requires i <= |sibs|
    ensures j <= |sibs|
    ensures j == i || j == i + 1
    ensures i < |sibs| && sibs[i].Element? ==> j == i
    ensures j == i + 1 <==> i < |sibs| && IsSkippable(sibs[i])
  {
    if i < |sibs| && IsSkippable(sibs[i]) then i + 1 else i
  }

  /** `MathParser::GetNextTag`: the next sibling, whitespace skipped; null stays null. */
  function GetNextTag(sibs: seq<Node>, i: nat): (j: nat)
    requires i <= |sibs|
    ensures j <= |sibs|
    ensures i < |sibs| ==> i < j <= i + 2
    ensures i == |sibs| ==> j == i
    ensures i < |sibs| ==> (j == i + 2 <==> i + 1 < |sibs| && IsSkippable(sibs[i + 1]))
  {
    if i < |sibs| then SkipWhitespaceNode(sibs, i + 1) else i
  }

  /**
   * The position of the `k`-th child a positional builder reads: the first
   * child with whitespace skipped, then `GetNextTag` `k` times.
   */
  function ChildAt(sibs: seq<Node>, k: nat): (j: nat)
    ensures j <= |sibs|
  {
    if k == 0 then SkipWhitespaceNode(sibs, 0) else GetNextTag(sibs, ChildAt(sibs, k - 1))
  }

  /** Without skippable nodes, the `k`-th child read is the `k`-th child (or null past the end). */
  lemma {:induction false} ChildAtWithoutWhitespace(sibs: seq<Node>, k: nat)
    requires forall j :: 0 <= j < |sibs| ==> !IsSkippable(sibs[j])
    ensures ChildAt(sibs, k) == WxString.Min(k, |sibs|)
  {
    if k > 0 {
      ChildAtWithoutWhitespace(sibs, k - 1);
    }
  }

  /** A size measure for recursion over the document. */
  function Size(n: Node): nat
  {
    if n.Text? then 1 else 1 + SeqSize(n.children)
  }

  function SeqSize(s: seq<Node>): nat
  {
    if s == [] then 0 else Size(s[0]) + SeqSize(s[1..])
  }

  /** A node is larger than all of its children together. */
  lemma ChildrenSmaller(n: Node)
    ensures SeqSize(Children(n)) < Size(n)
  {
  }

  lemma {:induction false} ElementSize(s: seq<Node>, j: nat)
    requires j < |s|
    ensures Size(s[j]) <= SeqSize(s)
  {
    if j > 0 {
      ElementSize(s[1..], j - 1);
    }
  }
}
