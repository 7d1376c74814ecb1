// dump_doc (src/upnpdom/domCif.cpp:1466-1588): the printer walks the linked tree through its
// first-child, first-attribute and next-sibling pointers and appends to a buffer.
module Printer {
  import opened Bytes
  import opened Escape
  import opened Lexer
  import opened Tree
  import opened Builder
  import opened Dom
  import opened DocumentTree

  // The closed nodes and what they stand for.
  ghost predicate Finished(g: Build, h: Heap) {
    && h.Keys == g.nodes && Linked(h, g.s)
    && (forall n :: n in g.trees ==> n in g.nodes)
    && (forall n {:trigger NodeMatches(g, n)} :: n in g.trees ==> NodeMatches(g, n))
  }

  // n stands for t: it is closed, or it is the document node and all its children are closed.
  ghost predicate StandsFor(g: Build, n: NodeAct, t: Node) {
    && n in g.nodes && n in g.s.kids && n in g.s.attrs
    && if n.NA_NodeType == DocumentType then t.Element? && KidsMatch(g.trees, g.s.kids[n], t.children)
       else n in g.trees && g.trees[n] == t && NodeMatches(g, n)
  }

  // A document is printed as its children.
  function PrintedNode(n: NodeAct, t: Node): seq<byte>
    requires n.NA_NodeType == DocumentType ==> t.Element?
  {
    if n.NA_NodeType == DocumentType then PrintedAll(t.children) else Printed(t)
  }

  lemma {:induction false} PrintedAllSnoc(ts: seq<Node>, t: Node)
    ensures PrintedAll(ts + [t]) == PrintedAll(ts) + Printed(t)
  {
    if ts == [] {
      assert [t][1..] == [];
      assert [] + [t] == [t];
      assert Printed(t) + [] == Printed(t) == [] + Printed(t);
    } else {
      assert (ts + [t])[1..] == ts[1..] + [t];
      PrintedAllSnoc(ts[1..], t);
      assert Printed(ts[0]) + (PrintedAll(ts[1..]) + Printed(t)) == (Printed(ts[0]) + PrintedAll(ts[1..])) + Printed(t);
    }
  }

  lemma {:induction false} PrintedAttrsSnoc(attrs: seq<Attribute>, a: Attribute)
    ensures PrintedAttrs(attrs + [a]) == PrintedAttrs(attrs) + PrintedAttr(a)
  {
    if attrs == [] {
      assert [a][1..] == [];
      assert [] + [a] == [a];
    } else {
      assert (attrs + [a])[1..] == attrs[1..] + [a];
      PrintedAttrsSnoc(attrs[1..], a);
      var head, rest := PrintedAttr(attrs[0]), PrintedAttrs(attrs[1..]);
      assert head + (rest + PrintedAttr(a)) == (head + rest) + PrintedAttr(a);
    }
  }

  // One child of a node and the link to the next.
  lemma ChildAt(g: Build, h: Heap, n: NodeAct, children: seq<Node>, i: nat)
    requires Current(g.nodes, h) && Finished(g, h) && n in g.nodes && n in g.s.kids
    requires KidsMatch(g.trees, g.s.kids[n], children) && i < |children|
    ensures i < |g.s.kids[n]| && StandsFor(g, g.s.kids[n][i], children[i])
    ensures g.s.kids[n][i].NA_NodeType != DocumentType
    ensures g.s.kids[n][i].NextSibling == if i + 1 < |children| then g.s.kids[n][i + 1] else null
  {
    Walk(g.nodes, h, g.s, n, false);
    assert NodeMatches(g, g.s.kids[n][i]);
  }

  lemma FirstChildOf(g: Build, h: Heap, n: NodeAct, children: seq<Node>)
    requires Current(g.nodes, h) && Finished(g, h) && n in g.nodes && n in g.s.kids
    requires KidsMatch(g.trees, g.s.kids[n], children)
    ensures |g.s.kids[n]| == |children| && n.FirstChild == if children == [] then null else g.s.kids[n][0]
    ensures children != [] ==>
      TagClose(children[0]) == if n.FirstChild.NA_NodeType == TextType then GREATERTHAN else TAG_END
  {
    Walk(g.nodes, h, g.s, n, false);
    if children != [] {
      assert NodeMatches(g, g.s.kids[n][0]);
    }
  }

  // One attribute of a node and the link to the next.
  lemma AttrAt(g: Build, h: Heap, n: NodeAct, attrs: seq<Attribute>, i: nat)
    requires Current(g.nodes, h) && Finished(g, h) && n in g.nodes && n in g.s.attrs
    requires AttrsMatch(g.s.attrs[n], attrs) && i < |attrs|
    ensures i < |g.s.attrs[n]|
    ensures var c := g.s.attrs[n][i]; attrs[i] == Attribute(c.NA_NodeName, TextOf(c.NA_NodeValue))
    ensures g.s.attrs[n][i].NextSibling == if i + 1 < |attrs| then g.s.attrs[n][i + 1] else null
  {
    Walk(g.nodes, h, g.s, n, true);
  }

  lemma FirstAttrOf(g: Build, h: Heap, n: NodeAct, attrs: seq<Attribute>)
    requires Current(g.nodes, h) && Finished(g, h) && n in g.nodes && n in g.s.attrs
    requires AttrsMatch(g.s.attrs[n], attrs)
    ensures |g.s.attrs[n]| == |attrs| && n.FirstAttr == if attrs == [] then null else g.s.attrs[n][0]
  {
    Walk(g.nodes, h, g.s, n, true);
  }

  method AppendAttr(buf: MemBuffer, attribute: NodeAct)
    modifies buf
    ensures buf.contents ==
      old(buf.contents) + PrintedAttr(Attribute(attribute.NA_NodeName, TextOf(attribute.NA_NodeValue)))
  {
    hide Escaped;
    buf.Append(ATTR_START);
    buf.Append(attribute.NA_NodeName);
    buf.Append(ATTR_EQUALS);
    CopyWithEscape(buf, TextOf(attribute.NA_NodeValue));
    buf.Append(ATTR_END);
    Pieces(old(buf.contents), ATTR_START, attribute.NA_NodeName, ATTR_EQUALS,
           Escaped(TextOf(attribute.NA_NodeValue)), ATTR_END);
  }

  lemma Pieces(s: seq<byte>, s0: seq<byte>, s1: seq<byte>, s2: seq<byte>, s3: seq<byte>, s4: seq<byte>)
    ensures s + s0 + s1 + s2 + s3 + s4 == s + (s0 + (s1 + (s2 + (s3 + s4))))
  {
  }

  // The attributes of an element.
  method DumpAttrs(buf: MemBuffer, n: NodeAct, ghost attrs: seq<Attribute>, ghost g: Build, ghost h: Heap)
    requires Current(g.nodes, h) && Finished(g, h) && n in g.nodes && n in g.s.attrs
    requires AttrsMatch(g.s.attrs[n], attrs)
    modifies buf
    ensures buf.contents == old(buf.contents) + PrintedAttrs(attrs)
  {
    hide *;
    FirstAttrOf(g, h, n, attrs);
    NothingPrinted();
    ghost var list := g.s.attrs[n];
    ghost var i := 0;
    var attribute := n.FirstAttr;
    while attribute != null
      invariant 0 <= i <= |list|
      invariant attribute == if i < |list| then list[i] else null
      invariant buf.contents == old(buf.contents) + PrintedAttrs(attrs[..i])
      decreases |list| - i
    {
      AttrAt(g, h, n, attrs, i);
      AppendAttr(buf, attribute);
      PrintedAttrsSnoc(attrs[..i], attrs[i]);
      assert attrs[..i + 1] == attrs[..i] + [attrs[i]];
      attribute := attribute.NextSibling;
      i := i + 1;
    }
    assert attrs[..i] == attrs;
  }

  lemma NothingPrinted()
    ensures PrintedAttrs([]) == [] && PrintedAll([]) == []
  {
  }

  // The children of an element or of the document, in order.
  method DumpChildren(buf: MemBuffer, n: NodeAct, ghost children: seq<Node>, ghost g: Build, ghost h: Heap)
    requires Current(g.nodes, h) && Finished(g, h) && n in g.nodes && n in g.s.kids
    requires KidsMatch(g.trees, g.s.kids[n], children)
    modifies buf
    ensures buf.contents == old(buf.contents) + PrintedAll(children)
    decreases children
  {
    hide *;
    FirstChildOf(g, h, n, children);
    NothingPrinted();
    ghost var list := g.s.kids[n];
    ghost var i := 0;
    var child := n.FirstChild;
    while child != null
      invariant 0 <= i <= |list|
      invariant child == if i < |list| then list[i] else null
      invariant buf.contents == old(buf.contents) + PrintedAll(children[..i])
      decreases |list| - i
    {
      ChildAt(g, h, n, children, i);
      var temp := child.NextSibling;
      DumpDoc(buf, child, children[i], g, h);
      PrintedChild(g, child, children[i]);
      PrintedAllSnoc(children[..i], children[i]);
      assert children[..i + 1] == children[..i] + [children[i]];
      child := temp;
      i := i + 1;
    }
    assert children[..i] == children;
  }

  lemma PrintedChild(g: Build, n: NodeAct, t: Node)
    requires StandsFor(g, n, t) && n.NA_NodeType != DocumentType
    ensures PrintedNode(n, t) == Printed(t)
  {
  }

  // The parts of the tree that n stands for.
  lemma Parts(g: Build, n: NodeAct, t: Node)
    requires StandsFor(g, n, t)
    ensures n in g.nodes && n in g.s.kids && n in g.s.attrs && n.NA_NodeType != AttributeType
    ensures n.NA_NodeType == TextType ==> t.Text? && PrintedNode(n, t) == Escaped(TextOf(n.NA_NodeValue))
    ensures n.NA_NodeType == DocumentType ==> t.Element? && PrintedNode(n, t) == PrintedAll(t.children)
    ensures n.NA_NodeType == ElementType ==> t.Element? && t.name == n.NA_NodeName && AttrsMatch(g.s.attrs[n], t.attrs)
    ensures n.NA_NodeType == ElementType || n.NA_NodeType == DocumentType ==>
      KidsMatch(g.trees, g.s.kids[n], t.children)
  {
  }

  lemma ElementPieces(s: seq<byte>, n: NodeAct, t: Node)
    requires n.NA_NodeType == ElementType && t.Element?
    ensures s + PrintedNode(n, t) ==
      if t.children == [] then s + LESSTHAN + t.name + PrintedAttrs(t.attrs) + EMPTY_END
      else s + LESSTHAN + t.name + PrintedAttrs(t.attrs) + TagClose(t.children[0])
           + PrintedAll(t.children) + ENDTAG + t.name + TAG_END
  {
    hide PrintedAttrs, PrintedAll, TagClose;
    var open := PrintedTag(t.name, t.attrs);
    assert s + LESSTHAN + t.name + PrintedAttrs(t.attrs) == s + open;
    if t.children == [] {
      assert s + open + EMPTY_END == s + (open + EMPTY_END);
    } else {
      var close, all := TagClose(t.children[0]), PrintedAll(t.children);
      EndPieces(s + open, close, all, t.name);
      assert s + open + (close + (all + PrintedEnd(t.name))) == s + (open + (close + (all + PrintedEnd(t.name))));
    }
  }

  lemma EndPieces(s: seq<byte>, close: seq<byte>, all: seq<byte>, name: seq<byte>)
    ensures s + close + all + ENDTAG + name + TAG_END == s + (close + (all + PrintedEnd(name)))
  {
    assert ENDTAG + (name + TAG_END) == PrintedEnd(name);
    Pieces(s, close, all, ENDTAG, name, TAG_END);
  }

  // Appends the text of the tree that n stands for.
  method DumpDoc(buf: MemBuffer, n: NodeAct, ghost t: Node, ghost g: Build, ghost h: Heap)
    requires Current(g.nodes, h) && Finished(g, h) && StandsFor(g, n, t)
    modifies buf
    ensures n.NA_NodeType == DocumentType ==> t.Element?
    ensures buf.contents == old(buf.contents) + PrintedNode(n, t)
    decreases t
  {
    hide *;
    Parts(g, n, t);
    match n.NA_NodeType
    case TextType =>
      CopyWithEscape(buf, TextOf(n.NA_NodeValue));
    case DocumentType =>
      DumpChildren(buf, n, t.children, g, h);
    case ElementType =>
      DumpElement(buf, n, t, g, h);
    case AttributeType =>
  }

  method DumpElement(buf: MemBuffer, n: NodeAct, ghost t: Node, ghost g: Build, ghost h: Heap)
    requires Current(g.nodes, h) && Finished(g, h) && StandsFor(g, n, t) && n.NA_NodeType == ElementType
    modifies buf
    ensures buf.contents == old(buf.contents) + PrintedNode(n, t)
    decreases t, 0
  {
    hide *;
    Parts(g, n, t);
    ElementPieces(buf.contents, n, t);
    buf.Append(LESSTHAN);
    buf.Append(n.NA_NodeName);
    DumpAttrs(buf, n, t.attrs, g, h);
    FirstChildOf(g, h, n, t.children);
    var child := n.FirstChild;
    if child != null {
      if child.NA_NodeType != TextType {
        buf.Append(TAG_END);
      } else {
        buf.Append(GREATERTHAN);
      }
      DumpChildren(buf, n, t.children, g, h);
      buf.Append(ENDTAG);
      buf.Append(n.NA_NodeName);
      buf.Append(TAG_END);
    } else {
      buf.Append(EMPTY_END);
    }
  }
}
