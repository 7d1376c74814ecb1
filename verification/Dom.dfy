// The linked document tree (src/upnpdom/NodeAct.cpp): nodes that hold pointers to parent,
// siblings, children and attributes, and the append that keeps all of them consistent.
module Dom {
  import opened Bytes
  import opened Escape

  datatype NodeType = DocumentType | ElementType | TextType | AttributeType

  // The pointers of one node.
  datatype Links = Links(parent: NodeAct?, next: NodeAct?, prev: NodeAct?, first: NodeAct?, last: NodeAct?,
                         firstAttr: NodeAct?, lastAttr: NodeAct?)

  const NO_LINKS := Links(null, null, null, null, null, null, null)

  // The pointers of all nodes of a tree at one moment.
  type Heap = map<NodeAct, Links>

  class NodeAct {
    const NA_NodeType: NodeType
    const NA_NodeName: seq<byte>
    const NA_NodeValue: Option<seq<byte>>
    var ParentNode: NodeAct?
    var OwnerNode: NodeAct?
    var NextSibling: NodeAct?
    var PrevSibling: NodeAct?
    var FirstChild: NodeAct?
    var LastChild: NodeAct?
    var FirstAttr: NodeAct?
    var LastAttr: NodeAct?
    var RefCount: int

    constructor (t: NodeType, name: seq<byte>, value: Option<seq<byte>>)
      ensures NA_NodeType == t && NA_NodeName == name && NA_NodeValue == value
      ensures Pointers() == NO_LINKS && OwnerNode == this
    {
      NA_NodeType := t;
      NA_NodeName := name;
      NA_NodeValue := value;
      ParentNode, NextSibling, PrevSibling := null, null, null;
      FirstChild, LastChild := null, null;
      FirstAttr, LastAttr := null, null;
      RefCount := 0;
      new;
      OwnerNode := this;
    }

    ghost function Pointers(): Links
      reads this
    {
      Links(ParentNode, NextSibling, PrevSibling, FirstChild, LastChild, FirstAttr, LastAttr)
    }

    // Does find stand among the children, or among an element's attributes?
    method FindNode(find: NodeAct, ghost nodes: set<NodeAct>, ghost h: Heap, ghost s: Shape) returns (found: bool)
      requires Current(nodes, h) && Linked(h, s) && this in nodes
      ensures this in s.kids && this in s.attrs
      ensures found <==> find in s.kids[this] || (NA_NodeType == ElementType && find in s.attrs[this])
    {
      hide Linked, Current, WellShaped, Covers;
      Walk(nodes, h, s, this, false);
      Walk(nodes, h, s, this, true);
      found := false;
      var na := FirstChild;
      ghost var i := 0;
      while na != null
        invariant 0 <= i <= |s.kids[this]|
        invariant na == if i < |s.kids[this]| then s.kids[this][i] else null
        invariant found <==> find in s.kids[this][..i]
        decreases |s.kids[this]| - i
      {
        if na == find {
          found := true;
          break;
        }
        na := na.NextSibling;
        i := i + 1;
      }
      if NA_NodeType == ElementType {
        na := FirstAttr;
        i := 0;
        ghost var before := found;
        while na != null
          invariant 0 <= i <= |s.attrs[this]|
          invariant na == if i < |s.attrs[this]| then s.attrs[this][i] else null
          invariant found <==> before || find in s.attrs[this][..i]
          decreases |s.attrs[this]| - i
        {
          if na == find {
            found := true;
            break;
          }
          na := na.NextSibling;
          i := i + 1;
        }
      }
    }

    // The search below from; its result is kept in a static flag that is never cleared.
    method FindNodeFromRef(from: NodeAct, find: NodeAct, memo: FindMemo, ghost nodes: set<NodeAct>, ghost h: Heap,
                           ghost s: Shape)
      returns (found: bool)
      requires Current(nodes, h) && Linked(h, s) && from in nodes
      modifies memo
      ensures found == memo.found == (old(memo.found) || OccursBelow(nodes, s, from, find))
      decreases s.size - s.rank[from]
    {
      hide ShapeAt, Linked, Current, ListOk, WellShaped, OccursBelow;
      Walk(nodes, h, s, from, false);
      OccursBelowMeans(nodes, s, from, find);
      var mykid := from.FirstChild;
      ghost var i := 0;
      while mykid != null
        invariant 0 <= i <= |s.kids[from]|
        invariant mykid == if i < |s.kids[from]| then s.kids[from][i] else null
        invariant memo.found ==
          (old(memo.found) || exists j :: 0 <= j < i && OccursBelow(nodes, s, s.kids[from][j], find))
        invariant i > 0 ==> !(find in s.kids[from] || (from.NA_NodeType == ElementType && find in s.attrs[from]))
        decreases |s.kids[from]| - i
      {
        var deeper := FindNodeFromRef(mykid, find, memo, nodes, h, s);
        var here := from.FindNode(find, nodes, h, s);
        if here {
          memo.found := true;
          return true;
        }
        mykid := mykid.NextSibling;
        i := i + 1;
      }
      return memo.found;
    }

    // Links a node behind the last child or the last attribute.
    method LinkLast(newChild: NodeAct, ghost nodes: set<NodeAct>)
      requires this in nodes && newChild !in nodes
      requires FirstChild != null ==> LastChild != null && LastChild in nodes && LastChild != this
      requires FirstAttr != null ==> LastAttr != null && LastAttr in nodes && LastAttr != this
      modifies this`FirstChild, this`LastChild, this`FirstAttr, this`LastAttr, nodes`NextSibling
      modifies newChild`ParentNode, newChild`OwnerNode, newChild`NextSibling, newChild`PrevSibling, newChild`RefCount
      ensures newChild.ParentNode == this && newChild.NextSibling == null && newChild.OwnerNode == OwnerNode
      ensures newChild.NA_NodeType != AttributeType ==>
        && newChild.PrevSibling == (if old(FirstChild) == null then null else old(LastChild))
        && FirstChild == (if old(FirstChild) == null then newChild else old(FirstChild)) && LastChild == newChild
        && FirstAttr == old(FirstAttr) && LastAttr == old(LastAttr)
      ensures newChild.NA_NodeType == AttributeType ==>
        && newChild.PrevSibling == (if old(FirstAttr) == null then null else old(LastAttr))
        && FirstAttr == (if old(FirstAttr) == null then newChild else old(FirstAttr)) && LastAttr == newChild
        && FirstChild == old(FirstChild) && LastChild == old(LastChild)
      ensures forall n :: n in nodes ==>
        n.NextSibling == if n == newChild.PrevSibling then newChild else old(n.NextSibling)
    {
      newChild.ParentNode := this;
      newChild.OwnerNode := OwnerNode;
      newChild.NextSibling := null;
      newChild.PrevSibling := null;
      newChild.RefCount := newChild.RefCount + 1;
      if newChild.NA_NodeType != AttributeType {
        if FirstChild == null {
          FirstChild := newChild;
          LastChild := newChild;
        } else {
          LastChild.NextSibling := newChild;
          newChild.PrevSibling := LastChild;
          LastChild := newChild;
        }
      } else {
        if FirstAttr == null {
          FirstAttr := newChild;
          LastAttr := newChild;
        } else {
          LastAttr.NextSibling := newChild;
          newChild.PrevSibling := LastAttr;
          LastAttr := newChild;
        }
      }
    }

    // Appends a node that is not in the tree, as a child or, for an attribute, as an attribute.
    method AppendChild(newChild: NodeAct, root: NodeAct, memo: FindMemo, ghost nodes: set<NodeAct>, ghost h: Heap,
                       ghost s: Shape)
      requires Current(nodes, h) && Linked(h, s) && this in nodes && root in nodes && OwnerNode == root
      requires newChild !in nodes && newChild.Pointers() == NO_LINKS && !memo.found
      requires NA_NodeType == DocumentType || NA_NodeType == ElementType
      modifies this`FirstChild, this`LastChild, this`FirstAttr, this`LastAttr, nodes`NextSibling
      modifies newChild`ParentNode, newChild`OwnerNode, newChild`NextSibling, newChild`PrevSibling, newChild`RefCount
      modifies memo
      ensures Current(nodes + {newChild}, Link(h, this, newChild))
      ensures Linked(Link(h, this, newChild), Appended(s, this, newChild))
      ensures newChild.OwnerNode == root && !memo.found
    {
      hide Linked, Link, Appended, Current, WellShaped, OccursBelow, Covers, LinkEntry;
      PointersOf(nodes, h);
      Fresh(nodes, h, s, root, newChild);
      LinkedLink(h, s, this, newChild);
      LastFacts(nodes, h, s, this);
      var found := FindNodeFromRef(root, newChild, memo, nodes, h, s);
      LinkLast(newChild, nodes);
      Relinked(nodes, h, this, newChild);
    }
  }

  // The static variable of findNodeFromRef.
  class FindMemo {
    var found: bool

    constructor ()
      ensures !found
    {
      found := false;
    }
  }

  // h holds the pointers the nodes have now.
  ghost predicate Current(nodes: set<NodeAct>, h: Heap)
    reads nodes
  {
    h.Keys == nodes && forall n :: n in nodes ==> h[n] == n.Pointers()
  }

  lemma PointersOf(nodes: set<NodeAct>, h: Heap)
    requires Current(nodes, h)
    ensures h.Keys == nodes
    ensures forall n :: n in nodes ==>
      h[n] == Links(n.ParentNode, n.NextSibling, n.PrevSibling, n.FirstChild, n.LastChild, n.FirstAttr, n.LastAttr)
  {
  }

  // The pointers after LinkLast are those of Link.
  lemma Relinked(nodes: set<NodeAct>, h: Heap, p: NodeAct, c: NodeAct)
    requires h.Keys == nodes && p in nodes && c !in nodes
    requires c.Pointers() == NO_LINKS.(parent := p, prev := TailOf(h, p, c.NA_NodeType == AttributeType))
    requires forall n :: n in nodes ==>
      && n.ParentNode == h[n].parent && n.PrevSibling == h[n].prev
      && n.NextSibling == if n == c.PrevSibling then c else h[n].next
    requires forall n :: n in nodes && n != p ==>
      && n.FirstChild == h[n].first && n.LastChild == h[n].last
      && n.FirstAttr == h[n].firstAttr && n.LastAttr == h[n].lastAttr
    requires if c.NA_NodeType == AttributeType then
        && p.FirstAttr == (if h[p].firstAttr == null then c else h[p].firstAttr) && p.LastAttr == c
        && p.FirstChild == h[p].first && p.LastChild == h[p].last
      else
        && p.FirstChild == (if h[p].first == null then c else h[p].first) && p.LastChild == c
        && p.FirstAttr == h[p].firstAttr && p.LastAttr == h[p].lastAttr
    ensures Current(nodes + {c}, Link(h, p, c))
  {
    forall n | n in nodes + {c} ensures LinkEntry(h, p, c, n) == n.Pointers() {
    }
  }

  // The lists a tree's links stand for: each node's children and attributes in order, and the
  // order in which the nodes were appended.
  datatype Shape = Shape(kids: map<NodeAct, seq<NodeAct>>, attrs: map<NodeAct, seq<NodeAct>>,
                         rank: map<NodeAct, nat>, size: nat)

  ghost predicate Covers(nodes: set<NodeAct>, s: Shape) {
    s.kids.Keys == nodes && s.attrs.Keys == nodes && s.rank.Keys == nodes
  }

  // The entries of n's list are nodes of the set, of the right kind, younger than n and in
  // order of age.
  ghost predicate ListOk(nodes: set<NodeAct>, s: Shape, n: NodeAct, list: seq<NodeAct>, attrs: bool)
    requires Covers(nodes, s) && n in nodes
  {
    && (forall i :: 0 <= i < |list| ==>
          list[i] in nodes && s.rank[n] < s.rank[list[i]] && (list[i].NA_NodeType == AttributeType <==> attrs))
    && (forall i, j :: 0 <= i < j < |list| ==> s.rank[list[i]] < s.rank[list[j]])
  }

  ghost predicate ShapeAt(nodes: set<NodeAct>, s: Shape, n: NodeAct)
    requires Covers(nodes, s) && n in nodes
  {
    && ListOk(nodes, s, n, s.kids[n], false)
    && ListOk(nodes, s, n, s.attrs[n], true)
    && s.rank[n] < s.size
    && (n.NA_NodeType == TextType || n.NA_NodeType == AttributeType ==> s.kids[n] == [] && s.attrs[n] == [])
  }

  ghost predicate WellShaped(nodes: set<NodeAct>, s: Shape) {
    Covers(nodes, s) && forall n {:trigger ShapeAt(nodes, s, n)} :: n in nodes ==> ShapeAt(nodes, s, n)
  }

  // The pointers of and into one list of n.
  ghost predicate Chain(h: Heap, n: NodeAct, list: seq<NodeAct>, first: NodeAct?, last: NodeAct?) {
    && first == (if list == [] then null else list[0])
    && last == (if list == [] then null else list[|list| - 1])
    && (forall i :: 0 <= i < |list| ==> list[i] in h && h[list[i]].parent == n)
    && (list != [] ==> h[list[0]].prev == null && h[list[|list| - 1]].next == null)
    && (forall i, j :: 0 <= i < j < |list| && j == i + 1 ==> h[list[i]].next == list[j] && h[list[j]].prev == list[i])
  }

  ghost predicate NodeLinks(h: Heap, s: Shape, n: NodeAct)
    requires n in h && n in s.kids && n in s.attrs
  {
    && Chain(h, n, s.kids[n], h[n].first, h[n].last)
    && Chain(h, n, s.attrs[n], h[n].firstAttr, h[n].lastAttr)
  }

  // All parent, sibling, first and last pointers agree with the lists.
  ghost predicate Linked(h: Heap, s: Shape) {
    WellShaped(h.Keys, s) && forall n {:trigger NodeLinks(h, s, n)} :: n in h ==> NodeLinks(h, s, n)
  }

  ghost function ListOf(s: Shape, n: NodeAct, attrs: bool): seq<NodeAct>
    requires n in s.kids && n in s.attrs
  {
    if attrs then s.attrs[n] else s.kids[n]
  }

  // What the links say about one list.
  lemma ListFacts(h: Heap, s: Shape, n: NodeAct, attrs: bool)
    requires Linked(h, s) && n in h
    ensures WellShaped(h.Keys, s) && s.rank[n] < s.size
    ensures var list := ListOf(s, n, attrs);
      && Chain(h, n, list, if attrs then h[n].firstAttr else h[n].first, if attrs then h[n].lastAttr else h[n].last)
      && ListOk(h.Keys, s, n, list, attrs)
      && (if attrs then h[n].lastAttr else h[n].last) == (if list == [] then null else list[|list| - 1])
      && forall i :: 0 <= i < |list| ==> list[i] in h && list[i] != n && s.rank[list[i]] < s.size
  {
    assert NodeLinks(h, s, n) && ShapeAt(h.Keys, s, n);
    var list := ListOf(s, n, attrs);
    assert ListOk(h.Keys, s, n, list, attrs);
    forall i | 0 <= i < |list| ensures list[i] in h && list[i] != n && s.rank[list[i]] < s.size {
      assert ShapeAt(h.Keys, s, list[i]);
    }
    hide Linked, WellShaped, ShapeAt, ListOk, Covers;
  }

  // The pointers of one list as a loop over it follows them.
  lemma Walk(nodes: set<NodeAct>, h: Heap, s: Shape, n: NodeAct, attrs: bool)
    requires Current(nodes, h) && Linked(h, s) && n in nodes
    ensures WellShaped(nodes, s) && n in s.kids && n in s.attrs && s.rank[n] < s.size
    ensures var list := ListOf(s, n, attrs);
      && (if attrs then n.FirstAttr else n.FirstChild) == (if list == [] then null else list[0])
      && forall i :: 0 <= i < |list| ==>
           && list[i] in nodes && s.rank[n] < s.rank[list[i]] < s.size
    ensures var list := ListOf(s, n, attrs);
      && (forall i, j :: 0 <= i < j < |list| && j == i + 1 ==> list[i].NextSibling == list[j])
      && (list != [] ==> list[|list| - 1].NextSibling == null)
  {
    ListFacts(h, s, n, attrs);
    PointersOf(nodes, h);
    hide Linked, WellShaped, Current;
    var list := ListOf(s, n, attrs);
  }

  lemma LastFacts(nodes: set<NodeAct>, h: Heap, s: Shape, n: NodeAct)
    requires Current(nodes, h) && Linked(h, s) && n in nodes
    ensures n.FirstChild != null ==> n.LastChild != null && n.LastChild in nodes && n.LastChild != n
    ensures n.FirstAttr != null ==> n.LastAttr != null && n.LastAttr in nodes && n.LastAttr != n
  {
    ListFacts(h, s, n, false);
    ListFacts(h, s, n, true);
    hide Linked;
    assert h[n] == n.Pointers();
  }

  lemma OccursBelowMeans(nodes: set<NodeAct>, s: Shape, from: NodeAct, find: NodeAct)
    requires WellShaped(nodes, s) && from in nodes
    ensures forall j :: 0 <= j < |s.kids[from]| ==> s.kids[from][j] in nodes
    ensures OccursBelow(nodes, s, from, find) <==>
      s.kids[from] != [] &&
      (|| find in s.kids[from] || (from.NA_NodeType == ElementType && find in s.attrs[from])
       || exists j :: 0 <= j < |s.kids[from]| && OccursBelow(nodes, s, s.kids[from][j], find))
  {
    assert ShapeAt(nodes, s, from);
  }

  lemma Fresh(nodes: set<NodeAct>, h: Heap, s: Shape, from: NodeAct, find: NodeAct)
    requires Current(nodes, h) && Linked(h, s) && from in nodes && find !in nodes
    ensures WellShaped(nodes, s) && !OccursBelow(nodes, s, from, find)
  {
    StrangerBelow(nodes, s, from, find);
  }

  // Does find stand in a list of from or below it? A node without children is not searched.
  ghost predicate OccursBelow(nodes: set<NodeAct>, s: Shape, from: NodeAct, find: NodeAct)
    requires WellShaped(nodes, s) && from in nodes
    decreases s.size - s.rank[from]
  {
    assert ShapeAt(nodes, s, from);
    s.kids[from] != [] &&
    (|| find in s.kids[from] || (from.NA_NodeType == ElementType && find in s.attrs[from])
     || exists j :: 0 <= j < |s.kids[from]| && OccursBelow(nodes, s, s.kids[from][j], find))
  }

  lemma {:induction false} StrangerBelow(nodes: set<NodeAct>, s: Shape, from: NodeAct, find: NodeAct)
    requires WellShaped(nodes, s) && from in nodes && find !in nodes
    ensures !OccursBelow(nodes, s, from, find)
    decreases s.size - s.rank[from]
  {
    assert ShapeAt(nodes, s, from);
    forall j | 0 <= j < |s.kids[from]| ensures !OccursBelow(nodes, s, s.kids[from][j], find) {
      StrangerBelow(nodes, s, s.kids[from][j], find);
    }
  }

  ghost function Appended(s: Shape, n: NodeAct, c: NodeAct): Shape
    requires n in s.kids && n in s.attrs
  {
    var kids := if c.NA_NodeType != AttributeType then s.kids[n := s.kids[n] + [c]] else s.kids;
    var attrs := if c.NA_NodeType == AttributeType then s.attrs[n := s.attrs[n] + [c]] else s.attrs;
    Shape(kids[c := []], attrs[c := []], s.rank[c := s.size], s.size + 1)
  }

  // The entry a list of p ends with, if it has any.
  ghost function TailOf(h: Heap, p: NodeAct, attrs: bool): NodeAct?
    requires p in h
  {
    if attrs then (if h[p].firstAttr == null then null else h[p].lastAttr)
    else (if h[p].first == null then null else h[p].last)
  }

  // The pointers of x after c is linked behind the last child, or the last attribute, of p.
  ghost function LinkEntry(h: Heap, p: NodeAct, c: NodeAct, x: NodeAct): Links
    requires p in h && (x in h || x == c)
  {
    var attr := c.NA_NodeType == AttributeType;
    var tail := TailOf(h, p, attr);
    if x == c then NO_LINKS.(parent := p, prev := tail)
    else
      var e := if x == tail then h[x].(next := c) else h[x];
      if x != p then e
      else if attr then e.(firstAttr := if e.firstAttr == null then c else e.firstAttr, lastAttr := c)
      else e.(first := if e.first == null then c else e.first, last := c)
  }

  ghost function Link(h: Heap, p: NodeAct, c: NodeAct): Heap
    requires p in h
  {
    map x | x in h.Keys + {c} :: LinkEntry(h, p, c, x)
  }

  // A list stays in order when the new node is added to the tree, and to the list.
  lemma OlderList(nodes: set<NodeAct>, s: Shape, n: NodeAct, c: NodeAct, m: NodeAct, list: seq<NodeAct>, attrs: bool)
    requires WellShaped(nodes, s) && n in nodes && c !in nodes && m in nodes
    requires ListOk(nodes, s, m, list, attrs)
    ensures Covers(nodes + {c}, Appended(s, n, c))
    ensures ListOk(nodes + {c}, Appended(s, n, c), m, list, attrs)
    ensures (c.NA_NodeType == AttributeType <==> attrs) ==> ListOk(nodes + {c}, Appended(s, n, c), m, list + [c], attrs)
  {
    var t := Appended(s, n, c);
    forall i | 0 <= i < |list| ensures t.rank[list[i]] == s.rank[list[i]] < s.size {
      assert list[i] in nodes;
      assert ShapeAt(nodes, s, list[i]);
    }
    assert ShapeAt(nodes, s, m);
  }

  lemma AppendedShape(nodes: set<NodeAct>, s: Shape, n: NodeAct, c: NodeAct)
    requires WellShaped(nodes, s) && n in nodes && c !in nodes
    requires n.NA_NodeType == DocumentType || n.NA_NodeType == ElementType
    ensures WellShaped(nodes + {c}, Appended(s, n, c))
  {
    var t, more := Appended(s, n, c), nodes + {c};
    assert Covers(more, t);
    forall m | m in more ensures ShapeAt(more, t, m) {
      if m in nodes {
        assert ShapeAt(nodes, s, m);
        OlderList(nodes, s, n, c, m, s.kids[m], false);
        OlderList(nodes, s, n, c, m, s.attrs[m], true);
      }
    }
  }

  // The tail of a list of p is in no list but its own.
  lemma TailIsElsewhere(h: Heap, s: Shape, p: NodeAct, m: NodeAct, attrs: bool, kind: bool)
    requires Linked(h, s) && p in h && m in h
    ensures var list, own := ListOf(s, m, attrs), ListOf(s, p, kind);
      && TailOf(h, p, kind) == (if own == [] then null else own[|own| - 1])
      && (m != p || attrs != kind ==> forall i :: 0 <= i < |list| ==> list[i] != TailOf(h, p, kind))
      && (m == p && attrs == kind ==> forall i :: 0 <= i < |list| - 1 ==> list[i] != TailOf(h, p, kind))
  {
    ListFacts(h, s, p, kind);
    ListFacts(h, s, m, attrs);
  }

  // One list of m after c is linked below p.
  lemma LinkedList(h: Heap, s: Shape, p: NodeAct, c: NodeAct, m: NodeAct, attrs: bool)
    requires Linked(h, s) && p in h && c !in h && m in h
    ensures var g, list := Link(h, p, c), ListOf(s, m, attrs);
      Chain(g, m, if m == p && (c.NA_NodeType == AttributeType <==> attrs) then list + [c] else list,
            if attrs then g[m].firstAttr else g[m].first, if attrs then g[m].lastAttr else g[m].last)
  {
    var kind := c.NA_NodeType == AttributeType;
    var g, list := Link(h, p, c), ListOf(s, m, attrs);
    TailIsElsewhere(h, s, p, m, attrs, kind);
    ListFacts(h, s, m, attrs);
    EntryFacts(h, p, c);
    hide Linked, WellShaped, ListOk, LinkEntry, Link, Chain, TailOf;
    var first, last := if attrs then h[m].firstAttr else h[m].first, if attrs then h[m].lastAttr else h[m].last;
    assert Chain(h, m, list, first, last);
    FirstOfChain(h, m, list, first, last);
    if m == p && kind == attrs {
      GrownChain(h, g, m, list, first, c);
    } else {
      KeptChain(h, g, m, list, first, last);
    }
  }

  lemma FirstOfChain(h: Heap, n: NodeAct, list: seq<NodeAct>, first: NodeAct?, last: NodeAct?)
    requires Chain(h, n, list, first, last)
    ensures (first == null) == (list == [])
    ensures forall i :: 0 <= i < |list| ==> list[i] in h && h[list[i]].parent == n
  {
  }

  // What Link changes, entry by entry.
  lemma EntryFacts(h: Heap, p: NodeAct, c: NodeAct)
    requires p in h && c !in h
    ensures var g, attr := Link(h, p, c), c.NA_NodeType == AttributeType;
      && g.Keys == h.Keys + {c}
      && g[c].parent == p && g[c].next == null && g[c].prev == TailOf(h, p, attr)
      && (forall x :: x in h ==> g[x].parent == h[x].parent && g[x].prev == h[x].prev)
      && (forall x :: x in h ==> g[x].next == if x == TailOf(h, p, attr) then c else h[x].next)
      && (forall x :: x in h && (x != p || attr) ==> g[x].first == h[x].first && g[x].last == h[x].last)
      && (forall x :: x in h && (x != p || !attr) ==>
        g[x].firstAttr == h[x].firstAttr && g[x].lastAttr == h[x].lastAttr)
      && (attr ==> g[p].firstAttr == (if h[p].firstAttr == null then c else h[p].firstAttr) && g[p].lastAttr == c)
      && (!attr ==> g[p].first == (if h[p].first == null then c else h[p].first) && g[p].last == c)
  {
  }

  // A chain whose entries keep their pointers.
  lemma KeptChain(h: Heap, g: Heap, n: NodeAct, list: seq<NodeAct>, first: NodeAct?, last: NodeAct?)
    requires Chain(h, n, list, first, last)
    requires forall i :: 0 <= i < |list| ==> list[i] in g && g[list[i]].parent == h[list[i]].parent
    requires forall i :: 0 <= i < |list| ==> g[list[i]].next == h[list[i]].next && g[list[i]].prev == h[list[i]].prev
    ensures Chain(g, n, list, first, last)
  {
  }

  // A chain that c is linked behind.
  lemma GrownChain(h: Heap, g: Heap, n: NodeAct, list: seq<NodeAct>, first: NodeAct?, c: NodeAct)
    requires Chain(h, n, list, first, if list == [] then null else list[|list| - 1])
    requires c in g && g[c].parent == n && g[c].next == null
    requires g[c].prev == (if list == [] then null else list[|list| - 1])
    requires forall i :: 0 <= i < |list| ==>
      list[i] in g && g[list[i]].parent == h[list[i]].parent && g[list[i]].prev == h[list[i]].prev
    requires forall i :: 0 <= i < |list| - 1 ==> g[list[i]].next == h[list[i]].next
    requires list != [] ==> g[list[|list| - 1]].next == c
    ensures Chain(g, n, list + [c], if list == [] then c else first, c)
  {
    var grown := list + [c];
    forall i, j | 0 <= i < j < |grown| && j == i + 1
      ensures g[grown[i]].next == grown[j] && g[grown[j]].prev == grown[i]
    {
      if j < |list| {
        assert grown[j] == list[j] && grown[i] == list[i];
      }
    }
  }

  lemma AppendedLists(nodes: set<NodeAct>, s: Shape, p: NodeAct, c: NodeAct, n: NodeAct)
    requires Covers(nodes, s) && p in nodes && n in nodes && c !in nodes
    ensures var t := Appended(s, p, c);
      && n in t.kids && n in t.attrs && c in t.kids && c in t.attrs && t.kids[c] == t.attrs[c] == []
      && t.kids[n] == (if n == p && c.NA_NodeType != AttributeType then s.kids[n] + [c] else s.kids[n])
      && t.attrs[n] == (if n == p && c.NA_NodeType == AttributeType then s.attrs[n] + [c] else s.attrs[n])
  {
  }

  // Linking a new node keeps every pointer of the tree consistent.
  lemma LinkedLink(h: Heap, s: Shape, p: NodeAct, c: NodeAct)
    requires Linked(h, s) && p in h && c !in h
    requires p.NA_NodeType == DocumentType || p.NA_NodeType == ElementType
    ensures Linked(Link(h, p, c), Appended(s, p, c))
  {
    AppendedShape(h.Keys, s, p, c);
    EntryFacts(h, p, c);
    var g, t := Link(h, p, c), Appended(s, p, c);
    forall m | m in g ensures m in t.kids && m in t.attrs && NodeLinks(g, t, m) {
      hide Chain, WellShaped, Link, Appended, LinkEntry;
      if m in h {
        LinkedList(h, s, p, c, m, false);
        LinkedList(h, s, p, c, m, true);
        AppendedLists(h.Keys, s, p, c, m);
      } else {
        NewNodeLinks(h, s, p, c);
      }
    }
  }

  lemma NewNodeLinks(h: Heap, s: Shape, p: NodeAct, c: NodeAct)
    requires Covers(h.Keys, s) && p in h && c !in h
    ensures var g, t := Link(h, p, c), Appended(s, p, c);
      c in g && c in t.kids && c in t.attrs && NodeLinks(g, t, c)
  {
  }
}
