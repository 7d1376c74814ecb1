// Freeing a document tree (src/upnpdom/NodeAct.cpp:330-377): each round walks down the first
// children to a leaf, unlinks it from its parent and frees it with its attributes.
module Teardown {
  import opened Dom

  // The nodes of a tree that are not freed yet, as their remaining pointers link them.
  datatype Tree = Tree(node: NodeAct, attrs: seq<NodeAct>, kids: seq<Tree>)

  // The nodes freed so far, in order. Every access to a node of the tree goes through here, and is
  // to a node that is not freed yet.
  class FreeLog {
    ghost var freed: seq<NodeAct>

    constructor ()
      ensures freed == []
    {
      freed := [];
    }

    // delete: no node is freed twice.
    method Delete(n: NodeAct)
      requires n !in freed
      modifies this
      ensures freed == old(freed) + [n]
    {
      freed := freed + [n];
    }

    function FirstChild(n: NodeAct): (r: NodeAct?)
      requires n !in freed
      reads this, n
      ensures r == n.FirstChild
    {
      n.FirstChild
    }

    function NextSibling(n: NodeAct): (r: NodeAct?)
      requires n !in freed
      reads this, n
      ensures r == n.NextSibling
    {
      n.NextSibling
    }

    function ParentNode(n: NodeAct): (r: NodeAct?)
      requires n !in freed
      reads this, n
      ensures r == n.ParentNode
    {
      n.ParentNode
    }

    function FirstAttr(n: NodeAct): (r: NodeAct?)
      requires n !in freed
      reads this, n
      ensures r == n.FirstAttr
    {
      n.FirstAttr
    }

    predicate IsElement(n: NodeAct)
      requires n !in freed
      reads this, n
    {
      n.NA_NodeType == ElementType
    }

    method SetChildren(n: NodeAct, first: NodeAct?)
      requires n !in freed
      modifies n`FirstChild, n`LastChild
      ensures n.FirstChild == first && n.LastChild == null
    {
      n.FirstChild := first;
      n.LastChild := null;
    }

    method ClearAttrs(n: NodeAct)
      requires n !in freed
      modifies n`FirstAttr, n`LastAttr
      ensures n.FirstAttr == null && n.LastAttr == null
    {
      n.FirstAttr := null;
      n.LastAttr := null;
    }
  }

  ghost function NodesOf(t: Tree): (r: set<NodeAct>)
    ensures t.node in r
    decreases t
  {
    {t.node} + (set x | x in t.attrs) + NodesOfAll(t.kids)
  }

  ghost function NodesOfAll(ts: seq<Tree>): (r: set<NodeAct>)
    ensures ts != [] ==> ts[0].node in r
    decreases ts
  {
    if ts == [] then {} else NodesOf(ts[0]) + NodesOfAll(ts[1..])
  }

  ghost predicate NoRepeats(list: seq<NodeAct>) {
    forall i, j :: 0 <= i < j < |list| ==> list[i] != list[j]
  }

  // No node stands in two places of the tree.
  ghost predicate Distinct(t: Tree)
    decreases t
  {
    && t.node !in t.attrs && NoRepeats(t.attrs) && t.node !in NodesOfAll(t.kids)
    && (forall i :: 0 <= i < |t.attrs| ==> t.attrs[i] !in NodesOfAll(t.kids))
    && DistinctAll(t.kids)
  }

  ghost predicate DistinctAll(ts: seq<Tree>)
    decreases ts
  {
    ts == [] || (Distinct(ts[0]) && NodesOf(ts[0]) !! NodesOfAll(ts[1..]) && DistinctAll(ts[1..]))
  }

  ghost function Head(list: seq<NodeAct>): NodeAct? {
    if list == [] then null else list[0]
  }

  ghost function HeadOf(ts: seq<Tree>): NodeAct? {
    if ts == [] then null else ts[0].node
  }

  ghost predicate AttrChain(attrs: seq<NodeAct>)
    reads attrs
  {
    attrs == [] || (attrs[0].NextSibling == Head(attrs[1..]) && AttrChain(attrs[1..]))
  }

  // The first-child, next-sibling, parent and first-attribute pointers are those of the tree;
  // the last and previous pointers are not kept up while it is taken down.
  ghost predicate Reps(t: Tree)
    reads NodesOf(t)
    decreases t
  {
    && t.node.FirstChild == HeadOf(t.kids) && t.node.FirstAttr == Head(t.attrs)
    && AttrChain(t.attrs) && RepsAll(t.node, t.kids)
  }

  ghost predicate RepsAll(p: NodeAct, ts: seq<Tree>)
    reads NodesOfAll(ts)
    decreases ts
  {
    || ts == []
    || (ts[0].node.ParentNode == p && ts[0].node.NextSibling == HeadOf(ts[1..]) && Reps(ts[0]) && RepsAll(p, ts[1..]))
  }

  // What freeing one leaf frees: an element's attributes and then the node.
  ghost function FreeOf(t: Tree): seq<NodeAct> {
    (if t.node.NA_NodeType == ElementType then t.attrs else []) + [t.node]
  }

  // The order of freeing: children from first to last, then the node.
  ghost function Postorder(t: Tree): seq<NodeAct>
    decreases t
  {
    PostorderAll(t.kids) + FreeOf(t)
  }

  ghost function PostorderAll(ts: seq<Tree>): seq<NodeAct>
    decreases ts
  {
    if ts == [] then [] else Postorder(ts[0]) + PostorderAll(ts[1..])
  }

  // The leaf at the end of the first children.
  ghost function Leaf(t: Tree): Tree
    decreases t
  {
    if t.kids == [] then t else Leaf(t.kids[0])
  }

  // The tree without that leaf.
  ghost function WithoutLeaf(t: Tree): (r: Tree)
    requires t.kids != []
    ensures r.node == t.node && r.attrs == t.attrs
    decreases t
  {
    if t.kids[0].kids == [] then t.(kids := t.kids[1..])
    else t.(kids := [WithoutLeaf(t.kids[0])] + t.kids[1..])
  }

  // Freeing the first leaf and then the rest is freeing in postorder.
  lemma {:induction false} LeafFirst(t: Tree)
    requires t.kids != []
    ensures PostorderAll(t.kids) == FreeOf(Leaf(t)) + PostorderAll(WithoutLeaf(t).kids)
    decreases t
  {
    var c, rest := t.kids[0], t.kids[1..];
    if c.kids == [] {
      assert Postorder(c) == [] + FreeOf(c);
    } else {
      LeafFirst(c);
      var c' := WithoutLeaf(c);
      assert ([c'] + rest)[1..] == rest;
      assert Postorder(c) == PostorderAll(c.kids) + FreeOf(c);
      assert Postorder(c') == PostorderAll(c'.kids) + FreeOf(c);
    }
  }

  // The leaf's nodes leave the tree and all others stay.
  lemma {:induction false} LeafLeaves(t: Tree)
    requires t.kids != [] && Distinct(t)
    ensures Distinct(WithoutLeaf(t))
    ensures NodesOf(Leaf(t)) <= NodesOfAll(t.kids) && Leaf(t).kids == []
    ensures NodesOf(WithoutLeaf(t)) == NodesOf(t) - NodesOf(Leaf(t))
    decreases t
  {
    var c, rest := t.kids[0], t.kids[1..];
    assert NodesOfAll(t.kids) == NodesOf(c) + NodesOfAll(rest);
    if c.kids != [] {
      LeafLeaves(c);
      var c' := WithoutLeaf(c);
      assert ([c'] + rest)[1..] == rest;
      assert NodesOfAll([c'] + rest) == NodesOf(c') + NodesOfAll(rest);
    }
  }

  // The list of attributes of a node is freed front to back.
  method DeleteAttrs(na: NodeAct, log: FreeLog, ghost attrs: seq<NodeAct>)
    requires na.FirstAttr == Head(attrs) && AttrChain(attrs) && NoRepeats(attrs)
    requires (forall i :: 0 <= i < |attrs| ==> attrs[i] !in log.freed) && na !in attrs && na !in log.freed
    modifies log, na`FirstAttr, na`LastAttr
    ensures log.freed == old(log.freed) + attrs
    ensures na.FirstAttr == null
  {
    var attr := log.FirstAttr(na);
    ghost var i := 0;
    while attr != null
      invariant 0 <= i <= |attrs| && attr == Head(attrs[i..]) && AttrChain(attrs[i..])
      invariant log.freed == old(log.freed) + attrs[..i]
      invariant forall j :: i <= j < |attrs| ==> attrs[j] !in log.freed
      decreases |attrs| - i
    {
      assert attr == attrs[i] && attrs[i..][1..] == attrs[i + 1..];
      var na1 := log.NextSibling(attr);
      log.Delete(attr);
      attr := na1;
      assert attrs[..i + 1] == attrs[..i] + [attrs[i]];
      i := i + 1;
    }
    assert attrs[..i] == attrs;
    log.ClearAttrs(na);
  }

  lemma ApartFacts(t: Tree)
    requires Distinct(t) && t.kids != []
    ensures NodesOfAll(t.kids) == NodesOf(t.kids[0]) + NodesOfAll(t.kids[1..])
    ensures Distinct(t.kids[0]) && NodesOf(t.kids[0]) !! NodesOfAll(t.kids[1..])
    ensures t.node !in NodesOf(t.kids[0]) && t.node !in NodesOfAll(t.kids[1..])
    ensures NodesOf(t.kids[0]) <= NodesOf(t) && NodesOfAll(t.kids[1..]) <= NodesOf(t)
    ensures forall n :: n in t.attrs ==> n != t.node && n !in NodesOf(t.kids[0])
  {
  }

  // The tree without its first leaf is what the pointers say after the leaf is unlinked.
  lemma RepsWithout(t: Tree)
    requires t.kids != [] && AttrChain(t.attrs) && t.node.FirstAttr == Head(t.attrs)
    requires RepsAll(t.node, t.kids[1..])
    requires if t.kids[0].kids == [] then t.node.FirstChild == HeadOf(t.kids[1..])
      else t.node.FirstChild == t.kids[0].node && Reps(WithoutLeaf(t.kids[0]))
           && t.kids[0].node.ParentNode == t.node && t.kids[0].node.NextSibling == HeadOf(t.kids[1..])
    ensures Reps(WithoutLeaf(t))
  {
    if t.kids[0].kids != [] {
      var c' := WithoutLeaf(t.kids[0]);
      assert ([c'] + t.kids[1..])[1..] == t.kids[1..];
    }
  }

  lemma RepsParts(t: Tree)
    requires Reps(t) && Distinct(t)
    ensures t.node.FirstChild == HeadOf(t.kids) && t.node.FirstAttr == Head(t.attrs) && AttrChain(t.attrs)
    ensures t.node in NodesOf(t) && forall n :: n in t.attrs ==> n in NodesOf(t)
    ensures t.kids != [] ==>
      && Reps(t.kids[0]) && t.kids[0].node == t.node.FirstChild && t.kids[0].node.ParentNode == t.node
      && t.kids[0].node.NextSibling == HeadOf(t.kids[1..]) && RepsAll(t.node, t.kids[1..])
      && NodesOf(t.kids[0]) <= NodesOf(t)
    ensures t.kids == [] ==> Leaf(t) == t && t.node.FirstChild == null
    ensures t.kids != [] ==> Leaf(t) == Leaf(t.kids[0]) && t.node.FirstChild != null
  {
  }

  // A leaf below p is unlinked, and freed with its attributes.
  method FreeLeaf(self: NodeAct, na: NodeAct, log: FreeLog, ghost t: Tree, ghost p: NodeAct)
    requires t.node == na && Reps(t) && Distinct(t) && na.ParentNode == p && t.kids == [] && na != self
    requires p !in NodesOf(t)
    requires (forall n :: n in NodesOf(t) ==> n !in log.freed) && p !in log.freed
    modifies log, na`FirstAttr, na`LastAttr, p`FirstChild, p`LastChild
    ensures log.freed == old(log.freed) + FreeOf(t)
    ensures p.FirstChild == na.NextSibling
  {
    RepsParts(t);
    hide NodesOf, Distinct, Reps, AttrChain;
    assert na !in t.attrs && NoRepeats(t.attrs) by { DistinctParts(t); }
    var nap := log.ParentNode(na);
    if nap != null {
      var next := log.NextSibling(na);
      log.SetChildren(nap, next);
    }
    if log.IsElement(na) {
      DeleteAttrs(na, log, t.attrs);
    }
    if na != self {
      log.Delete(na);
    }
  }

  lemma DistinctParts(t: Tree)
    requires Distinct(t)
    ensures t.node !in t.attrs && NoRepeats(t.attrs)
  {
  }

  // One call of deleteNodeTree: a leaf is freed, and with children the leaf at the end of the
  // first children.
  method DeleteNodeTree(self: NodeAct, na: NodeAct, log: FreeLog, ghost t: Tree, ghost p: NodeAct?,
                        ghost nodes: set<NodeAct>)
    requires NodesOf(t) <= nodes && t.node == na && Reps(t) && Distinct(t) && na.ParentNode == p
    requires t.kids == [] ==> na != self && p != null && p !in NodesOf(t) && p !in log.freed
    requires t.kids != [] ==> self !in NodesOfAll(t.kids)
    requires forall n :: n in NodesOf(t) ==> n !in log.freed
    modifies log, NodesOf(t)`FirstChild, NodesOf(t)`LastChild, NodesOf(t)`FirstAttr, NodesOf(t)`LastAttr
    modifies (if t.kids == [] then {p} else {})`FirstChild, (if t.kids == [] then {p} else {})`LastChild
    ensures log.freed == old(log.freed) + FreeOf(Leaf(t))
    ensures t.kids == [] ==> p.FirstChild == na.NextSibling
    ensures t.kids != [] ==> Reps(WithoutLeaf(t))
    decreases t
  {
    hide *;
    RepsParts(t);
    var first := log.FirstChild(na);
    if first != null {
      ApartFacts(t);
      KidsInside(t);
      DeleteNodeTree(self, first, log, t.kids[0], na, nodes);
      RepsWithout(t);
    } else {
      FreeLeaf(self, na, log, t, p);
    }
  }

  lemma KidsInside(t: Tree)
    requires Distinct(t) && t.kids != []
    ensures forall n :: n in NodesOfAll(t.kids[0].kids) ==> n in NodesOfAll(t.kids)
    ensures t.kids[0].node in NodesOfAll(t.kids)
  {
  }

  lemma RootFacts(t: Tree)
    requires Reps(t) && Distinct(t)
    ensures (t.node.FirstChild == null) == (t.kids == []) && t.node !in NodesOfAll(t.kids) && t.node in NodesOf(t)
  {
  }

  lemma NoKids()
    ensures PostorderAll([]) == []
  {
  }

  lemma LeafInside(t: Tree)
    requires t.kids != [] && NodesOf(Leaf(t)) <= NodesOfAll(t.kids)
    ensures Leaf(t).node in NodesOf(Leaf(t)) && Leaf(t).node in NodesOf(t)
  {
  }

  lemma LeafFrees(t: Tree, n: NodeAct)
    ensures n in FreeOf(Leaf(t)) ==> n in NodesOf(Leaf(t))
  {
  }

  // Frees everything below a node.
  method DeleteNodeAct(self: NodeAct, log: FreeLog, ghost t: Tree)
    requires t.node == self && Reps(t) && Distinct(t)
    requires forall n :: n in NodesOf(t) ==> n !in log.freed
    modifies log, NodesOf(t)`FirstChild, NodesOf(t)`LastChild, NodesOf(t)`FirstAttr, NodesOf(t)`LastAttr
    ensures log.freed == old(log.freed) + PostorderAll(t.kids)
    ensures self.FirstChild == null
  {
    hide *;
    ghost var nodes := NodesOf(t);
    ghost var u := t;
    RootFacts(t);
    var first := log.FirstChild(self);
    while first != null
      invariant u.node == self && first == self.FirstChild
      invariant self !in log.freed
      invariant Reps(u) && Distinct(u) && NodesOf(u) <= NodesOf(t)
      invariant (self.FirstChild == null) == (u.kids == [])
      invariant forall n :: n in NodesOf(u) ==> n !in log.freed
      invariant log.freed + PostorderAll(u.kids) == old(log.freed) + PostorderAll(t.kids)
      decreases NodesOf(u)
    {
      RootFacts(u);
      LeafFirst(u);
      LeafLeaves(u);
      ghost var before := NodesOf(u);
      DeleteNodeTree(self, self, log, u, self.ParentNode, nodes);
      forall n | n in FreeOf(Leaf(u)) ensures n in NodesOf(Leaf(u)) {
        LeafFrees(u, n);
      }
      LeafInside(u);
      u := WithoutLeaf(u);
      assert NodesOf(u) < before;
      RootFacts(u);
      first := log.FirstChild(self);
    }
    NoKids();
  }

  // u is t or a tree below it.
  ghost predicate Sub(u: Tree, t: Tree)
    decreases t
  {
    u == t || exists i :: 0 <= i < |t.kids| && Sub(u, t.kids[i])
  }

  lemma {:induction false} PostorderPart(ts: seq<Tree>, i: nat)
    requires i < |ts|
    ensures PostorderAll(ts) == PostorderAll(ts[..i]) + Postorder(ts[i]) + PostorderAll(ts[i + 1..])
    decreases i
  {
    if i == 0 {
      assert PostorderAll(ts[..0]) == [];
    } else {
      PostorderPart(ts[1..], i - 1);
      assert ts[1..][..i - 1] == ts[..i][1..] && ts[1..][i..] == ts[i + 1..];
      assert PostorderAll(ts[..i]) == Postorder(ts[0]) + PostorderAll(ts[..i][1..]);
    }
  }

  lemma {:induction false} FreedAfter(u: Tree, t: Tree) returns (a: seq<NodeAct>, b: seq<NodeAct>)
    requires Sub(u, t)
    ensures Postorder(t) == a + (PostorderAll(u.kids) + FreeOf(u)) + b
    decreases t
  {
    if u == t {
      a, b := [], [];
    } else {
      var i :| 0 <= i < |t.kids| && Sub(u, t.kids[i]);
      hide Sub, FreeOf, PostorderAll;
      var a', b' := FreedAfter(u, t.kids[i]);
      PostorderPart(t.kids, i);
      var before, after, mid :=
        PostorderAll(t.kids[..i]), PostorderAll(t.kids[i + 1..]), PostorderAll(u.kids) + FreeOf(u);
      a, b := before + a', b' + (after + FreeOf(t));
      Regroup(before, a', mid, b', after, FreeOf(t));
    }
  }

  lemma Regroup(s0: seq<NodeAct>, s1: seq<NodeAct>, s2: seq<NodeAct>, s3: seq<NodeAct>, s4: seq<NodeAct>,
                s5: seq<NodeAct>)
    ensures s0 + (s1 + s2 + s3) + s4 + s5 == (s0 + s1) + s2 + (s3 + (s4 + s5))
  {
  }

  // A node is freed right after its children's trees and its own attributes.
  lemma FreedAfterChildren(u: Tree, t: Tree)
    requires Sub(u, t)
    ensures exists a, b :: Postorder(t) == a + (PostorderAll(u.kids) + FreeOf(u)) + b
  {
    var a, b := FreedAfter(u, t);
  }

  lemma JoinedOnce(a: seq<NodeAct>, b: seq<NodeAct>, nodes: set<NodeAct>)
    requires NoRepeats(a) && NoRepeats(b)
    requires (forall x :: x in a ==> x in nodes) && forall x :: x in b ==> x !in nodes
    ensures NoRepeats(a + b)
  {
    forall i, j | 0 <= i < |a| && 0 <= j < |b| ensures a[i] != b[j] {
      assert a[i] in a && b[j] in b;
    }
  }

  // Everything freed is in the tree, and freed once.
  lemma {:induction false} FreedOnce(t: Tree)
    requires Distinct(t)
    ensures NoRepeats(Postorder(t)) && forall x :: x in Postorder(t) ==> x in NodesOf(t)
    decreases t
  {
    FreedOnceAll(t.kids);
    var below, here := PostorderAll(t.kids), FreeOf(t);
    assert NoRepeats(here) && forall x :: x in here ==> x in NodesOf(t) && x !in NodesOfAll(t.kids);
    hide Distinct, DistinctAll, PostorderAll, FreeOf;
    JoinedOnce(below, here, NodesOfAll(t.kids));
  }

  lemma {:induction false} FreedOnceAll(ts: seq<Tree>)
    requires DistinctAll(ts)
    ensures NoRepeats(PostorderAll(ts)) && forall x :: x in PostorderAll(ts) ==> x in NodesOfAll(ts)
    decreases ts
  {
    if ts != [] {
      FreedOnce(ts[0]);
      FreedOnceAll(ts[1..]);
      var s, r := Postorder(ts[0]), PostorderAll(ts[1..]);
      hide Distinct, DistinctAll, Postorder;
      JoinedOnce(s, r, NodesOf(ts[0]));
    }
  }
}
