// A consistently linked tree can be taken down: the pointers below any of its nodes form a
// tree without repeated nodes.
module TeardownShape {
  import opened Dom
  import opened Teardown

  ghost function TreeAt(nodes: set<NodeAct>, s: Shape, n: NodeAct): (t: Tree)
    requires WellShaped(nodes, s) && n in nodes
    ensures t.node == n && t.attrs == s.attrs[n]
    decreases s.size - s.rank[n], 1, 0
  {
    assert ShapeAt(nodes, s, n);
    Tree(n, s.attrs[n], TreesAt(nodes, s, n, 0))
  }

  // The trees of the children of n from the k-th on.
  ghost function TreesAt(nodes: set<NodeAct>, s: Shape, n: NodeAct, k: nat): (ts: seq<Tree>)
    requires WellShaped(nodes, s) && n in nodes && k <= |s.kids[n]|
    ensures |ts| == |s.kids[n]| - k && (ts != [] ==> ts[0].node == s.kids[n][k])
    decreases s.size - s.rank[n], 0, |s.kids[n]| - k
  {
    assert ShapeAt(nodes, s, n);
    if k == |s.kids[n]| then [] else [TreeAt(nodes, s, s.kids[n][k])] + TreesAt(nodes, s, n, k + 1)
  }

  lemma {:induction false} ChainOf(nodes: set<NodeAct>, h: Heap, s: Shape, n: NodeAct, k: nat)
    requires Current(nodes, h) && Linked(h, s) && n in nodes && n in s.attrs && k <= |s.attrs[n]|
    ensures AttrChain(s.attrs[n][k..])
    decreases |s.attrs[n]| - k
  {
    Walk(nodes, h, s, n, true);
    hide Linked, Current;
    if k < |s.attrs[n]| {
      ChainOf(nodes, h, s, n, k + 1);
      assert s.attrs[n][k..][1..] == s.attrs[n][k + 1..];
    }
  }

  // The pointers below n are those of its tree.
  lemma {:induction false} RepsTree(nodes: set<NodeAct>, h: Heap, s: Shape, n: NodeAct)
    requires Current(nodes, h) && Linked(h, s) && n in nodes
    ensures WellShaped(nodes, s) && Reps(TreeAt(nodes, s, n))
    decreases s.size - s.rank[n], 1, 0
  {
    Walk(nodes, h, s, n, false);
    Walk(nodes, h, s, n, true);
    hide Linked, Current, WellShaped;
    RepsTrees(nodes, h, s, n, 0);
    ChainOf(nodes, h, s, n, 0);
    assert s.attrs[n][0..] == s.attrs[n];
  }

  lemma {:induction false} RepsTrees(nodes: set<NodeAct>, h: Heap, s: Shape, n: NodeAct, k: nat)
    requires Current(nodes, h) && Linked(h, s) && n in nodes && n in s.kids && k <= |s.kids[n]|
    ensures WellShaped(nodes, s) && RepsAll(n, TreesAt(nodes, s, n, k))
    decreases s.size - s.rank[n], 0, |s.kids[n]| - k
  {
    Walk(nodes, h, s, n, false);
    ParentsOf(nodes, h, s, n, false);
    hide Linked, Current, WellShaped;
    if k < |s.kids[n]| {
      RepsTree(nodes, h, s, s.kids[n][k]);
      RepsTrees(nodes, h, s, n, k + 1);
      assert TreesAt(nodes, s, n, k)[1..] == TreesAt(nodes, s, n, k + 1);
      hide Reps;
    }
  }

  lemma ParentsOf(nodes: set<NodeAct>, h: Heap, s: Shape, n: NodeAct, attrs: bool)
    requires Current(nodes, h) && Linked(h, s) && n in nodes && n in s.kids && n in s.attrs
    ensures forall i :: 0 <= i < |ListOf(s, n, attrs)| ==>
      ListOf(s, n, attrs)[i] in h && ListOf(s, n, attrs)[i].ParentNode == n
  {
    ListFacts(h, s, n, attrs);
    PointersOf(nodes, h);
    hide Linked, WellShaped, Current;
  }

  // What h says above a node of the tree below n: it is n itself, or its parent is in the tree.
  ghost predicate UpInside(h: Heap, s: Shape, n: NodeAct, x: NodeAct, all: set<NodeAct>) {
    && x in h && x in s.rank && n in s.rank && s.rank[n] <= s.rank[x]
    && (x != n ==>
        h[x].parent != null && h[x].parent in all && h[x].parent in s.rank && s.rank[h[x].parent] < s.rank[x])
  }

  lemma {:induction false} UpFromTree(h: Heap, s: Shape, n: NodeAct, x: NodeAct)
    requires Linked(h, s) && n in h && x in NodesOf(TreeAt(h.Keys, s, n))
    ensures UpInside(h, s, n, x, NodesOf(TreeAt(h.Keys, s, n)))
    decreases s.size - s.rank[n], 1, 0
  {
    ListFacts(h, s, n, true);
    hide Linked, WellShaped;
    if x != n && x !in s.attrs[n] {
      UpFromTrees(h, s, n, 0, x);
    }
  }

  lemma {:induction false} UpFromTrees(h: Heap, s: Shape, n: NodeAct, k: nat, x: NodeAct)
    requires Linked(h, s) && n in h && n in s.kids && k <= |s.kids[n]| && x in NodesOfAll(TreesAt(h.Keys, s, n, k))
    ensures x in s.rank && s.rank[n] < s.rank[x] && x in h
    ensures h[x].parent == n || UpInside(h, s, n, x, NodesOfAll(TreesAt(h.Keys, s, n, k)))
    decreases s.size - s.rank[n], 0, |s.kids[n]| - k
  {
    ListFacts(h, s, n, false);
    hide Linked, WellShaped;
    if k < |s.kids[n]| {
      var c := s.kids[n][k];
      assert TreesAt(h.Keys, s, n, k)[1..] == TreesAt(h.Keys, s, n, k + 1);
      if x in NodesOf(TreeAt(h.Keys, s, c)) {
        UpFromTree(h, s, c, x);
      } else {
        UpFromTrees(h, s, n, k + 1, x);
      }
    }
  }

  // Trees of two children of one node have no node in common.
  lemma {:induction false} SiblingsApart(h: Heap, s: Shape, p: NodeAct, a: NodeAct, b: NodeAct, x: NodeAct)
    requires Linked(h, s) && p in h && a in h && b in h && a != b && h[a].parent == p && h[b].parent == p
    requires p in s.rank && a in s.rank && b in s.rank && s.rank[p] < s.rank[a] && s.rank[p] < s.rank[b]
    requires x in s.rank && x in NodesOf(TreeAt(h.Keys, s, a))
    ensures x !in NodesOf(TreeAt(h.Keys, s, b))
    decreases s.rank[x]
  {
    UpFromTree(h, s, a, x);
    if x in NodesOf(TreeAt(h.Keys, s, b)) {
      UpFromTree(h, s, b, x);
      hide NodesOf, TreeAt, Linked;
      if x != a && x != b {
        SiblingsApart(h, s, p, a, b, h[x].parent);
      } else if x == a {
        UpFromTree(h, s, b, p);
      } else {
        UpFromTree(h, s, a, p);
      }
      assert false;
    }
  }

  // No node stands twice below n.
  lemma {:induction false} DistinctTree(h: Heap, s: Shape, n: NodeAct)
    requires Linked(h, s) && n in h
    ensures Distinct(TreeAt(h.Keys, s, n))
    decreases s.size - s.rank[n], 1, 0
  {
    ListFacts(h, s, n, true);
    hide Linked, WellShaped;
    DistinctTrees(h, s, n, 0);
    forall x | x in NodesOfAll(TreesAt(h.Keys, s, n, 0)) ensures x != n && x !in s.attrs[n] {
      UpFromTrees(h, s, n, 0, x);
      if x in s.attrs[n] {
        AttrApart(h, s, n, 0, x);
      }
    }
  }

  // An attribute of n is not below a child of n.
  lemma {:induction false} AttrApart(h: Heap, s: Shape, n: NodeAct, k: nat, x: NodeAct)
    requires Linked(h, s) && n in h && n in s.kids && n in s.attrs && k <= |s.kids[n]| && x in s.attrs[n]
    ensures x !in NodesOfAll(TreesAt(h.Keys, s, n, k))
    decreases |s.kids[n]| - k
  {
    ListFacts(h, s, n, true);
    ListFacts(h, s, n, false);
    hide Linked, WellShaped;
    if k < |s.kids[n]| {
      var c := s.kids[n][k];
      assert TreesAt(h.Keys, s, n, k)[1..] == TreesAt(h.Keys, s, n, k + 1);
      AttrApart(h, s, n, k + 1, x);
      if x in NodesOf(TreeAt(h.Keys, s, c)) {
        UpFromTree(h, s, c, x);
        UpFromTree(h, s, c, n);
        assert false;
      }
    }
  }

  lemma {:induction false} DistinctTrees(h: Heap, s: Shape, n: NodeAct, k: nat)
    requires Linked(h, s) && n in h && n in s.kids && k <= |s.kids[n]|
    ensures DistinctAll(TreesAt(h.Keys, s, n, k))
    decreases s.size - s.rank[n], 0, |s.kids[n]| - k
  {
    ListFacts(h, s, n, false);
    hide Linked, WellShaped;
    if k < |s.kids[n]| {
      var c := s.kids[n][k];
      DistinctTree(h, s, c);
      DistinctTrees(h, s, n, k + 1);
      assert TreesAt(h.Keys, s, n, k)[1..] == TreesAt(h.Keys, s, n, k + 1);
      forall x | x in NodesOf(TreeAt(h.Keys, s, c)) ensures x !in NodesOfAll(TreesAt(h.Keys, s, n, k + 1)) {
        UpFromTree(h, s, c, x);
        ApartFromRest(h, s, n, c, k + 1, x);
      }
    }
  }

  lemma {:induction false} ApartFromRest(h: Heap, s: Shape, n: NodeAct, c: NodeAct, k: nat, x: NodeAct)
    requires Linked(h, s) && n in h && n in s.kids && k <= |s.kids[n]| && c in h && h[c].parent == n
    requires n in s.rank && c in s.rank && s.rank[n] < s.rank[c] && x in s.rank && x in NodesOf(TreeAt(h.Keys, s, c))
    requires forall i :: k <= i < |s.kids[n]| ==> s.kids[n][i] != c
    ensures x !in NodesOfAll(TreesAt(h.Keys, s, n, k))
    decreases |s.kids[n]| - k
  {
    ListFacts(h, s, n, false);
    hide Linked, WellShaped;
    if k < |s.kids[n]| {
      assert TreesAt(h.Keys, s, n, k)[1..] == TreesAt(h.Keys, s, n, k + 1);
      SiblingsApart(h, s, n, c, s.kids[n][k], x);
      ApartFromRest(h, s, n, c, k + 1, x);
    }
  }

  // deleteNodeAct on any node of a consistently linked tree: it ends, and frees the proper
  // descendants and the attributes of the elements among them, each once, children first.
  method Delete(self: NodeAct, ghost nodes: set<NodeAct>, ghost h: Heap, ghost s: Shape) returns (log: FreeLog)
    requires Current(nodes, h) && Linked(h, s) && self in nodes
    modifies nodes
    ensures WellShaped(nodes, s) && log.freed == PostorderAll(TreeAt(nodes, s, self).kids)
    ensures NoRepeats(log.freed) && self !in log.freed && self.FirstChild == null
  {
    RepsTree(nodes, h, s, self);
    ghost var t := TreeAt(nodes, s, self);
    assert Distinct(t) by { PointersOf(nodes, h); DistinctTree(h, s, self); }
    InTree(nodes, h, s, self);
    hide *;
    OnceBelow(t);
    log := new FreeLog();
    DeleteNodeAct(self, log, t);
  }

  lemma InTree(nodes: set<NodeAct>, h: Heap, s: Shape, n: NodeAct)
    requires h.Keys == nodes && Linked(h, s) && n in nodes
    ensures WellShaped(nodes, s) && NodesOf(TreeAt(nodes, s, n)) <= nodes
  {
    ListFacts(h, s, n, false);
    forall x | x in NodesOf(TreeAt(nodes, s, n)) ensures x in nodes {
      UpFromTree(h, s, n, x);
    }
  }

  lemma OnceBelow(t: Tree)
    requires Distinct(t)
    ensures NoRepeats(PostorderAll(t.kids)) && t.node !in PostorderAll(t.kids)
  {
    FreedOnceAll(t.kids);
  }
}
