// What the lists of a linked tree say about the tree being built: the open elements are the
// path to CurrentNodePtr, and everything off the path is finished.
module DocumentTree {
  import opened Bytes
  import opened Escape
  import opened Tree
  import opened Builder
  import opened Dom

  // The nodes, their lists, the path of open nodes, and the trees of the closed ones.
  datatype Build = Build(nodes: set<NodeAct>, s: Shape, path: seq<NodeAct>, trees: map<NodeAct, Node>)

  ghost predicate AttrsMatch(list: seq<NodeAct>, attrs: seq<Attribute>) {
    && |list| == |attrs|
    && forall i :: 0 <= i < |list| ==>
      list[i].NA_NodeName == attrs[i].name && TextOf(list[i].NA_NodeValue) == attrs[i].value
  }

  ghost predicate KidsMatch(trees: map<NodeAct, Node>, list: seq<NodeAct>, children: seq<Node>) {
    && |list| == |children|
    && forall i :: 0 <= i < |list| ==> list[i] in trees && trees[list[i]] == children[i]
  }

  // The tree of a closed node is the one its name, value and lists spell out.
  ghost predicate NodeMatches(g: Build, n: NodeAct)
    requires n in g.trees && n in g.s.kids && n in g.s.attrs
  {
    match g.trees[n]
    case Text(v) => n.NA_NodeType == TextType && TextOf(n.NA_NodeValue) == v
    case Element(name, attrs, children) =>
      && n.NA_NodeType == ElementType && n.NA_NodeName == name
      && AttrsMatch(g.s.attrs[n], attrs) && KidsMatch(g.trees, g.s.kids[n], children)
  }

  // The children of the i-th open node that are closed: all but the next node on the path.
  ghost function ClosedKids(g: Build, i: nat): seq<NodeAct>
    requires i < |g.path| && g.path[i] in g.s.kids
  {
    var kids := g.s.kids[g.path[i]];
    if i + 1 < |g.path| && kids != [] then kids[..|kids| - 1] else kids
  }

  ghost predicate FrameMatches(g: Build, i: nat, f: Frame)
    requires i < |g.path| && g.path[i] in g.s.kids && g.path[i] in g.s.attrs
  {
    var n := g.path[i];
    && n.NA_NodeType == (if i == 0 then DocumentType else ElementType) && n.NA_NodeName == f.name
    && AttrsMatch(g.s.attrs[n], f.attrs)
    && KidsMatch(g.trees, ClosedKids(g, i), f.children)
    && (i + 1 < |g.path| ==> g.s.kids[n] != [] && g.s.kids[n][|g.s.kids[n]| - 1] == g.path[i + 1])
  }

  // The tree under construction stands for the stack of open elements: the path runs through
  // the last children, and each open node holds what its frame says.
  ghost predicate Built(g: Build, stack: seq<Frame>) {
    && Covers(g.nodes, g.s)
    && |g.path| == |stack| > 0
    && (forall i :: 0 <= i < |g.path| ==> g.path[i] in g.nodes && g.path[i] !in g.trees)
    && (forall i, j :: 0 <= i < j < |g.path| ==> g.path[i] != g.path[j])
    && (forall i {:trigger FrameMatches(g, i, stack[i])} :: 0 <= i < |g.path| ==> FrameMatches(g, i, stack[i]))
    && (forall n :: n in g.trees ==> n in g.nodes)
    && (forall n {:trigger NodeMatches(g, n)} :: n in g.trees ==> NodeMatches(g, n))
  }

  ghost function Innermost(g: Build): NodeAct
    requires g.path != []
  {
    g.path[|g.path| - 1]
  }

  // The first state: a document node without children.
  ghost function FreshBuild(root: NodeAct): Build {
    Build({root}, Shape(map[root := []], map[root := []], map[root := 0], 1), [root], map[])
  }

  lemma FreshIsBuilt(root: NodeAct)
    requires root.NA_NodeType == DocumentType && root.NA_NodeName == DOCUMENT_NAME
    ensures Built(FreshBuild(root), EMPTY_DOCUMENT)
  {
    assert FrameMatches(FreshBuild(root), 0, EMPTY_DOCUMENT[0]);
  }

  // The new node c is appended to the current node and stays open.
  ghost function Opening(g: Build, c: NodeAct): Build
    requires g.path != [] && Innermost(g) in g.s.kids && Innermost(g) in g.s.attrs
  {
    Build(g.nodes + {c}, Appended(g.s, Innermost(g), c), g.path + [c], g.trees)
  }

  // A text is appended, or an attribute.
  ghost function Adding(g: Build, c: NodeAct): Build
    requires g.path != [] && Innermost(g) in g.s.kids && Innermost(g) in g.s.attrs
  {
    Build(g.nodes + {c}, Appended(g.s, Innermost(g), c), g.path,
          if c.NA_NodeType == TextType then g.trees[c := Text(TextOf(c.NA_NodeValue))] else g.trees)
  }

  // The current node is closed.
  ghost function Closing(g: Build, f: Frame): Build
    requires g.path != []
  {
    Build(g.nodes, g.s, g.path[..|g.path| - 1], g.trees[Innermost(g) := Closed(f)])
  }

  // Closed nodes keep their trees when a node is appended to an open one.
  lemma NodesKept(g: Build, g': Build, stack: seq<Frame>, c: NodeAct, n: NodeAct)
    requires Built(g, stack) && c !in g.nodes && n in g.trees
    requires g'.s == Appended(g.s, Innermost(g), c)
    requires forall m :: m in g.trees ==> m in g'.trees && g'.trees[m] == g.trees[m]
    ensures n in g'.s.kids && n in g'.s.attrs && NodeMatches(g', n)
  {
    assert NodeMatches(g, n);
    assert n != Innermost(g) && n != c;
  }

  // So do the frames below the top.
  lemma FramesKept(g: Build, g': Build, stack: seq<Frame>, c: NodeAct, i: nat)
    requires Built(g, stack) && c !in g.nodes && i < |g.path| - 1
    requires g'.s == Appended(g.s, Innermost(g), c)
    requires |g'.path| >= |g.path| && g'.path[..|g.path|] == g.path
    requires forall m :: m in g.trees ==> m in g'.trees && g'.trees[m] == g.trees[m]
    ensures g'.path[i] in g'.s.kids && g'.path[i] in g'.s.attrs && FrameMatches(g', i, stack[i])
  {
    assert FrameMatches(g, i, stack[i]);
    assert g'.path[i] == g'.path[..|g.path|][i] && g'.path[i + 1] == g'.path[..|g.path|][i + 1];
    assert g'.path[i] != Innermost(g) && g'.path[i] != c;
    assert g'.s.kids[g'.path[i]] == g.s.kids[g.path[i]];
    assert ClosedKids(g', i) == ClosedKids(g, i);
  }

  // What appending c below the innermost open node leaves as it was.
  ghost predicate Grows(g: Build, g': Build, stack: seq<Frame>, stack': seq<Frame>, c: NodeAct) {
    && g.path != [] && Innermost(g) in g.s.kids && Innermost(g) in g.s.attrs
    && c !in g.nodes && g'.nodes == g.nodes + {c} && g'.s == Appended(g.s, Innermost(g), c)
    && |stack'| == |g'.path| >= |g.path| == |stack| && (g'.path == g.path || g'.path == g.path + [c])
    && stack'[..|stack| - 1] == stack[..|stack| - 1]
    && (forall m :: m in g.trees ==> m in g'.trees && g'.trees[m] == g.trees[m])
    && (forall m :: m in g'.trees ==> m in g.trees || (m == c && c !in g'.path))
  }

  lemma TreesGrow(g: Build, g': Build, stack: seq<Frame>, stack': seq<Frame>, c: NodeAct)
    requires Built(g, stack) && Grows(g, g', stack, stack', c) && Covers(g'.nodes, g'.s)
    requires c in g'.trees ==> NodeMatches(g', c)
    ensures forall n :: n in g'.trees ==> n in g'.nodes
    ensures forall n {:trigger NodeMatches(g', n)} :: n in g'.trees ==> NodeMatches(g', n)
  {
    TreesInside(g, stack);
    hide NodeMatches, Appended, Built;
    forall n | n in g'.trees ensures NodeMatches(g', n) {
      if n != c {
        NodesKept(g, g', stack, c, n);
      }
    }
  }

  lemma PathGrows(g: Build, g': Build, stack: seq<Frame>, stack': seq<Frame>, c: NodeAct)
    requires Built(g, stack) && Grows(g, g', stack, stack', c)
    ensures forall i :: 0 <= i < |g'.path| ==> g'.path[i] in g'.nodes && g'.path[i] !in g'.trees
    ensures forall i, j :: 0 <= i < j < |g'.path| ==> g'.path[i] != g'.path[j]
  {
    TreesInside(g, stack);
    hide NodeMatches, FrameMatches, Appended;
    assert forall i :: 0 <= i < |g.path| ==> g'.path[i] == g.path[i];
  }

  lemma FramesGrow(g: Build, g': Build, stack: seq<Frame>, stack': seq<Frame>, c: NodeAct)
    requires Built(g, stack) && Grows(g, g', stack, stack', c) && Covers(g'.nodes, g'.s)
    requires forall i :: 0 <= i < |g'.path| ==> g'.path[i] in g'.nodes
    requires forall i {:trigger FrameMatches(g', i, stack'[i])} :: |g.path| - 1 <= i < |g'.path| ==>
      FrameMatches(g', i, stack'[i])
    ensures forall i {:trigger FrameMatches(g', i, stack'[i])} :: 0 <= i < |g'.path| ==> FrameMatches(g', i, stack'[i])
  {
    hide Built, FrameMatches, Appended;
    forall i | 0 <= i < |g'.path| ensures FrameMatches(g', i, stack'[i]) {
      if i < |g.path| - 1 {
        assert stack'[i] == stack'[..|stack| - 1][i] == stack[..|stack| - 1][i] == stack[i];
        FramesKept(g, g', stack, c, i);
      }
    }
  }

  lemma CoversMore(nodes: set<NodeAct>, s: Shape, n: NodeAct, c: NodeAct)
    requires Covers(nodes, s) && n in nodes
    ensures Covers(nodes + {c}, Appended(s, n, c))
  {
  }

  // Built for a grown tree, part by part.
  lemma BuiltFrom(g: Build, g': Build, stack: seq<Frame>, stack': seq<Frame>, c: NodeAct)
    requires Built(g, stack) && Grows(g, g', stack, stack', c) && Covers(g'.nodes, g'.s)
    requires c in g'.trees ==> NodeMatches(g', c)
    requires forall i :: |g.path| - 1 <= i < |g'.path| ==> g'.path[i] in g'.nodes
    requires forall i {:trigger FrameMatches(g', i, stack'[i])} :: |g.path| - 1 <= i < |g'.path| ==>
      FrameMatches(g', i, stack'[i])
    ensures Built(g', stack')
  {
    hide NodeMatches, FrameMatches, Appended;
    PathGrows(g, g', stack, stack', c);
    TreesGrow(g, g', stack, stack', c);
    FramesGrow(g, g', stack, stack', c);
    hide Covers;
  }

  lemma PathFacts(g: Build, stack: seq<Frame>)
    requires Built(g, stack)
    ensures |g.path| == |stack| > 0 && Innermost(g) in g.nodes && Innermost(g) in g.s.kids && Innermost(g) in g.s.attrs
    ensures Covers(g.nodes, g.s) && FrameMatches(g, |g.path| - 1, stack[|g.path| - 1])
  {
    assert FrameMatches(g, |g.path| - 1, stack[|g.path| - 1]);
  }

  lemma OpenElement(g: Build, stack: seq<Frame>, c: NodeAct)
    requires Built(g, stack) && c !in g.nodes && c.NA_NodeType == ElementType
    ensures Built(Opening(g, c), stack + [Frame(c.NA_NodeName, [], [])])
  {
    PathFacts(g, stack);
    hide Built;
    var g', stack' := Opening(g, c), stack + [Frame(c.NA_NodeName, [], [])];
    var top := |g.path| - 1;
    forall i | top <= i < |g'.path| ensures FrameMatches(g', i, stack'[i]) {
      if i == top {
        var kids := g.s.kids[Innermost(g)];
        assert g'.s.kids[g'.path[i]] == kids + [c];
        assert ClosedKids(g', i) == (kids + [c])[..|kids + [c]| - 1] == kids;
      } else {
        assert g'.path[i] == c && g'.s.kids[c] == [] && g'.s.attrs[c] == [];
      }
    }
    TreesInside(g, stack);
    CoversMore(g.nodes, g.s, Innermost(g), c);
    hide FrameMatches, NodeMatches, Appended;
    BuiltFrom(g, g', stack, stack', c);
  }

  lemma TreesInside(g: Build, stack: seq<Frame>)
    requires Built(g, stack)
    ensures (forall n :: n in g.trees ==> n in g.nodes) && forall i :: 0 <= i < |g.path| ==> g.path[i] in g.nodes
  {
  }

  lemma AddText(g: Build, stack: seq<Frame>, c: NodeAct)
    requires Built(g, stack) && c !in g.nodes && c.NA_NodeType == TextType
    ensures Built(Adding(g, c), AddChild(stack, Text(TextOf(c.NA_NodeValue))))
  {
    PathFacts(g, stack);
    TreesInside(g, stack);
    hide Built;
    var g', stack' := Adding(g, c), AddChild(stack, Text(TextOf(c.NA_NodeValue)));
    var top := |g.path| - 1;
    assert ClosedKids(g', top) == ClosedKids(g, top) + [c];
    assert NodeMatches(g', c);
    assert FrameMatches(g', top, stack'[top]);
    CoversMore(g.nodes, g.s, Innermost(g), c);
    hide FrameMatches, NodeMatches, Appended;
    BuiltFrom(g, g', stack, stack', c);
  }

  lemma AddAttribute(g: Build, stack: seq<Frame>, c: NodeAct)
    requires Built(g, stack) && c !in g.nodes && c.NA_NodeType == AttributeType
    ensures Built(Adding(g, c), AddAttr(stack, Attribute(c.NA_NodeName, TextOf(c.NA_NodeValue))))
  {
    PathFacts(g, stack);
    TreesInside(g, stack);
    hide Built;
    var g', stack' := Adding(g, c), AddAttr(stack, Attribute(c.NA_NodeName, TextOf(c.NA_NodeValue)));
    var top := |g.path| - 1;
    assert ClosedKids(g', top) == ClosedKids(g, top);
    assert FrameMatches(g', top, stack'[top]);
    CoversMore(g.nodes, g.s, Innermost(g), c);
    hide FrameMatches, NodeMatches, Appended;
    BuiltFrom(g, g', stack, stack', c);
  }

  // An end tag that names the innermost open element closes it, and its parent is current.
  lemma CloseElement(g: Build, stack: seq<Frame>)
    requires Built(g, stack) && |stack| > 1
    ensures Built(Closing(g, Top(stack)), Pop(stack))
  {
    hide Built;
    PathFacts(g, stack);
    ClosingTrees(g, stack);
    ClosingFrames(g, stack);
    ClosingPath(g, stack);
    hide NodeMatches, FrameMatches;
    BuiltParts(Closing(g, Top(stack)), Pop(stack));
  }

  lemma BuiltParts(g: Build, stack: seq<Frame>)
    requires Covers(g.nodes, g.s) && |g.path| == |stack| > 0
    requires forall i :: 0 <= i < |g.path| ==> g.path[i] in g.nodes && g.path[i] !in g.trees
    requires forall i, j :: 0 <= i < j < |g.path| ==> g.path[i] != g.path[j]
    requires forall i {:trigger FrameMatches(g, i, stack[i])} :: 0 <= i < |g.path| ==> FrameMatches(g, i, stack[i])
    requires forall n :: n in g.trees ==> n in g.nodes
    requires forall n {:trigger NodeMatches(g, n)} :: n in g.trees ==> NodeMatches(g, n)
    ensures Built(g, stack)
  {
    hide NodeMatches, FrameMatches, Covers;
  }

  lemma ClosingPath(g: Build, stack: seq<Frame>)
    requires Built(g, stack) && |stack| > 1
    ensures var g' := Closing(g, Top(stack));
      && |g'.path| == |Pop(stack)| > 0 && Covers(g'.nodes, g'.s)
      && (forall i :: 0 <= i < |g'.path| ==> g'.path[i] in g'.nodes && g'.path[i] !in g'.trees)
      && (forall i, j :: 0 <= i < j < |g'.path| ==> g'.path[i] != g'.path[j])
      && (forall n :: n in g'.trees ==> n in g'.nodes)
  {
    hide NodeMatches, FrameMatches;
  }

  lemma ClosingTrees(g: Build, stack: seq<Frame>)
    requires Built(g, stack) && |stack| > 1
    ensures var g' := Closing(g, Top(stack));
      forall n {:trigger NodeMatches(g', n)} :: n in g'.trees ==>
        n in g'.s.kids && n in g'.s.attrs && NodeMatches(g', n)
  {
    PathFacts(g, stack);
    var g', c := Closing(g, Top(stack)), Innermost(g);
    TreesInside(g, stack);
    assert c !in g.trees && ClosedKids(g, |g.path| - 1) == g.s.kids[c];
    forall n | n in g'.trees ensures n in g'.s.kids && n in g'.s.attrs && NodeMatches(g', n) {
      if n != c {
        hide FrameMatches;
        assert NodeMatches(g, n);
        hide Built;
      } else {
        hide Built;
      }
    }
  }

  lemma ClosingFrames(g: Build, stack: seq<Frame>)
    requires Built(g, stack) && |stack| > 1
    ensures var g', stack' := Closing(g, Top(stack)), Pop(stack);
      forall i {:trigger FrameMatches(g', i, stack'[i])} :: 0 <= i < |g'.path| ==>
        g'.path[i] in g'.s.kids && g'.path[i] in g'.s.attrs && FrameMatches(g', i, stack'[i])
  {
    var g', stack' := Closing(g, Top(stack)), Pop(stack);
    hide *;
    LengthFacts(g, stack);
    forall i | 0 <= i < |g'.path|
      ensures g'.path[i] in g'.s.kids && g'.path[i] in g'.s.attrs && FrameMatches(g', i, stack'[i])
    {
      if i < |g.path| - 2 {
        FrameStays(g, stack, i);
      } else {
        FrameGains(g, stack);
      }
    }
  }

  lemma LengthFacts(g: Build, stack: seq<Frame>)
    requires Built(g, stack) && |stack| > 1
    ensures |g.path| == |stack| && |Closing(g, Top(stack)).path| == |Pop(stack)| == |stack| - 1
  {
    hide FrameMatches, NodeMatches;
  }

  // The frames below keep their closed children.
  lemma FrameStays(g: Build, stack: seq<Frame>, i: nat)
    requires Built(g, stack) && i < |g.path| - 2
    ensures var g' := Closing(g, Top(stack));
      g'.path[i] in g'.s.kids && g'.path[i] in g'.s.attrs && FrameMatches(g', i, Pop(stack)[i])
  {
    var g' := Closing(g, Top(stack));
    TreesInside(g, stack);
    LengthFacts(g, stack);
    assert Innermost(g) !in g.trees && FrameMatches(g, i, stack[i]);
    hide Built, NodeMatches;
    assert ClosedKids(g', i) == ClosedKids(g, i);
  }

  // The parent's frame gains the element just closed.
  lemma FrameGains(g: Build, stack: seq<Frame>)
    requires Built(g, stack) && |stack| > 1
    ensures var g', i := Closing(g, Top(stack)), |stack| - 2;
      |g.path| == |stack| && g'.path[i] in g'.s.kids && g'.path[i] in g'.s.attrs && FrameMatches(g', i, Pop(stack)[i])
  {
    var g', i := Closing(g, Top(stack)), |stack| - 2;
    TreesInside(g, stack);
    LengthFacts(g, stack);
    assert Innermost(g) !in g.trees && FrameMatches(g, i, stack[i]);
    hide Built, NodeMatches;
    var kids := g.s.kids[g.path[i]];
    assert kids == kids[..|kids| - 1] + [Innermost(g)];
    assert ClosedKids(g', i) == ClosedKids(g, i) + [Innermost(g)];
  }
}
