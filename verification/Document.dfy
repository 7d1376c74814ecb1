// Document::ReadDocumentFileOrBuffer (src/upnpdom/Document.cpp:109-245): the parser's nodes
// are appended below CurrentNodePtr, which moves down at start tags and up at end tags.
module Document {
  import opened Bytes
  import opened Escape
  import opened Lexer
  import opened Reader
  import opened Parser
  import opened Tree
  import opened Builder
  import opened Dom
  import opened DocumentTree
  import opened EndTags
  import opened Teardown
  import opened TeardownShape

  // Undefined stands for what C leaves open.
  datatype Status = Ok | FatalError | CutOff | Undefined

  // The status that goes with the outcome of the specification.
  function StatusOf(p: Parse): Status
    requires !p.Lost?
  {
    match p
    case Done(_) => Ok
    case Failed => FatalError
    case Cut => CutOff
    case Faulted => Undefined
  }

  // The stack once a node of any kind but a document is appended to the current one.
  ghost function AfterNode(stack: seq<Frame>, c: NodeAct): (r: seq<Frame>)
    requires stack != []
    ensures r != []
  {
    match c.NA_NodeType
    case ElementType => stack + [Frame(c.NA_NodeName, [], [])]
    case TextType => AddChild(stack, Text(TextOf(c.NA_NodeValue)))
    case AttributeType => AddAttr(stack, Attribute(c.NA_NodeName, TextOf(c.NA_NodeValue)))
    case DocumentType => stack
  }

  // The links h stand for the stack of open elements below root, and cur is at its top.
  ghost predicate Stands(g: Build, h: Heap, stack: seq<Frame>, cur: NodeAct, root: NodeAct) {
    && h.Keys == g.nodes && Linked(h, g.s) && Built(g, stack)
    && cur == Innermost(g) && g.path[0] == root && h[root].parent == null
  }

  // The tree with c below the current node, which an element replaces as the current node.
  ghost function Grown(g: Build, c: NodeAct): Build
    requires g.path != [] && Innermost(g) in g.s.kids && Innermost(g) in g.s.attrs
  {
    if c.NA_NodeType == ElementType then Opening(g, c) else Adding(g, c)
  }

  lemma GrownIsBuilt(g: Build, stack: seq<Frame>, c: NodeAct)
    requires Built(g, stack) && c !in g.nodes && c.NA_NodeType != DocumentType
    ensures Built(Grown(g, c), AfterNode(stack, c))
    ensures Grown(g, c).nodes == g.nodes + {c} && Grown(g, c).s == Appended(g.s, Innermost(g), c)
    ensures Grown(g, c).path != [] && Grown(g, c).path[0] == g.path[0]
    ensures Innermost(Grown(g, c)) == if c.NA_NodeType == ElementType then c else Innermost(g)
  {
    match c.NA_NodeType
    case ElementType => OpenElement(g, stack, c);
    case TextType => AddText(g, stack, c);
    case AttributeType => AddAttribute(g, stack, c);
  }

  // What holds of the current node.
  lemma CurrentFacts(g: Build, h: Heap, stack: seq<Frame>, cur: NodeAct, root: NodeAct)
    requires stack != [] && Stands(g, h, stack, cur, root)
    ensures h.Keys == g.nodes && Linked(h, g.s) && cur in g.nodes && root in g.nodes
    ensures g.path != [] && cur == Innermost(g) && cur in g.s.kids && cur in g.s.attrs
    ensures cur.NA_NodeType == DocumentType || cur.NA_NodeType == ElementType
    ensures cur.NA_NodeName == Top(stack).name
  {
    assert FrameMatches(g, |g.path| - 1, stack[|g.path| - 1]);
  }

  // The parent of the current node is the open element around it.
  lemma ParentIsOpen(g: Build, h: Heap, stack: seq<Frame>, cur: NodeAct, root: NodeAct)
    requires stack != [] && Stands(g, h, stack, cur, root)
    ensures cur in h && |g.path| == |stack|
    ensures h[cur].parent == if |stack| > 1 then g.path[|g.path| - 2] else null
  {
    if |stack| > 1 {
      var i := |g.path| - 2;
      assert FrameMatches(g, i, stack[i]);
      ListFacts(h, g.s, g.path[i], false);
    }
  }

  lemma GrownStands(g: Build, h: Heap, stack: seq<Frame>, cur: NodeAct, root: NodeAct, c: NodeAct)
    requires stack != [] && Stands(g, h, stack, cur, root) && c !in g.nodes && c.NA_NodeType != DocumentType
    requires cur in h && g.path != [] && Innermost(g) in g.s.kids && Innermost(g) in g.s.attrs
    ensures Stands(Grown(g, c), Link(h, cur, c), AfterNode(stack, c),
                   if c.NA_NodeType == ElementType then c else cur, root)
    ensures Grown(g, c).nodes == g.nodes + {c}
    ensures c.NA_NodeType != AttributeType ==> Link(h, cur, c)[cur].last == c
  {
    CurrentFacts(g, h, stack, cur, root);
    GrownIsBuilt(g, stack, c);
    LinkedLink(h, g.s, cur, c);
    EntryFacts(h, cur, c);
  }

  // Closing the innermost element moves to its parent.
  lemma ClosingStands(g: Build, h: Heap, stack: seq<Frame>, cur: NodeAct, root: NodeAct)
    requires |stack| > 1 && Stands(g, h, stack, cur, root)
    ensures cur in h && g.path != []
    ensures h[cur].parent != null && Stands(Closing(g, Top(stack)), h, Pop(stack), h[cur].parent, root)
    ensures Closing(g, Top(stack)).nodes == g.nodes && Pop(stack) != []
  {
    ParentIsOpen(g, h, stack, cur, root);
    CloseElement(g, stack);
  }

  ghost predicate Owned(nodes: set<NodeAct>, root: NodeAct)
    reads nodes
  {
    forall n :: n in nodes ==> n.OwnerNode == root
  }

  lemma LastPointer(nodes: set<NodeAct>, h: Heap, n: NodeAct)
    requires Current(nodes, h) && n in nodes
    ensures n in h && n.LastChild == h[n].last
  {
  }

  lemma OwnersOf(nodes: set<NodeAct>, root: NodeAct)
    requires Owned(nodes, root)
    ensures forall n :: n in nodes ==> n.OwnerNode == root
  {
  }

  lemma StillOwned(nodes: set<NodeAct>, root: NodeAct, c: NodeAct)
    requires (forall n :: n in nodes ==> n.OwnerNode == root) && c.OwnerNode == root
    ensures Owned(nodes + {c}, root)
  {
  }

  class DocumentNode {
    const nact: NodeAct
    const memo: FindMemo
    var CurrentNodePtr: NodeAct?
    ghost var g: Build
    ghost var h: Heap

    // All links are consistent and stand for the stack of open elements, with CurrentNodePtr
    // at its top.
    ghost predicate Valid(stack: seq<Frame>)
      reads this, g.nodes, memo
    {
      && stack != [] && CurrentNodePtr != null && Stands(g, h, stack, CurrentNodePtr, nact)
      && Current(g.nodes, h) && Owned(g.nodes, nact) && !memo.found
    }

    lemma ValidParts(stack: seq<Frame>)
      requires Valid(stack)
      ensures stack != [] && CurrentNodePtr != null && Stands(g, h, stack, CurrentNodePtr, nact)
      ensures Dom.Current(g.nodes, h) && Owned(g.nodes, nact) && !memo.found
      ensures CurrentNodePtr in g.nodes && nact in g.nodes && g.path != [] && CurrentNodePtr == Innermost(g)
      ensures CurrentNodePtr in h && h[CurrentNodePtr].parent == CurrentNodePtr.ParentNode
      ensures CurrentNodePtr.NA_NodeName == Top(stack).name && CurrentNodePtr.OwnerNode == nact
    {
      CurrentFacts(g, h, stack, CurrentNodePtr, nact);
      PointersOf(g.nodes, h);
    }

    lemma PartsValid(stack: seq<Frame>)
      requires stack != [] && CurrentNodePtr != null && Stands(g, h, stack, CurrentNodePtr, nact)
      requires Dom.Current(g.nodes, h) && Owned(g.nodes, nact) && !memo.found
      ensures Valid(stack)
    {
    }

    constructor ()
      ensures Valid(EMPTY_DOCUMENT) && fresh(g.nodes) && fresh(memo)
    {
      var root := new NodeAct(DocumentType, DOCUMENT_NAME, None);
      var m := new FindMemo();
      nact := root;
      memo := m;
      CurrentNodePtr := root;
      g := FreshBuild(root);
      h := map[root := NO_LINKS];
      new;
      FreshIsBuilt(nact);
      FreshIsLinked(nact);
    }

    // A new node c is appended below the current one.
    method Append(c: NodeAct, ghost stack: seq<Frame>)
      requires Valid(stack) && c !in g.nodes && c.Pointers() == NO_LINKS && c.NA_NodeType != DocumentType
      modifies this`h, this`g, memo, c, g.nodes
      ensures Stands(g, h, AfterNode(stack, c), if c.NA_NodeType == ElementType then c else CurrentNodePtr, nact)
      ensures Dom.Current(g.nodes, h) && Owned(g.nodes, nact) && !memo.found && g.nodes == old(g.nodes) + {c}
      ensures CurrentNodePtr != null && CurrentNodePtr in g.nodes
      ensures c.NA_NodeType != AttributeType ==> CurrentNodePtr.LastChild == c
    {
      hide *;
      ValidParts(stack);
      CurrentFacts(g, h, stack, CurrentNodePtr, nact);
      GrownStands(g, h, stack, CurrentNodePtr, nact, c);
      ghost var before := h;
      Attach(c);
      g := Grown(g, c);
      if c.NA_NodeType != AttributeType {
        LastPointer(g.nodes, h, CurrentNodePtr);
      }
    }

    method Attach(c: NodeAct)
      requires CurrentNodePtr != null && CurrentNodePtr in g.nodes && nact in g.nodes && c !in g.nodes
      requires CurrentNodePtr.NA_NodeType == DocumentType || CurrentNodePtr.NA_NodeType == ElementType
      requires Dom.Current(g.nodes, h) && Linked(h, g.s) && Owned(g.nodes, nact)
      requires c.Pointers() == NO_LINKS && !memo.found && CurrentNodePtr in h
      modifies this`h, memo, c, g.nodes
      ensures h == Link(old(h), CurrentNodePtr, c) && Dom.Current(g.nodes + {c}, h)
      ensures Owned(g.nodes + {c}, nact) && !memo.found
    {
      hide *;
      OwnersOf(g.nodes, nact);
      CurrentNodePtr.AppendChild(c, nact, memo, g.nodes, h, g.s);
      StillOwned(g.nodes, nact, c);
      h := Link(h, CurrentNodePtr, c);
    }

    // The current element is closed and its parent becomes current.
    method Ascend(ghost stack: seq<Frame>)
      requires Valid(stack)
      modifies this`CurrentNodePtr, this`g
      ensures if |stack| == 1 then CurrentNodePtr == null else Valid(Pop(stack))
      ensures g.nodes == old(g.nodes)
    {
      hide *;
      ValidParts(stack);
      ParentIsOpen(g, h, stack, CurrentNodePtr, nact);
      if |stack| > 1 {
        ClosingStands(g, h, stack, CurrentNodePtr, nact);
      }
      CurrentNodePtr := CurrentNodePtr.ParentNode;
      if |stack| > 1 {
        g := Closing(g, Top(stack));
        PartsValid(Pop(stack));
      }
    }

    // A node that is no end tag.
    method Add(ev: Event, ghost stack: seq<Frame>)
      requires Valid(stack) && !ev.isEnd && Apply(stack, ev).Some?
      modifies this, memo, g.nodes
      ensures Valid(Apply(stack, ev).value) && fresh(g.nodes - old(g.nodes))
    {
      hide Valid, Dom.Current, Stands, Owned;
      ValidParts(stack);
      match ev.kind
      case ElementNode =>
        var c := new NodeAct(ElementType, ev.name, None);
        Append(c, stack);
        CurrentNodePtr := CurrentNodePtr.LastChild;
        PartsValid(AfterNode(stack, c));
      case TextNode =>
        var c := new NodeAct(TextType, ev.name, ev.value);
        Append(c, stack);
        PartsValid(AfterNode(stack, c));
      case AttributeNode =>
        var c := new NodeAct(AttributeType, ev.name, ev.value);
        Append(c, stack);
        PartsValid(AfterNode(stack, c));
      case InvalidNode =>
    }

    // One reported node.
    method HandleNode(ev: Event, ghost stack: seq<Frame>) returns (ok: bool)
      requires Valid(stack)
      modifies this, memo, g.nodes
      ensures ok <==> stack != [] && Apply(stack, ev).Some?
      ensures ok ==> if Apply(stack, ev).value == [] then CurrentNodePtr == null else Valid(Apply(stack, ev).value)
      ensures !ok ==> Valid(stack)
      ensures fresh(g.nodes - old(g.nodes))
    {
      hide Valid;
      ValidParts(stack);
      if !ev.isEnd {
        Add(ev, stack);
        return true;
      }
      if ev.name != CurrentNodePtr.NA_NodeName {
        return false;
      }
      Ascend(stack);
      return true;
    }

    // Reads a whole buffer into a new document: at most nodes calls of getNextNode with at
    // most fuel turns each. CurrentNodePtr is never null, and the links stand for the parse.
    // Where it ends before the text does, they stand for the elements that are open then. The
    // code leaves first uninitialised.
    method Read(xml: seq<byte>, first: Event, nodes: nat, fuel: nat)
      returns (status: Status, ghost result: Parse, ghost stack: seq<Frame>)
      requires Valid(EMPTY_DOCUMENT) && (EventOk(first) || BeginsWithTag(xml))
      modifies this, memo, g.nodes
      ensures result == ParseBuffer(xml, first, nodes, fuel) && !result.Lost? && status == StatusOf(result)
      ensures Valid(stack) && (result.Done? ==> stack == result.stack) && fresh(g.nodes - old(g.nodes))
    {
      hide Valid, NextNode, Apply, DocumentBelow, NotHash, ReportsWell, EventOk, BeginsWithTag;
      StaysOpen(xml, first, nodes, fuel);
      result, stack := ParseBuffer(xml, first, nodes, fuel), EMPTY_DOCUMENT;
      if xml == [] {
        return FatalError, result, stack;
      }
      var myparser := new XmlParser(xml, first);
      FirstStateBelow();
      FirstReport(xml, first, fuel);
      var left := nodes;
      while left > 0
        invariant Valid(stack) && DocumentBelow(stack) && stack != []
        invariant !myparser.inAttrib && ReportsWell(xml, myparser.State(), myparser.CurrentEvent(), fuel)
        invariant fresh(myparser) && fresh(g.nodes - old(g.nodes))
        invariant result == Run(xml, myparser.State(), myparser.CurrentEvent(), stack, left, fuel)
        invariant myparser.buff == xml
        decreases left
      {
        ghost var ps, ev := myparser.State(), myparser.CurrentEvent();
        var v, cut := myparser.GetNextNode(fuel);
        if v.Faulting? {
          return Undefined, result, stack;
        }
        if v.Failing? {
          return FatalError, result, stack;
        }
        if cut {
          return CutOff, result, stack;
        }
        ReportIs(xml, ps, ev, fuel);
        ghost var next := Apply(stack, myparser.CurrentEvent());
        var ok := HandleNode(myparser.CurrentEvent(), stack);
        if !ok {
          return FatalError, result, stack;
        }
        AppliedBelow(stack, myparser.CurrentEvent());
        BelowIsOpen(next.value);
        stack := next.value;
        if myparser.nodeType == InvalidNode {
          return Ok, result, stack;
        }
        myparser.ClearEvent();
        NextReport(xml, myparser.State(), fuel);
        left := left - 1;
      }
      return CutOff, result, stack;
    }
  }

  // ReadDocumentFileOrBuffer: after a fatal error everything below the document node is freed.
  method ReadDocument(xml: seq<byte>, first: Event, nodes: nat, fuel: nat)
    returns (status: Status, d: DocumentNode, log: FreeLog, ghost result: Parse)
    requires EventOk(first) || BeginsWithTag(xml)
    ensures result == ParseBuffer(xml, first, nodes, fuel) && !result.Lost? && status == StatusOf(result)
    ensures result.Done? ==> d.Valid(result.stack)
    ensures result.Failed? ==>
      && WellShaped(d.g.nodes, d.g.s) && d.nact in d.g.nodes && d.nact.FirstChild == null
      && log.freed == PostorderAll(TreeAt(d.g.nodes, d.g.s, d.nact).kids) && NoRepeats(log.freed)
      && d.nact !in log.freed
  {
    hide *;
    d := new DocumentNode();
    log := new FreeLog();
    ghost var stack;
    status, result, stack := d.Read(xml, first, nodes, fuel);
    d.ValidParts(stack);
    StatusIs(result);
    StandsParts(d.g, d.h, stack, d.CurrentNodePtr, d.nact);
    if status == FatalError {
      log := Delete(d.nact, d.g.nodes, d.h, d.g.s);
    }
  }

  lemma StatusIs(p: Parse)
    requires !p.Lost?
    ensures (StatusOf(p) == FatalError <==> p.Failed?) && (StatusOf(p) == Ok <==> p.Done?)
  {
  }

  lemma StandsParts(g: Build, h: Heap, stack: seq<Frame>, cur: NodeAct, root: NodeAct)
    requires Stands(g, h, stack, cur, root)
    ensures h.Keys == g.nodes && Linked(h, g.s)
  {
  }

  lemma FirstStateBelow()
    ensures NotHash(FIRST_STATE.lastElem) && DocumentBelow(EMPTY_DOCUMENT) && EventOk(NO_EVENT)
  {
  }

  lemma BelowIsOpen(stack: seq<Frame>)
    requires DocumentBelow(stack)
    ensures stack != []
  {
  }

  lemma FreshIsLinked(root: NodeAct)
    requires root.Pointers() == NO_LINKS && root.NA_NodeType == DocumentType
    ensures Dom.Current({root}, map[root := NO_LINKS]) && Linked(map[root := NO_LINKS], FreshBuild(root).s)
  {
    var h, s := map[root := NO_LINKS], FreshBuild(root).s;
    assert ShapeAt({root}, s, root) && NodeLinks(h, s, root);
    assert h.Keys == {root};
  }
}
