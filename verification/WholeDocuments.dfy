// Exactly which printed documents come back, among all with names where names are read and text
// where text is read: those whose attribute values and texts can all be read back. What has been
// built can only grow, so that a node that is not the document's keeps the document from coming back.
module WholeDocuments {
  import opened Bytes
  import opened Escape
  import opened Lexer
  import opened Reader
  import opened Tree
  import opened Tokens
  import opened Builder
  import opened RoundTrip
  import opened EndTags
  import opened Exactness
  import opened Termination

  // ---- what a stack can still become

  // An open element may still become t.
  predicate Matches(f: Frame, t: Node) {
    t.Element? && f.name == t.name && f.attrs <= t.attrs && f.children <= t.children
  }

  // The element of doc that the innermost open element has to become.
  function Target(stack: seq<Frame>, doc: Node): (r: Option<Node>)
    requires stack != []
    decreases |stack|, 0
  {
    if |stack| == 1 then Some(doc)
    else
      var rest := stack[..|stack| - 1];
      if Fits(rest, doc) then ChildAt(Target(rest, doc).value, |Top(rest).children|) else None
  }

  function ChildAt(t: Node, k: nat): (r: Option<Node>)
    requires t.Element?
  {
    if k < |t.children| then Some(t.children[k]) else None
  }

  // All that has been read stands in doc where it is read.
  predicate Fits(stack: seq<Frame>, doc: Node)
    requires stack != []
    decreases |stack|, 1
  {
    var t := Target(stack, doc);
    t.Some? && Matches(Top(stack), t.value)
  }

  // What fits with one more node has fitted before.
  lemma FitsBefore(stack: seq<Frame>, ev: Event, doc: Node)
    requires stack != [] && Apply(stack, ev).Some? && Apply(stack, ev).value != []
    requires Fits(Apply(stack, ev).value, doc)
    ensures Fits(stack, doc)
  {
    var next := Apply(stack, ev).value;
    if ev.isEnd {
      var rest := stack[..|stack| - 1];
      PopFits(rest, Top(stack), doc);
    } else if ev.kind == ElementNode {
      assert next[..|next| - 1] == stack;
    } else if ev.kind == TextNode || ev.kind == AttributeNode {
      assert next[..|next| - 1] == stack[..|stack| - 1];
    }
  }

  lemma PopFits(rest: seq<Frame>, f: Frame, doc: Node)
    requires rest != [] && Fits(AddChild(rest, Closed(f)), doc)
    ensures Fits(rest + [f], doc) && Fits(rest, doc)
    ensures Target(rest, doc).value.children[|Top(rest).children|..] != []
    ensures Target(rest, doc).value.children[|Top(rest).children|] == Closed(f)
  {
    var next := AddChild(rest, Closed(f));
    assert next[..|next| - 1] == rest[..|rest| - 1];
    assert (rest + [f])[..|rest|] == rest;
    var t := Target(rest, doc).value;
    assert Top(next).children == Top(rest).children + [Closed(f)];
    assert Top(next).children[|Top(rest).children|] == Closed(f);
  }

  // The outcome of a parse that gives doc.
  function Whole(doc: Node): Parse
    requires doc.Element?
  {
    Done([Frame(doc.name, doc.attrs, doc.children)])
  }

  // A parse that gives doc has fitted it all along.
  lemma {:induction false} RunFits(b: seq<byte>, ps: ParserState, ev: Event, stack: seq<Frame>, doc: Node, nodes: nat,
                                   fuel: nat)
    requires !ps.scan.inAttrib && stack != [] && doc.Element?
    requires Run(b, ps, ev, stack, nodes, fuel) == Whole(doc)
    ensures Fits(stack, doc)
    decreases nodes
  {
    hide NextNode, Apply, Fits;
    var o := NextNode(b, ps, ev, fuel);
    var next := Apply(stack, o.ev).value;
    if o.ev.kind == InvalidNode {
      LastFits(doc);
    } else {
      RunFits(b, o.ps, NO_EVENT, next, doc, nodes - 1, fuel);
    }
    FitsBefore(stack, o.ev, doc);
  }

  lemma LastFits(doc: Node)
    requires doc.Element?
    ensures Fits([Frame(doc.name, doc.attrs, doc.children)], doc)
  {
  }

  // So has its next node.
  lemma NextFits(b: seq<byte>, ps: ParserState, stack: seq<Frame>, doc: Node, nodes: nat, fuel: nat)
    requires !ps.scan.inAttrib && |stack| > 1 && doc.Element?
    requires Run(b, ps, NO_EVENT, stack, nodes, fuel) == Whole(doc)
    ensures var o := NextNode(b, ps, NO_EVENT, fuel);
      o.Return? && Apply(stack, o.ev).Some? && Apply(stack, o.ev).value != [] && Fits(Apply(stack, o.ev).value, doc)
    ensures NextNode(b, ps, NO_EVENT, fuel).ev.kind != InvalidNode
  {
    hide NextNode, Apply, Fits;
    var o := NextNode(b, ps, NO_EVENT, fuel);
    var next := Apply(stack, o.ev).value;
    EndIsElement(b, ps, NO_EVENT, fuel);
    if o.ev.kind == InvalidNode {
      InvalidKeeps(stack, o.ev);
    } else {
      RunFits(b, o.ps, NO_EVENT, next, doc, nodes - 1, fuel);
    }
  }

  lemma InvalidKeeps(stack: seq<Frame>, ev: Event)
    requires stack != [] && ev.kind == InvalidNode && !ev.isEnd
    ensures Apply(stack, ev) == Some(stack)
  {
  }

  lemma {:induction false} EndIsElement(b: seq<byte>, ps: ParserState, ev: Event, fuel: nat)
    requires !ps.scan.inAttrib && (ev.isEnd ==> ev.kind == ElementNode)
    ensures var o := NextNode(b, ps, ev, fuel); o.Return? && o.ev.isEnd ==> o.ev.kind == ElementNode
    decreases fuel
  {
    hide TokenAfterWhite, TagName, AttributeValue;
    if At(b, ps.scan.pos) != 0 && fuel > 0 {
      var r := NodeStep(b, ps, ev);
      if r.Continue? {
        EndIsElement(b, r.ps, r.ev, fuel - 1);
      }
    }
  }

  // The innermost open element has all attributes of doc's, and of its children only ts are missing.
  predicate Missing(stack: seq<Frame>, doc: Node, ts: seq<Node>)
    requires stack != []
  {
    && Fits(stack, doc)
    && var t := Target(stack, doc).value; t.children == Top(stack).children + ts && t.attrs == Top(stack).attrs
  }

  // The next element to open is the next one of doc.
  lemma NextTarget(stack: seq<Frame>, f: Frame, doc: Node, ts: seq<Node>)
    requires stack != [] && Missing(stack, doc, ts) && ts != []
    ensures Target(stack + [f], doc) == Some(ts[0])
    ensures (stack + [f])[..|stack|] == stack && Top(stack + [f]) == f
  {
    assert (stack + [f])[..|stack|] == stack;
  }

  lemma NextMissing(stack: seq<Frame>, doc: Node, ts: seq<Node>)
    requires stack != [] && Missing(stack, doc, ts) && ts != []
    ensures Missing(AddChildren(stack, [ts[0]]), doc, ts[1..])
  {
    var next := AddChildren(stack, [ts[0]]);
    assert next[..|next| - 1] == stack[..|stack| - 1];
    assert Top(stack).children + ts == (Top(stack).children + [ts[0]]) + ts[1..];
  }

  // ---- attributes

  // Inside a start tag before an attribute the call reports an attribute of that name, if any node.
  lemma AttrOnly(b: seq<byte>, ps: ParserState, q: nat, a: Attribute, fuel: nat)
    requires BeforeAttr(b, ps, q) && HasAt(b, q, PrintedAttr(a)) && AttrName(a.name) && fuel >= 1
    ensures !ps.scan.inAttrib
    ensures var o := NextNode(b, ps, NO_EVENT, fuel);
      o.Return? ==> o.ev.kind == AttributeNode && o.ev.name == a.name && o.ev.value.Some? && !o.ev.isEnd
  {
    hide *;
    BeforeParts(b, ps, q);
    AttrPlace(b, q, a);
    var x := ps.scan.(pos := q + 2);
    var z := x.(pos := q + 2 + |a.name|);
    AttrNameToken(b, x, a.name);
    TokenHere(b, ps.scan, q + 2);
    NotAtEnd(b, ps.scan.pos, q + 2);
    StepIs(b, ps, NO_EVENT, z, a.name);
    OnAttrName(b, ps, z, a.name, fuel);
  }

  lemma OnAttrName(b: seq<byte>, ps: ParserState, x: Scanner, tok: seq<byte>, fuel: nat)
    requires !ps.scan.inAttrib && !x.inAttrib && ps.attrFound && At(b, ps.scan.pos) != 0 && fuel >= 1
    requires tok != [] && tok != LESSTHAN && tok != GREATERTHAN && tok != ENDTAG && tok != COMPLETETAG
    requires NodeStep(b, ps, NO_EVENT) == OnToken(b, ps, NO_EVENT, x, tok)
    ensures var o := NextNode(b, ps, NO_EVENT, fuel);
      o.Return? ==> o.ev.kind == AttributeNode && o.ev.name == tok && o.ev.value.Some? && !o.ev.isEnd
  {
    hide NodeStep, AttributeValue;
  }

  // A value that is not readable is replaced.
  lemma BadValue(b: seq<byte>, ps: ParserState, q: nat, a: Attribute, stack: seq<Frame>, doc: Node, nodes: nat,
                 fuel: nat)
    requires BeforeAttr(b, ps, q) && HasAt(b, q, PrintedAttr(a)) && AttrName(a.name) && !ReadableValue(a.value)
    requires |stack| > 1 && doc.Element? && Fits(stack, doc) && fuel >= 1
    requires var t := Target(stack, doc).value; |Top(stack).attrs| < |t.attrs| && t.attrs[|Top(stack).attrs|] == a
    ensures !ps.scan.inAttrib && Run(b, ps, NO_EVENT, stack, nodes, fuel) != Whole(doc)
  {
    hide *;
    AttrOnly(b, ps, q, a, fuel);
    if Run(b, ps, NO_EVENT, stack, nodes, fuel) == Whole(doc) {
      NextFits(b, ps, stack, doc, nodes, fuel);
      AttributeComesBack(b, ps, q, a, fuel);
      OtherAttrMisfits(stack, NextNode(b, ps, NO_EVENT, fuel).ev, doc, a);
    }
  }

  lemma OtherAttrMisfits(stack: seq<Frame>, ev: Event, doc: Node, a: Attribute)
    requires stack != [] && Fits(stack, doc) && ev.kind == AttributeNode && !ev.isEnd
    requires ev != Event(AttributeNode, a.name, Some(a.value), false) && ev.name == a.name && ev.value.Some?
    requires var t := Target(stack, doc).value; |Top(stack).attrs| < |t.attrs| && t.attrs[|Top(stack).attrs|] == a
    requires Apply(stack, ev).Some? && Apply(stack, ev).value != []
    ensures !Fits(Apply(stack, ev).value, doc)
  {
    var next := Apply(stack, ev).value;
    assert next[..|next| - 1] == stack[..|stack| - 1];
    assert Top(next).attrs[|Top(stack).attrs|] == Attribute(ev.name, ev.value.value);
  }

  lemma StepRun(b: seq<byte>, ps: ParserState, stack: seq<Frame>, nodes: nat, fuel: nat)
    requires !ps.scan.inAttrib && stack != [] && Step(b, ps, stack, fuel).Some? && nodes > 0
    ensures var s := Step(b, ps, stack, fuel).value;
      Run(b, ps, NO_EVENT, stack, nodes, fuel) == Run(b, s.0, NO_EVENT, s.1, nodes - 1, fuel)
  {
    hide NextNode, Apply;
  }

  lemma {:induction false} BadAttrs(b: seq<byte>, ps: ParserState, q: nat, attrs: seq<Attribute>, stack: seq<Frame>,
                                    f: Frame, doc: Node, t: Node, nodes: nat, fuel: nat)
    requires BeforeAttr(b, ps, q) && HasAt(b, q, PrintedAttrs(attrs)) && NamedAttrs(attrs) && !ReadableAttrs(attrs)
    requires stack != [] && doc.Element? && t.Element? && fuel >= 1
    requires Target(stack + [f], doc) == Some(t) && f.name == t.name && t.attrs == f.attrs + attrs && f.children == []
    ensures !ps.scan.inAttrib && Run(b, ps, NO_EVENT, stack + [f], nodes, fuel) != Whole(doc)
    decreases |attrs|
  {
    hide NextNode, AttrName, ReadableValue, PrintedAttr, HasAt, Target;
    var a, rest := attrs[0], attrs[1..];
    HasAtSplit(b, q, PrintedAttr(a), PrintedAttrs(rest));
    if !ReadableValue(a.value) {
      assert Top(stack + [f]) == f;
      BadValue(b, ps, q, a, stack + [f], doc, nodes, fuel);
    } else if nodes > 0 {
      AttrNode(b, ps, q, a, fuel);
      var q' := q + |PrintedAttr(a)|;
      var ps1 := ps.(scan := ps.scan.(pos := q'), oneAttr := true);
      var f1 := f.(attrs := f.attrs + [a]);
      assert AddAttr(stack + [f], a) == stack + [f1];
      assert Step(b, ps, stack + [f], fuel) == Some((ps1, stack + [f1]));
      StepRun(b, ps, stack + [f], nodes, fuel);
      RestUnreadable(attrs);
      NextAttrSpaces(b, q', rest);
      SameTarget(stack, f, f1, doc);
      assert f.attrs + attrs == f1.attrs + rest;
      BadAttrs(b, ps1, q', rest, stack, f1, doc, t, nodes - 1, fuel);
    }
  }

  lemma RestUnreadable(attrs: seq<Attribute>)
    requires attrs != [] && NamedAttrs(attrs) && !ReadableAttrs(attrs) && ReadableValue(attrs[0].value)
    ensures attrs[1..] != [] && NamedAttrs(attrs[1..]) && !ReadableAttrs(attrs[1..])
  {
    hide AttrName, ReadableValue;
    assert attrs == [attrs[0]] + attrs[1..];
    forall i | 0 <= i < |attrs[1..]| ensures AttrName(attrs[1..][i].name) {
      assert attrs[1..][i] == attrs[i + 1];
    }
  }

  lemma SameTarget(stack: seq<Frame>, f: Frame, f1: Frame, doc: Node)
    requires stack != []
    ensures Target(stack + [f1], doc) == Target(stack + [f], doc)
  {
    assert (stack + [f1])[..|stack|] == stack && (stack + [f])[..|stack|] == stack;
  }

  // ---- texts

  lemma OtherNodeMisfits(stack: seq<Frame>, ev: Event, doc: Node, ts: seq<Node>)
    requires stack != [] && Missing(stack, doc, ts) && ts != [] && ts[0].Text? && Top(stack).children == []
    requires |stack| > 1 && ev.kind != InvalidNode && (ev.isEnd ==> ev.kind == ElementNode)
    requires !(ev.kind == TextNode && ev.value == Some(ts[0].value)) && (ev.kind == TextNode ==> ev.value.Some?)
    requires Apply(stack, ev).Some? && Apply(stack, ev).value != []
    ensures !Fits(Apply(stack, ev).value, doc)
  {
    var next, rest := Apply(stack, ev).value, stack[..|stack| - 1];
    if ev.isEnd {
      assert stack == rest + [Top(stack)];
      PoppedTarget(rest, Top(stack), doc);
    } else {
      assert next[..|next| - 1] == if ev.kind == ElementNode then stack else rest;
      assert ev.kind == TextNode ==> Top(next).children[0] == Text(ev.value.value);
    }
  }

  lemma PoppedTarget(rest: seq<Frame>, f: Frame, doc: Node)
    requires rest != []
    ensures Fits(AddChild(rest, Closed(f)), doc) ==> Target(rest + [f], doc) == Some(Closed(f))
  {
    if Fits(AddChild(rest, Closed(f)), doc) {
      PopFits(rest, f, doc);
      assert (rest + [f])[..|rest|] == rest;
    }
  }

  // Behind the > of a start tag, and before it in the call that forgets it.
  lemma FromTagEnd(b: seq<byte>, ps: ParserState, p: nat, fuel: nat)
    requires Before(b, ps, p) && fuel >= 2
    ensures !ps.scan.inAttrib && !Settled(ps).scan.inAttrib
    ensures NextNode(b, ps, NO_EVENT, fuel) ==
      NextNode(b, Settled(ps), NO_EVENT, if ps.oneAttr then fuel - 1 else fuel)
  {
    hide NextNode;
    if ps.oneAttr {
      TagEndIsForgotten(b, ps, fuel - 1);
    }
  }

  // A text that is not readable is replaced.
  lemma BadText(b: seq<byte>, ps: ParserState, p: nat, ts: seq<Node>, closing: bool, name: seq<byte>, stack: seq<Frame>,
                doc: Node, nodes: nat, fuel: nat)
    requires Before(b, ps, p) && p > 0 && |stack| > 1 && doc.Element? && fuel >= 2
    requires ts != [] && ts[0].Text? && !ReadableText(ts[0].value) && Missing(stack, doc, ts)
    requires Top(stack).children == [] && TextBefore(b, Settled(ps), p - 1, ts[0].value, closing, name)
    ensures !ps.scan.inAttrib && Run(b, ps, NO_EVENT, stack, nodes, fuel) != Whole(doc)
  {
    hide *;
    BeforeIsOutside(b, ps, p);
    if Run(b, ps, NO_EVENT, stack, nodes, fuel) == Whole(doc) {
      NextFits(b, ps, stack, doc, nodes, fuel);
      var ev := NextNode(b, ps, NO_EVENT, fuel).ev;
      FromTagEnd(b, ps, p, fuel);
      var turns := if ps.oneAttr then fuel - 1 else fuel;
      TextComesBack(b, Settled(ps), p - 1, ts[0].value, closing, name, turns);
      NoEventParts();
      EndIsElement(b, ps, NO_EVENT, fuel);
      if ev.kind == TextNode {
        TextIsXmlText(b, ps, NO_EVENT, fuel);
      }
      OtherNodeMisfits(stack, ev, doc, ts);
    }
  }

  lemma NoEventParts()
    ensures NO_EVENT.kind == InvalidNode && !NO_EVENT.isEnd
  {
  }

  // ---- elements

  // A printed element begins with its tag.
  lemma PrintedTagAt(b: seq<byte>, p: nat, t: Node)
    requires t.Element? && IsName(t.name) && HasAt(b, p, Printed(t))
    ensures TagAt(b, p, false, t.name)
  {
    hide HasAt, IsName, PrintedAttrs, CloseOf;
    Layout(b, p, t);
    var name, rest := t.name, PrintedAttrs(t.attrs) + CloseOf(t.children);
    assert PrintedTag(name, t.attrs) + CloseOf(t.children) == (LESSTHAN + name) + rest;
    HasAtSplit(b, p, LESSTHAN + name, rest);
    AfterName(t.attrs, t.children);
    HasAtHead(b, p + 1 + |name|, rest);
    StartLayout(b, p, name);
  }

  // And a printed end tag is one.
  lemma EndTagAt(b: seq<byte>, p: nat, name: seq<byte>)
    requires IsName(name) && HasAt(b, p, PrintedEnd(name))
    ensures TagAt(b, p, true, name)
  {
    hide IsName, HasAt;
    EndLayout(b, p, name);
  }

  ghost predicate AllReadable(ts: seq<Node>) {
    forall i :: 0 <= i < |ts| ==> Readable(ts[i])
  }

  ghost predicate ShapedChildren(ts: seq<Node>) {
    (forall i :: 0 <= i < |ts| ==> Shaped(ts[i])) && (forall i :: 0 < i < |ts| ==> ts[i].Element?)
  }

  lemma ShapedParts(t: Node)
    requires t.Element? && Shaped(t)
    ensures IsName(t.name) && NamedAttrs(t.attrs) && ShapedChildren(t.children)
    ensures ReadableAttrs(t.attrs) && AllReadable(t.children) ==> Readable(t)
    ensures !ReadableAttrs(t.attrs) ==> t.attrs != []
    ensures !AllReadable(t.children) ==> t.children != []
  {
    hide IsName, AttrName, ReadableValue;
  }

  lemma RestShaped(ts: seq<Node>)
    requires ts != [] && ShapedChildren(ts)
    ensures ShapedChildren(ts[1..]) && Shaped(ts[0]) && (ts[1..] != [] ==> ts[1..][0].Element?)
    ensures AllReadable(ts) <==> Readable(ts[0]) && AllReadable(ts[1..])
    ensures ts == [ts[0]] + ts[1..]
  {
    hide Shaped, Readable;
    var rest := ts[1..];
    forall i | 0 <= i < |rest| ensures Shaped(rest[i]) && rest[i].Element? {
      assert rest[i] == ts[i + 1];
    }
    if Readable(ts[0]) && AllReadable(rest) {
      forall i | 0 <= i < |ts| ensures Readable(ts[i]) {
        assert i > 0 ==> ts[i] == rest[i - 1];
      }
    }
    if AllReadable(ts) {
      forall i | 0 <= i < |rest| ensures Readable(rest[i]) {
        assert rest[i] == ts[i + 1];
      }
    }
  }

  // The element just opened lacks all its children.
  lemma OpenMissing(stack: seq<Frame>, f: Frame, doc: Node, ts: seq<Node>)
    requires stack != [] && Missing(stack, doc, ts) && ts != [] && ts[0].Element?
    requires f == Frame(ts[0].name, ts[0].attrs, [])
    ensures Missing(stack + [f], doc, ts[0].children)
  {
    hide Target;
    NextTarget(stack, f, doc, ts);
    assert [] + ts[0].children == ts[0].children;
  }

  lemma FirstAttrAt(b: seq<byte>, p: nat, name: seq<byte>, attrs: seq<Attribute>, close: seq<byte>, ps: ParserState)
    requires HasAt(b, p, PrintedTag(name, attrs) + close) && attrs != []
    requires TagOpen(b, ps, p + 1 + |name|, name, attrs, close)
    ensures BeforeAttr(b, ps, p + 1 + |name|) && HasAt(b, p + 1 + |name|, PrintedAttrs(attrs))
  {
    hide HasAt, PrintedAttrs, BeforeAttr;
    assert PrintedTag(name, attrs) + close == (LESSTHAN + name) + (PrintedAttrs(attrs) + close);
    HasAtSplit(b, p, LESSTHAN + name, PrintedAttrs(attrs) + close);
    HasAtSplit(b, p + 1 + |name|, PrintedAttrs(attrs), close);
  }

  lemma CloseIs(ts: seq<Node>)
    ensures CloseOf(ts) == EMPTY_END || CloseOf(ts) == GREATERTHAN || CloseOf(ts) == TAG_END
    ensures ts != [] ==> CloseOf(ts) != EMPTY_END
  {
  }

  // An element that is not readable does not come back.
  lemma {:induction false} BadElement(b: seq<byte>, ps: ParserState, p: nat, t: Node, ts: seq<Node>, stack: seq<Frame>,
                                      doc: Node, nodes: nat, fuel: nat)
    requires Before(b, ps, p) && stack != [] && doc.Element? && fuel >= 3 && nodes >= |Printed(t)|
    requires t.Element? && Shaped(t) && !Readable(t) && HasAt(b, p, Printed(t))
    requires ts != [] && ts[0] == t && Missing(stack, doc, ts)
    ensures !ps.scan.inAttrib && Run(b, ps, NO_EVENT, stack, nodes, fuel) != Whole(doc)
    decreases t, 0
  {
    hide *;
    var Element(name, attrs, cs) := t;
    var g, close := p + |PrintedTag(name, attrs)|, CloseOf(cs);
    ShapedParts(t);
    Layout(b, p, t);
    CloseIs(cs);
    BeforeIsOutside(b, ps, p);
    AttrsAreLong(name, attrs);
    if !ReadableAttrs(attrs) {
      var f := Frame(name, [], []);
      var ps1 := StartStep(b, ps, p, name, attrs, close, stack, fuel);
      StepRun(b, ps, stack, nodes, fuel);
      FirstAttrAt(b, p, name, attrs, close, ps1);
      NextTarget(stack, f, doc, ts);
      NothingBefore(attrs);
      BadAttrs(b, ps1, p + 1 + |name|, attrs, stack, f, doc, t, nodes - 1, fuel);
    } else {
      var n, f := 1 + |attrs|, Frame(name, attrs, []);
      var ps2 := ParseTag(b, ps, p, name, attrs, close, stack, fuel);
      StepsRun(b, ps, stack, n, nodes - n, fuel);
      BeforeChildren(b, ps2, g, cs);
      OpenMissing(stack, f, doc, ts);
      NextTarget(stack, f, doc, ts);
      OpenTextFits(b, g + |close| + |PrintedAll(cs)|, stack, f);
      BadChildren(b, ps2, g + |close|, cs, stack + [f], doc, nodes - n, fuel);
    }
  }

  lemma NothingBefore(attrs: seq<Attribute>)
    ensures [] + attrs == attrs
  {
  }

  // Nor do children of which one is not readable.
  lemma {:induction false} BadChildren(b: seq<byte>, ps: ParserState, p: nat, ts: seq<Node>, stack: seq<Frame>,
                                       doc: Node, nodes: nat, fuel: nat)
    requires Before(b, ps, p) && stack != [] && doc.Element? && fuel >= 3 && nodes >= |PrintedAll(ts)|
    requires ShapedChildren(ts) && !AllReadable(ts) && TextPlace(ps, ts, p) && HasAt(b, p, PrintedAll(ts))
    requires Missing(stack, doc, ts) && (ts != [] && ts[0].Text? ==> TextFits(b, p + |PrintedAll(ts)|, stack))
    ensures !ps.scan.inAttrib && Run(b, ps, NO_EVENT, stack, nodes, fuel) != Whole(doc)
    decreases ts, 1
  {
    hide *;
    NotEmpty(ts);
    var t, rest := ts[0], ts[1..];
    var q := p + |Printed(t)|;
    BeforeIsOutside(b, ps, p);
    RestShaped(ts);
    AllParts(b, p, ts);
    if Readable(t) {
      var n, ps1;
      if t.Text? {
        var closing, name := TagBehind(b, ps, p, ts, stack);
        TextIsReadable(t);
        BeforeText(b, Settled(ps), p - 1, t.value, closing, name);
        ps1 := ParseText(b, ps, p, t.value, stack, fuel);
        OneStep(b, ps, ps1, stack, AddChildren(stack, [t]), fuel);
        TextIsLong(t.value);
        n := 1;
      } else {
        n, ps1 := ParseElement(b, ps, p, t, stack, fuel);
      }
      var next := AddChildren(stack, [t]);
      StepsRun(b, ps, stack, n, nodes - n, fuel);
      ReadyIsBefore(b, ps1, q);
      NextMissing(stack, doc, ts);
      NoTextPlace(ps1, rest, q);
      BadChildren(b, ps1, q, rest, next, doc, nodes - n, fuel);
    } else if t.Text? {
      var closing, name := TagBehind(b, ps, p, ts, stack);
      NotReadableText(t);
      BadText(b, ps, p, ts, closing, name, stack, doc, nodes, fuel);
    } else {
      BadElement(b, ps, p, t, ts, stack, doc, nodes, fuel);
    }
  }

  // A text comes first in its element, whose end tag stands at e.
  ghost predicate TextFits(b: seq<byte>, e: nat, stack: seq<Frame>) {
    && |stack| > 1 && Top(stack).children == [] && IsName(Top(stack).name) && HasAt(b, e, PrintedEnd(Top(stack).name))
  }

  lemma OpenTextFits(b: seq<byte>, e: nat, stack: seq<Frame>, f: Frame)
    requires stack != [] && f.children == [] && IsName(f.name) && HasAt(b, e, PrintedEnd(f.name))
    ensures TextFits(b, e, stack + [f])
  {
    hide IsName, HasAt, PrintedEnd;
    assert Top(stack + [f]) == f;
  }

  lemma NotEmpty(ts: seq<Node>)
    requires !AllReadable(ts)
    ensures ts != []
  {
    hide Readable;
  }

  lemma NotReadableText(t: Node)
    requires t.Text? && !Readable(t)
    ensures !ReadableText(t.value)
  {
    hide ReadableText;
  }

  lemma OneStep(b: seq<byte>, ps: ParserState, ps1: ParserState, stack: seq<Frame>, next: seq<Frame>, fuel: nat)
    requires !ps.scan.inAttrib && stack != [] && Step(b, ps, stack, fuel) == Some((ps1, next))
    ensures Steps(b, ps, stack, 1, fuel) == Some((ps1, next))
  {
    hide Step;
    assert Steps(b, ps1, next, 0, fuel) == Some((ps1, next));
  }

  lemma NoTextPlace(ps: ParserState, ts: seq<Node>, p: nat)
    requires ts != [] ==> ts[0].Element?
    ensures TextPlace(ps, ts, p)
  {
  }

  // What stands behind a text: the tag of the next child, or the end tag.
  lemma TagBehind(b: seq<byte>, ps: ParserState, p: nat, ts: seq<Node>, stack: seq<Frame>)
    returns (closing: bool, name: seq<byte>)
    requires ts != [] && ts[0].Text? && ShapedChildren(ts) && HasAt(b, p, PrintedAll(ts)) && TextPlace(ps, ts, p)
    requires stack != [] && TextFits(b, p + |PrintedAll(ts)|, stack)
    ensures p > 0 && Settled(ps) == Opened(ps, p - 1) && TextBefore(b, Settled(ps), p - 1, ts[0].value, closing, name)
    ensures |stack| > 1 && Top(stack).children == []
  {
    hide HasAt, TagAt, Escaped, IsName, Shaped, PrintedEnd, PrintedTag;
    AllParts(b, p, ts);
    var q := p + |Printed(ts[0])|;
    if |ts| == 1 {
      closing, name := true, Top(stack).name;
      assert PrintedAll(ts[1..]) == [];
      EndTagAt(b, q, name);
    } else {
      closing, name := false, ts[1].name;
      RestShaped(ts);
      AllParts(b, q, ts[1..]);
      ShapedParts(ts[1]);
      PrintedTagAt(b, q, ts[1]);
    }
  }

  // ---- the whole document

  // A printed document with names where names are read and text where text is read comes back exactly
  // when every text and every value in it is readable, whatever bytes these are.
  lemma DocumentComesBack(doc: seq<Node>, ev: Event, nodes: nat, fuel: nat)
    requires doc != [] && forall i :: 0 <= i < |doc| ==> doc[i].Element? && Shaped(doc[i])
    requires nodes > |PrintedAll(doc)| && fuel >= 3
    ensures ParseBuffer(PrintedAll(doc), ev, nodes, fuel) == Done([Frame(DOCUMENT_NAME, [], doc)]) <==>
      forall i :: 0 <= i < |doc| ==> Readable(doc[i])
  {
    hide *;
    if AllReadable(doc) {
      ReadableOnes(doc);
      PrintParse(doc, ev, nodes, fuel);
    } else {
      SomeUnreadable(doc);
      DocumentLost(doc, ev, nodes, fuel);
    }
  }

  lemma ReadableOnes(doc: seq<Node>)
    requires AllReadable(doc)
    ensures forall i :: 0 <= i < |doc| ==> Readable(doc[i])
  {
    hide Readable;
  }

  lemma SomeUnreadable(doc: seq<Node>)
    requires !AllReadable(doc)
    ensures !forall i :: 0 <= i < |doc| ==> Readable(doc[i])
  {
    hide Readable;
  }

  // Within no bounds does it come back otherwise.
  lemma DocumentLost(doc: seq<Node>, ev: Event, nodes: nat, fuel: nat)
    requires !AllReadable(doc) && forall i :: 0 <= i < |doc| ==> doc[i].Element? && Shaped(doc[i])
    ensures ParseBuffer(PrintedAll(doc), ev, nodes, fuel) != Done([Frame(DOCUMENT_NAME, [], doc)])
  {
    hide *;
    var b := PrintedAll(doc);
    var more, turns := nodes + |b| + 1, fuel + 3;
    NotEmpty(doc);
    WholeBuffer(b);
    DocumentShape(b, doc);
    ShapedParts(doc[0]);
    AllParts(b, 0, doc);
    FirstCall(b, FIRST_STATE, ev, 0, doc[0], turns - 1);
    NonEmptyElement(doc[0]);
    FirstRun(b, ev, more, turns);
    BadChildren(b, FIRST_STATE, 0, doc, EMPTY_DOCUMENT, Element(DOCUMENT_NAME, [], doc), more, turns);
    WholeIs(doc);
    if ParseBuffer(b, ev, nodes, fuel) != Cut {
      BoundsDoNotMatter(b, ev, nodes, fuel, more, turns);
    }
  }

  lemma DocumentShape(b: seq<byte>, doc: seq<Node>)
    requires doc != [] && forall i :: 0 <= i < |doc| ==> doc[i].Element? && Shaped(doc[i])
    ensures Ready(b, FIRST_STATE, 0) && Before(b, FIRST_STATE, 0) && !FIRST_STATE.scan.inAttrib && EMPTY_DOCUMENT != []
    ensures ShapedChildren(doc) && TextPlace(FIRST_STATE, doc, 0) && doc[0].Element? && Shaped(doc[0])
    ensures Missing(EMPTY_DOCUMENT, Element(DOCUMENT_NAME, [], doc), doc)
  {
    hide Shaped;
    AllMissing(doc);
  }

  lemma AllMissing(doc: seq<Node>)
    ensures EMPTY_DOCUMENT != [] && Missing(EMPTY_DOCUMENT, Element(DOCUMENT_NAME, [], doc), doc)
  {
    var d := Element(DOCUMENT_NAME, [], doc);
    assert Target(EMPTY_DOCUMENT, d) == Some(d);
    assert Top(EMPTY_DOCUMENT) == Frame(DOCUMENT_NAME, [], []);
    assert [] + doc == doc;
  }

  lemma WholeIs(doc: seq<Node>)
    ensures Whole(Element(DOCUMENT_NAME, [], doc)) == Done([Frame(DOCUMENT_NAME, [], doc)])
  {
  }
}
