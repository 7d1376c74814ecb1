// Printing a document and parsing the text gives the document back.
module RoundTrip {
  import opened Bytes
  import opened Utf8
  import opened CharTables
  import opened Escape
  import opened Lexer
  import opened Reader
  import opened Tree
  import opened Tokens
  import opened Builder

  // The parser stands before p, with nothing but white space in between.
  ghost predicate Ready(b: seq<byte>, ps: ParserState, p: nat) {
    !ps.scan.inAttrib && !ps.oneAttr && Whites(b, ps.scan.pos, p)
  }

  // The parser has reported the last attribute of a start tag and stands at its >.
  ghost predicate AtTagEnd(b: seq<byte>, ps: ParserState) {
    !ps.scan.inAttrib && ps.oneAttr && !ps.scan.tagVal && At(b, ps.scan.pos) == GREATER
  }

  // The state once the > of a start tag at g is passed.
  function Opened(ps: ParserState, g: nat): ParserState {
    ParserState(Scanner(g + 1, true, Some(g), false), false, false, ps.lastElem)
  }

  lemma ReadyParts(b: seq<byte>, ps: ParserState, p: nat, g: nat)
    requires Ready(b, ps, p)
    ensures !ps.scan.inAttrib && !ps.oneAttr && Whites(b, ps.scan.pos, p)
    ensures Opened(ps, g) == ParserState(Scanner(g + 1, true, Some(g), false), false, false, ps.lastElem)
  {
  }

  lemma NoWhites(b: seq<byte>, p: nat)
    ensures Whites(b, p, p)
  {
  }

  lemma TokenHere(b: seq<byte>, x: Scanner, p: nat)
    requires Whites(b, x.pos, p) && !IsWhite(At(b, p))
    ensures TokenAfterWhite(b, x) == NextToken(b, x.(pos := p))
  {
    hide NextToken;
    SkipWhites(b, x.pos, p);
  }

  lemma NotAtEnd(b: seq<byte>, p: nat, q: nat)
    requires Whites(b, p, q) && At(b, q) != 0
    ensures At(b, p) != 0
  {
  }

  // After attributes, the > is forgotten and the call goes on behind it.
  lemma TagEndIsForgotten(b: seq<byte>, ps: ParserState, fuel: nat)
    requires AtTagEnd(b, ps)
    ensures NextNode(b, ps, NO_EVENT, fuel + 1) == NextNode(b, Opened(ps, ps.scan.pos), NO_EVENT, fuel)
  {
    hide NextToken;
    TokenHere(b, ps.scan, ps.scan.pos);
    GreaterToken(b, ps.scan);
  }

  // <name is read, and the loop goes on after it.
  lemma NameStep(b: seq<byte>, ps: ParserState, ev: Event, p: nat, name: seq<byte>)
    requires Ready(b, ps, p) && IsName(name)
    requires HasAt(b, p, LESSTHAN + name) && Punctuation(At(b, p + 1 + |name|))
    ensures NodeStep(b, ps, ev)
         == Continue(ParserState(Scanner(p + 1 + |name|, false, ps.scan.save, false), true, false, name),
                     Event(ElementNode, name, None, false))
    ensures At(b, ps.scan.pos) != 0
  {
    hide *;
    ReadyParts(b, ps, p, p);
    StartLayout(b, p, name);
    var x := ps.scan.(pos := p);
    var y := x.(pos := p + 1, tagVal := false);
    NameToken(b, y, name);
    TokenHere(b, ps.scan, p);
    NotAtEnd(b, ps.scan.pos, p);
    BeginTagToken(b, x);
    NoWhites(b, p + 1);
    TokenHere(b, y, p + 1);
    StepIs(b, ps, ev, y, LESSTHAN);
    OnStartTag(b, ps, ev, y, y.(pos := p + 1 + |name|), name);
  }

  lemma StartLayout(b: seq<byte>, p: nat, name: seq<byte>)
    requires HasAt(b, p, LESSTHAN + name)
    ensures At(b, p) == LESS && !IsWhite(At(b, p)) && At(b, p) != 0 && HasAt(b, p + 1, name)
  {
    HasAtSplit(b, p, LESSTHAN, name);
    HasAtIndex(b, p, LESSTHAN);
    assert At(b, p + 0) == LESS;
  }

  lemma OnStartTag(b: seq<byte>, ps: ParserState, ev: Event, x: Scanner, y: Scanner, name: seq<byte>)
    requires !x.inAttrib && TokenAfterWhite(b, x) == Took((y, name)) && name != []
    ensures !y.inAttrib
    ensures OnToken(b, ps, ev, x, LESSTHAN) ==
      Continue(ParserState(y, true, false, name), Event(ElementNode, name, None, false))
  {
    hide TokenAfterWhite;
  }

  // A start tag without attributes.
  lemma StartNode(b: seq<byte>, ps: ParserState, ev: Event, p: nat, name: seq<byte>, fuel: nat)
    requires Ready(b, ps, p) && IsName(name) && fuel >= 2
    requires HasAt(b, p, LESSTHAN + name) && At(b, p + 1 + |name|) == GREATER
    ensures NextNode(b, ps, ev, fuel)
         == Return(Opened(ParserState(ps.scan, true, false, name), p + 1 + |name|),
                   Event(ElementNode, name, None, false))
  {
    hide *;
    var g := p + 1 + |name|;
    SignFacts(b, g);
    ReadyParts(b, ps, p, g);
    NameStep(b, ps, ev, p, name);
    var x, y := Scanner(g, false, ps.scan.save, false), Scanner(g + 1, true, Some(g), false);
    var ps1, ev1 := ParserState(x, true, false, name), Event(ElementNode, name, None, false);
    OpenedIs(ParserState(ps.scan, true, false, name), g);
    TurnGoesOn(b, ps, ev, fuel);
    NoWhites(b, g);
    TokenHere(b, x, g);
    GreaterToken(b, x);
    StepIs(b, ps1, ev1, y, GREATERTHAN);
    OnGreater(b, ps1, ev1, y);
    TurnReturns(b, ps1, ev1, fuel - 1);
  }

  lemma SignFacts(b: seq<byte>, g: nat)
    ensures At(b, g) == GREATER || At(b, g) == SLASH ==> At(b, g) != 0 && !IsWhite(At(b, g)) && Punctuation(At(b, g))
  {
  }

  lemma OpenedIs(ps: ParserState, g: nat)
    ensures Opened(ps, g) == ParserState(Scanner(g + 1, true, Some(g), false), false, false, ps.lastElem)
  {
  }

  lemma StepIs(b: seq<byte>, ps: ParserState, ev: Event, x: Scanner, tok: seq<byte>)
    requires !ps.scan.inAttrib && !x.inAttrib
    requires TokenAfterWhite(b, ps.scan) == Took((x, tok))
    ensures NodeStep(b, ps, ev) == OnToken(b, ps, ev, x, tok)
  {
  }

  // A turn that goes on, and one that returns.
  lemma TurnGoesOn(b: seq<byte>, ps: ParserState, ev: Event, fuel: nat)
    requires !ps.scan.inAttrib && At(b, ps.scan.pos) != 0 && fuel >= 1 && NodeStep(b, ps, ev).Continue?
    ensures NextNode(b, ps, ev, fuel) == NextNode(b, NodeStep(b, ps, ev).ps, NodeStep(b, ps, ev).ev, fuel - 1)
  {
    hide NodeStep;
  }

  lemma TurnReturns(b: seq<byte>, ps: ParserState, ev: Event, fuel: nat)
    requires !ps.scan.inAttrib && At(b, ps.scan.pos) != 0 && fuel >= 1 && NodeStep(b, ps, ev).Return?
    ensures NextNode(b, ps, ev, fuel) == NodeStep(b, ps, ev)
  {
    hide NodeStep;
  }

  lemma NoTurns(b: seq<byte>, ps: ParserState, ev: Event)
    requires !ps.scan.inAttrib && At(b, ps.scan.pos) != 0
    ensures NextNode(b, ps, ev, 0) == Continue(ps, ev)
  {
    hide NodeStep;
  }

  // The start of an empty-element tag without attributes; its /> is left for the next call.
  lemma EmptyStartNode(b: seq<byte>, ps: ParserState, ev: Event, p: nat, name: seq<byte>, fuel: nat)
    requires Ready(b, ps, p) && IsName(name) && fuel >= 2
    requires HasAt(b, p, LESSTHAN + name) && At(b, p + 1 + |name|) == SLASH && At(b, p + 2 + |name|) == GREATER
    ensures NextNode(b, ps, ev, fuel)
         == Return(ParserState(Scanner(p + 1 + |name|, true, ps.scan.save, false), true, false, name),
                   Event(ElementNode, name, None, false))
  {
    hide *;
    var g := p + 1 + |name|;
    SignFacts(b, g);
    ReadyParts(b, ps, p, g);
    NameStep(b, ps, ev, p, name);
    var x := Scanner(g, false, ps.scan.save, false);
    var y := x.(pos := g + 2, tagVal := true);
    var ps1, ev1 := ParserState(x, true, false, name), Event(ElementNode, name, None, false);
    TurnGoesOn(b, ps, ev, fuel);
    NoWhites(b, g);
    TokenHere(b, x, g);
    CompleteToken(b, x);
    StepIs(b, ps1, ev1, y, COMPLETETAG);
    OnComplete(b, ps1, ev1, y);
    TurnReturns(b, ps1, ev1, fuel - 1);
  }

  lemma EmptyEndLayout(b: seq<byte>, g: nat)
    requires HasAt(b, g, EMPTY_END)
    ensures At(b, g) == SLASH && At(b, g + 1) == GREATER
  {
    HasAtIndex(b, g, EMPTY_END);
    assert At(b, g + 0) == SLASH && At(b, g + 1) == GREATER;
  }

  // The /> of a tag just opened is put back.
  lemma OnComplete(b: seq<byte>, ps: ParserState, ev: Event, x: Scanner)
    requires !x.inAttrib && ev.kind == ElementNode && x.pos >= 2
    ensures OnToken(b, ps, ev, x, COMPLETETAG) == Return(ps.(scan := x.(pos := x.pos - 2)), ev.(isEnd := false))
  {
    hide TagName, AttributeValue;
  }

  // A start tag with attributes: the name of the first is looked at and put back, with one
  // of the two spaces before it.
  lemma StartNodeWithAttrs(b: seq<byte>, ps: ParserState, ev: Event, p: nat, name: seq<byte>, a: seq<byte>, fuel: nat)
    requires Ready(b, ps, p) && IsName(name) && AttrName(a) && fuel >= 2
    requires HasAt(b, p, LESSTHAN + name) && HasAt(b, p + 1 + |name|, ATTR_START + a)
    requires Punctuation(At(b, p + 1 + |name| + 2 + |a|))
    ensures NextNode(b, ps, ev, fuel)
         == Return(ParserState(Scanner(p + |name| + 2, false, ps.scan.save, false), true, false, name),
                   Event(ElementNode, name, None, false))
  {
    hide *;
    var g := p + 1 + |name|;
    AttrLayout(b, g, a);
    ReadyParts(b, ps, p, g);
    NameStep(b, ps, ev, p, name);
    var x := Scanner(g, false, ps.scan.save, false);
    var ps1, ev1 := ParserState(x, true, false, name), Event(ElementNode, name, None, false);
    TurnGoesOn(b, ps, ev, fuel);
    var y, z := x.(pos := g + 2), x.(pos := g + 2 + |a|);
    AttrNameToken(b, y, a);
    TokenHere(b, x, g + 2);
    StepIs(b, ps1, ev1, z, a);
    OnName(b, ps1, ev1, z, a);
    PutBackIs(ps1, ev1, z, |a| + 1);
    TurnReturns(b, ps1, ev1, fuel - 1);
  }

  lemma AttrLayout(b: seq<byte>, g: nat, a: seq<byte>)
    requires HasAt(b, g, ATTR_START + a)
    ensures HasAt(b, g + 2, a) && Whites(b, g, g + 2) && At(b, g) != 0 && Punctuation(At(b, g))
  {
    HasAtSplit(b, g, ATTR_START, a);
    HasAtIndex(b, g, ATTR_START);
    assert At(b, g + 0) == SPACE && At(b, g + 1) == SPACE;
  }

  lemma PutBackIs(ps: ParserState, ev: Event, x: Scanner, n: nat)
    requires n <= x.pos
    ensures PutBack(ps, ev, x, n) == Return(ps.(scan := x.(pos := x.pos - n)), ev)
  {
  }

  // A word inside a tag is an attribute's name, or text once a tag has ended.
  lemma OnName(b: seq<byte>, ps: ParserState, ev: Event, x: Scanner, tok: seq<byte>)
    requires tok != [] && tok != LESSTHAN && tok != GREATERTHAN && tok != ENDTAG && tok != COMPLETETAG
    requires !x.inAttrib && ev.kind == ElementNode
    ensures OnToken(b, ps, ev, x, tok)
         == if ps.attrFound then PutBack(ps, ev, x, |tok| + 1)
            else Return(ps.(scan := x), Event(TextNode, TEXT_NAME, Some(tok), false))
  {
  }

  // The name of an attribute is one token.
  lemma AttrNameToken(b: seq<byte>, x: Scanner, a: seq<byte>)
    requires !x.inAttrib && !x.tagVal && AttrName(a)
    requires HasAt(b, x.pos, a) && Punctuation(At(b, x.pos + |a|))
    ensures NextToken(b, x) == Took((x.(pos := x.pos + |a|), a)) && a != []
    ensures a != LESSTHAN && a != GREATERTHAN && a != ENDTAG && a != COMPLETETAG
    ensures At(b, x.pos) != 0 && !IsWhite(At(b, x.pos))
  {
    hide NextToken, IsName;
    if IsName(a) {
      NameToken(b, x, a);
    } else {
      HasAtHead(b, x.pos, a);
      SignToken(b, x);
    }
  }

  // Inside a start tag, before one more attribute at q.
  ghost predicate BeforeAttr(b: seq<byte>, ps: ParserState, q: nat) {
    !ps.scan.inAttrib && !ps.scan.tagVal && ps.attrFound && Whites(b, ps.scan.pos, q + 2)
  }

  // The equals sign, the quotes and the value between them.
  lemma AttrValueIs(b: seq<byte>, x: Scanner, v: seq<byte>)
    requires !x.inAttrib && !x.tagVal && ReadableValue(v)
    requires HasAt(b, x.pos, ATTR_EQUALS + (Escaped(v) + ATTR_END))
    ensures AttributeValue(b, x) == Took((x.(pos := x.pos + 3 + |Escaped(v)|), v))
  {
    hide HasAt, NextToken, ReadableValue, Escaped;
    var s := Escaped(v);
    HasAtSplit(b, x.pos, ATTR_EQUALS, s + ATTR_END);
    HasAtIndex(b, x.pos, ATTR_EQUALS);
    assert At(b, x.pos + 0) == EQUAL && At(b, x.pos + 1) == QUOTE;
    HasAtSplit(b, x.pos + 2, s, ATTR_END);
    HasAtHead(b, x.pos + 2 + |s|, ATTR_END);
    TokenHere(b, x, x.pos);
    SignToken(b, x);
    var y := x.(pos := x.pos + 1);
    TokenHere(b, y, y.pos);
    SignToken(b, y);
    var z := x.(pos := x.pos + 2);
    ValueToken(b, z.(inAttrib := true), v);
    SignToken(b, z.(pos := z.pos + |s|));
    assert v != [] by { ValueNonEmpty(v); }
  }

  lemma ValueNonEmpty(v: seq<byte>)
    requires ReadableValue(v)
    ensures v != []
  {
  }

  lemma AttrNode(b: seq<byte>, ps: ParserState, q: nat, a: Attribute, fuel: nat)
    requires BeforeAttr(b, ps, q) && HasAt(b, q, PrintedAttr(a)) && fuel >= 1
    requires AttrName(a.name) && ReadableValue(a.value)
    ensures NextNode(b, ps, NO_EVENT, fuel)
         == Return(ps.(scan := ps.scan.(pos := q + |PrintedAttr(a)|), oneAttr := true),
                   Event(AttributeNode, a.name, Some(a.value), false))
  {
    hide HasAt, NextToken, AttrName, ReadableValue, Escaped, AttributeValue;
    var rest := ATTR_EQUALS + (Escaped(a.value) + ATTR_END);
    HasAtSplit(b, q, ATTR_START, a.name + rest);
    HasAtSplit(b, q + 2, a.name, rest);
    HasAtHead(b, q + 2 + |a.name|, rest);
    var x := ps.scan.(pos := q + 2);
    AttrNameToken(b, x, a.name);
    TokenHere(b, ps.scan, q + 2);
    NotAtEnd(b, ps.scan.pos, q + 2);
    AttrValueIs(b, x.(pos := q + 2 + |a.name|), a.value);
  }

  // The /> that ends an empty element is reported as the end of the element opened last.
  lemma EmptyEndNode(b: seq<byte>, ps: ParserState, fuel: nat)
    requires !ps.scan.inAttrib && At(b, ps.scan.pos) == SLASH && At(b, ps.scan.pos + 1) == GREATER && fuel >= 1
    ensures NextNode(b, ps, NO_EVENT, fuel)
         == Return(ParserState(ps.scan.(pos := ps.scan.pos + 2, tagVal := true), true, false, ps.lastElem),
                   Event(ElementNode, ps.lastElem, None, true))
  {
    hide NextToken;
    TokenHere(b, ps.scan, ps.scan.pos);
    CompleteToken(b, ps.scan);
  }

  // The text right after a start tag.
  lemma TextEvent(b: seq<byte>, ps: ParserState, g: nat, v: seq<byte>, fuel: nat)
    requires ReadableText(v) && fuel >= 1
    requires HasAt(b, g + 1, Escaped(v))
    requires At(b, g + 1 + |Escaped(v)|) == LESS && At(b, g + 1 + |Escaped(v)| + 1) != 33
    ensures NextNode(b, Opened(ps, g), NO_EVENT, fuel)
         == Return(ParserState(Scanner(g + 1 + |Escaped(v)|, false, Some(g), false), false, false, ps.lastElem),
                   Event(TextNode, TEXT_NAME, Some(v), false))
  {
    hide NextToken, XmlText, Blank, Escaped;
    var ps1, s := Opened(ps, g), Escaped(v);
    var r := SkipWhite(b, g + 1);
    TextIsSolid(b, g + 1, v);
    TokenHere(b, ps1.scan, r);
    NotAtEnd(b, g + 1, r);
    ContentToken(b, ps1.scan.(pos := r), v);
    assert v != LESSTHAN && v != GREATERTHAN && v != ENDTAG && v != COMPLETETAG by { TextIsNoTag(v); }
  }

  lemma TextIsNoTag(v: seq<byte>)
    requires ReadableText(v)
    ensures v != LESSTHAN && v != GREATERTHAN && v != ENDTAG && v != COMPLETETAG
  {
  }

  // White space before a text never reaches the end of the text.
  lemma TextIsSolid(b: seq<byte>, q: nat, v: seq<byte>)
    requires XmlText(v) && !Blank(v) && HasAt(b, q, Escaped(v))
    ensures Whites(b, q, SkipWhite(b, q)) && At(b, SkipWhite(b, q)) != 0
  {
    hide Escaped;
    var k := SolidByte(v);
    HasAtIndex(b, q, Escaped(v));
    assert !IsWhite(At(b, q + k));
    EscapedIsClean(v);
    var r := SkipWhite(b, q);
    assert r <= q + k;
    assert At(b, q + (r - q)) == Escaped(v)[r - q];
  }

  lemma EndLayout(b: seq<byte>, p: nat, name: seq<byte>)
    requires HasAt(b, p, PrintedEnd(name))
    ensures var g := p + 2 + |name|;
      && At(b, p) == LESS && At(b, p + 1) == SLASH && HasAt(b, p + 2, name) && At(b, g) == GREATER && At(b, g + 1) == LF
      && !IsWhite(LESS) && !IsWhite(GREATER) && Punctuation(GREATER) && At(b, p) != 0 && At(b, g) != 0
  {
    var g := p + 2 + |name|;
    HasAtSplit(b, p, ENDTAG, name + TAG_END);
    HasAtSplit(b, p + 2, name, TAG_END);
    HasAtIndex(b, p, ENDTAG);
    HasAtIndex(b, g, TAG_END);
    assert At(b, p + 0) == LESS && At(b, p + 1) == SLASH && At(b, g + 0) == GREATER && At(b, g + 1) == LF;
  }

  lemma OnEndTag(b: seq<byte>, ps: ParserState, ev: Event, x: Scanner, y: Scanner, name: seq<byte>)
    requires !x.inAttrib && TokenAfterWhite(b, x) == Took((y, name)) && name != []
    ensures !y.inAttrib
    ensures OnToken(b, ps, ev, x, ENDTAG) == Continue(ps.(scan := y), Event(ElementNode, name, None, true))
  {
    hide TokenAfterWhite;
  }

  lemma OnGreater(b: seq<byte>, ps: ParserState, ev: Event, x: Scanner)
    requires !x.inAttrib && !ps.oneAttr
    ensures OnToken(b, ps, ev, x, GREATERTHAN) == Return(ParserState(x, false, false, ps.lastElem), ev)
  {
    hide TagName, AttributeValue;
  }

  // An end tag is read up to its >.
  lemma EndNode(b: seq<byte>, ps: ParserState, p: nat, name: seq<byte>, fuel: nat)
    requires Ready(b, ps, p) && IsName(name) && HasAt(b, p, PrintedEnd(name)) && fuel >= 2
    ensures NextNode(b, ps, NO_EVENT, fuel) == Return(Opened(ps, p + 2 + |name|), Event(ElementNode, name, None, true))
    ensures At(b, p + 2 + |name| + 1) == LF
  {
    hide *;
    var g := p + 2 + |name|;
    EndLayout(b, p, name);
    ReadyParts(b, ps, p, g);
    var x := ps.scan.(pos := p);
    var y := x.(pos := p + 2, tagVal := false);
    var z := y.(pos := g);
    var ps1, ev1 := ps.(scan := z), Event(ElementNode, name, None, true);
    TokenHere(b, ps.scan, p);
    NotAtEnd(b, ps.scan.pos, p);
    EndTagToken(b, x);
    NameToken(b, y, name);
    NoWhites(b, p + 2);
    TokenHere(b, y, p + 2);
    StepIs(b, ps, NO_EVENT, y, ENDTAG);
    OnEndTag(b, ps, NO_EVENT, y, z, name);
    TurnGoesOn(b, ps, NO_EVENT, fuel);
    NoWhites(b, g);
    TokenHere(b, z, g);
    GreaterToken(b, z);
    StepIs(b, ps1, ev1, Scanner(g + 1, true, Some(g), false), GREATERTHAN);
    OnGreater(b, ps1, ev1, Scanner(g + 1, true, Some(g), false));
    TurnReturns(b, ps1, ev1, fuel - 1);
  }

  // One reported node handed to the builder.
  ghost function Step(b: seq<byte>, ps: ParserState, stack: seq<Frame>, fuel: nat)
    : (r: Option<(ParserState, seq<Frame>)>)
    requires !ps.scan.inAttrib && stack != []
    ensures r.Some? ==> !r.value.0.scan.inAttrib && r.value.1 != []
  {
    var o := NextNode(b, ps, NO_EVENT, fuel);
    if !o.Return? || o.ev.kind == InvalidNode then None
    else
      var s := Apply(stack, o.ev);
      if s.None? || s.value == [] then None else Some((o.ps, s.value))
  }

  ghost function Steps(b: seq<byte>, ps: ParserState, stack: seq<Frame>, n: nat, fuel: nat)
    : (r: Option<(ParserState, seq<Frame>)>)
    requires !ps.scan.inAttrib && stack != []
    ensures r.Some? ==> !r.value.0.scan.inAttrib && r.value.1 != []
    decreases n
  {
    if n == 0 then Some((ps, stack))
    else
      var s := Step(b, ps, stack, fuel);
      if s.None? then None else Steps(b, s.value.0, s.value.1, n - 1, fuel)
  }

  lemma {:induction false} StepsAdd(b: seq<byte>, ps: ParserState, stack: seq<Frame>, n: nat, m: nat, fuel: nat)
    requires !ps.scan.inAttrib && stack != [] && Steps(b, ps, stack, n, fuel).Some?
    ensures var r := Steps(b, ps, stack, n, fuel).value;
      Steps(b, ps, stack, n + m, fuel) == Steps(b, r.0, r.1, m, fuel)
    decreases n
  {
    hide Step;
    if n > 0 {
      var s := Step(b, ps, stack, fuel).value;
      StepsAdd(b, s.0, s.1, n - 1, m, fuel);
    }
  }

  lemma {:induction false} StepsRun(b: seq<byte>, ps: ParserState, stack: seq<Frame>, n: nat, m: nat, fuel: nat)
    requires !ps.scan.inAttrib && stack != [] && Steps(b, ps, stack, n, fuel).Some?
    ensures var r := Steps(b, ps, stack, n, fuel).value;
      Run(b, ps, NO_EVENT, stack, n + m, fuel) == Run(b, r.0, NO_EVENT, r.1, m, fuel)
    decreases n
  {
    hide NextNode, Apply;
    if n > 0 {
      var s := Step(b, ps, stack, fuel).value;
      StepsRun(b, s.0, s.1, n - 1, m, fuel);
    }
  }

  // Before p, either directly or behind the > of a start tag with attributes.
  ghost predicate Before(b: seq<byte>, ps: ParserState, p: nat) {
    Ready(b, ps, p) || (AtTagEnd(b, ps) && Whites(b, ps.scan.pos + 1, p))
  }

  function Settled(ps: ParserState): ParserState {
    if ps.oneAttr then Opened(ps, ps.scan.pos) else ps
  }

  lemma SettledStep(b: seq<byte>, ps: ParserState, p: nat, stack: seq<Frame>, fuel: nat)
    requires Before(b, ps, p) && stack != []
    ensures Ready(b, Settled(ps), p)
    ensures ps.oneAttr ==> Step(b, ps, stack, fuel + 1) == Step(b, Settled(ps), stack, fuel)
    ensures !ps.oneAttr ==> Settled(ps) == ps
  {
    hide NextNode, Apply;
    if ps.oneAttr {
      TagEndIsForgotten(b, ps, fuel);
    }
  }

  function AddChildren(stack: seq<Frame>, ts: seq<Node>): (r: seq<Frame>)
    requires stack != []
    ensures r != []
  {
    stack[|stack| - 1 := Top(stack).(children := Top(stack).children + ts)]
  }

  function AddAttrs(stack: seq<Frame>, attrs: seq<Attribute>): (r: seq<Frame>)
    requires stack != []
    ensures r != []
  {
    stack[|stack| - 1 := Top(stack).(attrs := Top(stack).attrs + attrs)]
  }

  // All attributes of a start tag are reported in order.
  lemma {:induction false} ParseAttrs(b: seq<byte>, ps: ParserState, q: nat, attrs: seq<Attribute>, stack: seq<Frame>,
                                      fuel: nat)
    requires stack != [] && fuel >= 1 && attrs != []
    requires BeforeAttr(b, ps, q) && HasAt(b, q, PrintedAttrs(attrs)) && ReadableAttrs(attrs)
    ensures var ps' := ps.(scan := ps.scan.(pos := q + |PrintedAttrs(attrs)|), oneAttr := true);
      Steps(b, ps, stack, |attrs|, fuel) == Some((ps', AddAttrs(stack, attrs)))
    decreases |attrs|
  {
    hide NextNode, AttrName, ReadableValue, PrintedAttr;
    var a, rest := attrs[0], attrs[1..];
    HasAtSplit(b, q, PrintedAttr(a), PrintedAttrs(rest));
    AttrNode(b, ps, q, a, fuel);
    var q' := q + |PrintedAttr(a)|;
    var ps1 := ps.(scan := ps.scan.(pos := q'), oneAttr := true);
    var stack1 := AddAttr(stack, a);
    assert Step(b, ps, stack, fuel) == Some((ps1, stack1));
    assert Top(stack).attrs + [a] + rest == Top(stack).attrs + attrs;
    if rest == [] {
      assert Steps(b, ps1, stack1, 0, fuel) == Some((ps1, stack1));
      assert attrs == [a];
      assert AddAttrs(stack, attrs) == stack1;
    } else {
      NextAttrSpaces(b, q', rest);
      ParseAttrs(b, ps1, q', rest, stack1, fuel);
      assert AddAttrs(stack1, rest) == AddAttrs(stack, attrs);
    }
  }

  lemma NextAttrSpaces(b: seq<byte>, q: nat, attrs: seq<Attribute>)
    requires attrs != [] && HasAt(b, q, PrintedAttrs(attrs))
    ensures Whites(b, q, q + 2)
    ensures HasAt(b, q, ATTR_START + attrs[0].name)
    ensures At(b, q + 2 + |attrs[0].name|) == EQUAL
  {
    hide Escaped;
    var a := attrs[0];
    HasAtSplit(b, q, PrintedAttr(a), PrintedAttrs(attrs[1..]));
    AttrSpaces(b, q, a);
  }

  lemma AttrSpaces(b: seq<byte>, q: nat, a: Attribute)
    requires HasAt(b, q, PrintedAttr(a))
    ensures Whites(b, q, q + 2)
    ensures HasAt(b, q, ATTR_START + a.name)
    ensures At(b, q + 2 + |a.name|) == EQUAL
  {
    hide Escaped;
    var rest := ATTR_EQUALS + (Escaped(a.value) + ATTR_END);
    assert PrintedAttr(a) == (ATTR_START + a.name) + rest;
    HasAtSplit(b, q, ATTR_START + a.name, rest);
    HasAtHead(b, q + 2 + |a.name|, rest);
    HasAtSplit(b, q, ATTR_START, a.name);
    HasAtIndex(b, q, ATTR_START);
    assert At(b, q + 0) == SPACE && At(b, q + 1) == SPACE;
  }

  // What is left to read when a start tag has been reported, by what follows its name.
  ghost predicate TagOpen(b: seq<byte>, ps1: ParserState, g: nat, name: seq<byte>, attrs: seq<Attribute>,
                          close: seq<byte>) {
    && ps1.lastElem == name && !ps1.scan.inAttrib
    && if attrs != [] then BeforeAttr(b, ps1, g)
       else if close == EMPTY_END then ps1.scan.pos == g && !ps1.oneAttr
       else ps1 == Opened(ps1, g)
  }

  lemma StartReady(b: seq<byte>, ps: ParserState, p: nat, name: seq<byte>, attrs: seq<Attribute>, close: seq<byte>,
                   fuel: nat)
    returns (ps1: ParserState)
    requires Ready(b, ps, p) && fuel >= 2
    requires IsName(name) && NamedAttrs(attrs)
    requires HasAt(b, p, PrintedTag(name, attrs) + close)
    requires close == EMPTY_END || close == GREATERTHAN || close == TAG_END
    ensures NextNode(b, ps, NO_EVENT, fuel) == Return(ps1, Event(ElementNode, name, None, false))
    ensures TagOpen(b, ps1, p + 1 + |name|, name, attrs, close)
    ensures close == EMPTY_END ==> ps1.scan.save == ps.scan.save
  {
    hide HasAt, NextNode, IsName, AttrName, ReadableValue, Escaped, PrintedAttr;
    var head, g := LESSTHAN + name, p + 1 + |name|;
    assert PrintedTag(name, attrs) + close == head + (PrintedAttrs(attrs) + close);
    HasAtSplit(b, p, head, PrintedAttrs(attrs) + close);
    HasAtSplit(b, g, PrintedAttrs(attrs), close);
    if attrs != [] {
      NextAttrSpaces(b, g, attrs);
      HasAtHead(b, g, ATTR_START + attrs[0].name);
      StartNodeWithAttrs(b, ps, NO_EVENT, p, name, attrs[0].name, fuel);
      ps1 := ParserState(Scanner(g + 1, false, ps.scan.save, false), true, false, name);
    } else {
      HasAtHead(b, g, close);
      if close == EMPTY_END {
        EmptyEndLayout(b, g);
        EmptyStartNode(b, ps, NO_EVENT, p, name, fuel);
        ps1 := ParserState(Scanner(g, true, ps.scan.save, false), true, false, name);
      } else {
        StartNode(b, ps, NO_EVENT, p, name, fuel);
        ps1 := Opened(ParserState(ps.scan, true, false, name), g);
      }
    }
  }

  // The first call on an element, from either standing.
  lemma StartStep(b: seq<byte>, ps: ParserState, p: nat, name: seq<byte>, attrs: seq<Attribute>, close: seq<byte>,
                  stack: seq<Frame>, fuel: nat)
    returns (ps1: ParserState)
    requires Before(b, ps, p) && stack != [] && fuel >= 3
    requires IsName(name) && NamedAttrs(attrs)
    requires HasAt(b, p, PrintedTag(name, attrs) + close)
    requires close == EMPTY_END || close == GREATERTHAN || close == TAG_END
    ensures Step(b, ps, stack, fuel) == Some((ps1, stack + [Frame(name, [], [])]))
    ensures TagOpen(b, ps1, p + 1 + |name|, name, attrs, close)
    ensures close == EMPTY_END && !ps.oneAttr ==> ps1.scan.save == ps.scan.save
  {
    hide NextNode, IsName, NamedAttrs, PrintedTag, TagOpen, Before;
    SettledStep(b, ps, p, stack, fuel - 1);
    ps1 := StartReady(b, Settled(ps), p, name, attrs, close, if ps.oneAttr then fuel - 1 else fuel);
  }

  // A whole start tag: the element is opened and given its attributes.
  lemma ParseTag(b: seq<byte>, ps: ParserState, p: nat, name: seq<byte>, attrs: seq<Attribute>, close: seq<byte>,
                 stack: seq<Frame>, fuel: nat)
    returns (ps2: ParserState)
    requires Before(b, ps, p) && stack != [] && fuel >= 3
    requires IsName(name) && ReadableAttrs(attrs)
    requires HasAt(b, p, PrintedTag(name, attrs) + close)
    requires close == EMPTY_END || close == GREATERTHAN || close == TAG_END
    ensures Steps(b, ps, stack, 1 + |attrs|, fuel) == Some((ps2, stack + [Frame(name, attrs, [])]))
    ensures ps2.lastElem == name && !ps2.scan.inAttrib
    ensures close == EMPTY_END && !ps.oneAttr ==> ps2.scan.save == ps.scan.save
    ensures var g := p + |PrintedTag(name, attrs)|;
      if close == EMPTY_END then ps2.scan.pos == g
      else (ps2.oneAttr ==> AtTagEnd(b, ps2) && ps2.scan.pos == g) && (!ps2.oneAttr ==> ps2 == Opened(ps2, g))
  {
    hide HasAt, Whites, At, NextNode, IsName, ReadableAttrs, NamedAttrs, Escaped, Step, PrintedAttrs;
    NamesOf(attrs);
    var g := p + 1 + |name|;
    var ps1 := StartStep(b, ps, p, name, attrs, close, stack, fuel);
    var stack1 := stack + [Frame(name, [], [])];
    if attrs == [] {
      assert PrintedAttrs(attrs) == [] by { NoAttrs(); }
      assert Steps(b, ps1, stack1, 0, fuel) == Some((ps1, stack1));
      ps2 := ps1;
    } else {
      assert PrintedTag(name, attrs) + close == (LESSTHAN + name) + (PrintedAttrs(attrs) + close);
      HasAtSplit(b, p, LESSTHAN + name, PrintedAttrs(attrs) + close);
      HasAtSplit(b, g, PrintedAttrs(attrs), close);
      ParseAttrs(b, ps1, g, attrs, stack1, fuel);
      ps2 := ps1.(scan := ps1.scan.(pos := g + |PrintedAttrs(attrs)|), oneAttr := true);
      HasAtHead(b, g + |PrintedAttrs(attrs)|, close);
      assert AddAttrs(stack1, attrs) == stack + [Frame(name, attrs, [])] by {
        assert [] + attrs == attrs;
      }
    }
  }

  lemma NamesOf(attrs: seq<Attribute>)
    requires ReadableAttrs(attrs)
    ensures NamedAttrs(attrs)
  {
    hide AttrName, ReadableValue;
  }

  lemma NoAttrs()
    ensures PrintedAttrs([]) == []
  {
  }

  // What a name starts with is neither an exclamation nor a question mark.
  lemma NameStart(b: seq<byte>, p: nat, t: Node)
    requires t.Element? && IsName(t.name) && HasAt(b, p, Printed(t))
    ensures At(b, p) == LESS && At(b, p + 1) != 33 && At(b, p + 1) != 63
  {
    hide IsName, ReadableAttrs, PrintedAttrs, PrintedAll;
    var rest := if t.children == [] then EMPTY_END
                else TagClose(t.children[0]) + (PrintedAll(t.children) + PrintedEnd(t.name));
    assert Printed(t) == PrintedTag(t.name, t.attrs) + rest;
    HasAtSplit(b, p, PrintedTag(t.name, t.attrs), rest);
    HasAtSplit(b, p, LESSTHAN, t.name + PrintedAttrs(t.attrs));
    HasAtSplit(b, p + 1, t.name, PrintedAttrs(t.attrs));
    HasAtHead(b, p, LESSTHAN);
    FirstOfName(b, p + 1, t.name);
  }

  lemma ReadableStart(b: seq<byte>, p: nat, t: Node)
    requires t.Element? && Readable(t) && HasAt(b, p, Printed(t))
    ensures At(b, p) == LESS && At(b, p + 1) != 33 && At(b, p + 1) != 63
  {
    hide *;
    ElementParts(t);
    NameStart(b, p, t);
  }

  lemma FirstOfName(b: seq<byte>, p: nat, name: seq<byte>)
    requires IsName(name) && HasAt(b, p, name)
    ensures name != [] && !Punctuation(At(b, p))
  {
    hide ToUtf8, IsNameCh;
    var cs: seq<XmlChar> :| NameOf(name, cs);
    NameCharBytes(cs[0]);
    HasAtHead(b, p, name);
    assert name[0] == ToUtf8(cs[0])[0];
  }

  // Text as first child: the parser has just passed the > before it.
  ghost predicate TextPlace(ps: ParserState, ts: seq<Node>, p: nat) {
    ts != [] && ts[0].Text? ==> p > 0 && Settled(ps) == Opened(ps, p - 1)
  }

  ghost predicate ReadableChildren(ts: seq<Node>) {
    && (forall i :: 0 <= i < |ts| ==> Readable(ts[i]))
    && (forall i :: 0 < i < |ts| ==> ts[i].Element?)
  }

  // The text that opens an element's children is reported and added.
  lemma ParseText(b: seq<byte>, ps: ParserState, p: nat, v: seq<byte>, stack: seq<Frame>, fuel: nat)
    returns (ps1: ParserState)
    requires Before(b, ps, p) && stack != [] && fuel >= 3
    requires p > 0 && Settled(ps) == Opened(ps, p - 1)
    requires ReadableText(v) && HasAt(b, p, Escaped(v))
    requires At(b, p + |Escaped(v)|) == LESS && At(b, p + |Escaped(v)| + 1) != 33
    ensures Step(b, ps, stack, fuel) == Some((ps1, AddChildren(stack, [Text(v)])))
    ensures Ready(b, ps1, p + |Escaped(v)|)
  {
    hide NextNode, ReadableText, Escaped;
    SettledStep(b, ps, p, stack, fuel - 1);
    TextEvent(b, ps, p - 1, v, if ps.oneAttr then fuel - 1 else fuel);
    var q := p + |Escaped(v)|;
    ps1 := ParserState(Scanner(q, false, Some(p - 1), false), false, false, ps.lastElem);
    assert AddChild(stack, Text(v)) == AddChildren(stack, [Text(v)]);
  }

  // An end tag closes the innermost open element.
  lemma ParseEnd(b: seq<byte>, ps: ParserState, p: nat, f: Frame, stack: seq<Frame>, fuel: nat)
    returns (ps1: ParserState)
    requires Before(b, ps, p) && stack != [] && fuel >= 3
    requires IsName(f.name) && HasAt(b, p, PrintedEnd(f.name))
    ensures Step(b, ps, stack + [f], fuel) == Some((ps1, AddChildren(stack, [Closed(f)])))
    ensures Ready(b, ps1, p + |PrintedEnd(f.name)|) && ps1.scan.tagVal && ps1.scan.save.Some?
  {
    hide NextNode, IsName;
    SettledStep(b, ps, p, stack + [f], fuel - 1);
    var qs := Settled(ps);
    EndNode(b, qs, p, f.name, if ps.oneAttr then fuel - 1 else fuel);
    ps1 := Opened(qs, p + 2 + |f.name|);
    assert (stack + [f])[..|stack|] == stack;
    assert Top(stack + [f]) == f;
    assert AddChild(stack, Closed(f)) == AddChildren(stack, [Closed(f)]);
    assert Pop(stack + [f]) == AddChildren(stack, [Closed(f)]);
    assert IsWhite(LF);
  }

  // An empty-element tag closes the element it opened.
  lemma ParseEmptyEnd(b: seq<byte>, ps: ParserState, f: Frame, stack: seq<Frame>, fuel: nat)
    returns (ps1: ParserState)
    requires !ps.scan.inAttrib && HasAt(b, ps.scan.pos, EMPTY_END) && fuel >= 1 && stack != []
    requires ps.lastElem == f.name
    ensures Step(b, ps, stack + [f], fuel) == Some((ps1, AddChildren(stack, [Closed(f)])))
    ensures Ready(b, ps1, ps.scan.pos + 3) && ps1.scan.tagVal && ps1.scan.save == ps.scan.save
  {
    hide NextNode;
    var p := ps.scan.pos;
    EmptyEndLayout(b, p);
    EmptyEndNode(b, ps, fuel);
    ps1 := ParserState(ps.scan.(pos := p + 2, tagVal := true), true, false, ps.lastElem);
    HasAtIndex(b, p, EMPTY_END);
    assert At(b, p + 2) == LF;
    assert (stack + [f])[..|stack|] == stack;
    assert Top(stack + [f]) == f;
    assert AddChild(stack, Closed(f)) == AddChildren(stack, [Closed(f)]);
    assert Pop(stack + [f]) == AddChildren(stack, [Closed(f)]);
  }

  lemma OneMoreStep(b: seq<byte>, ps: ParserState, stack: seq<Frame>, n: nat, fuel: nat)
    requires !ps.scan.inAttrib && stack != [] && Steps(b, ps, stack, n, fuel).Some?
    ensures var r := Steps(b, ps, stack, n, fuel).value;
      Steps(b, ps, stack, n + 1, fuel) == Step(b, r.0, r.1, fuel)
  {
    hide Step;
    StepsAdd(b, ps, stack, n, 1, fuel);
    var r := Steps(b, ps, stack, n, fuel).value;
    var s := Step(b, r.0, r.1, fuel);
    if s.Some? {
      assert Steps(b, s.value.0, s.value.1, 0, fuel) == s;
    }
  }

  function CloseOf(ts: seq<Node>): seq<byte> {
    if ts == [] then EMPTY_END else TagClose(ts[0])
  }

  // Where the parts of a printed element stand.
  lemma Layout(b: seq<byte>, p: nat, t: Node)
    requires t.Element? && HasAt(b, p, Printed(t))
    ensures var tag, close := PrintedTag(t.name, t.attrs), CloseOf(t.children);
      && HasAt(b, p, tag + close)
      && HasAt(b, p + |tag|, close)
      && if t.children == [] then |Printed(t)| == |tag| + |close|
         else
           var q := p + |tag| + |close|;
           var e := q + |PrintedAll(t.children)|;
           && HasAt(b, q, PrintedAll(t.children)) && HasAt(b, e, PrintedEnd(t.name))
           && p + |Printed(t)| == e + |PrintedEnd(t.name)|
  {
    hide PrintedTag, PrintedEnd, PrintedAll;
    var tag, close := PrintedTag(t.name, t.attrs), CloseOf(t.children);
    var rest := if t.children == [] then [] else PrintedAll(t.children) + PrintedEnd(t.name);
    assert Printed(t) == (tag + close) + rest;
    HasAtSplit(b, p, tag + close, rest);
    HasAtSplit(b, p, tag, close);
    if t.children != [] {
      HasAtSplit(b, p + |tag| + |close|, PrintedAll(t.children), PrintedEnd(t.name));
    }
  }

  // Behind the start tag the parser stands before the first child.
  lemma BeforeChildren(b: seq<byte>, ps: ParserState, g: nat, ts: seq<Node>)
    requires ts != [] && HasAt(b, g, CloseOf(ts)) && !ps.scan.inAttrib
    requires if ps.oneAttr then AtTagEnd(b, ps) && ps.scan.pos == g else ps == Opened(ps, g)
    ensures var q := g + |CloseOf(ts)|; Before(b, ps, q) && TextPlace(ps, ts, q)
  {
    var close := CloseOf(ts);
    HasAtIndex(b, g, close);
    assert close == TAG_END ==> At(b, g + 1) == LF;
  }

  lemma FillFrame(stack: seq<Frame>, f: Frame, ts: seq<Node>)
    requires stack != [] && f.children == []
    ensures AddChildren(stack + [f], ts) == stack + [f.(children := ts)]
  {
    assert [] + ts == ts;
  }

  // The children of an element and its end tag.
  lemma {:induction false} ParseBody(b: seq<byte>, ps: ParserState, g: nat, f: Frame, ts: seq<Node>,
                                     stack: seq<Frame>, fuel: nat)
    returns (n: nat, ps': ParserState)
    requires !ps.scan.inAttrib && stack != [] && fuel >= 3
    requires if ps.oneAttr then AtTagEnd(b, ps) && ps.scan.pos == g else ps == Opened(ps, g)
    requires ts != [] && ReadableChildren(ts) && IsName(f.name) && f.children == []
    requires HasAt(b, g, CloseOf(ts)) && HasAt(b, g + |CloseOf(ts)|, PrintedAll(ts))
    requires HasAt(b, g + |CloseOf(ts)| + |PrintedAll(ts)|, PrintedEnd(f.name))
    ensures Steps(b, ps, stack + [f], n, fuel) == Some((ps', AddChildren(stack, [Element(f.name, f.attrs, ts)])))
    ensures n <= |PrintedAll(ts)| + 1
    ensures Ready(b, ps', g + |CloseOf(ts)| + |PrintedAll(ts)| + |PrintedEnd(f.name)|)
    ensures ps'.scan.tagVal && ps'.scan.save.Some?
    decreases ts, 2
  {
    hide Step, Steps, IsName, PrintedEnd, PrintedAll, ReadableChildren, CloseOf, Before, Ready, TextPlace, HasAt,
      AddChildren;
    var q := g + |CloseOf(ts)|;
    var e := q + |PrintedAll(ts)|;
    BeforeChildren(b, ps, g, ts);
    EndTagStart(b, e, f.name);
    var stack2 := stack + [f];
    var m, ps3 := ParseChildren(b, ps, q, ts, stack2, fuel);
    var full := f.(children := ts);
    FillFrame(stack, f, ts);
    ps' := ParseEnd(b, ps3, e, full, stack, fuel);
    OneMoreStep(b, ps, stack2, m, fuel);
    n := m + 1;
  }

  // Every printed element is parsed back and added to the element around it.
  lemma {:induction false} ParseElement(b: seq<byte>, ps: ParserState, p: nat, t: Node, stack: seq<Frame>, fuel: nat)
    returns (n: nat, ps': ParserState)
    requires Before(b, ps, p) && stack != [] && fuel >= 3
    requires t.Element? && Readable(t) && HasAt(b, p, Printed(t))
    ensures Steps(b, ps, stack, n, fuel) == Some((ps', AddChildren(stack, [t])))
    ensures n <= |Printed(t)| && Ready(b, ps', p + |Printed(t)|) && ps'.scan.tagVal
    ensures if t.children != [] then ps'.scan.save.Some? else !ps.oneAttr ==> ps'.scan.save == ps.scan.save
    decreases t, 0
  {
    hide Step, Steps, IsName, ReadableAttrs, PrintedTag, PrintedEnd, PrintedAll, Printed, Readable, Before, AtTagEnd;
    var Element(name, attrs, ts) := t;
    ElementParts(t);
    Layout(b, p, t);
    var f, g := Frame(name, attrs, []), p + |PrintedTag(name, attrs)|;
    AttrsAreLong(name, attrs);
    BeforeIsOutside(b, ps, p);
    var ps2 := ParseTag(b, ps, p, name, attrs, CloseOf(ts), stack, fuel);
    if ts == [] {
      ps' := ParseEmptyEnd(b, ps2, f, stack, fuel);
      OneMoreStep(b, ps, stack, 1 + |attrs|, fuel);
      n := 1 + |attrs| + 1;
    } else {
      var m;
      m, ps' := ParseBody(b, ps2, g, f, ts, stack, fuel);
      StepsAdd(b, ps, stack, 1 + |attrs|, m, fuel);
      n := 1 + |attrs| + m;
    }
  }

  // So are the children of an element, in order.
  lemma {:induction false} ParseChildren(b: seq<byte>, ps: ParserState, p: nat, ts: seq<Node>, stack: seq<Frame>,
                                         fuel: nat)
    returns (n: nat, ps': ParserState)
    requires Before(b, ps, p) && stack != [] && fuel >= 3
    requires ReadableChildren(ts) && TextPlace(ps, ts, p) && HasAt(b, p, PrintedAll(ts))
    requires ts != [] && ts[0].Text? ==> At(b, p + |PrintedAll(ts)|) == LESS && At(b, p + |PrintedAll(ts)| + 1) != 33
    ensures Steps(b, ps, stack, n, fuel) == Some((ps', AddChildren(stack, ts)))
    ensures n <= |PrintedAll(ts)| && Before(b, ps', p + |PrintedAll(ts)|)
    ensures ts != [] ==> Ready(b, ps', p + |PrintedAll(ts)|)
    decreases ts, 1
  {
    hide HasAt, Step, Printed, Readable;
    if ts == [] {
      n, ps' := 0, ps;
      assert Top(stack).children + [] == Top(stack).children;
      assert AddChildren(stack, []) == stack;
    } else {
      var t, rest := ts[0], ts[1..];
      assert Readable(t);
      HasAtSplit(b, p, Printed(t), PrintedAll(rest));
      var q := p + |Printed(t)|;
      var k, ps1 := ParseChild(b, ps, p, ts, stack, fuel);
      var stack1 := AddChildren(stack, [t]);
      ReadyIsBefore(b, ps1, q);
      var m;
      m, ps' := ParseChildren(b, ps1, q, rest, stack1, fuel);
      StepsAdd(b, ps, stack, k, m, fuel);
      assert AddChildren(stack1, rest) == AddChildren(stack, ts) by {
        assert Top(stack).children + [t] + rest == Top(stack).children + ts;
      }
      n := k + m;
    }
  }

  lemma {:induction false} ParseChild(b: seq<byte>, ps: ParserState, p: nat, ts: seq<Node>, stack: seq<Frame>,
                                      fuel: nat)
    returns (n: nat, ps': ParserState)
    requires Before(b, ps, p) && stack != [] && fuel >= 3
    requires ts != [] && ReadableChildren(ts) && TextPlace(ps, ts, p) && HasAt(b, p, PrintedAll(ts))
    requires ts[0].Text? ==> At(b, p + |PrintedAll(ts)|) == LESS && At(b, p + |PrintedAll(ts)| + 1) != 33
    ensures Steps(b, ps, stack, n, fuel) == Some((ps', AddChildren(stack, [ts[0]])))
    ensures n <= |Printed(ts[0])| && Ready(b, ps', p + |Printed(ts[0])|)
    decreases ts, 0
  {
    hide HasAt, Step, ReadableText, Escaped, Before, Readable, PrintedAll;
    var t, rest := ts[0], ts[1..];
    AllParts(b, p, ts);
    if t.Element? {
      n, ps' := ParseElement(b, ps, p, t, stack, fuel);
    } else {
      if rest != [] {
        assert rest[0] == ts[1];
        AllParts(b, p + |Printed(t)|, rest);
        ReadableStart(b, p + |Printed(t)|, rest[0]);
      }
      TextIsReadable(t);
      ps' := ParseText(b, ps, p, t.value, stack, fuel);
      n := 1;
      assert Steps(b, ps', AddChildren(stack, [t]), 0, fuel).Some?;
      TextIsLong(t.value);
    }
  }

  lemma ReadyIsBefore(b: seq<byte>, ps: ParserState, p: nat)
    requires Ready(b, ps, p)
    ensures Before(b, ps, p) && !ps.scan.inAttrib
  {
  }

  lemma BeforeIsOutside(b: seq<byte>, ps: ParserState, p: nat)
    requires Before(b, ps, p)
    ensures !ps.scan.inAttrib
  {
  }

  lemma TextIsReadable(t: Node)
    requires t.Text? && Readable(t)
    ensures ReadableText(t.value) && Printed(t) == Escaped(t.value)
  {
  }

  lemma AllParts(b: seq<byte>, p: nat, ts: seq<Node>)
    requires ts != [] && HasAt(b, p, PrintedAll(ts))
    ensures PrintedAll(ts) == Printed(ts[0]) + PrintedAll(ts[1..])
    ensures HasAt(b, p, Printed(ts[0])) && HasAt(b, p + |Printed(ts[0])|, PrintedAll(ts[1..]))
    ensures PrintedAll([]) == []
  {
    hide Printed, HasAt;
    HasAtSplit(b, p, Printed(ts[0]), PrintedAll(ts[1..]));
  }

  lemma TextIsLong(v: seq<byte>)
    requires ReadableText(v)
    ensures |Escaped(v)| >= 1
  {
    if v == [] {
      assert Blank(v);
    }
  }

  lemma EndTagStart(b: seq<byte>, p: nat, name: seq<byte>)
    requires HasAt(b, p, PrintedEnd(name))
    ensures At(b, p) == LESS && At(b, p + 1) == SLASH
  {
    HasAtSplit(b, p, ENDTAG, name + TAG_END);
    HasAtIndex(b, p, ENDTAG);
    assert At(b, p + 0) == ENDTAG[0] && At(b, p + 1) == ENDTAG[1];
  }

  lemma ElementParts(t: Node)
    requires t.Element? && Readable(t)
    ensures IsName(t.name) && ReadableAttrs(t.attrs) && ReadableChildren(t.children)
  {
  }

  lemma {:induction false} AttrsAreLong(name: seq<byte>, attrs: seq<Attribute>)
    ensures |PrintedTag(name, attrs)| >= 1 + |attrs|
  {
    hide PrintedAttr;
    if attrs != [] {
      AttrsAreLong(name, attrs[1..]);
    }
  }

  // The in-out parameters of the very first call do not matter when an element comes first.
  lemma FirstCall(b: seq<byte>, ps: ParserState, ev: Event, p: nat, t: Node, fuel: nat)
    requires Ready(b, ps, p) && t.Element? && IsName(t.name) && HasAt(b, p, Printed(t))
    ensures NextNode(b, ps, ev, fuel + 1) == NextNode(b, ps, NO_EVENT, fuel + 1)
  {
    hide HasAt, NodeStep, IsName, PrintedAttrs, CloseOf;
    Layout(b, p, t);
    var name, rest := t.name, PrintedAttrs(t.attrs) + CloseOf(t.children);
    assert PrintedTag(name, t.attrs) + CloseOf(t.children) == (LESSTHAN + name) + rest;
    HasAtSplit(b, p, LESSTHAN + name, rest);
    AfterName(t.attrs, t.children);
    HasAtHead(b, p + 1 + |name|, rest);
    NameStep(b, ps, ev, p, name);
    NameStep(b, ps, NO_EVENT, p, name);
  }

  lemma AfterName(attrs: seq<Attribute>, ts: seq<Node>)
    ensures var rest := PrintedAttrs(attrs) + CloseOf(ts); rest != [] && Punctuation(rest[0])
  {
    hide Escaped;
    if attrs != [] {
      assert PrintedAttr(attrs[0])[0] == SPACE;
    }
  }

  // At the end of the buffer, or in the white space before it, the document is done.
  lemma EndOfInput(b: seq<byte>, ps: ParserState, stack: seq<Frame>, nodes: nat, fuel: nat)
    requires Ready(b, ps, |b|) && stack != [] && nodes >= 1 && fuel >= 1
    ensures Run(b, ps, NO_EVENT, stack, nodes, fuel) == Done(stack)
  {
    hide NextToken;
    if At(b, ps.scan.pos) != 0 {
      TokenHere(b, ps.scan, |b|);
      var x := ps.scan.(pos := |b|);
      AtZero(b, x);
      StepIs(b, ps, NO_EVENT, x, []);
      assert NextNode(b, ps.(scan := x), NO_EVENT, fuel - 1) == Return(ps.(scan := x), NO_EVENT);
    }
  }

  lemma AtZero(b: seq<byte>, x: Scanner)
    requires At(b, x.pos) == 0
    ensures NextToken(b, x) == Took((x, []))
  {
  }

  // Printing any document of readable elements and parsing the text gives the document back,
  // whatever the in-out parameters hold at first. The parse ends by itself: it needs at most
  // one call per printed byte, with three turns each.
  lemma PrintParse(doc: seq<Node>, ev: Event, nodes: nat, fuel: nat)
    requires doc != [] && forall i :: 0 <= i < |doc| ==> doc[i].Element? && Readable(doc[i])
    requires nodes > |PrintedAll(doc)| && fuel >= 3
    ensures ParseBuffer(PrintedAll(doc), ev, nodes, fuel) == Done([Frame(DOCUMENT_NAME, [], doc)])
  {
    hide *;
    var b := PrintedAll(doc);
    WholeBuffer(b);
    FirstStateReady(b, doc);
    var n, ps' := ParseChildren(b, FIRST_STATE, 0, doc, EMPTY_DOCUMENT, fuel);
    AllParts(b, 0, doc);
    ElementParts(doc[0]);
    FirstCall(b, FIRST_STATE, ev, 0, doc[0], fuel - 1);
    NonEmptyElement(doc[0]);
    FirstRun(b, ev, nodes, fuel);
    StepsRun(b, FIRST_STATE, EMPTY_DOCUMENT, n, nodes - n, fuel);
    DocumentFrame(doc);
    EndOfInput(b, ps', [Frame(DOCUMENT_NAME, [], doc)], nodes - n, fuel);
  }

  lemma WholeBuffer(b: seq<byte>)
    ensures HasAt(b, 0, b)
  {
  }

  lemma FirstStateReady(b: seq<byte>, doc: seq<Node>)
    requires forall i :: 0 <= i < |doc| ==> doc[i].Element? && Readable(doc[i])
    ensures Ready(b, FIRST_STATE, 0) && Before(b, FIRST_STATE, 0) && !FIRST_STATE.scan.inAttrib && EMPTY_DOCUMENT != []
    ensures ReadableChildren(doc) && TextPlace(FIRST_STATE, doc, 0)
  {
    hide Readable;
  }

  // The parameters' first values do not matter when they do not for the first call.
  lemma FirstRun(b: seq<byte>, ev: Event, nodes: nat, fuel: nat)
    requires b != [] && nodes > 0
    requires !FIRST_STATE.scan.inAttrib
    requires NextNode(b, FIRST_STATE, ev, fuel) == NextNode(b, FIRST_STATE, NO_EVENT, fuel)
    ensures ParseBuffer(b, ev, nodes, fuel) == Run(b, FIRST_STATE, NO_EVENT, EMPTY_DOCUMENT, nodes, fuel)
  {
    hide NextNode, Apply;
  }

  lemma DocumentFrame(doc: seq<Node>)
    ensures AddChildren(EMPTY_DOCUMENT, doc) == [Frame(DOCUMENT_NAME, [], doc)]
  {
    assert [] + doc == doc;
  }

  lemma NonEmptyElement(t: Node)
    requires t.Element?
    ensures Printed(t) != []
  {
  }
}
