// Every way to write a document that is described here is parsed to that document: white space in tags
// and between them, markup between them, references in values and text, and empty-element tags
// (src/upnpdom/Parser.cpp:463-936, src/upnpdom/Document.cpp:167-245).
module Renderings {
  import opened Bytes
  import opened Utf8
  import opened CharTables
  import opened Escape
  import opened Lexer
  import opened Reader
  import opened Tree
  import opened Tokens
  import opened Builder
  import opened RoundTrip
  import opened Prologs
  import R = References

  // ---- documents as they are written

  // White space, and then comments, instructions and declarations with white space behind each.
  datatype Gap = Gap(white: seq<byte>, pieces: seq<Piece>)

  // A text with each character written in some way.
  datatype Spelling = Spelling(texts: seq<seq<byte>>, cs: seq<XmlChar>)

  // An attribute, with the white space before it and around its equals sign.
  datatype Attr = Attr(before: seq<byte>, name: seq<byte>, left: seq<byte>, right: seq<byte>, value: Spelling)

  // An element with what stands in front of it: tail is the white space at the end of its start tag, left
  // and right the one in its end tag, and the gap of its body is in front of the end tag.
  datatype Elem = Elem(gap: Gap, name: seq<byte>, attrs: seq<Attr>, tail: seq<byte>, body: Body)
  datatype Body =
    | SelfClosed
    | Full(text: Option<Spelling>, children: seq<Elem>, gap: Gap, left: seq<byte>, right: seq<byte>)

  function GapText(g: Gap): seq<byte> {
    Front(g.white, g.pieces)
  }

  function Raw(s: Spelling): seq<byte> {
    R.Joined(s.texts)
  }

  function AttrText(a: Attr): seq<byte> {
    a.before + (a.name + (a.left + ([61] + (a.right + ([34] + (Raw(a.value) + [34]))))))
  }

  function AttrsText(attrs: seq<Attr>): seq<byte> {
    if attrs == [] then [] else AttrText(attrs[0]) + AttrsText(attrs[1..])
  }

  function CloseText(body: Body): seq<byte> {
    if body.SelfClosed? then [47, 62] else [62]
  }

  function EndText(name: seq<byte>, left: seq<byte>, right: seq<byte>): seq<byte> {
    [60, 47] + (left + (name + (right + [62])))
  }

  // A start tag, or an empty-element tag.
  function OpenText(e: Elem): seq<byte> {
    [60] + (e.name + (AttrsText(e.attrs) + (e.tail + CloseText(e.body))))
  }

  function ElemText(e: Elem): seq<byte>
    decreases e
  {
    OpenText(e) + BodyText(e.body, e.name)
  }

  function BodyText(body: Body, name: seq<byte>): seq<byte>
    decreases body
  {
    if body.SelfClosed? then []
    else
      (if body.text.Some? then Raw(body.text.value) else [])
      + (ChildrenText(body.children) + (GapText(body.gap) + EndText(name, body.left, body.right)))
  }

  function ChildrenText(cs: seq<Elem>): seq<byte>
    decreases cs
  {
    if cs == [] then [] else GapText(cs[0].gap) + (ElemText(cs[0]) + ChildrenText(cs[1..]))
  }

  // ---- which are well-formed

  predicate GapRight(g: Gap) {
    IsSpace(g.white) && IsProlog(g.pieces)
  }

  ghost predicate Spelled(s: Spelling) {
    |s.texts| == |s.cs| && s.cs != [] && forall i :: 0 <= i < |s.cs| ==> R.Spells(s.texts[i], s.cs[i])
  }

  // White space before its name, and no quote in its value but as a reference.
  ghost predicate AttrRight(a: Attr) {
    && a.before != [] && IsSpace(a.before) && IsSpace(a.left) && IsSpace(a.right) && IsName(a.name)
    && Spelled(a.value) && 34 !in Raw(a.value)
  }

  ghost predicate AttrsRight(attrs: seq<Attr>) {
    forall i :: 0 <= i < |attrs| ==> AttrRight(attrs[i])
  }

  // Behind white space stands a byte that does not begin the punctuation of a tag.
  predicate BeginsAt(raw: seq<byte>, k: nat) {
    && k < |raw| && IsSpace(raw[..k]) && !IsSpace([raw[k]])
    && raw[k] != 62 && !(raw[k] == 47 && k + 1 < |raw| && raw[k + 1] == 62)
  }

  // A text has more than white space and no < but as a reference; it does not begin with > or />, and is
  // not equal to any punctuation of tags.
  ghost predicate TextRight(s: Spelling) {
    && Spelled(s) && 60 !in Raw(s) && (exists k: nat :: BeginsAt(Raw(s), k)) && IsWord(Encode(s.cs))
  }

  // What is behind a text begins with a tag, an instruction or a declaration.
  predicate Tight(g: Gap) {
    g.white == [] && (g.pieces != [] ==> g.pieces[0].kind != Comment)
  }

  function FirstGap(cs: seq<Elem>, gap: Gap): Gap {
    if cs == [] then gap else cs[0].gap
  }

  ghost predicate ElemRight(e: Elem)
    decreases e
  {
    && IsName(e.name) && AttrsRight(e.attrs) && IsSpace(e.tail)
    && match e.body
       case SelfClosed => true
       case Full(text, children, gap, left, right) =>
         && ChildrenRight(children) && GapRight(gap) && IsSpace(left) && IsSpace(right)
         && (text.Some? ==> TextRight(text.value) && Tight(FirstGap(children, gap)))
  }

  ghost predicate ChildrenRight(cs: seq<Elem>)
    decreases cs
  {
    forall i :: 0 <= i < |cs| ==> GapRight(cs[i].gap) && ElemRight(cs[i])
  }

  // ---- which document they are

  function AttrOf(a: Attr): Attribute {
    Attribute(a.name, Encode(a.value.cs))
  }

  function AttrsOf(attrs: seq<Attr>): (r: seq<Attribute>)
    ensures |r| == |attrs|
  {
    if attrs == [] then [] else [AttrOf(attrs[0])] + AttrsOf(attrs[1..])
  }

  function TreeOf(e: Elem): (t: Node)
    ensures t.Element?
    decreases e
  {
    Element(e.name, AttrsOf(e.attrs), BodyOf(e.body))
  }

  function BodyOf(body: Body): seq<Node>
    decreases body
  {
    if body.SelfClosed? then []
    else (if body.text.Some? then [Text(Encode(body.text.value.cs))] else []) + TreesOf(body.children)
  }

  function TreesOf(cs: seq<Elem>): seq<Node>
    decreases cs
  {
    if cs == [] then [] else [TreeOf(cs[0])] + TreesOf(cs[1..])
  }

  // ---- gaps

  // A < that begins a tag, with nothing to report in front of it.
  ghost predicate Skips(b: seq<byte>, p: nat, q: nat) {
    && At(b, q) == LESS && At(b, q + 1) != 33 && At(b, q + 1) != 63
    && exists white, pieces :: GapBetween(b, p, q, white, pieces)
  }

  predicate GapBetween(b: seq<byte>, p: nat, q: nat, white: seq<byte>, pieces: seq<Piece>) {
    && IsSpace(white) && IsProlog(pieces)
    && HasAt(b, p, white) && HasAt(b, p + |white|, PrologText(pieces)) && q == p + |white| + |PrologText(pieces)|
  }

  lemma GapSkips(b: seq<byte>, p: nat, g: Gap)
    requires GapRight(g) && HasAt(b, p, GapText(g))
    requires var q := p + |GapText(g)|; At(b, q) == LESS && At(b, q + 1) != 33 && At(b, q + 1) != 63
    ensures Skips(b, p, p + |GapText(g)|)
  {
    hide IsProlog, IsSpace, HasAt;
    HasAtSplit(b, p, g.white, PrologText(g.pieces));
    assert GapBetween(b, p, p + |GapText(g)|, g.white, g.pieces);
  }

  // The token behind a gap does not depend on where in front of it the scanner stands.
  lemma SkipsToken(b: seq<byte>, x: Scanner, q: nat)
    requires !x.inAttrib && Skips(b, x.pos, q)
    ensures TokenAfterWhite(b, x) == TokenAfterWhite(b, x.(pos := q)) && At(b, x.pos) != 0 && At(b, q) != 0
  {
    hide IsProlog, IsSpace, HasAt, NextToken;
    var white, pieces :| GapBetween(b, x.pos, q, white, pieces);
    var m := x.pos + |white|;
    SpaceIsWhite(b, x.pos, white);
    LessIsSolid(b, q);
    NoWhites(b, q);
    TokenHere(b, x.(pos := q), q);
    PiecesToken(b, x.(pos := m), pieces, q);
    TokenHere(b, x, m);
    NotAtEnd(b, x.pos, m);
  }

  // Markup before a tag does not matter to a token, wherever a tag has ended before.
  lemma PiecesToken(b: seq<byte>, x: Scanner, ps: seq<Piece>, q: nat)
    requires !x.inAttrib && IsProlog(ps) && HasAt(b, x.pos, PrologText(ps)) && q == x.pos + |PrologText(ps)|
    requires At(b, q) == LESS && At(b, q + 1) != 33 && At(b, q + 1) != 63
    ensures NextToken(b, x) == NextToken(b, x.(pos := q))
    ensures !IsWhite(At(b, x.pos)) && At(b, x.pos) != 0
  {
    hide PickToken, TakePicked, SkipMarkup, HasAt, IsProlog, AtMarkup;
    NoMarkup(b, q);
    LessIsSolid(b, q);
    InBuffer(b, q);
    PrologSkipped(b, x.pos, ps, x.tagVal);
    SkipNothing(b, q, x.tagVal);
    NextSolid(b, x.pos, ps);
    LessPick(b, q, x.tagVal, x.save);
    if ps != [] {
      FirstMark(b, x.pos, ps);
    } else {
      NoPieces(ps);
    }
  }

  lemma LessPick(b: seq<byte>, q: nat, tagVal: bool, save: Option<nat>)
    requires At(b, q) == LESS
    ensures PickToken(b, q, tagVal, save) == PickToken(b, q, false, save)
  {
    hide IsNameCh, ToInt;
  }

  lemma SameStep(b: seq<byte>, ps: ParserState, x: Scanner, ev: Event)
    requires !ps.scan.inAttrib && !x.inAttrib && TokenAfterWhite(b, ps.scan) == TokenAfterWhite(b, x)
    ensures NodeStep(b, ps, ev) == NodeStep(b, ps.(scan := x), ev)
  {
    hide TokenAfterWhite, TagName, AttributeValue;
  }

  // So a call from in front of a gap is one from behind it.
  lemma GapCall(b: seq<byte>, ps: ParserState, ev: Event, q: nat, fuel: nat)
    requires !ps.scan.inAttrib && Skips(b, ps.scan.pos, q) && fuel >= 1
    ensures NextNode(b, ps, ev, fuel) == NextNode(b, ps.(scan := ps.scan.(pos := q)), ev, fuel)
  {
    hide NodeStep, Skips;
    SkipsToken(b, ps.scan, q);
    SameStep(b, ps, ps.scan.(pos := q), ev);
  }

  // ---- values and texts

  lemma {:induction false} RawParts(texts: seq<seq<byte>>, cs: seq<XmlChar>)
    requires |texts| == |cs| && forall i :: 0 <= i < |cs| ==> R.Spells(texts[i], cs[i])
    ensures 0 !in R.Joined(texts) && |R.Joined(texts)| >= |cs|
    decreases |cs|
  {
    hide R.Spells;
    if cs != [] {
      var text := texts[0];
      R.SpelledNonZero(text, cs[0]);
      assert text[0..|text|] == text;
      R.SpelledRead(text, 0, text, cs[0]);
      RawParts(texts[1..], cs[1..]);
    }
  }

  lemma SpellingRead(b: seq<byte>, p: nat, s: Spelling)
    requires Spelled(s) && HasAt(b, p, Raw(s))
    ensures Raw(s) != [] && 0 !in Raw(s) && Encode(s.cs) != [] && Token(b, p, |Raw(s)|) == Some(Encode(s.cs))
  {
    hide R.Spells, Unescaped, HasAt;
    RawParts(s.texts, s.cs);
    R.TextRead(b, p, s.texts, s.cs);
    CharIsLong(s.cs[0]);
  }

  lemma CharIsLong(c: XmlChar)
    ensures ToUtf8(c) != []
  {
    hide ToUtf8;
  }

  // A value up to its closing quote.
  lemma SpelledValue(b: seq<byte>, x: Scanner, s: Spelling)
    requires x.inAttrib && Spelled(s) && 34 !in Raw(s) && HasAt(b, x.pos, Raw(s)) && At(b, x.pos + |Raw(s)|) == 34
    ensures NextToken(b, x) == Took((x.(pos := x.pos + |Raw(s)|), Encode(s.cs))) && Encode(s.cs) != []
  {
    hide Token, AtMarkup, ScanUntil, PickToken, SkipMarkup, Spelled, Raw, Encode;
    SpellingRead(b, x.pos, s);
    ScanPast(b, x.pos, Raw(s), QUOTE);
    HasAtHead(b, x.pos, Raw(s));
  }

  // What a text begins with, behind white space.
  lemma RawSolid(b: seq<byte>, q: nat, s: Spelling)
    requires TextRight(s) && HasAt(b, q, Raw(s)) && At(b, q + |Raw(s)|) == LESS
    ensures var r := SkipWhite(b, q);
      && q <= r && Whites(b, q, r) && !IsWhite(At(b, r)) && At(b, r) != 0 && ContentByte(b, r)
  {
    hide *;
    var raw := Raw(s);
    RightParts(s);
    SpellingRead(b, q, s);
    var k := Beginning(s);
    Begins(b, q, raw, k);
    SkipWhites(b, q, q + k);
  }

  lemma Beginning(s: Spelling) returns (k: nat)
    requires TextRight(s)
    ensures BeginsAt(Raw(s), k) && k < |Raw(s)|
  {
    hide Raw, Spelled, IsWord, IsSpace;
    k :| BeginsAt(Raw(s), k);
  }

  lemma Begins(b: seq<byte>, q: nat, raw: seq<byte>, k: nat)
    requires BeginsAt(raw, k) && HasAt(b, q, raw) && 60 !in raw && 0 !in raw && At(b, q + |raw|) == LESS
    ensures Whites(b, q, q + k) && !IsWhite(At(b, q + k)) && At(b, q + k) != 0 && ContentByte(b, q + k)
  {
    HasAtIndex(b, q, raw);
    assert b[q..q + k] == raw[..k];
    SpaceIsWhite(b, q, raw[..k]);
    assert At(b, q + k) == raw[k] && raw[k] in raw;
    if k + 1 < |raw| {
      assert At(b, q + (k + 1)) == raw[k + 1];
    } else {
      assert q + (k + 1) == q + |raw|;
    }
    NoSpace(raw[k]);
    hide HasAt;
  }

  lemma NoSpace(c: byte)
    requires !IsSpace([c])
    ensures !IsWhite(c)
  {
    assert [c][0] == c;
  }

  lemma RightParts(s: Spelling)
    requires TextRight(s)
    ensures Spelled(s) && 60 !in Raw(s) && IsWord(Encode(s.cs))
  {
    hide Spelled, Raw, IsWord, BeginsAt;
  }

  // Text behind the > at g, up to markup that is no comment.
  ghost predicate TextThere(b: seq<byte>, g: nat, s: Spelling) {
    var e := g + 1 + |Raw(s)|;
    TextRight(s) && HasAt(b, g + 1, Raw(s)) && At(b, e) == LESS && !StartsWith(b, e, BEGIN_COMMENT)
  }

  lemma SpelledContent(b: seq<byte>, x: Scanner, g: nat, s: Spelling)
    requires TextThere(b, g, s) && !x.inAttrib && x.tagVal && x.save == Some(g) && ContentByte(b, x.pos)
    ensures NextToken(b, x) == Took((x.(pos := g + 1 + |Raw(s)|, tagVal := false), Encode(s.cs)))
  {
    hide Token, AtMarkup, ScanUntil, SkipMarkup, IsNameCh, ToInt, ContentEnd, Spelled, Raw, Encode, HasAt;
    SpellingRead(b, g + 1, s);
    NoMarkup(b, x.pos);
    SkipNothing(b, x.pos, true);
    ContentEndAt(b, g + 1, Raw(s));
    AtLessInside(b, g + 1 + |Raw(s)|);
    AtSolidInside(b, x.pos);
  }

  lemma AtLessInside(b: seq<byte>, p: nat)
    ensures At(b, p) == LESS ==> p < |b|
  {
  }

  lemma AtSolidInside(b: seq<byte>, p: nat)
    ensures At(b, p) != 0 ==> p < |b|
  {
  }

  // The text event.
  lemma SpelledText(b: seq<byte>, ps: ParserState, g: nat, s: Spelling, fuel: nat)
    requires TextThere(b, g, s) && fuel >= 1
    ensures NextNode(b, Opened(ps, g), NO_EVENT, fuel) ==
      Return(ParserState(Scanner(g + 1 + |Raw(s)|, false, Some(g), false), false, false, ps.lastElem),
             Event(TextNode, TEXT_NAME, Some(Encode(s.cs)), false))
  {
    hide *;
    var ps1, r := Opened(ps, g), SkipWhite(b, g + 1);
    var y := Scanner(g + 1 + |Raw(s)|, false, Some(g), false);
    ThereParts(b, g, s);
    OpenedIs(ps, g);
    RawSolid(b, g + 1, s);
    TokenHere(b, ps1.scan, r);
    NotAtEnd(b, g + 1, r);
    SpelledContent(b, ps1.scan.(pos := r), g, s);
    StepIs(b, ps1, NO_EVENT, y, Encode(s.cs));
    OnWord(b, ps1, y, Encode(s.cs));
    TurnReturns(b, ps1, NO_EVENT, fuel);
  }

  lemma ThereParts(b: seq<byte>, g: nat, s: Spelling)
    requires TextThere(b, g, s)
    ensures TextRight(s) && IsWord(Encode(s.cs)) && HasAt(b, g + 1, Raw(s)) && At(b, g + 1 + |Raw(s)|) == LESS
  {
    hide Raw, Spelled;
  }

  lemma OnWord(b: seq<byte>, ps: ParserState, x: Scanner, tok: seq<byte>)
    requires IsWord(tok) && !ps.attrFound && !x.inAttrib
    ensures OnToken(b, ps, NO_EVENT, x, tok) == Return(ps.(scan := x), Event(TextNode, TEXT_NAME, Some(tok), false))
  {
  }

  // ---- start tags

  // White space from one place to another.
  lemma SpaceThere(b: seq<byte>, p: nat, white: seq<byte>)
    requires IsSpace(white) && HasAt(b, p, white)
    ensures Whites(b, p, p + |white|)
  {
    hide HasAt;
    SpaceIsWhite(b, p, white);
  }

  // The scanner behind the name of a start tag, and the event so far.
  function Naming(x: Scanner, p: nat, name: seq<byte>): ParserState {
    ParserState(Scanner(p + 1 + |name|, false, x.save, false), true, false, name)
  }

  function NameEvent(name: seq<byte>): Event {
    Event(ElementNode, name, None, false)
  }

  // The > of a tag without attributes.
  lemma TagEnds(b: seq<byte>, ps: ParserState, p: nat, name: seq<byte>, g: nat, fuel: nat)
    requires Ready(b, ps, p) && IsName(name) && fuel >= 2
    requires HasAt(b, p, LESSTHAN + name) && Punctuation(At(b, p + 1 + |name|))
    requires Whites(b, p + 1 + |name|, g) && At(b, g) == GREATER
    ensures NextNode(b, ps, NO_EVENT, fuel) == Return(Opened(Naming(ps.scan, p, name), g), NameEvent(name))
  {
    hide *;
    SignFacts(b, g);
    ReadyParts(b, ps, p, g);
    NameStep(b, ps, NO_EVENT, p, name);
    var ps1, ev1 := Naming(ps.scan, p, name), NameEvent(name);
    NamingIs(ps.scan, p, name);
    var y := Scanner(g + 1, true, Some(g), false);
    OpenedIs(ps1, g);
    TurnGoesOn(b, ps, NO_EVENT, fuel);
    TokenHere(b, ps1.scan, g);
    NotAtEnd(b, p + 1 + |name|, g);
    GreaterToken(b, ps1.scan.(pos := g));
    StepIs(b, ps1, ev1, y, GREATERTHAN);
    OnGreater(b, ps1, ev1, y);
    TurnReturns(b, ps1, ev1, fuel - 1);
  }

  lemma NamingIs(x: Scanner, p: nat, name: seq<byte>)
    ensures Naming(x, p, name) == ParserState(Scanner(p + 1 + |name|, false, x.save, false), true, false, name)
    ensures NameEvent(name) == Event(ElementNode, name, None, false)
    ensures NameEvent(name).kind == ElementNode && NameEvent(name).(isEnd := false) == NameEvent(name)
  {
  }

  // The /> of a tag without attributes is left for the next call.
  lemma EmptyTagEnds(b: seq<byte>, ps: ParserState, p: nat, name: seq<byte>, g: nat, fuel: nat)
    requires Ready(b, ps, p) && IsName(name) && fuel >= 2
    requires HasAt(b, p, LESSTHAN + name) && Punctuation(At(b, p + 1 + |name|))
    requires Whites(b, p + 1 + |name|, g) && At(b, g) == SLASH && At(b, g + 1) == GREATER
    ensures NextNode(b, ps, NO_EVENT, fuel)
         == Return(ParserState(Scanner(g, true, ps.scan.save, false), true, false, name), NameEvent(name))
  {
    hide *;
    SignFacts(b, g);
    ReadyParts(b, ps, p, g);
    NameStep(b, ps, NO_EVENT, p, name);
    var ps1, ev1 := Naming(ps.scan, p, name), NameEvent(name);
    NamingIs(ps.scan, p, name);
    var y := Scanner(g + 2, true, ps.scan.save, false);
    TurnGoesOn(b, ps, NO_EVENT, fuel);
    TokenHere(b, ps1.scan, g);
    NotAtEnd(b, p + 1 + |name|, g);
    CompleteToken(b, ps1.scan.(pos := g));
    StepIs(b, ps1, ev1, y, COMPLETETAG);
    OnComplete(b, ps1, ev1, y);
    TurnReturns(b, ps1, ev1, fuel - 1);
  }

  // Before an attribute's name the tag is reported, and the name put back.
  lemma AttrFollows(b: seq<byte>, ps: ParserState, p: nat, name: seq<byte>, q: nat, a: seq<byte>, fuel: nat)
    requires Ready(b, ps, p) && IsName(name) && IsName(a) && fuel >= 2
    requires HasAt(b, p, LESSTHAN + name) && Punctuation(At(b, p + 1 + |name|))
    requires Whites(b, p + 1 + |name|, q) && q > p + 1 + |name|
    requires HasAt(b, q, a) && Punctuation(At(b, q + |a|))
    ensures NextNode(b, ps, NO_EVENT, fuel)
         == Return(ParserState(Scanner(q - 1, false, ps.scan.save, false), true, false, name), NameEvent(name))
  {
    hide *;
    ReadyParts(b, ps, p, p);
    NameStep(b, ps, NO_EVENT, p, name);
    var ps1, ev1 := Naming(ps.scan, p, name), NameEvent(name);
    NamingIs(ps.scan, p, name);
    var y := ps1.scan.(pos := q);
    var z := y.(pos := q + |a|);
    TurnGoesOn(b, ps, NO_EVENT, fuel);
    NameToken(b, y, a);
    SolidIsNoZero(b, q);
    TokenHere(b, ps1.scan, q);
    NotAtEnd(b, p + 1 + |name|, q);
    StepIs(b, ps1, ev1, z, a);
    OnName(b, ps1, ev1, z, a);
    PutBackIs(ps1, ev1, z, |a| + 1);
    TurnReturns(b, ps1, ev1, fuel - 1);
  }

  lemma SolidIsNoZero(b: seq<byte>, q: nat)
    requires !Punctuation(At(b, q))
    ensures At(b, q) != 0
  {
  }

  // ---- attributes

  // Inside a start tag, with white space up to the name of one more attribute.
  ghost predicate AtAttr(b: seq<byte>, ps: ParserState, q: nat) {
    !ps.scan.inAttrib && !ps.scan.tagVal && ps.attrFound && Whites(b, ps.scan.pos, q)
  }

  // Where the parts of an attribute stand.
  lemma AttrPlaces(b: seq<byte>, p: nat, a: Attr)
    requires HasAt(b, p, AttrText(a))
    ensures var q := p + |a.before|;
      var l := q + |a.name|;
      var m := l + |a.left|;
      var r := m + 1 + |a.right|;
      var e := r + 1 + |Raw(a.value)|;
      && HasAt(b, p, a.before) && HasAt(b, q, a.name) && HasAt(b, l, a.left) && At(b, m) == 61
      && HasAt(b, m + 1, a.right) && At(b, r) == 34 && HasAt(b, r + 1, Raw(a.value)) && At(b, e) == 34
      && p + |AttrText(a)| == e + 1
  {
    hide *;
    var q := p + |a.before|;
    var l := q + |a.name|;
    var m := l + |a.left|;
    var r := m + 1 + |a.right|;
    var ends := [34] + (Raw(a.value) + [34]);
    AttrTextIs(a);
    ThreePlaces(b, p, a.before, a.name, a.left, [61] + (a.right + ends));
    HasAtSplit(b, m, [61], a.right + ends);
    HasAtHead(b, m, [61]);
    HasAtSplit(b, m + 1, a.right, ends);
    QuotedPlaces(b, r, Raw(a.value));
  }

  lemma ThreePlaces(b: seq<byte>, p: nat, a: seq<byte>, c: seq<byte>, d: seq<byte>, rest: seq<byte>)
    requires HasAt(b, p, a + (c + (d + rest)))
    ensures HasAt(b, p, a) && HasAt(b, p + |a|, c) && HasAt(b, p + |a| + |c|, d)
    ensures HasAt(b, p + |a| + |c| + |d|, rest)
  {
    hide HasAt;
    HasAtSplit(b, p, a, c + (d + rest));
    HasAtSplit(b, p + |a|, c, d + rest);
    HasAtSplit(b, p + |a| + |c|, d, rest);
  }

  lemma AttrTextIs(a: Attr)
    ensures var ends := [34] + (Raw(a.value) + [34]);
      && AttrText(a) == a.before + (a.name + (a.left + ([61] + (a.right + ends))))
      && |AttrText(a)| == |a.before| + |a.name| + |a.left| + 1 + |a.right| + |ends| && |ends| == |Raw(a.value)| + 2
  {
    hide Raw;
  }

  lemma QuotedPlaces(b: seq<byte>, r: nat, raw: seq<byte>)
    requires HasAt(b, r, [34] + (raw + [34]))
    ensures At(b, r) == 34 && HasAt(b, r + 1, raw) && At(b, r + 1 + |raw|) == 34
  {
    hide HasAt;
    HasAtSplit(b, r, [34], raw + [34]);
    HasAtHead(b, r, [34]);
    HasAtSplit(b, r + 1, raw, [34]);
    HasAtHead(b, r + 1 + |raw|, [34]);
  }

  // The equals sign, the quotes and the value between them, with white space around the sign.
  lemma SpelledAttr(b: seq<byte>, x: Scanner, m: nat, r: nat, s: Spelling)
    requires !x.inAttrib && !x.tagVal && Spelled(s) && 34 !in Raw(s)
    requires Whites(b, x.pos, m) && At(b, m) == 61 && Whites(b, m + 1, r) && At(b, r) == 34
    requires HasAt(b, r + 1, Raw(s)) && At(b, r + 1 + |Raw(s)|) == 34
    ensures AttributeValue(b, x) == Took((x.(pos := r + 2 + |Raw(s)|), Encode(s.cs)))
  {
    hide HasAt, NextToken, Spelled, Raw, Encode, TokenAfterWhite;
    TokenHere(b, x, m);
    SignToken(b, x.(pos := m));
    var y := x.(pos := m + 1);
    TokenHere(b, y, r);
    SignToken(b, y.(pos := r));
    var z := x.(pos := r + 1);
    SpelledValue(b, z.(inAttrib := true), s);
    SignToken(b, z.(pos := r + 1 + |Raw(s)|));
  }

  lemma SpelledAttrNode(b: seq<byte>, ps: ParserState, p: nat, a: Attr, fuel: nat)
    requires AtAttr(b, ps, p + |a.before|) && AttrRight(a) && HasAt(b, p, AttrText(a)) && fuel >= 1
    ensures NextNode(b, ps, NO_EVENT, fuel)
         == Return(ps.(scan := ps.scan.(pos := p + |AttrText(a)|), oneAttr := true),
                   Event(AttributeNode, a.name, Some(Encode(a.value.cs)), false))
  {
    hide *;
    var q := p + |a.before|;
    var m := q + |a.name| + |a.left|;
    var r := m + 1 + |a.right|;
    AttrPlaces(b, p, a);
    AttrParts(a);
    AtAttrParts(b, ps, q);
    SpaceThere(b, q + |a.name|, a.left);
    SpaceThere(b, m + 1, a.right);
    NameEnds(b, q + |a.name|, m);
    var x := ps.scan.(pos := q);
    var y := x.(pos := q + |a.name|);
    NameToken(b, x, a.name);
    SolidIsNoZero(b, q);
    TokenHere(b, ps.scan, q);
    NotAtEnd(b, ps.scan.pos, q);
    SpelledAttr(b, y, m, r, a.value);
    StepIs(b, ps, NO_EVENT, y, a.name);
    OnAttr(b, ps, y, a.name, y.(pos := p + |AttrText(a)|), Encode(a.value.cs));
    TurnReturns(b, ps, NO_EVENT, fuel);
  }

  lemma AttrParts(a: Attr)
    requires AttrRight(a)
    ensures a.before != [] && IsSpace(a.before) && IsSpace(a.left) && IsSpace(a.right) && IsName(a.name)
    ensures Spelled(a.value) && 34 !in Raw(a.value)
  {
  }

  lemma AtAttrParts(b: seq<byte>, ps: ParserState, q: nat)
    requires AtAttr(b, ps, q)
    ensures !ps.scan.inAttrib && !ps.scan.tagVal && ps.attrFound && Whites(b, ps.scan.pos, q)
  {
  }

  // A name ends where white space or an equals sign begins.
  lemma NameEnds(b: seq<byte>, p: nat, m: nat)
    requires Whites(b, p, m) && (At(b, m) == 61 || At(b, m) == GREATER || At(b, m) == SLASH)
    ensures Punctuation(At(b, p)) && !IsWhite(At(b, m)) && At(b, m) != 0
  {
  }

  lemma OnAttr(b: seq<byte>, ps: ParserState, x: Scanner, tok: seq<byte>, y: Scanner, v: seq<byte>)
    requires tok != [] && tok != LESSTHAN && tok != GREATERTHAN && tok != ENDTAG && tok != COMPLETETAG
    requires !x.inAttrib && ps.attrFound && AttributeValue(b, x) == Took((y, v))
    ensures !y.inAttrib
    ensures OnToken(b, ps, NO_EVENT, x, tok) ==
      Return(ps.(scan := y, oneAttr := true), Event(AttributeNode, tok, Some(v), false))
  {
    hide AttributeValue, TagName;
  }

  // ---- end tags

  lemma EndPlaces(b: seq<byte>, p: nat, name: seq<byte>, left: seq<byte>, right: seq<byte>)
    requires HasAt(b, p, EndText(name, left, right))
    ensures var n := p + 2 + |left|;
      var g := n + |name| + |right|;
      && At(b, p) == 60 && At(b, p + 1) == 47 && HasAt(b, p + 2, left) && HasAt(b, n, name)
      && HasAt(b, n + |name|, right) && At(b, g) == 62 && p + |EndText(name, left, right)| == g + 1
  {
    hide HasAt;
    HasAtSplit(b, p, [60, 47], left + (name + (right + [62])));
    HasAtHead(b, p, [60, 47]);
    assert [60, 47][1..] == [47];
    HasAtHead(b, p + 1, [47]);
    ThreePlaces(b, p + 2, left, name, right, [62]);
    HasAtHead(b, p + 2 + |left| + |name| + |right|, [62]);
  }

  // An end tag with white space in it.
  lemma SpacedEnd(b: seq<byte>, ps: ParserState, p: nat, name: seq<byte>, left: seq<byte>, right: seq<byte>, fuel: nat)
    requires !ps.scan.inAttrib && !ps.oneAttr && ps.scan.pos == p && fuel >= 2
    requires IsName(name) && IsSpace(left) && IsSpace(right) && HasAt(b, p, EndText(name, left, right))
    ensures NextNode(b, ps, NO_EVENT, fuel)
         == Return(Opened(ps, p + |EndText(name, left, right)| - 1), Event(ElementNode, name, None, true))
  {
    hide *;
    EndPlaces(b, p, name, left, right);
    var n := p + 2 + |left|;
    var g := n + |name| + |right|;
    var x := ps.scan;
    var y := x.(pos := p + 2, tagVal := false);
    var z, w := y.(pos := n + |name|), Scanner(g + 1, true, Some(g), false);
    var ps1, ev1 := ps.(scan := z), Event(ElementNode, name, None, true);
    OpenedIs(ps, g);
    EndSigns(b, p, g);
    SpaceThere(b, p + 2, left);
    SpaceThere(b, n + |name|, right);
    NameEnds(b, n + |name|, g);
    NoWhites(b, p);
    TokenHere(b, x, p);
    EndTagToken(b, x);
    NameToken(b, y.(pos := n), name);
    TokenHere(b, y, n);
    StepIs(b, ps, NO_EVENT, y, ENDTAG);
    OnEndTag(b, ps, NO_EVENT, y, z, name);
    TurnGoesOn(b, ps, NO_EVENT, fuel);
    TokenHere(b, z, g);
    NotAtEnd(b, n + |name|, g);
    GreaterToken(b, z.(pos := g));
    StepIs(b, ps1, ev1, w, GREATERTHAN);
    OnGreater(b, ps1, ev1, w);
    TurnReturns(b, ps1, ev1, fuel - 1);
  }

  lemma EndSigns(b: seq<byte>, p: nat, g: nat)
    requires At(b, p) == 60 && At(b, p + 1) == 47 && At(b, g) == 62
    ensures At(b, p) == LESS && At(b, p + 1) == SLASH && At(b, g) == GREATER
    ensures !IsWhite(At(b, p)) && At(b, p) != 0 && !IsWhite(At(b, g)) && At(b, g) != 0
  {
  }

  // The /> of an element.
  lemma SpacedEmptyEnd(b: seq<byte>, ps: ParserState, g: nat, fuel: nat)
    requires !ps.scan.inAttrib && Whites(b, ps.scan.pos, g) && At(b, g) == SLASH && At(b, g + 1) == GREATER && fuel >= 1
    ensures NextNode(b, ps, NO_EVENT, fuel)
         == Return(ParserState(ps.scan.(pos := g + 2, tagVal := true), true, false, ps.lastElem),
                   Event(ElementNode, ps.lastElem, None, true))
  {
    hide NextToken;
    TokenHere(b, ps.scan, g);
    NotAtEnd(b, ps.scan.pos, g);
    CompleteToken(b, ps.scan.(pos := g));
  }

  // ---- where the parser stands between calls

  // Directly behind what has been read, or before the > of a start tag with attributes at p - 1.
  ghost predicate Standing(b: seq<byte>, ps: ParserState, p: nat) {
    && !ps.scan.inAttrib
    && if ps.oneAttr then p > 0 && PendingEnd(b, ps, p - 1) else ps.scan.pos == p
  }

  ghost predicate PendingEnd(b: seq<byte>, ps: ParserState, g: nat) {
    !ps.scan.tagVal && Whites(b, ps.scan.pos, g) && At(b, g) == GREATER
  }

  function Passed(ps: ParserState, p: nat): ParserState {
    if ps.oneAttr && p > 0 then Opened(ps, p - 1) else ps
  }

  lemma PassedIs(b: seq<byte>, ps: ParserState, p: nat)
    requires Standing(b, ps, p)
    ensures !ps.scan.inAttrib
    ensures var s := Passed(ps, p); !s.scan.inAttrib && !s.oneAttr && s.scan.pos == p && s.lastElem == ps.lastElem
  {
  }

  // After attributes, the > is forgotten and the call goes on behind it.
  lemma EndForgotten(b: seq<byte>, ps: ParserState, g: nat, fuel: nat)
    requires !ps.scan.inAttrib && ps.oneAttr && PendingEnd(b, ps, g)
    ensures NextNode(b, ps, NO_EVENT, fuel + 1) == NextNode(b, Opened(ps, g), NO_EVENT, fuel)
  {
    hide NextToken;
    TokenHere(b, ps.scan, g);
    NotAtEnd(b, ps.scan.pos, g);
    GreaterToken(b, ps.scan.(pos := g));
  }

  lemma PassedStep(b: seq<byte>, ps: ParserState, p: nat, stack: seq<Frame>, fuel: nat)
    requires Standing(b, ps, p) && stack != [] && fuel >= 1
    ensures Step(b, ps, stack, fuel) == Step(b, Passed(ps, p), stack, if ps.oneAttr then fuel - 1 else fuel)
  {
    hide NextNode, Apply;
    if ps.oneAttr {
      EndForgotten(b, ps, p - 1, fuel - 1);
    }
  }

  // ---- whole start tags

  // Where the parts of a start tag stand.
  lemma OpenPlaces(b: seq<byte>, q: nat, e: Elem)
    requires HasAt(b, q, OpenText(e))
    ensures var a := q + 1 + |e.name|;
      var t := a + |AttrsText(e.attrs)|;
      var g := t + |e.tail|;
      && HasAt(b, q, [60] + e.name) && HasAt(b, a, AttrsText(e.attrs)) && HasAt(b, t, e.tail)
      && HasAt(b, g, CloseText(e.body)) && q + |OpenText(e)| == g + |CloseText(e.body)|
  {
    hide *;
    var attrs, tail, close := AttrsText(e.attrs), e.tail, CloseText(e.body);
    OpenTextIs(e);
    HasAtSplit(b, q, [60] + e.name, attrs + (tail + close));
    HasAtSplit(b, q + 1 + |e.name|, attrs, tail + close);
    HasAtSplit(b, q + 1 + |e.name| + |attrs|, tail, close);
  }

  lemma OpenTextIs(e: Elem)
    ensures var attrs, tail, close := AttrsText(e.attrs), e.tail, CloseText(e.body);
      && OpenText(e) == ([60] + e.name) + (attrs + (tail + close))
      && |OpenText(e)| == 1 + |e.name| + |attrs| + |tail| + |close|
  {
    hide AttrsText, CloseText;
  }

  lemma ElemPlaces(b: seq<byte>, q: nat, e: Elem)
    requires HasAt(b, q, ElemText(e))
    ensures HasAt(b, q, OpenText(e)) && HasAt(b, q + |OpenText(e)|, BodyText(e.body, e.name))
    ensures |ElemText(e)| == |OpenText(e)| + |BodyText(e.body, e.name)|
  {
    hide OpenText, BodyText, HasAt;
    HasAtSplit(b, q, OpenText(e), BodyText(e.body, e.name));
  }

  lemma ElemParts(e: Elem)
    requires ElemRight(e)
    ensures IsName(e.name) && AttrsRight(e.attrs) && IsSpace(e.tail)
  {
  }

  // The first of the attributes.
  lemma AttrsPlaces(b: seq<byte>, p: nat, attrs: seq<Attr>)
    requires attrs != [] && AttrsRight(attrs) && HasAt(b, p, AttrsText(attrs))
    ensures var q := p + |attrs[0].before|;
      && HasAt(b, p, AttrText(attrs[0])) && HasAt(b, p + |AttrText(attrs[0])|, AttrsText(attrs[1..]))
      && |AttrsText(attrs)| == |AttrText(attrs[0])| + |AttrsText(attrs[1..])|
      && AttrRight(attrs[0]) && Whites(b, p, q) && q > p && HasAt(b, q, attrs[0].name) && IsName(attrs[0].name)
      && Punctuation(At(b, q + |attrs[0].name|)) && Punctuation(At(b, p)) && AttrsRight(attrs[1..])
  {
    hide *;
    var a, q := attrs[0], p + |attrs[0].before|;
    AttrsTextIs(attrs);
    HasAtSplit(b, p, AttrText(a), AttrsText(attrs[1..]));
    AttrPlaces(b, p, a);
    AttrParts(a);
    SpaceThere(b, p, a.before);
    SpaceThere(b, q + |a.name|, a.left);
    NameEnds(b, q + |a.name|, q + |a.name| + |a.left|);
    FirstIsWhite(b, p, q);
  }

  lemma AttrsTextIs(attrs: seq<Attr>)
    requires attrs != [] && AttrsRight(attrs)
    ensures AttrsText(attrs) == AttrText(attrs[0]) + AttrsText(attrs[1..])
    ensures AttrRight(attrs[0]) && AttrsRight(attrs[1..])
  {
    hide AttrRight, AttrText;
  }

  lemma FirstIsWhite(b: seq<byte>, p: nat, q: nat)
    requires Whites(b, p, q) && p < q
    ensures Punctuation(At(b, p))
  {
  }

  // Behind a start tag: before its />, or behind its >.
  ghost predicate TagRead(b: seq<byte>, ps: ParserState, e: Elem, g: nat) {
    && !ps.scan.inAttrib && ps.lastElem == e.name
    && if e.body.SelfClosed? then Whites(b, ps.scan.pos, g)
       else Standing(b, ps, g + 1) && Passed(ps, g + 1) == Opened(ps, g)
  }

  // The call that reports the element.
  lemma TagReported(b: seq<byte>, ps: ParserState, q: nat, e: Elem, fuel: nat) returns (ps1: ParserState)
    requires !ps.scan.inAttrib && !ps.oneAttr && ps.scan.pos == q && fuel >= 2
    requires ElemRight(e) && HasAt(b, q, OpenText(e))
    ensures NextNode(b, ps, NO_EVENT, fuel) == Return(ps1, NameEvent(e.name))
    ensures var a := q + 1 + |e.name|;
      var g := a + |AttrsText(e.attrs)| + |e.tail|;
      if e.attrs == [] then TagRead(b, ps1, e, g)
      else AtAttr(b, ps1, a + |e.attrs[0].before|) && ps1.lastElem == e.name
  {
    hide *;
    var a := q + 1 + |e.name|;
    var t := a + |AttrsText(e.attrs)|;
    var g := t + |e.tail|;
    OpenPlaces(b, q, e);
    ElemParts(e);
    SpaceThere(b, t, e.tail);
    CloseSigns(b, g, e.body);
    NoWhites(b, q);
    StandsReady(b, ps, q);
    LessIs60();
    if e.attrs != [] {
      AttrsPlaces(b, a, e.attrs);
      var w := a + |e.attrs[0].before|;
      AttrFollows(b, ps, q, e.name, w, e.attrs[0].name, fuel);
      ps1 := ParserState(Scanner(w - 1, false, ps.scan.save, false), true, false, e.name);
      AttrThere(b, ps1, a, w);
    } else {
      NoAttrsText();
      NameEnds(b, a, g);
      if e.body.SelfClosed? {
        EmptyTagEnds(b, ps, q, e.name, g, fuel);
        ps1 := ParserState(Scanner(g, true, ps.scan.save, false), true, false, e.name);
        NoWhites(b, g);
      } else {
        TagEnds(b, ps, q, e.name, g, fuel);
        NamingIs(ps.scan, q, e.name);
        ps1 := Opened(Naming(ps.scan, q, e.name), g);
        OpenedAgain(Naming(ps.scan, q, e.name), g);
      }
      NoAttrTag(b, ps1, e, g);
    }
  }

  lemma CloseSigns(b: seq<byte>, g: nat, body: Body)
    requires HasAt(b, g, CloseText(body))
    ensures body.SelfClosed? ==> At(b, g) == SLASH && At(b, g + 1) == GREATER && |CloseText(body)| == 2
    ensures body.Full? ==> At(b, g) == GREATER && |CloseText(body)| == 1
  {
    HasAtIndex(b, g, CloseText(body));
    assert At(b, g + 0) == CloseText(body)[0];
  }

  lemma LessIs60()
    ensures LESSTHAN == [60] && LESS == 60 && ENDTAG == [60, 47]
  {
  }

  lemma NoAttrsText()
    ensures AttrsText([]) == []
  {
  }

  lemma StandsReady(b: seq<byte>, ps: ParserState, q: nat)
    requires !ps.scan.inAttrib && !ps.oneAttr && ps.scan.pos == q
    ensures Ready(b, ps, q)
  {
  }

  lemma AttrThere(b: seq<byte>, ps: ParserState, a: nat, w: nat)
    requires Whites(b, a, w) && a < w && !ps.scan.inAttrib && !ps.scan.tagVal && ps.attrFound && ps.scan.pos == w - 1
    ensures AtAttr(b, ps, w)
  {
  }

  lemma NoAttrTag(b: seq<byte>, ps: ParserState, e: Elem, g: nat)
    requires !ps.scan.inAttrib && ps.lastElem == e.name
    requires if e.body.SelfClosed? then Whites(b, ps.scan.pos, g)
             else ps == Opened(ps, g)
    ensures TagRead(b, ps, e, g)
  {
  }

  lemma OpenedAgain(ps: ParserState, g: nat)
    ensures var o := Opened(ps, g);
      o == Opened(o, g) && o.lastElem == ps.lastElem && !o.scan.inAttrib && !o.oneAttr && o.scan.pos == g + 1
  {
  }

  // All attributes are reported, in order and with their values.
  lemma {:induction false} RunAttrs(b: seq<byte>, ps: ParserState, p: nat, attrs: seq<Attr>, stack: seq<Frame>,
                                    fuel: nat)
    requires attrs != [] && AttrsRight(attrs) && HasAt(b, p, AttrsText(attrs)) && stack != [] && fuel >= 1
    requires AtAttr(b, ps, p + |attrs[0].before|)
    ensures !ps.scan.inAttrib
    ensures Steps(b, ps, stack, |attrs|, fuel) ==
      Some((ps.(scan := ps.scan.(pos := p + |AttrsText(attrs)|), oneAttr := true), AddAttrs(stack, AttrsOf(attrs))))
    decreases |attrs|
  {
    hide *;
    var a, rest := attrs[0], attrs[1..];
    var stack1 := AddAttr(stack, AttrOf(a));
    AttrsPlaces(b, p, attrs);
    AtAttrParts(b, ps, p + |a.before|);
    SpelledAttrNode(b, ps, p, a, fuel);
    var p1 := p + |AttrText(a)|;
    var ps1 := ps.(scan := ps.scan.(pos := p1), oneAttr := true);
    AttrStep(b, ps, ps1, stack, a, fuel);
    AttrsOfParts(attrs, stack);
    if rest == [] {
      NoAttrsText();
      NoSteps(b, ps1, stack1, fuel);
    } else {
      AttrsPlaces(b, p1, rest);
      MoreAttrs(b, ps1, p1 + |rest[0].before|);
      RunAttrs(b, ps1, p1, rest, stack1, fuel);
    }
    StepThenSteps(b, ps, stack, ps1, stack1, |rest|, fuel);
  }

  lemma MoreAttrs(b: seq<byte>, ps: ParserState, q: nat)
    requires !ps.scan.inAttrib && !ps.scan.tagVal && ps.attrFound && Whites(b, ps.scan.pos, q)
    ensures AtAttr(b, ps, q)
  {
  }

  lemma AttrStep(b: seq<byte>, ps: ParserState, ps1: ParserState, stack: seq<Frame>, a: Attr, fuel: nat)
    requires !ps.scan.inAttrib && !ps1.scan.inAttrib && stack != []
    requires NextNode(b, ps, NO_EVENT, fuel) ==
      Return(ps1, Event(AttributeNode, a.name, Some(Encode(a.value.cs)), false))
    ensures AddAttr(stack, AttrOf(a)) != [] && Step(b, ps, stack, fuel) == Some((ps1, AddAttr(stack, AttrOf(a))))
  {
    hide NextNode, Encode;
  }

  lemma AttrsOfParts(attrs: seq<Attr>, stack: seq<Frame>)
    requires attrs != [] && stack != []
    ensures var stack1 := AddAttr(stack, AttrOf(attrs[0]));
      stack1 != [] && AddAttrs(stack1, AttrsOf(attrs[1..])) == AddAttrs(stack, AttrsOf(attrs))
    ensures attrs[1..] == [] ==> AddAttrs(stack, AttrsOf(attrs)) == AddAttr(stack, AttrOf(attrs[0]))
  {
    hide AttrOf;
    var t, rest := AttrOf(attrs[0]), AttrsOf(attrs[1..]);
    assert Top(stack).attrs + [t] + rest == Top(stack).attrs + ([t] + rest);
    if attrs[1..] == [] {
      assert [t] + rest == [t];
    }
  }

  lemma NoSteps(b: seq<byte>, ps: ParserState, stack: seq<Frame>, fuel: nat)
    requires !ps.scan.inAttrib && stack != []
    ensures Steps(b, ps, stack, 0, fuel) == Some((ps, stack))
  {
  }

  lemma StepThenSteps(b: seq<byte>, ps: ParserState, stack: seq<Frame>, ps1: ParserState, stack1: seq<Frame>, n: nat,
                      fuel: nat)
    requires !ps.scan.inAttrib && stack != [] && !ps1.scan.inAttrib && stack1 != []
    requires Step(b, ps, stack, fuel) == Some((ps1, stack1))
    ensures Steps(b, ps, stack, n + 1, fuel) == Steps(b, ps1, stack1, n, fuel)
  {
    hide Step;
  }

  // A whole start tag behind a gap: the element is opened and given its attributes.
  lemma RunTag(b: seq<byte>, ps: ParserState, p: nat, e: Elem, stack: seq<Frame>, fuel: nat) returns (ps2: ParserState)
    requires Standing(b, ps, p) && stack != [] && fuel >= 3
    requires ElemRight(e) && GapRight(e.gap)
    requires HasAt(b, p, GapText(e.gap)) && HasAt(b, p + |GapText(e.gap)|, OpenText(e))
    ensures !ps.scan.inAttrib
    ensures Steps(b, ps, stack, 1 + |e.attrs|, fuel) == Some((ps2, stack + [Frame(e.name, AttrsOf(e.attrs), [])]))
    ensures TagRead(b, ps2, e, p + |GapText(e.gap)| + 1 + |e.name| + |AttrsText(e.attrs)| + |e.tail|)
  {
    hide *;
    var q := p + |GapText(e.gap)|;
    var a := q + 1 + |e.name|;
    var stack1, f := stack + [Frame(e.name, [], [])], if ps.oneAttr then fuel - 1 else fuel;
    PassedIs(b, ps, p);
    PassedStep(b, ps, p, stack, fuel);
    OpenPlaces(b, q, e);
    ElemParts(e);
    TagSkips(b, p, e);
    var ps0 := Passed(ps, p);
    GapCall(b, ps0, NO_EVENT, q, f);
    var ps1 := TagReported(b, ps0.(scan := ps0.scan.(pos := q)), q, e, f);
    OpenStep(b, ps0, ps1, stack, e.name, f);
    if e.attrs == [] {
      ps2 := ps1;
      NoAttrsText();
      TagReadOutside(b, ps1, e, a + |AttrsText(e.attrs)| + |e.tail|);
      NoSteps(b, ps1, stack1, fuel);
      NoAttrsOf();
    } else {
      AtAttrParts(b, ps1, a + |e.attrs[0].before|);
      RunAttrs(b, ps1, a, e.attrs, stack1, fuel);
      ps2 := ps1.(scan := ps1.scan.(pos := a + |AttrsText(e.attrs)|), oneAttr := true);
      FrameAttrs(stack, e.name, AttrsOf(e.attrs));
      SpaceThere(b, a + |AttrsText(e.attrs)|, e.tail);
      CloseSigns(b, a + |AttrsText(e.attrs)| + |e.tail|, e.body);
      AttrTag(b, ps2, e, a + |AttrsText(e.attrs)| + |e.tail|);
    }
    StepThenSteps(b, ps, stack, ps1, stack1, |e.attrs|, fuel);
  }

  lemma NoAttrsOf()
    ensures AttrsOf([]) == []
  {
  }

  lemma TagSkips(b: seq<byte>, p: nat, e: Elem)
    requires ElemRight(e) && GapRight(e.gap)
    requires HasAt(b, p, GapText(e.gap)) && HasAt(b, p + |GapText(e.gap)|, OpenText(e))
    ensures Skips(b, p, p + |GapText(e.gap)|)
  {
    hide *;
    var q := p + |GapText(e.gap)|;
    OpenPlaces(b, q, e);
    ElemParts(e);
    HasAtSplit(b, q, [60], e.name);
    HasAtHead(b, q, [60]);
    FirstOfName(b, q + 1, e.name);
    SolidStart(b, q);
    GapSkips(b, p, e.gap);
  }

  lemma SolidStart(b: seq<byte>, q: nat)
    requires At(b, q) == 60 && (!Punctuation(At(b, q + 1)) || At(b, q + 1) == 47)
    ensures At(b, q) == LESS && At(b, q + 1) != 33 && At(b, q + 1) != 63
  {
  }

  lemma OpenStep(b: seq<byte>, ps: ParserState, ps1: ParserState, stack: seq<Frame>, name: seq<byte>, fuel: nat)
    requires !ps.scan.inAttrib && stack != []
    requires NextNode(b, ps, NO_EVENT, fuel) == Return(ps1, NameEvent(name))
    ensures Step(b, ps, stack, fuel) == Some((ps1, stack + [Frame(name, [], [])]))
    ensures !ps1.scan.inAttrib && stack + [Frame(name, [], [])] != []
  {
    hide NextNode;
  }

  lemma TagReadOutside(b: seq<byte>, ps: ParserState, e: Elem, g: nat)
    requires TagRead(b, ps, e, g)
    ensures !ps.scan.inAttrib && ps.lastElem == e.name
    ensures e.body.SelfClosed? ==> Whites(b, ps.scan.pos, g)
    ensures e.body.Full? ==> Standing(b, ps, g + 1) && Passed(ps, g + 1) == Opened(ps, g)
  {
  }

  lemma FrameAttrs(stack: seq<Frame>, name: seq<byte>, attrs: seq<Attribute>)
    requires stack + [Frame(name, [], [])] != []
    ensures AddAttrs(stack + [Frame(name, [], [])], attrs) == stack + [Frame(name, attrs, [])]
  {
    assert [] + attrs == attrs;
  }

  lemma AttrTag(b: seq<byte>, ps: ParserState, e: Elem, g: nat)
    requires !ps.scan.inAttrib && !ps.scan.tagVal && ps.oneAttr && ps.lastElem == e.name && Whites(b, ps.scan.pos, g)
    requires e.body.Full? ==> At(b, g) == GREATER
    ensures TagRead(b, ps, e, g)
  {
  }

  // ---- what an element contains

  lemma CloseStep(b: seq<byte>, ps: ParserState, ps1: ParserState, stack: seq<Frame>, f: Frame, fuel: nat)
    requires !ps.scan.inAttrib && !ps1.scan.inAttrib && stack != []
    requires NextNode(b, ps, NO_EVENT, fuel) == Return(ps1, Event(ElementNode, f.name, None, true))
    ensures Step(b, ps, stack + [f], fuel) == Some((ps1, AddChildren(stack, [Closed(f)])))
  {
    hide NextNode;
    assert (stack + [f])[..|stack|] == stack && Top(stack + [f]) == f;
    assert Pop(stack + [f]) == AddChildren(stack, [Closed(f)]);
  }

  // The text that may come first.
  lemma RunText(b: seq<byte>, ps: ParserState, g: nat, s: Spelling, stack: seq<Frame>, fuel: nat)
    returns (ps1: ParserState)
    requires Standing(b, ps, g + 1) && Passed(ps, g + 1) == Opened(ps, g) && TextThere(b, g, s)
    requires stack != [] && fuel >= 3
    ensures !ps.scan.inAttrib
    ensures Step(b, ps, stack, fuel) == Some((ps1, AddChildren(stack, [Text(Encode(s.cs))])))
    ensures Standing(b, ps1, g + 1 + |Raw(s)|)
  {
    hide *;
    PassedIs(b, ps, g + 1);
    PassedStep(b, ps, g + 1, stack, fuel);
    var f := if ps.oneAttr then fuel - 1 else fuel;
    SpelledText(b, ps, g, s, f);
    ps1 := ParserState(Scanner(g + 1 + |Raw(s)|, false, Some(g), false), false, false, ps.lastElem);
    OpenedAgain(ps, g);
    TextAdded(b, Opened(ps, g), ps1, stack, Encode(s.cs), f);
    StandsThere(b, ps1);
  }

  lemma TextAdded(b: seq<byte>, ps: ParserState, next: ParserState, stack: seq<Frame>, v: seq<byte>, fuel: nat)
    requires !ps.scan.inAttrib && !next.scan.inAttrib && stack != []
    requires NextNode(b, ps, NO_EVENT, fuel) == Return(next, Event(TextNode, TEXT_NAME, Some(v), false))
    ensures Step(b, ps, stack, fuel) == Some((next, AddChildren(stack, [Text(v)])))
  {
    hide NextNode;
  }

  lemma StandsThere(b: seq<byte>, ps: ParserState)
    requires !ps.scan.inAttrib && !ps.oneAttr
    ensures Standing(b, ps, ps.scan.pos)
  {
  }

  // A gap and an end tag close the innermost open element.
  lemma RunEnd(b: seq<byte>, ps: ParserState, p: nat, body: Body, f: Frame, stack: seq<Frame>, fuel: nat)
    returns (ps1: ParserState)
    requires Standing(b, ps, p) && body.Full? && GapRight(body.gap) && IsSpace(body.left) && IsSpace(body.right)
    requires IsName(f.name) && stack != [] && fuel >= 3
    requires HasAt(b, p, GapText(body.gap) + EndText(f.name, body.left, body.right))
    ensures !ps.scan.inAttrib && Step(b, ps, stack + [f], fuel) == Some((ps1, AddChildren(stack, [Closed(f)])))
    ensures Standing(b, ps1, p + |GapText(body.gap)| + |EndText(f.name, body.left, body.right)|) && !ps1.oneAttr
  {
    hide *;
    ps1 := EndReported(b, ps, p, body, f.name, fuel);
    var fuel1 := if ps.oneAttr then fuel - 1 else fuel;
    PassedIs(b, ps, p);
    PassedStep(b, ps, p, stack + [f], fuel);
    CloseStep(b, Passed(ps, p), ps1, stack, f, fuel1);
  }

  lemma EndReported(b: seq<byte>, ps: ParserState, p: nat, body: Body, name: seq<byte>, fuel: nat)
    returns (ps1: ParserState)
    requires Standing(b, ps, p) && body.Full? && GapRight(body.gap) && IsSpace(body.left) && IsSpace(body.right)
    requires IsName(name) && fuel >= 3 && HasAt(b, p, GapText(body.gap) + EndText(name, body.left, body.right))
    ensures !Passed(ps, p).scan.inAttrib
    ensures NextNode(b, Passed(ps, p), NO_EVENT, if ps.oneAttr then fuel - 1 else fuel)
         == Return(ps1, Event(ElementNode, name, None, true))
    ensures Standing(b, ps1, p + |GapText(body.gap)| + |EndText(name, body.left, body.right)|)
    ensures !ps1.scan.inAttrib && !ps1.oneAttr
  {
    hide *;
    var ps0, f, q := Passed(ps, p), if ps.oneAttr then fuel - 1 else fuel, p + |GapText(body.gap)|;
    PassedIs(b, ps, p);
    HasAtSplit(b, p, GapText(body.gap), EndText(name, body.left, body.right));
    EndPlaces(b, q, name, body.left, body.right);
    SolidStart(b, q);
    GapSkips(b, p, body.gap);
    GapCall(b, ps0, NO_EVENT, q, f);
    var ps2 := ps0.(scan := ps0.scan.(pos := q));
    SpacedEnd(b, ps2, q, name, body.left, body.right, f);
    var g := q + |EndText(name, body.left, body.right)| - 1;
    ps1 := Opened(ps2, g);
    OpenedAgain(ps2, g);
    StandsThere(b, ps1);
  }

  // The /> of an element closes it.
  lemma RunEmptyEnd(b: seq<byte>, ps: ParserState, e: Elem, g: nat, f: Frame, stack: seq<Frame>, fuel: nat)
    returns (ps1: ParserState)
    requires TagRead(b, ps, e, g) && e.body.SelfClosed? && HasAt(b, g, CloseText(e.body))
    requires f.name == e.name && stack != [] && fuel >= 1
    ensures !ps.scan.inAttrib && Step(b, ps, stack + [f], fuel) == Some((ps1, AddChildren(stack, [Closed(f)])))
    ensures Standing(b, ps1, g + 2) && !ps1.oneAttr
  {
    hide *;
    TagReadOutside(b, ps, e, g);
    CloseSigns(b, g, e.body);
    SpacedEmptyEnd(b, ps, g, fuel);
    ps1 := ParserState(ps.scan.(pos := g + 2, tagVal := true), true, false, ps.lastElem);
    CloseStep(b, ps, ps1, stack, f, fuel);
    StandsThere(b, ps1);
  }

  // What stands behind a text.
  lemma BehindText(b: seq<byte>, e: nat, gap: Gap, q: nat)
    requires GapRight(gap) && Tight(gap) && HasAt(b, e, GapText(gap)) && q == e + |GapText(gap)|
    requires At(b, q) == LESS && At(b, q + 1) != 33
    ensures At(b, e) == LESS && !StartsWith(b, e, BEGIN_COMMENT)
  {
    hide HasAt, IsMark;
    HasAtSplit(b, e, gap.white, PrologText(gap.pieces));
    if gap.pieces != [] {
      HasAtSplit(b, e, Mark(gap.pieces[0].kind, gap.pieces[0].text), gap.pieces[0].white + PrologText(gap.pieces[1..]));
      KindIs(b, e, gap.pieces[0].kind, gap.pieces[0].text);
    } else {
      NoComment(b, e);
    }
  }

  // Text and children of an element, without the gap in front of its end tag.
  function InsideText(body: Body): seq<byte>
    requires body.Full?
  {
    (if body.text.Some? then Raw(body.text.value) else []) + ChildrenText(body.children)
  }

  lemma BodyTextIs(body: Body, name: seq<byte>)
    requires body.Full?
    ensures BodyText(body, name) == InsideText(body) + (GapText(body.gap) + EndText(name, body.left, body.right))
    ensures |EndText(name, body.left, body.right)| >= 3
  {
    hide Raw, ChildrenText, GapText;
    var text := if body.text.Some? then Raw(body.text.value) else [];
    var ends := GapText(body.gap) + EndText(name, body.left, body.right);
    assert text + (ChildrenText(body.children) + ends) == (text + ChildrenText(body.children)) + ends;
  }

  ghost predicate BodyRight(body: Body) {
    body.Full? ==>
      && ChildrenRight(body.children) && GapRight(body.gap) && IsSpace(body.left) && IsSpace(body.right)
      && (body.text.Some? ==> TextRight(body.text.value) && Tight(FirstGap(body.children, body.gap)))
  }

  lemma BodyIsRight(e: Elem)
    requires ElemRight(e)
    ensures BodyRight(e.body)
  {
    hide ChildrenRight, GapRight, IsSpace, TextRight, Tight, AttrsRight;
  }

  // What comes first behind a text.
  lemma FirstPlaces(b: seq<byte>, p: nat, cs: seq<Elem>, gap: Gap, q: nat)
    requires ChildrenRight(cs) && GapRight(gap) && HasAt(b, p, ChildrenText(cs))
    requires HasAt(b, p + |ChildrenText(cs)|, GapText(gap)) && q == p + |ChildrenText(cs)| + |GapText(gap)|
    requires At(b, q) == LESS && At(b, q + 1) != 33
    requires Tight(FirstGap(cs, gap))
    ensures At(b, p) == LESS && !StartsWith(b, p, BEGIN_COMMENT)
  {
    hide *;
    if cs == [] {
      NoChildren();
      FirstGapIs(cs, gap);
      BehindText(b, p, gap, q);
    } else {
      ChildrenPlaces(b, p, cs);
      FirstGapIs(cs, gap);
      ElemPlaces(b, p + |GapText(cs[0].gap)|, cs[0]);
      TagSkips(b, p, cs[0]);
      SkipsLess(b, p, p + |GapText(cs[0].gap)|);
      BehindText(b, p, cs[0].gap, p + |GapText(cs[0].gap)|);
    }
  }

  lemma NoChildren()
    ensures ChildrenText([]) == [] && TreesOf([]) == []
  {
  }

  lemma FirstGapIs(cs: seq<Elem>, gap: Gap)
    ensures FirstGap(cs, gap) == if cs == [] then gap else cs[0].gap
  {
  }

  lemma SkipsLess(b: seq<byte>, p: nat, q: nat)
    requires Skips(b, p, q)
    ensures At(b, q) == LESS && At(b, q + 1) != 33
  {
    hide GapBetween;
  }

  lemma ChildrenPlaces(b: seq<byte>, p: nat, cs: seq<Elem>)
    requires cs != [] && ChildrenRight(cs) && HasAt(b, p, ChildrenText(cs))
    ensures var q := p + |GapText(cs[0].gap)|;
      && GapRight(cs[0].gap) && ElemRight(cs[0]) && ChildrenRight(cs[1..])
      && HasAt(b, p, GapText(cs[0].gap)) && HasAt(b, q, ElemText(cs[0]))
      && HasAt(b, q + |ElemText(cs[0])|, ChildrenText(cs[1..]))
      && |ChildrenText(cs)| == |GapText(cs[0].gap)| + |ElemText(cs[0])| + |ChildrenText(cs[1..])|
  {
    hide HasAt, GapText, ElemText, ElemRight, GapRight;
    HasAtSplit(b, p, GapText(cs[0].gap), ElemText(cs[0]) + ChildrenText(cs[1..]));
    HasAtSplit(b, p + |GapText(cs[0].gap)|, ElemText(cs[0]), ChildrenText(cs[1..]));
  }

  lemma InsidePlaces(b: seq<byte>, p: nat, body: Body)
    requires body.Full? && HasAt(b, p, InsideText(body))
    ensures body.text.Some? ==> HasAt(b, p, Raw(body.text.value))
    ensures var q := p + if body.text.Some? then |Raw(body.text.value)| else 0;
      HasAt(b, q, ChildrenText(body.children)) && p + |InsideText(body)| == q + |ChildrenText(body.children)|
  {
    hide Raw, ChildrenText, HasAt;
    var text := if body.text.Some? then Raw(body.text.value) else [];
    HasAtSplit(b, p, text, ChildrenText(body.children));
  }

  lemma TextIsThere(b: seq<byte>, g: nat, body: Body, q: nat)
    requires body.Full? && BodyRight(body) && body.text.Some? && HasAt(b, g + 1, InsideText(body))
    requires var e := g + 1 + |InsideText(body)|; HasAt(b, e, GapText(body.gap)) && q == e + |GapText(body.gap)|
    requires At(b, q) == LESS && At(b, q + 1) != 33
    ensures TextThere(b, g, body.text.value) && Raw(body.text.value) != []
  {
    hide *;
    var s := body.text.value;
    TextBody(body);
    InsidePlaces(b, g + 1, body);
    FirstPlaces(b, g + 1 + |Raw(s)|, body.children, body.gap, q);
    RightParts(s);
    SpellingRead(b, g + 1, s);
    ThereIs(b, g, s);
  }

  lemma TextBody(body: Body)
    requires body.Full? && BodyRight(body) && body.text.Some?
    ensures TextRight(body.text.value) && Tight(FirstGap(body.children, body.gap))
    ensures ChildrenRight(body.children) && GapRight(body.gap)
  {
    hide ChildrenRight, TextRight, GapRight, Tight, FirstGap;
  }

  lemma ThereIs(b: seq<byte>, g: nat, s: Spelling)
    requires var e := g + 1 + |Raw(s)|;
             TextRight(s) && HasAt(b, g + 1, Raw(s)) && At(b, e) == LESS && !StartsWith(b, e, BEGIN_COMMENT)
    ensures TextThere(b, g, s)
  {
    hide Raw, TextRight;
  }

  lemma Filled(stack: seq<Frame>, f: Frame, ts: seq<Node>)
    requires stack + [f] != []
    ensures AddChildren(stack + [f], ts) == stack + [f.(children := f.children + ts)]
  {
  }

  lemma AddedTwice(stack: seq<Frame>, ts: seq<Node>, us: seq<Node>)
    requires stack != []
    ensures AddChildren(AddChildren(stack, ts), us) == AddChildren(stack, ts + us)
  {
    assert Top(stack).children + ts + us == Top(stack).children + (ts + us);
  }

  lemma AddedNothing(stack: seq<Frame>)
    requires stack != []
    ensures AddChildren(stack, []) == stack
  {
    assert Top(stack).children + [] == Top(stack).children;
  }

  // The text and the children of an element are read and added to it.
  lemma {:induction false} RunInside(b: seq<byte>, ps: ParserState, g: nat, body: Body, stack: seq<Frame>, fuel: nat,
                                     q: nat)
    returns (n: nat, ps': ParserState)
    requires Standing(b, ps, g + 1) && Passed(ps, g + 1) == Opened(ps, g) && stack != [] && fuel >= 3
    requires body.Full? && BodyRight(body) && HasAt(b, g + 1, InsideText(body))
    requires var e := g + 1 + |InsideText(body)|; HasAt(b, e, GapText(body.gap)) && q == e + |GapText(body.gap)|
    requires At(b, q) == LESS && At(b, q + 1) != 33
    ensures !ps.scan.inAttrib && Steps(b, ps, stack, n, fuel) == Some((ps', AddChildren(stack, BodyOf(body))))
    ensures n <= |InsideText(body)| && Standing(b, ps', g + 1 + |InsideText(body)|)
    decreases body, 1
  {
    hide *;
    PassedIs(b, ps, g + 1);
    InsidePlaces(b, g + 1, body);
    BodyParts(body);
    if body.text.Some? {
      TextIsThere(b, g, body, q);
      var s := body.text.value;
      var ps1 := RunText(b, ps, g, s, stack, fuel);
      var stack1 := AddChildren(stack, [Text(Encode(s.cs))]);
      var m;
      m, ps' := RunChildren(b, ps1, g + 1 + |Raw(s)|, body.children, stack1, fuel);
      StepThenSteps(b, ps, stack, ps1, stack1, m, fuel);
      AddedTwice(stack, [Text(Encode(s.cs))], TreesOf(body.children));
      n := m + 1;
    } else {
      n, ps' := RunChildren(b, ps, g + 1, body.children, stack, fuel);
    }
  }

  lemma BodyParts(body: Body)
    requires body.Full? && BodyRight(body)
    ensures ChildrenRight(body.children) && GapRight(body.gap) && IsSpace(body.left) && IsSpace(body.right)
    ensures BodyOf(body) ==
      (if body.text.Some? then [Text(Encode(body.text.value.cs))] else []) + TreesOf(body.children)
    ensures body.text.None? ==> BodyOf(body) == TreesOf(body.children)
  {
    hide ChildrenRight, TreesOf, Encode, GapRight, IsSpace, TextRight, Tight;
    assert [] + TreesOf(body.children) == TreesOf(body.children);
  }

  // Elements are read in their order and added to the element around them.
  lemma {:induction false} RunChildren(b: seq<byte>, ps: ParserState, p: nat, cs: seq<Elem>, stack: seq<Frame>,
                                       fuel: nat)
    returns (n: nat, ps': ParserState)
    requires Standing(b, ps, p) && stack != [] && fuel >= 3 && ChildrenRight(cs) && HasAt(b, p, ChildrenText(cs))
    ensures !ps.scan.inAttrib && Steps(b, ps, stack, n, fuel) == Some((ps', AddChildren(stack, TreesOf(cs))))
    ensures n <= |ChildrenText(cs)| && Standing(b, ps', p + |ChildrenText(cs)|) && (cs != [] ==> !ps'.oneAttr)
    decreases cs, 0
  {
    hide *;
    PassedIs(b, ps, p);
    if cs == [] {
      NoChildren();
      NoSteps(b, ps, stack, fuel);
      AddedNothing(stack);
      n, ps' := 0, ps;
    } else {
      ChildrenPlaces(b, p, cs);
      var i, ps1 := RunElem(b, ps, p, cs[0], stack, fuel);
      var stack1, p1 := AddChildren(stack, [TreeOf(cs[0])]), p + |GapText(cs[0].gap)| + |ElemText(cs[0])|;
      PassedIs(b, ps1, p1);
      var j;
      j, ps' := RunChildren(b, ps1, p1, cs[1..], stack1, fuel);
      StepsAdd(b, ps, stack, i, j, fuel);
      TreesAre(cs);
      AddedTwice(stack, [TreeOf(cs[0])], TreesOf(cs[1..]));
      n := i + j;
      if cs[1..] == [] {
        OnlyChild(b, ps1, stack1, j, fuel, ps', cs[1..]);
      }
    }
  }

  // One element with its gap.
  lemma {:induction false} RunElem(b: seq<byte>, ps: ParserState, p: nat, e: Elem, stack: seq<Frame>, fuel: nat)
    returns (n: nat, ps': ParserState)
    requires Standing(b, ps, p) && stack != [] && fuel >= 3 && ElemRight(e) && GapRight(e.gap)
    requires HasAt(b, p, GapText(e.gap)) && HasAt(b, p + |GapText(e.gap)|, ElemText(e))
    ensures !ps.scan.inAttrib && Steps(b, ps, stack, n, fuel) == Some((ps', AddChildren(stack, [TreeOf(e)])))
    ensures n <= |ElemText(e)| && Standing(b, ps', p + |GapText(e.gap)| + |ElemText(e)|) && !ps'.oneAttr
    decreases e, 0
  {
    hide *;
    var q := p + |GapText(e.gap)|;
    var g := q + 1 + |e.name| + |AttrsText(e.attrs)| + |e.tail|;
    var f := Frame(e.name, AttrsOf(e.attrs), []);
    ElemPlaces(b, q, e);
    OpenPlaces(b, q, e);
    var ps2 := RunTag(b, ps, p, e, stack, fuel);
    ElemParts(e);
    AttrsLong(e.attrs);
    CloseSigns(b, g, e.body);
    TagReadOutside(b, ps2, e, g);
    TreeIs(e, f);
    if e.body.SelfClosed? {
      ps' := RunEmptyEnd(b, ps2, e, g, f, stack, fuel);
      OneMoreStep(b, ps, stack, 1 + |e.attrs|, fuel);
      n := 2 + |e.attrs|;
    } else {
      BodyIsRight(e);
      var m;
      m, ps' := RunBody(b, ps2, g, e.body, f, stack, fuel);
      StepsAdd(b, ps, stack, 1 + |e.attrs|, m, fuel);
      n := 1 + |e.attrs| + m;
    }
  }

  // What is behind the start tag of an element that is not empty.
  lemma {:induction false} RunBody(b: seq<byte>, ps: ParserState, g: nat, body: Body, f: Frame, stack: seq<Frame>,
                                   fuel: nat)
    returns (n: nat, ps': ParserState)
    requires Standing(b, ps, g + 1) && Passed(ps, g + 1) == Opened(ps, g) && stack != [] && fuel >= 3
    requires body.Full? && BodyRight(body) && IsName(f.name) && f.children == []
    requires HasAt(b, g + 1, BodyText(body, f.name))
    ensures !ps.scan.inAttrib
    ensures Steps(b, ps, stack + [f], n, fuel) ==
      Some((ps', AddChildren(stack, [Element(f.name, f.attrs, BodyOf(body))])))
    ensures n <= |BodyText(body, f.name)| && Standing(b, ps', g + 1 + |BodyText(body, f.name)|) && !ps'.oneAttr
    decreases body, 2
  {
    hide *;
    var ends := GapText(body.gap) + EndText(f.name, body.left, body.right);
    var e := g + 1 + |InsideText(body)|;
    BodyTextIs(body, f.name);
    HasAtSplit(b, g + 1, InsideText(body), ends);
    BodyParts(body);
    EndTagAt(b, e, body, f.name);
    var stack1 := stack + [f];
    StackNotEmpty(stack, f);
    var m, ps1 := RunInside(b, ps, g, body, stack1, fuel, e + |GapText(body.gap)|);
    var full := f.(children := BodyOf(body));
    Filled(stack, f, BodyOf(body));
    FilledIs(f, BodyOf(body));
    ps' := RunEnd(b, ps1, e, body, full, stack, fuel);
    OneMoreStep(b, ps, stack1, m, fuel);
    n := m + 1;
  }

  lemma StackNotEmpty(stack: seq<Frame>, f: Frame)
    ensures stack + [f] != []
  {
  }

  lemma FilledIs(f: Frame, ts: seq<Node>)
    requires f.children == []
    ensures f.(children := f.children + ts) == f.(children := ts)
    ensures Closed(f.(children := ts)) == Element(f.name, f.attrs, ts)
  {
    assert [] + ts == ts;
  }

  lemma EndTagAt(b: seq<byte>, e: nat, body: Body, name: seq<byte>)
    requires body.Full? && HasAt(b, e, GapText(body.gap) + EndText(name, body.left, body.right))
    ensures var q := e + |GapText(body.gap)|;
      HasAt(b, e, GapText(body.gap)) && At(b, q) == LESS && At(b, q + 1) != 33 && At(b, q + 1) != 63
  {
    hide *;
    HasAtSplit(b, e, GapText(body.gap), EndText(name, body.left, body.right));
    EndPlaces(b, e + |GapText(body.gap)|, name, body.left, body.right);
    SolidStart(b, e + |GapText(body.gap)|);
  }

  lemma TreesAre(cs: seq<Elem>)
    requires cs != []
    ensures TreesOf(cs) == [TreeOf(cs[0])] + TreesOf(cs[1..])
  {
  }

  lemma OnlyChild(b: seq<byte>, ps: ParserState, stack: seq<Frame>, j: nat, fuel: nat, ps': ParserState, cs: seq<Elem>)
    requires !ps.scan.inAttrib && stack != [] && !ps.oneAttr && cs == [] && j <= |ChildrenText(cs)|
    requires Steps(b, ps, stack, j, fuel) == Some((ps', AddChildren(stack, TreesOf(cs))))
    ensures !ps'.oneAttr
  {
    hide Step, AddChildren;
  }

  lemma {:induction false} AttrsLong(attrs: seq<Attr>)
    ensures |AttrsText(attrs)| >= |attrs|
  {
    hide Raw;
    if attrs != [] {
      AttrsLong(attrs[1..]);
    }
  }

  lemma TreeIs(e: Elem, f: Frame)
    requires f == Frame(e.name, AttrsOf(e.attrs), [])
    ensures TreeOf(e) == Element(f.name, f.attrs, BodyOf(e.body))
    ensures e.body.SelfClosed? ==> TreeOf(e) == Closed(f) && BodyText(e.body, e.name) == []
  {
    hide AttrsOf;
  }

  // ---- whole documents

  // What the first call is given does not matter.
  lemma FirstGiven(b: seq<byte>, e: Elem, ev: Event, fuel: nat)
    requires ElemRight(e) && GapRight(e.gap) && HasAt(b, 0, GapText(e.gap)) && HasAt(b, |GapText(e.gap)|, OpenText(e))
    requires fuel >= 1
    ensures !FIRST_STATE.scan.inAttrib && NextNode(b, FIRST_STATE, ev, fuel) == NextNode(b, FIRST_STATE, NO_EVENT, fuel)
  {
    hide *;
    var q := |GapText(e.gap)|;
    FirstIs();
    var ps := FIRST_STATE.(scan := FIRST_STATE.scan.(pos := q));
    assert 0 + q == q;
    TagSkips(b, 0, e);
    OpenPlaces(b, q, e);
    ElemParts(e);
    LessIs60();
    NoWhites(b, q);
    StandsReady(b, ps, q);
    NameFollowed(b, q, e);
    GapCall(b, FIRST_STATE, ev, q, fuel);
    GapCall(b, FIRST_STATE, NO_EVENT, q, fuel);
    NameStep(b, ps, ev, q, e.name);
    NameStep(b, ps, NO_EVENT, q, e.name);
    TurnGoesOn(b, ps, ev, fuel);
    TurnGoesOn(b, ps, NO_EVENT, fuel);
  }

  lemma FirstIs()
    ensures FIRST_STATE.scan.pos == 0 && !FIRST_STATE.scan.inAttrib && !FIRST_STATE.oneAttr && EMPTY_DOCUMENT != []
  {
  }

  // A name ends where an attribute, white space, or the end of the tag begins.
  lemma NameFollowed(b: seq<byte>, q: nat, e: Elem)
    requires ElemRight(e) && HasAt(b, q, OpenText(e))
    ensures Punctuation(At(b, q + 1 + |e.name|))
  {
    hide *;
    var a := q + 1 + |e.name|;
    OpenPlaces(b, q, e);
    ElemParts(e);
    if e.attrs != [] {
      AttrsPlaces(b, a, e.attrs);
    } else {
      NoAttrsText();
      SpaceThere(b, a, e.tail);
      CloseSigns(b, a + |e.tail|, e.body);
      NameEnds(b, a, a + |e.tail|);
    }
  }

  lemma FirstStands(b: seq<byte>)
    ensures Standing(b, FIRST_STATE, 0)
  {
  }

  lemma SomeText(b: seq<byte>, e: Elem)
    requires HasAt(b, |GapText(e.gap)|, OpenText(e))
    ensures b != []
  {
    hide GapText, AttrsText, CloseText;
  }

  // A document put down in any of these ways, with any such gaps, is parsed to its tree, whatever the in-out
  // parameters hold at first. The parse ends by itself: it needs at most one call per byte, with three turns each.
  lemma RenderedParse(doc: seq<Elem>, last: Gap, ev: Event, nodes: nat, fuel: nat)
    requires doc != [] && ChildrenRight(doc) && GapRight(last) && nodes > |ChildrenText(doc)| && fuel >= 3
    ensures ParseBuffer(ChildrenText(doc) + GapText(last), ev, nodes, fuel) ==
      Done([Frame(DOCUMENT_NAME, [], TreesOf(doc))])
  {
    hide *;
    var b := ChildrenText(doc) + GapText(last);
    WholeBuffer(b);
    HasAtSplit(b, 0, ChildrenText(doc), GapText(last));
    ChildrenPlaces(b, 0, doc);
    ElemPlaces(b, |GapText(doc[0].gap)|, doc[0]);
    SomeText(b, doc[0]);
    FirstGiven(b, doc[0], ev, fuel);
    FirstRun(b, ev, nodes, fuel);
    FirstStands(b);
    FirstIs();
    var n, ps' := RunChildren(b, FIRST_STATE, 0, doc, EMPTY_DOCUMENT, fuel);
    StepsRun(b, FIRST_STATE, EMPTY_DOCUMENT, n, nodes - n, fuel);
    DocumentFrame(TreesOf(doc));
    PassedIs(b, ps', |ChildrenText(doc)|);
    GapEnds(b, ps', |ChildrenText(doc)|, last, [Frame(DOCUMENT_NAME, [], TreesOf(doc))], nodes - n, fuel);
  }

  // A gap at the end of the buffer ends the parse.
  lemma GapEnds(b: seq<byte>, ps: ParserState, p: nat, last: Gap, stack: seq<Frame>, nodes: nat, fuel: nat)
    requires Standing(b, ps, p) && !ps.oneAttr && GapRight(last) && HasAt(b, p, GapText(last))
    requires |b| == p + |GapText(last)| && stack != [] && nodes >= 1 && fuel >= 1
    ensures !ps.scan.inAttrib && Run(b, ps, NO_EVENT, stack, nodes, fuel) == Done(stack)
  {
    hide *;
    PassedIs(b, ps, p);
    StandingIs(b, ps, p);
    GapPlaces(b, p, last);
    SpaceThere(b, p, last.white);
    BehindWhite(b, ps, p + |last.white|);
    EpilogEnds(b, ps, p + |last.white|, last.pieces, stack, nodes, fuel);
  }

  lemma StandingIs(b: seq<byte>, ps: ParserState, p: nat)
    requires Standing(b, ps, p) && !ps.oneAttr
    ensures ps.scan.pos == p
  {
  }

  lemma GapPlaces(b: seq<byte>, p: nat, g: Gap)
    requires GapRight(g) && HasAt(b, p, GapText(g))
    ensures IsSpace(g.white) && IsProlog(g.pieces)
    ensures HasAt(b, p, g.white) && HasAt(b, p + |g.white|, PrologText(g.pieces))
    ensures |GapText(g)| == |g.white| + |PrologText(g.pieces)|
  {
    hide IsSpace, IsProlog, HasAt, PrologText;
    HasAtSplit(b, p, g.white, PrologText(g.pieces));
  }

  lemma BehindWhite(b: seq<byte>, ps: ParserState, q: nat)
    requires !ps.scan.inAttrib && !ps.oneAttr && Whites(b, ps.scan.pos, q)
    ensures Ready(b, ps, q)
  {
  }

  // For one, the bytes <a b = "&#49;"/> and a line feed.
  lemma RenderedExample(ev: Event, nodes: nat, fuel: nat)
    requires nodes > 17 && fuel >= 3
    ensures ParseBuffer([60, 97, 32, 98, 32, 61, 32, 34, 38, 35, 52, 57, 59, 34, 47, 62, 10], ev, nodes, fuel) ==
      Done([Frame(DOCUMENT_NAME, [], [Element([97], [Attribute([98], [49])], [])])])
  {
    var nothing, value := Gap([], []), Spelling([[38, 35, 52, 57, 59]], [49]);
    hide *;
    var a := Attr([32], [98], [32], [32], value);
    var e := Elem(nothing, [97], [a], [], SelfClosed);
    ExampleAttr(value, a);
    ExampleElem(nothing, a, e);
    RenderedParse([e], Gap([10], []), ev, nodes, fuel);
  }

  lemma ExampleAttr(value: Spelling, a: Attr)
    requires value == Spelling([[38, 35, 52, 57, 59]], [49]) && a == Attr([32], [98], [32], [32], value)
    ensures AttrRight(a) && AttrOf(a) == Attribute([98], [49])
    ensures AttrText(a) == [32, 98, 32, 61, 32, 34, 38, 35, 52, 57, 59, 34]
  {
    ExampleValue(value);
    LetterIsName(98);
    hide IsName, Spelled, Raw, Encode;
  }

  lemma ExampleValue(value: Spelling)
    requires value == Spelling([[38, 35, 52, 57, 59]], [49])
    ensures Spelled(value) && Raw(value) == [38, 35, 52, 57, 59] && Encode(value.cs) == [49]
  {
    var text: seq<byte> := [38, 35, 52, 57, 59];
    ExampleSpelling();
    EncodeOne(49);
    OneByteEncoding(49);
    assert [text][1..] == [] && R.Joined([text]) == text + [];
    hide R.Spells, Encode, ToUtf8;
  }

  lemma ExampleSpelling()
    ensures R.Spells([38, 35, 52, 57, 59], 49)
  {
    var four: seq<byte> := R.Numbers.InBase(4, 10, false);
    assert four == [52] && R.Numbers.InBase(49, 10, false) == four + [57];
    assert R.Numbered([38, 35], 0, 49, 10, false) == [38, 35, 52, 57, 59];
    hide R.Numbers.InBase, R.Numbered;
    assert R.SpellsInDecimal([38, 35, 52, 57, 59], 49);
  }

  lemma ExampleElem(nothing: Gap, a: Attr, e: Elem)
    requires nothing == Gap([], []) && e == Elem(nothing, [97], [a], [], SelfClosed)
    requires AttrRight(a) && AttrOf(a) == Attribute([98], [49])
    requires AttrText(a) == [32, 98, 32, 61, 32, 34, 38, 35, 52, 57, 59, 34]
    ensures ChildrenRight([e]) && GapRight(Gap([10], []))
    ensures TreesOf([e]) == [Element([97], [Attribute([98], [49])], [])]
    ensures |ChildrenText([e])| == 16 && ChildrenText([e]) + GapText(Gap([10], [])) ==
      [60, 97, 32, 98, 32, 61, 32, 34, 38, 35, 52, 57, 59, 34, 47, 62, 10]
  {
    hide AttrRight, AttrText, IsName, AttrOf;
    LetterIsName(97);
    assert [a][1..] == [] && [e][1..] == [];
    assert AttrsText([a]) == AttrText(a) + [] && AttrsOf([a]) == [Attribute([98], [49])] + [];
    assert ElemText(e) == [60, 97, 32, 98, 32, 61, 32, 34, 38, 35, 52, 57, 59, 34, 47, 62];
    assert TreeOf(e) == Element([97], [Attribute([98], [49])], []);
    assert GapText(nothing) == [] && ChildrenText([e]) == GapText(nothing) + (ElemText(e) + []);
    assert ElemRight(e);
  }

  // ---- end tags that are wrong

  // Everything up to and with an end tag, which may have another name than the element.
  function WrongText(doc: seq<Elem>, e: Elem, other: seq<byte>, rest: seq<byte>): seq<byte>
    requires e.body.Full?
  {
    ChildrenText(doc) + (GapText(e.gap) + (OpenText(e) + (InsideText(e.body)
    + ((GapText(e.body.gap) + EndText(other, e.body.left, e.body.right)) + rest))))
  }

  lemma WrongPlaces(b: seq<byte>, doc: seq<Elem>, e: Elem, other: seq<byte>, rest: seq<byte>)
    requires e.body.Full? && HasAt(b, 0, WrongText(doc, e, other, rest))
    ensures var p := |ChildrenText(doc)|;
      var q := p + |GapText(e.gap)|;
      var i := q + |OpenText(e)|;
      var m := i + |InsideText(e.body)|;
      && HasAt(b, 0, ChildrenText(doc)) && HasAt(b, p, GapText(e.gap)) && HasAt(b, q, OpenText(e))
      && HasAt(b, i, InsideText(e.body)) && HasAt(b, m, GapText(e.body.gap) + EndText(other, e.body.left, e.body.right))
      && |b| > m
  {
    hide HasAt, ChildrenText, GapText, OpenText, InsideText;
    var ends := GapText(e.body.gap) + EndText(other, e.body.left, e.body.right);
    var p, q := |ChildrenText(doc)|, |ChildrenText(doc)| + |GapText(e.gap)|;
    var i := q + |OpenText(e)|;
    var m := i + |InsideText(e.body)|;
    HasAtSplit(b, 0, ChildrenText(doc), GapText(e.gap) + (OpenText(e) + (InsideText(e.body) + (ends + rest))));
    ThreePlaces(b, p, GapText(e.gap), OpenText(e), InsideText(e.body), ends + rest);
    HasAtSplit(b, m, ends, rest);
    EndInside(b, m, ends);
  }

  lemma EndInside(b: seq<byte>, m: nat, ends: seq<byte>)
    requires HasAt(b, m, ends) && ends != []
    ensures |b| > m
  {
  }

  // An end tag that does not name the element that is open is refused, however that element and what is
  // in front of it are written, and whatever stands behind.
  lemma WrongEnd(doc: seq<Elem>, e: Elem, other: seq<byte>, rest: seq<byte>, ev: Event, nodes: nat, fuel: nat)
    requires ChildrenRight(doc) && ElemRight(e) && GapRight(e.gap) && e.body.Full?
    requires IsName(other) && other != e.name
    requires nodes > |WrongText(doc, e, other, rest)| && fuel >= 3
    ensures ParseBuffer(WrongText(doc, e, other, rest), ev, nodes, fuel) == Failed
  {
    hide *;
    var b := WrongText(doc, e, other, rest);
    var p := |ChildrenText(doc)|;
    var q := p + |GapText(e.gap)|;
    var i := q + |OpenText(e)|;
    var m := i + |InsideText(e.body)|;
    var f := Frame(e.name, AttrsOf(e.attrs), []);
    WholeBuffer(b);
    WrongPlaces(b, doc, e, other, rest);
    WrongStart(b, doc, e, ev, fuel);
    FirstRun(b, ev, nodes, fuel);
    FirstStands(b);
    FirstIs();
    var n0, ps0 := RunChildren(b, FIRST_STATE, 0, doc, EMPTY_DOCUMENT, fuel);
    var stack := AddChildren(EMPTY_DOCUMENT, TreesOf(doc));
    StepsRun(b, FIRST_STATE, EMPTY_DOCUMENT, n0, nodes - n0, fuel);
    PassedIs(b, ps0, p);
    var ps1 := RunTag(b, ps0, p, e, stack, fuel);
    StackNotEmpty(stack, f);
    OpenPlaces(b, q, e);
    CloseSigns(b, i - |CloseText(e.body)|, e.body);
    TagReadOutside(b, ps1, e, i - 1);
    AttrsLong(e.attrs);
    StepsRun(b, ps0, stack, 1 + |e.attrs|, nodes - n0 - 1 - |e.attrs|, fuel);
    BodyIsRight(e);
    BodyParts(e.body);
    EndTagAt(b, m, e.body, other);
    var n2, ps2 := RunInside(b, ps1, i - 1, e.body, stack + [f], fuel, m + |GapText(e.body.gap)|);
    var left := nodes - n0 - 1 - |e.attrs|;
    StepsRun(b, ps1, stack + [f], n2, left - n2, fuel);
    Filled(stack, f, BodyOf(e.body));
    var ps3 := EndReported(b, ps2, m, e.body, other, fuel);
    PassedIs(b, ps2, m);
    Refused(b, ps2, ps3, m, stack, f.(children := f.children + BodyOf(e.body)), other, left - n2, fuel);
  }

  lemma WrongStart(b: seq<byte>, doc: seq<Elem>, e: Elem, ev: Event, fuel: nat)
    requires ChildrenRight(doc) && ElemRight(e) && GapRight(e.gap) && fuel >= 1
    requires HasAt(b, 0, ChildrenText(doc)) && HasAt(b, |ChildrenText(doc)|, GapText(e.gap))
    requires HasAt(b, |ChildrenText(doc)| + |GapText(e.gap)|, OpenText(e))
    ensures b != [] && !FIRST_STATE.scan.inAttrib
    ensures NextNode(b, FIRST_STATE, ev, fuel) == NextNode(b, FIRST_STATE, NO_EVENT, fuel)
  {
    hide *;
    if doc == [] {
      NoChildren();
      SomeText(b, e);
      FirstGiven(b, e, ev, fuel);
    } else {
      ChildrenPlaces(b, 0, doc);
      ElemPlaces(b, |GapText(doc[0].gap)|, doc[0]);
      SomeText(b, doc[0]);
      FirstGiven(b, doc[0], ev, fuel);
    }
  }

  lemma Refused(b: seq<byte>, ps: ParserState, ps1: ParserState, p: nat, stack: seq<Frame>, f: Frame, other: seq<byte>,
                nodes: nat, fuel: nat)
    requires Standing(b, ps, p) && !ps.scan.inAttrib && fuel >= 1 && nodes >= 1 && f.name != other
    requires !Passed(ps, p).scan.inAttrib
    requires NextNode(b, Passed(ps, p), NO_EVENT, if ps.oneAttr then fuel - 1 else fuel)
          == Return(ps1, Event(ElementNode, other, None, true))
    ensures stack + [f] != [] && Run(b, ps, NO_EVENT, stack + [f], nodes, fuel) == Failed
  {
    hide NextNode;
    if ps.oneAttr {
      EndForgotten(b, ps, p - 1, fuel - 1);
    }
    assert Top(stack + [f]) == f;
  }
}
