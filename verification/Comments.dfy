// Comments in the text of an element (src/upnpdom/Parser.cpp:574-588, 634-651, 662-687). Behind other
// text they are part of it; where one comes first, the text behind it is read word by word.
module Comments {
  import opened Bytes
  import opened Utf8
  import opened CharTables
  import opened Escape
  import opened Lexer
  import opened Reader
  import opened Tree
  import opened Tokens
  import opened Builder
  import opened RoundTrip
  import opened Prologs

  // A comment without references, and the text behind it.
  datatype Remark = Remark(comment: seq<byte>, text: seq<byte>)

  ghost predicate IsRemark(r: Remark) {
    IsMark(Comment, r.comment) && AMP !in r.comment && XmlText(r.comment) && XmlText(r.text)
  }

  ghost predicate AreRemarks(rs: seq<Remark>) {
    forall k :: 0 <= k < |rs| ==> IsRemark(rs[k])
  }

  // How it stands in the buffer, and what it is read as.
  function Printed(rs: seq<Remark>): seq<byte> {
    if rs == [] then [] else Mark(Comment, rs[0].comment) + (Escaped(rs[0].text) + Printed(rs[1..]))
  }

  function Value(rs: seq<Remark>): seq<byte> {
    if rs == [] then [] else Mark(Comment, rs[0].comment) + (rs[0].text + Value(rs[1..]))
  }

  // ---- decoding piece by piece

  lemma {:induction false} UnescapedConcat(b: seq<byte>, p: nat, m: nat, e: nat)
    requires Unescaped(b, p, m).Some? && Unescaped(b, m, e).Some?
    ensures p <= m <= e && Unescaped(b, p, e) == Some(Unescaped(b, p, m).value + Unescaped(b, m, e).value)
    decreases m - p
  {
    hide *;
    var t := Unescaped(b, m, e).value;
    Bounds(b, p, m);
    Bounds(b, m, e);
    if p < m {
      var head, len := OneRead(b, p, m, e);
      UnescapedConcat(b, p + len, m, e);
      var s := Unescaped(b, p + len, m).value;
      assert (head + s) + t == head + (s + t);
    } else {
      NothingRead(b, p);
      assert [] + t == t;
    }
  }

  lemma Bounds(b: seq<byte>, p: nat, e: nat)
    requires Unescaped(b, p, e).Some?
    ensures p <= e
  {
    hide Unescaped;
  }

  lemma OneRead(b: seq<byte>, p: nat, m: nat, e: nat) returns (head: seq<byte>, len: nat)
    requires p < m <= e && Unescaped(b, p, m).Some?
    ensures len > 0 && Unescaped(b, p + len, m).Some?
    ensures Unescaped(b, p, m) == Some(head + Unescaped(b, p + len, m).value)
    ensures Unescaped(b, p + len, e).Some? ==> Unescaped(b, p, e) == Some(head + Unescaped(b, p + len, e).value)
  {
    hide CharAt, ToUtf8;
    var (c, n) := CharAt(b, p);
    head, len := if n == 1 then [c] else ToUtf8(c), n;
  }

  // Text without references is read as it stands.
  lemma {:induction false} PlainText(b: seq<byte>, p: nat, cs: seq<XmlChar>)
    requires HasAt(b, p, Encode(cs)) && AMP !in Encode(cs)
    ensures Unescaped(b, p, p + |Encode(cs)|) == Some(Encode(cs))
    decreases |cs|
  {
    hide ToUtf8, CharAt, ToInt;
    if cs != [] {
      var head, tail := ToUtf8(cs[0]), Encode(cs[1..]);
      assert Encode(cs) == head + tail;
      HasAtSplit(b, p, head, tail);
      assert AMP !in tail;
      PlainChar(b, p, cs[0]);
      PlainText(b, p + |head|, cs[1..]);
    }
  }

  lemma PlainChar(b: seq<byte>, p: nat, c: XmlChar)
    requires HasAt(b, p, ToUtf8(c)) && AMP !in ToUtf8(c)
    ensures CharAt(b, p) == (c, |ToUtf8(c)|) && (|ToUtf8(c)| == 1 ==> ToUtf8(c) == [c])
  {
    hide ToUtf8, ToInt;
    OneByteEncoding(c);
    HasAtHead(b, p, ToUtf8(c));
    ToIntInvertsToUtf8(c, b, p);
  }

  lemma MarkIsText(comment: seq<byte>)
    requires XmlText(comment) && AMP !in comment
    ensures XmlText(Mark(Comment, comment)) && AMP !in Mark(Comment, comment)
  {
    hide XmlText, Encode;
    Ascii4(60, 33, 45, 45);
    Ascii3(45, 45, 62);
    XmlTextConcat([60, 33, 45, 45], comment);
    XmlTextConcat([60, 33, 45, 45] + comment, [45, 45, 62]);
  }

  lemma AsciiText(c: byte)
    requires 32 <= c <= 126
    ensures XmlText([c])
  {
    EncodeOne(c);
    OneByteEncoding(c);
  }

  lemma Ascii3(a: byte, b: byte, c: byte)
    requires 32 <= a <= 126 && 32 <= b <= 126 && 32 <= c <= 126
    ensures XmlText([a, b, c])
  {
    hide XmlText;
    AsciiText(a);
    AsciiText(b);
    AsciiText(c);
    XmlTextConcat([a], [b]);
    XmlTextConcat([a] + [b], [c]);
    assert [a] + [b] + [c] == [a, b, c];
  }

  lemma Ascii4(a: byte, b: byte, c: byte, d: byte)
    requires 32 <= a <= 126 && 32 <= b <= 126 && 32 <= c <= 126 && 32 <= d <= 126
    ensures XmlText([a, b, c, d])
  {
    hide XmlText;
    AsciiText(a);
    Ascii3(b, c, d);
    XmlTextConcat([a], [b, c, d]);
    assert [a] + [b, c, d] == [a, b, c, d];
  }

  lemma MarkRead(b: seq<byte>, p: nat, comment: seq<byte>)
    requires XmlText(comment) && AMP !in comment && HasAt(b, p, Mark(Comment, comment))
    ensures Unescaped(b, p, p + |Mark(Comment, comment)|) == Some(Mark(Comment, comment))
  {
    hide Unescaped, Encode, Mark;
    MarkIsText(comment);
    var cs: seq<XmlChar> :| Mark(Comment, comment) == Encode(cs);
    PlainText(b, p, cs);
  }

  lemma TextRead(b: seq<byte>, p: nat, v: seq<byte>)
    requires XmlText(v) && HasAt(b, p, Escaped(v))
    ensures Unescaped(b, p, p + |Escaped(v)|) == Some(v)
  {
    hide Unescaped, Encode, Escaped;
    var cs: seq<XmlChar> :| v == Encode(cs);
    UnescapedEscaped(b, p, cs);
  }

  lemma {:induction false} RemarksRead(b: seq<byte>, p: nat, rs: seq<Remark>)
    requires AreRemarks(rs) && HasAt(b, p, Printed(rs))
    ensures Unescaped(b, p, p + |Printed(rs)|) == Some(Value(rs))
    decreases |rs|
  {
    hide Unescaped, XmlText, Escaped, Mark, HasAt, IsMark;
    if rs == [] {
      NothingRead(b, p);
    } else {
      var mark, text, rest := Mark(Comment, rs[0].comment), Escaped(rs[0].text), Printed(rs[1..]);
      assert IsRemark(rs[0]);
      HasAtSplit(b, p, mark, text + rest);
      HasAtSplit(b, p + |mark|, text, rest);
      MarkRead(b, p, rs[0].comment);
      TextRead(b, p + |mark|, rs[0].text);
      RemarksRead(b, p + |mark| + |text|, rs[1..]);
      UnescapedConcat(b, p + |mark|, p + |mark| + |text|, p + |Printed(rs)|);
      UnescapedConcat(b, p, p + |mark|, p + |Printed(rs)|);
    }
  }

  lemma NothingRead(b: seq<byte>, p: nat)
    ensures Unescaped(b, p, p) == Some([])
  {
  }

  // ---- the end of the content

  lemma {:induction false} ContentOver(b: seq<byte>, p: nat, v: seq<byte>, rs: seq<Remark>)
    requires XmlText(v) && AreRemarks(rs) && HasAt(b, p, Escaped(v) + Printed(rs))
    requires var e := p + |Escaped(v)| + |Printed(rs)|; At(b, e) == LESS && !StartsWith(b, e, BEGIN_COMMENT)
    ensures ContentEnd(b, p) == p + |Escaped(v)| + |Printed(rs)|
    decreases |rs|
  {
    hide *;
    EscapedIsClean(v);
    HasAtSplit(b, p, Escaped(v), Printed(rs));
    var q := p + |Escaped(v)|;
    if rs == [] {
      NothingPrinted(rs);
      ScanPast(b, p, Escaped(v), LESS);
      ContentStops(b, p, q);
    } else {
      var mark, text, rest := Mark(Comment, rs[0].comment), Escaped(rs[0].text), Printed(rs[1..]);
      RemarkParts(rs);
      HasAtSplit(b, q, mark, text + rest);
      CommentThere(b, q, rs[0].comment);
      ScanPast(b, p, Escaped(v), LESS);
      ContentOver(b, q + |mark|, rs[0].text, rs[1..]);
      SomethingBehind(b, q + |mark|, rs[0].text, rs[1..]);
      ContentGoesOn(b, p, q, q + |mark|);
    }
  }

  lemma NothingPrinted(rs: seq<Remark>)
    requires rs == []
    ensures Printed(rs) == []
  {
  }

  lemma RemarkParts(rs: seq<Remark>)
    requires AreRemarks(rs) && rs != []
    ensures var mark, text, rest := Mark(Comment, rs[0].comment), Escaped(rs[0].text), Printed(rs[1..]);
      Printed(rs) == mark + (text + rest) && |Printed(rs)| == |mark| + |text| + |rest|
    ensures IsMark(Comment, rs[0].comment) && XmlText(rs[0].text) && AreRemarks(rs[1..])
  {
    hide XmlText, Escaped, IsMark, Mark;
    assert IsRemark(rs[0]);
  }

  lemma ContentStops(b: seq<byte>, p: nat, q: nat)
    requires ScanUntil(b, p, [LESS]) == q && !StartsWith(b, q, BEGIN_COMMENT)
    ensures ContentEnd(b, p) == q
  {
    hide ScanUntil, StartsWith;
  }

  lemma ContentGoesOn(b: seq<byte>, p: nat, q: nat, e: nat)
    requires ScanUntil(b, p, [LESS]) == q && StartsWith(b, q, BEGIN_COMMENT)
    requires ScanUntil(b, q, END_COMMENT) + |END_COMMENT| == e && At(b, e) != 0
    ensures ContentEnd(b, p) == ContentEnd(b, e)
  {
    hide ScanUntil, StartsWith;
  }

  lemma CommentThere(b: seq<byte>, q: nat, comment: seq<byte>)
    requires IsMark(Comment, comment) && HasAt(b, q, Mark(Comment, comment))
    ensures At(b, q) == LESS && StartsWith(b, q, BEGIN_COMMENT)
    ensures ScanUntil(b, q, END_COMMENT) + |END_COMMENT| == q + |Mark(Comment, comment)|
  {
    hide ScanUntil, HasAt, IsMark, Mark;
    KindIs(b, q, Comment, comment);
    MarkSkipped(b, q, Comment, comment);
  }

  // The buffer does not end there.
  lemma SomethingBehind(b: seq<byte>, p: nat, v: seq<byte>, rs: seq<Remark>)
    requires XmlText(v) && AreRemarks(rs) && HasAt(b, p, Escaped(v) + Printed(rs))
    requires At(b, p + |Escaped(v)| + |Printed(rs)|) == LESS
    ensures At(b, p) != 0
  {
    hide XmlText, Escaped, HasAt, IsMark, Mark;
    HasAtSplit(b, p, Escaped(v), Printed(rs));
    if Escaped(v) != [] {
      EscapedIsClean(v);
      HasAtHead(b, p, Escaped(v));
    } else if rs != [] {
      assert IsRemark(rs[0]);
      HasAtSplit(b, p, Mark(Comment, rs[0].comment), Escaped(rs[0].text) + Printed(rs[1..]));
      CommentThere(b, p, rs[0].comment);
    }
  }

  // ---- the text event

  // Behind the > at g stand text and comments, and then a tag.
  ghost predicate CommentedAt(b: seq<byte>, g: nat, v: seq<byte>, rs: seq<Remark>) {
    var e := g + 1 + |Escaped(v)| + |Printed(rs)|;
    && XmlText(v) && !Blank(v) && AreRemarks(rs) && rs != [] && HasAt(b, g + 1, Escaped(v) + Printed(rs))
    && At(b, e) == LESS && At(b, e + 1) != 33
  }

  lemma CommentedParts(b: seq<byte>, g: nat, v: seq<byte>, rs: seq<Remark>)
    requires CommentedAt(b, g, v, rs)
    ensures var q, e := g + 1 + |Escaped(v)|, g + 1 + |Escaped(v)| + |Printed(rs)|;
      && XmlText(v) && !Blank(v) && AreRemarks(rs) && rs != [] && HasAt(b, g + 1, Escaped(v) + Printed(rs))
      && HasAt(b, g + 1, Escaped(v)) && HasAt(b, q, Printed(rs)) && At(b, q) == LESS
      && At(b, e) == LESS && !StartsWith(b, e, BEGIN_COMMENT) && e <= |b|
  {
    hide XmlText, Escaped, Blank, IsMark, HasAt;
    var q := g + 1 + |Escaped(v)|;
    HasAtSplit(b, g + 1, Escaped(v), Printed(rs));
    RemarkParts(rs);
    HasAtSplit(b, q, Mark(Comment, rs[0].comment), Escaped(rs[0].text) + Printed(rs[1..]));
    CommentThere(b, q, rs[0].comment);
    NoComment(b, q + |Printed(rs)|);
  }

  lemma ValueIsLong(v: seq<byte>, rs: seq<Remark>)
    requires rs != []
    ensures IsWord(v + Value(rs)) && v + Value(rs) != []
  {
    assert |Value(rs)| >= |Mark(Comment, rs[0].comment)| >= 7;
  }

  lemma ContentRead(b: seq<byte>, g: nat, v: seq<byte>, rs: seq<Remark>)
    requires CommentedAt(b, g, v, rs)
    ensures var n := |Escaped(v)| + |Printed(rs)|;
      && n > 0 && g + 1 + n <= |b| && ContentEnd(b, g + 1) == g + 1 + n && Token(b, g + 1, n) == Some(v + Value(rs))
  {
    hide *;
    var q, e := g + 1 + |Escaped(v)|, g + 1 + |Escaped(v)| + |Printed(rs)|;
    CommentedParts(b, g, v, rs);
    ContentOver(b, g + 1, v, rs);
    TextRead(b, g + 1, v);
    RemarksRead(b, q, rs);
    UnescapedConcat(b, g + 1, q, e);
    NotShort(rs);
    TokenIs(b, g + 1, e - (g + 1));
  }

  lemma NotShort(rs: seq<Remark>)
    requires rs != []
    ensures |Printed(rs)| > 0
  {
  }

  lemma TokenIs(b: seq<byte>, p: nat, len: nat)
    requires len > 0
    ensures Token(b, p, len) == Unescaped(b, p, p + len)
  {
    hide Unescaped;
  }

  // The token behind the white space is all of it.
  lemma CommentedToken(b: seq<byte>, x: Scanner, g: nat, v: seq<byte>, rs: seq<Remark>)
    requires CommentedAt(b, g, v, rs) && !x.inAttrib && x.tagVal && x.save == Some(g) && ContentByte(b, x.pos)
    ensures NextToken(b, x) ==
      Took((x.(pos := g + 1 + |Escaped(v)| + |Printed(rs)|, tagVal := false), v + Value(rs)))
  {
    hide CommentedAt, Token, ContentEnd, AtMarkup, IsNameCh, ToInt, Escaped;
    ContentRead(b, g, v, rs);
    NoMarkup(b, x.pos);
    SkipNothing(b, x.pos, true);
    ByteInside(b, x.pos);
  }

  lemma ByteInside(b: seq<byte>, p: nat)
    requires ContentByte(b, p)
    ensures p < |b| && At(b, p) != 0
  {
  }

  // Text with comments in it is reported as one text, the comments as they stand.
  lemma CommentedText(b: seq<byte>, ps: ParserState, g: nat, v: seq<byte>, rs: seq<Remark>, fuel: nat)
    requires CommentedAt(b, g, v, rs) && fuel >= 1
    ensures var e := g + 1 + |Escaped(v)| + |Printed(rs)|;
      NextNode(b, Opened(ps, g), NO_EVENT, fuel) ==
        Return(ParserState(Scanner(e, false, Some(g), false), false, false, ps.lastElem),
               Event(TextNode, TEXT_NAME, Some(v + Value(rs)), false))
  {
    hide *;
    var ps1, r := Opened(ps, g), SkipWhite(b, g + 1);
    var e := g + 1 + |Escaped(v)| + |Printed(rs)|;
    CommentedParts(b, g, v, rs);
    OpenedIs(ps, g);
    TextIsSolid(b, g + 1, v);
    SkipStops(b, g + 1);
    TextByte(b, g + 1, v, r);
    TokenHere(b, ps1.scan, r);
    NotAtEnd(b, g + 1, r);
    CommentedToken(b, ps1.scan.(pos := r), g, v, rs);
    ValueIsLong(v, rs);
    var y := Scanner(e, false, Some(g), false);
    StepIs(b, ps1, NO_EVENT, y, v + Value(rs));
    OnText(b, ps1, y, v + Value(rs));
    TurnReturns(b, ps1, NO_EVENT, fuel);
  }

  lemma SkipStops(b: seq<byte>, p: nat)
    ensures !IsWhite(At(b, SkipWhite(b, p)))
  {
    hide IsWhite;
  }

  lemma OnText(b: seq<byte>, ps: ParserState, x: Scanner, tok: seq<byte>)
    requires IsWord(tok) && !ps.attrFound && !x.inAttrib
    ensures OnToken(b, ps, NO_EVENT, x, tok) == Return(ps.(scan := x), Event(TextNode, TEXT_NAME, Some(tok), false))
  {
  }

  // ---- a whole document

  // Its element is closed by an end tag, and its text is read with the comments.
  lemma CommentedElement(b: seq<byte>, ps: ParserState, p: nat, name: seq<byte>, attrs: seq<Attribute>, v: seq<byte>,
                         rs: seq<Remark>, stack: seq<Frame>, fuel: nat)
    returns (ps': ParserState)
    requires Before(b, ps, p) && stack != [] && fuel >= 3 && IsName(name) && ReadableAttrs(attrs)
    requires HasAt(b, p, PrintedTag(name, attrs) + GREATERTHAN)
    requires CommentedAt(b, p + |PrintedTag(name, attrs)|, v, rs)
    requires var e := p + |PrintedTag(name, attrs)| + 1 + |Escaped(v)| + |Printed(rs)|; HasAt(b, e, PrintedEnd(name))
    ensures !ps.scan.inAttrib
    ensures Steps(b, ps, stack, |attrs| + 3, fuel) ==
      Some((ps', AddChildren(stack, [Element(name, attrs, [Text(v + Value(rs))])])))
    ensures Ready(b, ps', p + |PrintedTag(name, attrs)| + 1 + |Escaped(v)| + |Printed(rs)| + |PrintedEnd(name)|)
  {
    hide *;
    var g := p + |PrintedTag(name, attrs)|;
    var f, t := Frame(name, attrs, []), Text(v + Value(rs));
    var e := g + 1 + |Escaped(v)| + |Printed(rs)|;
    BeforeIsOutside(b, ps, p);
    GreaterIsNoEmpty();
    var ps2 := ParseTag(b, ps, p, name, attrs, GREATERTHAN, stack, fuel);
    HasAtSplit(b, p, PrintedTag(name, attrs), GREATERTHAN);
    BehindTag(b, ps2, g);
    SettledStep(b, ps2, g + 1, stack + [f], fuel - 1);
    CommentedText(b, ps2, g, v, rs, if ps2.oneAttr then fuel - 1 else fuel);
    var ps3 := ParserState(Scanner(e, false, Some(g), false), false, false, ps2.lastElem);
    TextStep(b, Settled(ps2), ps3, stack + [f], t.value, if ps2.oneAttr then fuel - 1 else fuel);
    OneMoreStep(b, ps, stack, 1 + |attrs|, fuel);
    FillFrame(stack, f, [t]);
    ReadyThere(b, ps3, e);
    ps' := ParseEnd(b, ps3, e, f.(children := [t]), stack, fuel);
    OneMoreStep(b, ps, stack, 2 + |attrs|, fuel);
    ClosedIs(f, t);
  }

  lemma GreaterIsNoEmpty()
    ensures GREATERTHAN != EMPTY_END && |GREATERTHAN| == 1
  {
  }

  lemma BehindTag(b: seq<byte>, ps: ParserState, g: nat)
    requires HasAt(b, g, GREATERTHAN) && !ps.scan.inAttrib
    requires (ps.oneAttr ==> AtTagEnd(b, ps) && ps.scan.pos == g) && (!ps.oneAttr ==> ps == Opened(ps, g))
    ensures Before(b, ps, g + 1) && Settled(ps) == Opened(ps, g) && !Settled(ps).scan.inAttrib
  {
  }

  lemma TextStep(b: seq<byte>, ps: ParserState, next: ParserState, stack: seq<Frame>, v: seq<byte>, fuel: nat)
    requires !ps.scan.inAttrib && !next.scan.inAttrib && stack != []
    requires NextNode(b, ps, NO_EVENT, fuel) == Return(next, Event(TextNode, TEXT_NAME, Some(v), false))
    ensures Step(b, ps, stack, fuel) == Some((next, AddChildren(stack, [Text(v)])))
  {
    hide NextNode;
  }

  lemma ReadyThere(b: seq<byte>, ps: ParserState, e: nat)
    requires !ps.scan.inAttrib && !ps.oneAttr && ps.scan.pos == e
    ensures Before(b, ps, e)
  {
  }

  lemma ClosedIs(f: Frame, t: Node)
    requires f.children == []
    ensures Closed(f.(children := [t])) == Element(f.name, f.attrs, [t])
  {
  }

  // What the first call is given does not matter before a start tag.
  lemma FirstCallTag(b: seq<byte>, ps: ParserState, p: nat, name: seq<byte>, attrs: seq<Attribute>, close: seq<byte>,
                     ev: Event, fuel: nat)
    requires Ready(b, ps, p) && IsName(name) && close != [] && Punctuation(close[0])
    requires HasAt(b, p, PrintedTag(name, attrs) + close)
    ensures !ps.scan.inAttrib && NextNode(b, ps, ev, fuel + 1) == NextNode(b, ps, NO_EVENT, fuel + 1)
  {
    hide HasAt, NodeStep, IsName, PrintedAttrs;
    var rest := PrintedAttrs(attrs) + close;
    assert PrintedTag(name, attrs) + close == (LESSTHAN + name) + rest;
    HasAtSplit(b, p, LESSTHAN + name, rest);
    RestBegins(attrs, close);
    HasAtHead(b, p + 1 + |name|, rest);
    NameStep(b, ps, ev, p, name);
    NameStep(b, ps, NO_EVENT, p, name);
  }

  lemma RestBegins(attrs: seq<Attribute>, close: seq<byte>)
    requires close != [] && Punctuation(close[0])
    ensures var rest := PrintedAttrs(attrs) + close; rest != [] && Punctuation(rest[0])
  {
    hide Escaped;
    if attrs != [] {
      assert PrintedAttr(attrs[0])[0] == SPACE;
    } else {
      assert PrintedAttrs(attrs) + close == close;
    }
  }

  // The text of the document.
  function DocumentText(name: seq<byte>, attrs: seq<Attribute>, v: seq<byte>, rs: seq<Remark>): seq<byte> {
    (PrintedTag(name, attrs) + GREATERTHAN) + ((Escaped(v) + Printed(rs)) + PrintedEnd(name))
  }

  lemma DocumentParts(b: seq<byte>, p: nat, name: seq<byte>, attrs: seq<Attribute>, v: seq<byte>, rs: seq<Remark>)
    requires HasAt(b, p, DocumentText(name, attrs, v, rs)) && XmlText(v) && !Blank(v) && AreRemarks(rs) && rs != []
    ensures var g := p + |PrintedTag(name, attrs)|;
      var e := g + 1 + |Escaped(v)| + |Printed(rs)|;
      && HasAt(b, p, PrintedTag(name, attrs) + GREATERTHAN) && CommentedAt(b, g, v, rs) && HasAt(b, e, PrintedEnd(name))
      && p + |DocumentText(name, attrs, v, rs)| == e + |PrintedEnd(name)|
  {
    hide HasAt, PrintedTag, Escaped, Printed, XmlText, Blank, AreRemarks, PrintedEnd;
    var head, content := PrintedTag(name, attrs) + GREATERTHAN, Escaped(v) + Printed(rs);
    HasAtSplit(b, p, head, content + PrintedEnd(name));
    HasAtSplit(b, p + |head|, content, PrintedEnd(name));
    EndTagStart(b, p + |head| + |content|, name);
  }

  // A document of one element with attributes, text and comments: behind any prolog it comes back with the
  // comments in its text.
  lemma CommentedDocument(white: seq<byte>, pieces: seq<Piece>, name: seq<byte>, attrs: seq<Attribute>, v: seq<byte>,
                          rs: seq<Remark>, after: seq<Piece>, ev: Event, nodes: nat, fuel: nat)
    requires IsSpace(white) && IsProlog(pieces) && IsProlog(after)
    requires IsName(name) && ReadableAttrs(attrs) && XmlText(v) && !Blank(v) && AreRemarks(rs) && rs != []
    requires nodes > |attrs| + 3 && fuel >= 3
    ensures ParseBuffer(white + PrologText(pieces) + DocumentText(name, attrs, v, rs) + PrologText(after),
                        ev, nodes, fuel)
         == Done([Frame(DOCUMENT_NAME, [], [Element(name, attrs, [Text(v + Value(rs))])])])
  {
    hide *;
    var front, text := Front(white, pieces), DocumentText(name, attrs, v, rs);
    var b, q := front + text + PrologText(after), |front|;
    var n, doc := |attrs| + 3, [Element(name, attrs, [Text(v + Value(rs))])];
    FrontIs(white, pieces);
    Three(front, text, PrologText(after));
    DocumentParts(b, q, name, attrs, v, rs);
    TagStart(b, q, name, attrs);
    InBuffer(b, q);
    FirstCallSame(b, white, pieces, ev, fuel);
    StartsThere(b, q, []);
    GreaterIsNoEmpty();
    GreaterEnds();
    FirstCallTag(b, StateAt(q), q, name, attrs, GREATERTHAN, ev, fuel - 1);
    FrontRun(b, q, ev, nodes, fuel);
    var ps' := CommentedElement(b, StateAt(q), q, name, attrs, v, rs, EMPTY_DOCUMENT, fuel);
    StepsRun(b, StateAt(q), EMPTY_DOCUMENT, n, nodes - n, fuel);
    DocumentFrame(doc);
    EpilogEnds(b, ps', q + |text|, after, [Frame(DOCUMENT_NAME, [], doc)], nodes - n, fuel);
  }

  lemma GreaterEnds()
    ensures GREATERTHAN != [] && Punctuation(GREATERTHAN[0])
  {
  }

  lemma TagStart(b: seq<byte>, q: nat, name: seq<byte>, attrs: seq<Attribute>)
    requires IsName(name) && HasAt(b, q, PrintedTag(name, attrs) + GREATERTHAN)
    ensures At(b, q) == LESS && At(b, q + 1) != 33 && At(b, q + 1) != 63
  {
    hide HasAt, IsName, PrintedAttrs;
    var rest := PrintedAttrs(attrs) + GREATERTHAN;
    assert PrintedTag(name, attrs) + GREATERTHAN == LESSTHAN + (name + rest);
    HasAtSplit(b, q, LESSTHAN, name + rest);
    HasAtSplit(b, q + 1, name, rest);
    HasAtHead(b, q, LESSTHAN);
    FirstOfName(b, q + 1, name);
  }

  // ---- a comment before the text

  // Where markup stands right behind a start tag, the text behind it is not read as content, but up to the
  // end of its first word.
  lemma LeadingComment(b: seq<byte>, ps: ParserState, g: nat, pieces: seq<Piece>, name: seq<byte>, fuel: nat)
    requires IsProlog(pieces) && pieces != [] && HasAt(b, g + 1, PrologText(pieces) + name) && IsName(name) && fuel >= 1
    requires Punctuation(At(b, g + 1 + |PrologText(pieces)| + |name|))
    ensures var e := g + 1 + |PrologText(pieces)| + |name|;
      NextNode(b, Opened(ps, g), NO_EVENT, fuel) ==
        Return(ParserState(Scanner(e, false, Some(g), false), false, false, ps.lastElem),
               Event(TextNode, TEXT_NAME, Some(name), false))
  {
    hide *;
    var p := g + 1;
    var q := p + |PrologText(pieces)|;
    var ps1, y := Opened(ps, g), Scanner(q + |name|, false, Some(g), false);
    OpenedIs(ps, g);
    HasAtSplit(b, p, PrologText(pieces), name);
    NameToken(b, Scanner(q, false, Some(g), false), name);
    WordIs(name);
    FirstMark(b, p, pieces);
    LessIsSolid(b, p);
    NoMarkupAt(b, q);
    PrologSkipped(b, p, pieces, true);
    NoWhites(b, p);
    TokenHere(b, ps1.scan, p);
    TokenBehindMarkup(b, ps1.scan, q);
    StepIs(b, ps1, NO_EVENT, y, name);
    OnText(b, ps1, y, name);
    TurnReturns(b, ps1, NO_EVENT, fuel);
  }

  lemma WordIs(tok: seq<byte>)
    requires tok != [] && tok != LESSTHAN && tok != GREATERTHAN && tok != ENDTAG && tok != COMPLETETAG
    ensures IsWord(tok)
  {
  }

  lemma NoMarkupAt(b: seq<byte>, q: nat)
    requires !Punctuation(At(b, q))
    ensures !AtMarkup(b, q)
  {
    NoMarkup(b, q);
  }

  lemma TokenBehindMarkup(b: seq<byte>, x: Scanner, q: nat)
    requires !x.inAttrib && At(b, x.pos) == LESS && SkipMarkup(b, x.pos, x.tagVal) == (q, false)
    requires !Punctuation(At(b, q)) && !IsWhite(At(b, q)) && !AtMarkup(b, q)
    ensures NextToken(b, x) == NextToken(b, x.(pos := q, tagVal := false))
  {
    hide SkipMarkup, PickToken, TakePicked, AtMarkup;
    SkipNothing(b, q, false);
    assert At(b, q) != 0;
  }
}
