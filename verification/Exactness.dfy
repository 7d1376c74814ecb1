// Exactly which attribute values and texts come back, for all byte strings.
module Exactness {
  import opened Bytes
  import opened Utf8
  import opened CharTables
  import opened Escape
  import opened Lexer
  import opened Reader
  import opened Tree
  import opened Tokens
  import opened RoundTrip
  import opened EndTags

  // The part of an encoding before an ASCII byte is an encoding too.
  lemma {:induction false} PrefixIsXmlText(cs: seq<XmlChar>, k: nat)
    requires k < |Encode(cs)| && Encode(cs)[k] <= 127
    ensures XmlText(Encode(cs)[..k])
    decreases |cs|
  {
    hide ToUtf8;
    var s, head := Encode(cs), ToUtf8(cs[0]);
    assert s == head + Encode(cs[1..]);
    if k == 0 {
      assert s[..k] == Encode([]);
    } else {
      assert |head| > 1 ==> forall i :: 0 <= i < |head| ==> s[i] == head[i] && s[i] >= 128;
      assert k >= |head|;
      PrefixIsXmlText(cs[1..], k - |head|);
      EncodeOne(cs[0]);
      assert s[..k] == head + Encode(cs[1..])[..k - |head|];
      XmlTextConcat(head, Encode(cs[1..])[..k - |head|]);
    }
  }

  lemma {:induction false} FirstIndex(v: seq<byte>, c: byte) returns (k: nat)
    requires c in v
    ensures k < |v| && v[k] == c && c !in v[..k]
  {
    if v[0] == c {
      k := 0;
    } else {
      assert v == [v[0]] + v[1..];
      k := FirstIndex(v[1..], c);
      assert v[..k + 1] == [v[0]] + v[1..][..k];
      k := k + 1;
    }
  }

  // A quote inside a value ends it early.
  lemma QuoteEndsValue(b: seq<byte>, p: nat, v: seq<byte>)
    requires XmlText(v) && QUOTE in v && HasAt(b, p, Escaped(v))
    ensures Token(b, p, ScanUntil(b, p, [QUOTE]) - p) != Some(v)
  {
    hide ScanUntil, Unescaped, Escaped, Encode;
    var k := FirstIndex(v, QUOTE);
    var w, rest := v[..k], v[k + 1..];
    assert XmlText(w) by {
      var cs: seq<XmlChar> :| v == Encode(cs);
      PrefixIsXmlText(cs, k);
    }
    assert v == w + ([QUOTE] + rest);
    EscapedConcat(w, [QUOTE] + rest);
    EscapedConcat([QUOTE], rest);
    QuoteStays();
    HasAtSplit(b, p, Escaped(w), [QUOTE] + Escaped(rest));
    HasAtHead(b, p + |Escaped(w)|, [QUOTE] + Escaped(rest));
    EscapedIsClean(w);
    ScanPast(b, p, Escaped(w), QUOTE);
    EscapeRoundTrip(b, p, w);
    if w == [] {
      assert Escaped(w) == [] by { NothingEscaped(); }
    }
  }

  lemma NothingEscaped()
    ensures Escaped([]) == []
  {
  }

  // Tokens are empty, a space, or text of XML characters.
  lemma TokenIsXmlText(b: seq<byte>, x: Scanner)
    requires NextToken(b, x).Took? && NextToken(b, x).value.1 != []
    ensures XmlText(NextToken(b, x).value.1)
  {
    hide Unescaped, PickToken, SkipMarkup, ScanUntil, XmlText;
    EncodeOne(SPACE);
    OneByteEncoding(SPACE);
    forall p: nat, len: nat | Token(b, p, len).Some? ensures XmlText(Token(b, p, len).value) {
      UnescapedIsXmlText(b, p, p + len);
    }
  }

  // The value read after an attribute's name.
  lemma ReadValue(b: seq<byte>, x: Scanner, s: seq<byte>)
    requires !x.inAttrib && !x.tagVal && HasAt(b, x.pos, ATTR_EQUALS + s)
    ensures var z := Scanner(x.pos + 2, false, x.save, true);
      AttributeValue(b, x).Took? ==> NextToken(b, z).Took? && NextToken(b, z).value.1 == AttributeValue(b, x).value.1
  {
    hide NextToken;
    HasAtSplit(b, x.pos, ATTR_EQUALS, s);
    HasAtIndex(b, x.pos, ATTR_EQUALS);
    assert At(b, x.pos + 0) == EQUAL && At(b, x.pos + 1) == QUOTE;
    TokenHere(b, x, x.pos);
    SignToken(b, x);
    var y := x.(pos := x.pos + 1);
    TokenHere(b, y, y.pos);
    SignToken(b, y);
  }

  // An attribute value comes back exactly when it is readable, for every byte string.
  lemma ValueComesBack(b: seq<byte>, x: Scanner, v: seq<byte>)
    requires !x.inAttrib && !x.tagVal
    requires HasAt(b, x.pos, ATTR_EQUALS + (Escaped(v) + ATTR_END))
    ensures (AttributeValue(b, x).Took? && AttributeValue(b, x).value.1 == v) <==> ReadableValue(v)
  {
    hide AttributeValue, Escaped, NextToken, XmlText;
    if ReadableValue(v) {
      AttrValueIs(b, x, v);
    } else if AttributeValue(b, x).Took? && AttributeValue(b, x).value.1 == v {
      var s := Escaped(v) + ATTR_END;
      ReadValue(b, x, s);
      var z := Scanner(x.pos + 2, false, x.save, true);
      HasAtSplit(b, x.pos, ATTR_EQUALS, s);
      HasAtSplit(b, z.pos, Escaped(v), ATTR_END);
      NonEmptyValue(b, x);
      TokenIsXmlText(b, z);
      UnreadableValue(b, z, v);
      assert false;
    }
  }

  lemma NonEmptyValue(b: seq<byte>, x: Scanner)
    requires AttributeValue(b, x).Took?
    ensures AttributeValue(b, x).value.1 != []
  {
  }

  lemma UnreadableValue(b: seq<byte>, z: Scanner, v: seq<byte>)
    requires z.inAttrib && !z.tagVal && v != [] && v != [QUOTE] && XmlText(v) && QUOTE in v
    requires HasAt(b, z.pos, Escaped(v)) && NextToken(b, z).Took?
    ensures NextToken(b, z).value.1 != v
  {
    hide Unescaped, SkipMarkup, ScanUntil, XmlText, AtMarkup, Escaped, Encode;
    QuoteEndsValue(b, z.pos, v);
    EscapedIsClean(v);
    HasAtHead(b, z.pos, Escaped(v));
    if At(b, z.pos) == QUOTE {
      NoMarkup(b, z.pos);
      SkipNothing(b, z.pos, z.tagVal);
      QuotePick(b, z.pos, z.save);
      PlainToken(b, z.pos);
    }
  }

  // Text events carry the text of a token.
  lemma {:induction false} TextIsXmlText(b: seq<byte>, ps: ParserState, ev: Event, fuel: nat)
    requires !ps.scan.inAttrib && (ev.kind == TextNode ==> ev.value.Some? && XmlText(ev.value.value))
    requires NextNode(b, ps, ev, fuel).Return? && NextNode(b, ps, ev, fuel).ev.kind == TextNode
    ensures var o := NextNode(b, ps, ev, fuel); o.ev.value.Some? && XmlText(o.ev.value.value)
    decreases fuel
  {
    hide XmlText, NextToken, AttributeValue, TagName;
    if At(b, ps.scan.pos) != 0 {
      var x := IgnoreWhite(b, ps.scan);
      if NextToken(b, x).value.1 != [] {
        TokenIsXmlText(b, x);
      }
      var r := NodeStep(b, ps, ev);
      if r.Continue? {
        TextIsXmlText(b, r.ps, r.ev, fuel - 1);
      }
    }
  }

  // At q stand < and a name, or </ and a name and >.
  ghost predicate TagAt(b: seq<byte>, q: nat, closing: bool, name: seq<byte>) {
    var e := q + if closing then 2 else 1;
    && IsName(name) && At(b, q) == LESS && HasAt(b, e, name) && Punctuation(At(b, e + |name|))
    && (closing ==> At(b, q + 1) == SLASH && At(b, e + |name|) == GREATER)
  }

  lemma TagParts(b: seq<byte>, q: nat, closing: bool, name: seq<byte>)
    requires TagAt(b, q, closing, name)
    ensures var e := q + if closing then 2 else 1;
      && IsName(name) && At(b, q) == LESS && HasAt(b, e, name) && Punctuation(At(b, e + |name|))
      && (closing ==> At(b, q + 1) == SLASH && At(b, e + |name|) == GREATER)
      && !IsWhite(LESS) && !IsWhite(GREATER)
  {
    hide IsName;
  }

  // The two tokens of a tag.
  lemma TagTokens(b: seq<byte>, y: Scanner, closing: bool, name: seq<byte>)
    requires TagAt(b, y.pos, closing, name) && !y.inAttrib
    ensures var e := y.pos + if closing then 2 else 1;
      var z := y.(pos := e, tagVal := false);
      && TokenAfterWhite(b, y) == Took((z, if closing then ENDTAG else LESSTHAN))
      && TokenAfterWhite(b, z) == Took((z.(pos := e + |name|), name)) && name != []
      && IsWord(name) && !IsWhite(At(b, e)) && At(b, e) != 0
    ensures At(b, y.pos) == LESS && At(b, y.pos + 1) != 33
  {
    hide *;
    TagParts(b, y.pos, closing, name);
    var e := y.pos + if closing then 2 else 1;
    var z := y.(pos := e, tagVal := false);
    NameToken(b, z, name);
    NoWhites(b, y.pos);
    NoWhites(b, e);
    TokenHere(b, y, y.pos);
    TokenHere(b, z, e);
    WordIs(name, At(b, e));
    if closing {
      EndTagToken(b, y);
      SlashIsNoBang(b, y.pos + 1);
    } else {
      BeginTagToken(b, y);
    }
  }

  lemma WordIs(tok: seq<byte>, c: byte)
    requires tok != [] && tok != LESSTHAN && tok != GREATERTHAN && tok != ENDTAG && tok != COMPLETETAG
    ensures IsWord(tok)
    ensures !Punctuation(c) ==> c != 0 && c != 33
  {
  }

  lemma SlashIsNoBang(b: seq<byte>, p: nat)
    requires At(b, p) == SLASH
    ensures At(b, p) != 33
  {
  }

  // The call after a start tag, when text v and a tag follow it.
  ghost predicate TextBefore(b: seq<byte>, ps: ParserState, g: nat, v: seq<byte>, closing: bool, name: seq<byte>) {
    ps == Opened(ps, g) && HasAt(b, g + 1, Escaped(v)) && TagAt(b, g + 1 + |Escaped(v)|, closing, name)
  }

  // The turns after a < in the same call report no text.
  lemma {:induction false} NoTextInTag(b: seq<byte>, ps: ParserState, ev: Event, fuel: nat)
    requires !ps.scan.inAttrib && ps.attrFound && !ps.oneAttr && ev.kind != TextNode
    ensures var o := NextNode(b, ps, ev, fuel); o.Return? ==> o.ev.kind != TextNode
    decreases fuel
  {
    hide TokenAfterWhite, TagName, AttributeValue;
    if At(b, ps.scan.pos) != 0 && fuel > 0 {
      var r := NodeStep(b, ps, ev);
      if r.Continue? {
        NoTextInTag(b, r.ps, r.ev, fuel - 1);
      }
    }
  }

  lemma BeforeText(b: seq<byte>, ps: ParserState, g: nat, v: seq<byte>, closing: bool, name: seq<byte>)
    requires TextBefore(b, ps, g, v, closing, name)
    ensures ps == Opened(ps, g) && !ps.scan.inAttrib && !ps.oneAttr && !ps.attrFound && ps.scan.pos == g + 1
    ensures HasAt(b, g + 1, Escaped(v)) && TagAt(b, g + 1 + |Escaped(v)|, closing, name)
    ensures At(b, g + 1 + |Escaped(v)|) == LESS && At(b, g + 1 + |Escaped(v)| + 1) != 33
  {
    hide *;
    BeforeTextIs(b, ps, g, v, closing, name);
    TagTokens(b, Scanner(g + 1 + |Escaped(v)|, false, None, false), closing, name);
  }

  lemma BeforeTextIs(b: seq<byte>, ps: ParserState, g: nat, v: seq<byte>, closing: bool, name: seq<byte>)
    requires TextBefore(b, ps, g, v, closing, name)
    ensures ps == Opened(ps, g) && !ps.scan.inAttrib && !ps.oneAttr && !ps.attrFound && ps.scan.pos == g + 1
    ensures HasAt(b, g + 1, Escaped(v)) && TagAt(b, g + 1 + |Escaped(v)|, closing, name)
  {
    hide TagAt, Escaped, HasAt;
  }

  // White space between the tags is not reported: the call goes on to the tag behind it.
  lemma BlankIsLost(b: seq<byte>, ps: ParserState, g: nat, v: seq<byte>, closing: bool, name: seq<byte>, fuel: nat)
    requires TextBefore(b, ps, g, v, closing, name) && Blank(v)
    ensures !ps.scan.inAttrib
    ensures var o := NextNode(b, ps, NO_EVENT, fuel); !(o.Return? && o.ev.kind == TextNode)
  {
    hide *;
    BeforeText(b, ps, g, v, closing, name);
    BlankEscaped(v);
    BlankIsWhite(b, g + 1, v);
    TagFollows(b, ps, g + 1 + |v|, closing, name, fuel);
  }

  lemma BlankIsWhite(b: seq<byte>, p: nat, v: seq<byte>)
    requires Blank(v) && HasAt(b, p, v)
    ensures Whites(b, p, p + |v|)
  {
    HasAtIndex(b, p, v);
    forall i | p <= i < p + |v| ensures IsWhite(At(b, i)) {
      assert At(b, p + (i - p)) == v[i - p];
    }
  }

  // A call that comes to a tag reports no text.
  lemma TagFollows(b: seq<byte>, ps: ParserState, q: nat, closing: bool, name: seq<byte>, fuel: nat)
    requires !ps.scan.inAttrib && !ps.oneAttr && Whites(b, ps.scan.pos, q) && TagAt(b, q, closing, name)
    ensures var o := NextNode(b, ps, NO_EVENT, fuel); !(o.Return? && o.ev.kind == TextNode)
  {
    hide *;
    TagParts(b, q, closing, name);
    var y := ps.scan.(pos := q);
    var e := q + if closing then 2 else 1;
    var z, w := y.(pos := e, tagVal := false), y.(pos := e + |name|, tagVal := false);
    TagTokens(b, y, closing, name);
    NoWhites(b, q);
    TokenHere(b, ps.scan, q);
    TokenHere(b, y, q);
    LessThere(b, ps.scan.pos, q);
    if fuel == 0 {
      NoTurns(b, ps, NO_EVENT);
    } else {
      StepIs(b, ps, NO_EVENT, z, if closing then ENDTAG else LESSTHAN);
      if closing {
        OnEndTag(b, ps, NO_EVENT, z, w, name);
        TurnGoesOn(b, ps, NO_EVENT, fuel);
        EndsAtGreater(b, ps.(scan := w), name, fuel - 1);
      } else {
        OnStartTag(b, ps, NO_EVENT, z, w, name);
        TurnGoesOn(b, ps, NO_EVENT, fuel);
        NoTextInTag(b, ParserState(w, true, false, name), Event(ElementNode, name, None, false), fuel - 1);
      }
    }
  }

  lemma LessThere(b: seq<byte>, p: nat, q: nat)
    requires Whites(b, p, q) && At(b, q) == LESS
    ensures At(b, p) != 0
  {
  }

  lemma EndsAtGreater(b: seq<byte>, ps: ParserState, name: seq<byte>, fuel: nat)
    requires !ps.scan.inAttrib && !ps.oneAttr && At(b, ps.scan.pos) == GREATER
    ensures var o := NextNode(b, ps, Event(ElementNode, name, None, true), fuel); !(o.Return? && o.ev.kind == TextNode)
  {
    hide NextToken;
    NoWhites(b, ps.scan.pos);
    TokenHere(b, ps.scan, ps.scan.pos);
    GreaterToken(b, ps.scan);
  }

  lemma {:induction false} BlankEscaped(v: seq<byte>)
    requires Blank(v)
    ensures Escaped(v) == v
  {
    if v != [] {
      assert v == [v[0]] + v[1..];
      assert Blank(v[1..]);
      BlankEscaped(v[1..]);
    }
  }

  // The token after the > is the text.
  lemma FirstStepOnText(b: seq<byte>, ps: ParserState, g: nat, v: seq<byte>, closing: bool, name: seq<byte>)
    requires TextBefore(b, ps, g, v, closing, name) && XmlText(v) && !Blank(v)
    ensures !ps.scan.inAttrib
    ensures var y := Scanner(g + 1 + |Escaped(v)|, false, Some(g), false);
      NodeStep(b, ps, NO_EVENT) == OnToken(b, ps, NO_EVENT, y, v) && At(b, ps.scan.pos) != 0
  {
    hide NextToken, Escaped, OnToken, XmlText, NodeStep, TagAt, Blank, TextBefore;
    BeforeText(b, ps, g, v, closing, name);
    TextIsSolid(b, g + 1, v);
    var r := SkipWhite(b, g + 1);
    TokenHere(b, ps.scan, r);
    NotAtEnd(b, g + 1, r);
    ContentToken(b, ps.scan.(pos := r), v);
    StepIs(b, ps, NO_EVENT, Scanner(g + 1 + |Escaped(v)|, false, Some(g), false), v);
  }

  // A text equal to a piece of tag punctuation is taken for it.
  lemma PunctuationIsNoText(b: seq<byte>, ps: ParserState, g: nat, v: seq<byte>, closing: bool, name: seq<byte>,
                            fuel: nat)
    requires TextBefore(b, ps, g, v, closing, name) && fuel >= 1
    requires v == LESSTHAN || v == GREATERTHAN || v == ENDTAG || v == COMPLETETAG
    ensures !ps.scan.inAttrib
    ensures var o := NextNode(b, ps, NO_EVENT, fuel);
      !(o.Return? && o.ev.kind == TextNode && o.ev.value == Some(v))
  {
    hide NextToken, NodeStep, TagAt, Escaped, XmlText, TextBefore;
    PunctuationIsXmlText(v);
    BeforeText(b, ps, g, v, closing, name);
    FirstStepOnText(b, ps, g, v, closing, name);
    if v == LESSTHAN || v == ENDTAG {
      var p := g + 1 + |Escaped(v)|;
      AfterFalseTag(b, ps, Scanner(p, false, Some(g), false), v, closing, name, fuel);
    }
  }

  // With the real tag's first token used up as a name, its own name is what comes next.
  lemma AfterFalseTag(b: seq<byte>, ps: ParserState, y: Scanner, v: seq<byte>, closing: bool, name: seq<byte>,
                      fuel: nat)
    requires TagAt(b, y.pos, closing, name) && !y.inAttrib && !ps.scan.inAttrib && !ps.oneAttr
    requires v == LESSTHAN || v == ENDTAG
    requires NodeStep(b, ps, NO_EVENT) == OnToken(b, ps, NO_EVENT, y, v) && At(b, ps.scan.pos) != 0 && fuel >= 1
    ensures var o := NextNode(b, ps, NO_EVENT, fuel); o.Return? && o.ev.kind == TextNode ==> o.ev.value != Some(v)
  {
    hide *;
    var tok, e := if closing then ENDTAG else LESSTHAN, y.pos + if closing then 2 else 1;
    var z := y.(pos := e, tagVal := false);
    var x := z.(pos := e + |name|);
    TagTokens(b, y, closing, name);
    TagIsToken(tok);
    if v == LESSTHAN {
      OnStartTag(b, ps, NO_EVENT, y, z, tok);
      TurnGoesOn(b, ps, NO_EVENT, fuel);
      NoTextInTag(b, ParserState(z, true, false, tok), Event(ElementNode, tok, None, false), fuel - 1);
    } else {
      OnEndTag(b, ps, NO_EVENT, y, z, tok);
      TurnGoesOn(b, ps, NO_EVENT, fuel);
      var ps1, ev1 := ps.(scan := z), Event(ElementNode, tok, None, true);
      WordParts(name);
      StepIs(b, ps1, ev1, x, name);
      OnName(b, ps1, ev1, x, name);
      PutBackIs(ps1, ev1, x, |name| + 1);
      OneTurn(b, ps1, ev1, fuel - 1);
    }
  }

  lemma TagIsToken(tok: seq<byte>)
    ensures tok == ENDTAG || tok == LESSTHAN ==> tok != []
    ensures LESSTHAN != ENDTAG
  {
  }

  lemma WordParts(tok: seq<byte>)
    requires IsWord(tok)
    ensures tok != [] && tok != LESSTHAN && tok != GREATERTHAN && tok != ENDTAG && tok != COMPLETETAG
  {
  }

  // A call that returns in its first turn, or is cut off before it.
  lemma OneTurn(b: seq<byte>, ps: ParserState, ev: Event, fuel: nat)
    requires !ps.scan.inAttrib && NodeStep(b, ps, ev).Return? && ev.kind == ElementNode
    ensures var o := NextNode(b, ps, ev, fuel);
      o == NodeStep(b, ps, ev) || o == Return(ps, ev) || o.Continue?
  {
    hide NodeStep;
  }

  lemma PunctuationIsXmlText(v: seq<byte>)
    requires v == LESSTHAN || v == GREATERTHAN || v == ENDTAG || v == COMPLETETAG
    ensures XmlText(v) && !Blank(v)
  {
    hide XmlText;
    EncodeOne(LESS);
    EncodeOne(GREATER);
    EncodeOne(SLASH);
    OneByteEncoding(LESS);
    OneByteEncoding(GREATER);
    OneByteEncoding(SLASH);
    XmlTextConcat([LESS], [SLASH]);
    XmlTextConcat([SLASH], [GREATER]);
    assert [LESS] + [SLASH] == ENDTAG && [SLASH] + [GREATER] == COMPLETETAG;
    assert !IsWhite(v[0]);
  }

  // The text between a start tag and the tag behind it comes back exactly when it is readable, for
  // every byte string.
  lemma TextComesBack(b: seq<byte>, ps: ParserState, g: nat, v: seq<byte>, closing: bool, name: seq<byte>, fuel: nat)
    requires TextBefore(b, ps, g, v, closing, name) && fuel >= 1
    ensures !ps.scan.inAttrib
    ensures var o := NextNode(b, ps, NO_EVENT, fuel);
      (o.Return? && o.ev.kind == TextNode && o.ev.value == Some(v)) <==> ReadableText(v)
  {
    hide NextNode, TagAt, Escaped, XmlText, TextBefore;
    BeforeText(b, ps, g, v, closing, name);
    if ReadableText(v) {
      TextEvent(b, ps, g, v, fuel);
    } else if Blank(v) {
      BlankIsLost(b, ps, g, v, closing, name, fuel);
    } else if XmlText(v) {
      PunctuationIsNoText(b, ps, g, v, closing, name, fuel);
    } else {
      var o := NextNode(b, ps, NO_EVENT, fuel);
      if o.Return? && o.ev.kind == TextNode {
        TextIsXmlText(b, ps, NO_EVENT, fuel);
      }
    }
  }

  // ---- names of attributes

  // A name character is read as itself, and is written again in shortest form.
  lemma NameCharRead(b: seq<byte>, p: nat)
    requires NameCharAt(b, p, true)
    ensures CharAt(b, p) == ToInt(b, p) && ToInt(b, p).0 > 0 && ToInt(b, p).1 > 0
    ensures IsXmlCh(ToInt(b, p).0) && (ToInt(b, p).1 == 1 ==> ToUtf8(ToInt(b, p).0) == [ToInt(b, p).0])
  {
    hide ToUtf8, IsNameCh;
    var c := ToInt(b, p).0;
    NameCharBounds(c);
    OneByteEncoding(c);
    if At(b, p) == AMP {
      PunctuationAt(b, p);
    }
  }

  lemma {:induction false} NameCharsRead(b: seq<byte>, p: nat) returns (cs: seq<XmlChar>)
    ensures Unescaped(b, p, NameEnd(b, p)) == Some(Encode(cs))
    ensures forall i :: 0 <= i < |cs| ==> IsNameCh(cs[i], true)
    decreases |b| - p
  {
    hide ToUtf8, IsNameCh, ToInt, CharAt;
    cs := [];
    if NameCharAt(b, p, true) {
      NameCharBounds(ToInt(b, p).0);
      NameCharRead(b, p);
      var (c, n) := ToInt(b, p);
      var rest := NameCharsRead(b, p + n);
      cs := [c] + rest;
      assert cs[1..] == rest;
    }
  }

  lemma NameTokenIsName(b: seq<byte>, p: nat, e: nat) returns (cs: seq<XmlChar>)
    requires NameCharAt(b, p, false) && e == NameEnd(b, p + ToInt(b, p).1)
    ensures e > p && Unescaped(b, p, e) == Some(Encode(cs)) && NameOf(Encode(cs), cs)
  {
    hide ToUtf8, IsNameCh, ToInt, CharAt, NameEnd;
    var (c, n) := ToInt(b, p);
    StartsAndContinues(c);
    NameCharRead(b, p);
    var rest := NameCharsRead(b, p + n);
    cs := [c] + rest;
    assert cs[1..] == rest;
  }

  // ---- whole attributes

  // Inside a tag, a token other than those of the tag itself is a name, an equals sign or a quote.
  lemma AttrTokenIsName(b: seq<byte>, x: Scanner)
    requires !x.inAttrib && !x.tagVal && !IsWhite(At(b, x.pos)) && NextToken(b, x).Took?
    ensures var t := NextToken(b, x).value.1;
      t == [] || t == LESSTHAN || t == GREATERTHAN || t == ENDTAG || t == COMPLETETAG || AttrName(t)
  {
    hide Token, SkipMarkup, ScanUntil, PickToken, AttrName;
    if At(b, x.pos) != 0 {
      SkipMarkupState(b, x.pos);
      var p := SkipMarkup(b, x.pos, false).0;
      TagPick(b, p, x.save);
    }
  }

  lemma TagPick(b: seq<byte>, p: nat, save: Option<nat>)
    requires PickToken(b, p, false, save).Took?
    ensures var k := PickToken(b, p, false, save).value;
      k.len > 0 && Token(b, k.pos, k.len).Some? ==>
        var t := Token(b, k.pos, k.len).value;
        t == LESSTHAN || t == GREATERTHAN || t == ENDTAG || t == COMPLETETAG || AttrName(t)
  {
    hide NameCharAt, Token, NameEnd, IsName, ToInt, ContentEnd;
    var k, c := PickToken(b, p, false, save).value, At(b, p);
    if k.len > 0 && Token(b, k.pos, k.len).Some? {
      if c == LESS && k.len == 2 {
        EndTagBytes(b, p);
      } else if c == SLASH {
        PlainTokenPair(b, p);
      } else if c == LESS || c == GREATER || c == QUOTE || c == EQUAL {
        PlainToken(b, p);
      } else {
        NamePicked(b, p, k.len);
      }
    }
  }

  lemma NamePicked(b: seq<byte>, p: nat, len: nat)
    requires NameCharAt(b, p, false) && p + len == NameEnd(b, p + ToInt(b, p).1) && len > 0 && Token(b, p, len).Some?
    ensures IsName(Token(b, p, len).value)
  {
    hide *;
    var cs := NameTokenIsName(b, p, p + len);
    TokenUnescaped(b, p, len);
    NameOfIsName(Encode(cs), cs);
  }

  lemma TokenUnescaped(b: seq<byte>, p: nat, len: nat)
    requires len > 0
    ensures Token(b, p, len) == Unescaped(b, p, p + len)
  {
  }

  lemma NameOfIsName(s: seq<byte>, cs: seq<XmlChar>)
    requires NameOf(s, cs)
    ensures IsName(s)
  {
  }

  lemma EmptyTokenAtEnd(b: seq<byte>, x: Scanner)
    requires !x.inAttrib && TokenAfterWhite(b, x).Took? && TokenAfterWhite(b, x).value.1 == []
    ensures At(b, TokenAfterWhite(b, x).value.0.pos) == 0
  {
    hide Token, SkipMarkup, ScanUntil, PickToken, SkipWhite;
    forall p: nat, len: nat | Token(b, p, len).Some? ensures Token(b, p, len).value != [] {
      TokenNotEmpty(b, p, len);
    }
  }

  lemma TokenNotEmpty(b: seq<byte>, p: nat, len: nat)
    requires Token(b, p, len).Some?
    ensures Token(b, p, len).value != []
  {
  }

  // A call that reports an attribute does so in its first turn, with the first token as its name.
  lemma AttrInFirstTurn(b: seq<byte>, ps: ParserState, ev: Event, fuel: nat)
    requires !ps.scan.inAttrib
    requires ev.kind == ElementNode || (ev.kind == InvalidNode && (!ps.attrFound || At(b, ps.scan.pos) == 0))
    ensures var o := NextNode(b, ps, ev, fuel); o.Return? ==> o.ev.kind != AttributeNode
    decreases fuel
  {
    hide NextToken, TagName, AttributeValue, TokenAfterWhite;
    if At(b, ps.scan.pos) != 0 && fuel > 0 {
      var r := NodeStep(b, ps, ev);
      if r.Continue? {
        AttrInFirstTurn(b, r.ps, r.ev, fuel - 1);
      }
    }
  }

  // The first turn before an attribute, when the call reports one.
  lemma FirstTurnReports(b: seq<byte>, ps: ParserState, fuel: nat)
    requires !ps.scan.inAttrib && !ps.scan.tagVal && ps.attrFound && fuel >= 1
    requires NextNode(b, ps, NO_EVENT, fuel).Return? && NextNode(b, ps, NO_EVENT, fuel).ev.kind == AttributeNode
    ensures var ev := NextNode(b, ps, NO_EVENT, fuel).ev;
      var first := TokenAfterWhite(b, ps.scan);
      && first.Took? && ev.name == first.value.1 && AttrName(ev.name)
      && AttributeValue(b, first.value.0).Took? && ev.value == Some(AttributeValue(b, first.value.0).value.1)
  {
    hide NextToken, TagName, AttributeValue, TokenAfterWhite, AttrName, SkipWhite;
    var first := TokenAfterWhite(b, ps.scan);
    if At(b, ps.scan.pos) != 0 && first.Took? {
      if first.value.1 == [] {
        EmptyTokenAtEnd(b, ps.scan);
      }
      FirstIsName(b, ps.scan);
      var r := NodeStep(b, ps, NO_EVENT);
      if r.Continue? {
        AttrInFirstTurn(b, r.ps, r.ev, fuel - 1);
      }
    }
  }

  lemma FirstIsName(b: seq<byte>, x: Scanner)
    requires !x.inAttrib && !x.tagVal && TokenAfterWhite(b, x).Took?
    ensures var t := TokenAfterWhite(b, x).value.1;
      t == [] || t == LESSTHAN || t == GREATERTHAN || t == ENDTAG || t == COMPLETETAG || AttrName(t)
  {
    hide NextToken, AttrName;
    AttrTokenIsName(b, IgnoreWhite(b, x));
  }

  // An attribute comes back exactly when its name and its value do, for all byte strings.
  lemma AttributeComesBack(b: seq<byte>, ps: ParserState, q: nat, a: Attribute, fuel: nat)
    requires BeforeAttr(b, ps, q) && HasAt(b, q, PrintedAttr(a)) && fuel >= 1
    ensures var o := NextNode(b, ps, NO_EVENT, fuel);
      (o.Return? && o.ev == Event(AttributeNode, a.name, Some(a.value), false)) <==>
        AttrName(a.name) && ReadableValue(a.value)
  {
    hide *;
    BeforeParts(b, ps, q);
    if AttrName(a.name) && ReadableValue(a.value) {
      AttrNode(b, ps, q, a, fuel);
    } else {
      var o := NextNode(b, ps, NO_EVENT, fuel);
      if o.Return? && o.ev == Event(AttributeNode, a.name, Some(a.value), false) {
        FirstTurnReports(b, ps, fuel);
        var x := ps.scan.(pos := q + 2);
        AttrPlace(b, q, a);
        AttrNameToken(b, x, a.name);
        TokenHere(b, ps.scan, q + 2);
        ValueComesBack(b, x.(pos := q + 2 + |a.name|), a.value);
      }
    }
  }

  lemma BeforeParts(b: seq<byte>, ps: ParserState, q: nat)
    requires BeforeAttr(b, ps, q)
    ensures !ps.scan.inAttrib && !ps.scan.tagVal && ps.attrFound && Whites(b, ps.scan.pos, q + 2)
  {
  }

  lemma AttrPlace(b: seq<byte>, q: nat, a: Attribute)
    requires HasAt(b, q, PrintedAttr(a))
    ensures HasAt(b, q + 2, a.name) && HasAt(b, q + 2 + |a.name|, ATTR_EQUALS + (Escaped(a.value) + ATTR_END))
    ensures Punctuation(At(b, q + 2 + |a.name|))
  {
    hide Escaped;
    var rest := ATTR_EQUALS + (Escaped(a.value) + ATTR_END);
    HasAtSplit(b, q, ATTR_START, a.name + rest);
    HasAtSplit(b, q + 2, a.name, rest);
    HasAtHead(b, q + 2 + |a.name|, rest);
  }

  // ---- what does not come back

  // ="" and ="""" : neither an empty value nor one of two quotes is read back.
  lemma ValueExamples(x: Scanner)
    requires x == Scanner(0, false, None, false)
    ensures var b := ATTR_EQUALS + (Escaped([]) + ATTR_END);
      b == [EQUAL, QUOTE, QUOTE] && !(AttributeValue(b, x).Took? && AttributeValue(b, x).value.1 == [])
    ensures var b := ATTR_EQUALS + (Escaped([QUOTE, QUOTE]) + ATTR_END);
      && b == [EQUAL, QUOTE, QUOTE, QUOTE, QUOTE]
      && !(AttributeValue(b, x).Took? && AttributeValue(b, x).value.1 == [QUOTE, QUOTE])
  {
    hide AttributeValue, Escaped, XmlText;
    NothingEscaped();
    QuoteStays();
    EscapedConcat([QUOTE], [QUOTE]);
    assert [QUOTE] + [QUOTE] == [QUOTE, QUOTE];
    var one, two := ATTR_EQUALS + (Escaped([]) + ATTR_END), ATTR_EQUALS + (Escaped([QUOTE, QUOTE]) + ATTR_END);
    assert one[0..|one|] == one && two[0..|two|] == two;
    ValueComesBack(one, x, []);
    ValueComesBack(two, x, [QUOTE, QUOTE]);
  }

  // <a>&lt;</a> and a line feed: the text is not read back.
  lemma TextExample(fuel: nat)
    requires fuel >= 1
    ensures var b: seq<byte> := [LESS, 97, GREATER] + (Escaped(LESSTHAN) + PrintedEnd([97]));
      var o := NextNode(b, ParserState(Scanner(3, true, Some(2), false), false, false, [97]), NO_EVENT, fuel);
      !(o.Return? && o.ev.kind == TextNode && o.ev.value == Some(LESSTHAN))
  {
    hide NextNode, IsName, Escaped, XmlText;
    var b: seq<byte> := [LESS, 97, GREATER] + (Escaped(LESSTHAN) + PrintedEnd([97]));
    var ps := ParserState(Scanner(3, true, Some(2), false), false, false, [97]);
    LetterIsName(97);
    assert b[3..] == Escaped(LESSTHAN) + PrintedEnd([97]);
    assert b[3..3 + |Escaped(LESSTHAN)|] == Escaped(LESSTHAN);
    assert b[3 + |Escaped(LESSTHAN)|..|b|] == PrintedEnd([97]);
    EndLayout(b, 3 + |Escaped(LESSTHAN)|, [97]);
    TextComesBack(b, ps, 2, LESSTHAN, true, [97], fuel);
  }
}
