// End tags close elements only: whatever the buffer holds, the document node stays open
// (src/upnpdom/Parser.cpp:680-936 with src/upnpdom/Document.cpp:205-216).
module EndTags {
  import opened Bytes
  import opened Utf8
  import opened CharTables
  import opened Escape
  import opened Lexer
  import opened Reader
  import opened Tokens
  import opened Tree
  import opened Builder

  // No tag has such a name.
  predicate NotHash(name: seq<byte>) {
    name == [] || name[0] != HASH
  }

  // An end tag is reported as an element and does not name the document node.
  predicate EventOk(ev: Event) {
    ev.isEnd ==> ev.kind == ElementNode && NotHash(ev.name)
  }

  // A token begins with its first byte, or with the encoding of its first character.
  lemma FirstByte(b: seq<byte>, p: nat, len: nat)
    requires Token(b, p, len).Some?
    requires 0 < At(b, p) <= 127 && IsXmlCh(At(b, p)) && At(b, p) != AMP
    ensures Token(b, p, len).value != [] && Token(b, p, len).value[0] == At(b, p)
  {
    hide ToUtf8, ToInt;
    assert CharAt(b, p) == (At(b, p), 1);
  }

  lemma FirstOfName(b: seq<byte>, p: nat, len: nat)
    requires Token(b, p, len).Some? && NameCharAt(b, p, false)
    ensures NotHash(Token(b, p, len).value)
  {
    hide ToUtf8, IsNameCh;
    var (c, n) := ToInt(b, p);
    StartsAndContinues(c);
    NameCharBounds(c);
    if Punctuation(At(b, p)) {
      PunctuationAt(b, p);
      assert false;
    }
    NameCharBytes(c);
    assert CharAt(b, p) == (c, n);
    OneByteEncoding(c);
  }

  // Only > and /> make what follows content.
  lemma PickTagVal(b: seq<byte>, p: nat, tagVal: bool, save: Option<nat>)
    requires PickToken(b, p, tagVal, save).Took? && PickToken(b, p, tagVal, save).value.tagVal
    ensures var k := PickToken(b, p, tagVal, save).value;
      && k.pos == p
      && ((k.len == 1 && At(b, p) == GREATER) || (k.len == 2 && At(b, p) == SLASH && At(b, p + 1) == GREATER))
  {
    hide IsNameCh, ToInt, ContentEnd;
  }

  // After < or </ the scanner is inside a tag.
  lemma TagTokenState(b: seq<byte>, x: Scanner)
    requires !x.inAttrib && NextToken(b, x).Took?
    requires NextToken(b, x).value.1 == LESSTHAN || NextToken(b, x).value.1 == ENDTAG
    ensures !NextToken(b, x).value.0.tagVal
  {
    hide IsNameCh, ToInt, Token, PickToken, AtMarkup;
    if NextToken(b, x).value.0.tagVal {
      var (p, tagVal) := SkipMarkup(b, x.pos, x.tagVal);
      PickTagVal(b, p, tagVal, x.save);
      if At(b, p) == GREATER {
        PlainToken(b, p);
      } else {
        PlainTokenPair(b, p);
      }
    }
  }

  lemma {:induction false} SkipMarkupState(b: seq<byte>, p: nat)
    ensures !SkipMarkup(b, p, false).1
    decreases |b| - p
  {
    if AtMarkup(b, p) {
      MarkupStartsWithLess(b, p);
      SkipMarkupState(b, SkipWhite(b, MarkupEnd(b, p)));
    }
  }

  // A token read inside a tag does not begin with #.
  lemma TagTokenNotHash(b: seq<byte>, x: Scanner)
    requires !x.inAttrib && !x.tagVal && NextToken(b, x).Took?
    ensures NotHash(NextToken(b, x).value.1)
  {
    hide IsNameCh, ToInt, Token, AtMarkup, SkipMarkup, NameCharAt, NameEnd, Unescaped;
    SkipMarkupState(b, x.pos);
    var (p, tagVal) := SkipMarkup(b, x.pos, x.tagVal);
    if At(b, x.pos) != 0 && !IsWhite(At(b, x.pos)) {
      var k := PickToken(b, p, tagVal, x.save).value;
      if k.len > 0 {
        if At(b, p) == LESS || At(b, p) == SLASH || At(b, p) == GREATER || At(b, p) == QUOTE || At(b, p) == EQUAL {
          FirstByte(b, p, k.len);
        } else {
          FirstOfName(b, p, k.len);
        }
      }
    }
  }

  lemma TagNameNotHash(b: seq<byte>, x: Scanner)
    requires !x.inAttrib && !x.tagVal && TagName(b, x).Took?
    ensures NotHash(TagName(b, x).value.1)
  {
    hide NextToken;
    TagTokenNotHash(b, IgnoreWhite(b, x));
  }

  lemma StepEndsOk(b: seq<byte>, ps: ParserState, ev: Event)
    requires !ps.scan.inAttrib && EventOk(ev) && NotHash(ps.lastElem)
    ensures var r := NodeStep(b, ps, ev);
      r.Continue? || r.Return? ==> EventOk(r.ev) && NotHash(r.ps.lastElem)
  {
    hide NextToken, TagName;
    var first := TokenAfterWhite(b, ps.scan);
    if first.Took? && (first.value.1 == LESSTHAN || first.value.1 == ENDTAG) {
      TagTokenState(b, IgnoreWhite(b, ps.scan));
      if TagName(b, first.value.0).Took? {
        TagNameNotHash(b, first.value.0);
      }
    }
  }

  // Whatever the buffer holds, a reported end tag is an element's and does not begin with #, so that
  // it is none of the document node.
  lemma {:induction false} EndsOk(b: seq<byte>, ps: ParserState, ev: Event, fuel: nat)
    requires !ps.scan.inAttrib && EventOk(ev) && NotHash(ps.lastElem)
    ensures var r := NextNode(b, ps, ev, fuel);
      r.Continue? || r.Return? ==> EventOk(r.ev) && NotHash(r.ps.lastElem)
    decreases fuel
  {
    hide NodeStep;
    if At(b, ps.scan.pos) != 0 && fuel > 0 {
      StepEndsOk(b, ps, ev);
      var r := NodeStep(b, ps, ev);
      if r.Continue? {
        EndsOk(b, r.ps, r.ev, fuel - 1);
      }
    }
  }

  // The bottom of the stack is the document node.
  ghost predicate DocumentBelow(stack: seq<Frame>) {
    && stack != [] && stack[0].name == DOCUMENT_NAME
  }

  lemma AppliedBelow(stack: seq<Frame>, ev: Event)
    requires DocumentBelow(stack) && EventOk(ev) && Apply(stack, ev).Some?
    ensures DocumentBelow(Apply(stack, ev).value)
  {
  }

  lemma {:induction false} RunKeepsDocument(b: seq<byte>, ps: ParserState, ev: Event, stack: seq<Frame>, nodes: nat,
                                            fuel: nat)
    requires !ps.scan.inAttrib && EventOk(ev) && NotHash(ps.lastElem) && DocumentBelow(stack)
    ensures var r := Run(b, ps, ev, stack, nodes, fuel);
      !r.Lost? && (r.Done? ==> DocumentBelow(r.stack))
    decreases nodes
  {
    hide NextNode, Apply;
    if nodes > 0 {
      EndsOk(b, ps, ev, fuel);
      var r := NextNode(b, ps, ev, fuel);
      if r.Return? && Apply(stack, r.ev).Some? {
        AppliedBelow(stack, r.ev);
        if r.ev.kind != InvalidNode {
          RunKeepsDocument(b, r.ps, NO_EVENT, Apply(stack, r.ev).value, nodes - 1, fuel);
        }
      }
    }
  }

  // No text closes the document node: an accepted end tag names the innermost open element.
  lemma DocumentStaysOpen(b: seq<byte>, ev: Event, nodes: nat, fuel: nat)
    requires EventOk(ev)
    ensures var r := ParseBuffer(b, ev, nodes, fuel);
      !r.Lost? && (r.Done? ==> r.stack != [] && r.stack[0].name == DOCUMENT_NAME)
  {
    if b != [] {
      RunKeepsDocument(b, FIRST_STATE, ev, EMPTY_DOCUMENT, nodes, fuel);
    }
  }

  // ---- the parameters before the first call

  // Behind white space the buffer begins with a tag.
  predicate BeginsWithTag(b: seq<byte>) {
    var p := SkipWhite(b, 0);
    At(b, p) == LESS && At(b, p + 1) != 33 && At(b, p + 1) != 63
  }

  lemma EndTagBytes(b: seq<byte>, p: nat)
    requires At(b, p) == LESS && ToInt(b, p + 1).0 == SLASH && Token(b, p, 2).Some?
    ensures Token(b, p, 2).value == ENDTAG
  {
    hide ToUtf8;
    assert CharAt(b, p) == (LESS, 1);
    assert Unescaped(b, p + 1, p + 2).Some?;
    if ToInt(b, p + 1).1 == 1 {
      assert Unescaped(b, p + 2, p + 2) == Some([]);
    }
  }

  lemma FirstToken(b: seq<byte>)
    requires BeginsWithTag(b)
    ensures var first := TokenAfterWhite(b, FIRST_STATE.scan);
      first.Took? ==> first.value.1 == LESSTHAN || first.value.1 == ENDTAG
  {
    hide IsNameCh, ToInt, Token, AtMarkup;
    var p := SkipWhite(b, 0);
    NoMarkup(b, p);
    SkipNothing(b, p, false);
    PlainToken(b, p);
    if ToInt(b, p + 1).0 == SLASH && Token(b, p, 2).Some? {
      EndTagBytes(b, p);
    }
  }

  // What the parameters of the first call hold, which the code leaves uninitialised, does not matter
  // for a text that begins with a tag.
  lemma ParametersDoNotMatter(b: seq<byte>, ev: Event, nodes: nat, fuel: nat)
    requires BeginsWithTag(b)
    ensures ParseBuffer(b, ev, nodes, fuel) == ParseBuffer(b, NO_EVENT, nodes, fuel)
  {
    hide NextToken, TagName, Apply, SkipWhite;
    FirstToken(b);
    assert OnlyTags(b, ev) by { FirstTurn(b, ev); }
    if fuel > 0 && b != [] {
      assert At(b, 0) != 0 by { NotAtZero(b); }
      hide NodeStep;
    }
  }

  ghost predicate OnlyTags(b: seq<byte>, ev: Event) {
    NodeStep(b, FIRST_STATE, ev) == NodeStep(b, FIRST_STATE, NO_EVENT)
    && !NodeStep(b, FIRST_STATE, ev).Return?
  }

  lemma FirstTurn(b: seq<byte>, ev: Event)
    requires BeginsWithTag(b)
    ensures OnlyTags(b, ev)
  {
    hide NextToken, TagName;
    FirstToken(b);
  }

  lemma NotAtZero(b: seq<byte>)
    requires BeginsWithTag(b)
    ensures At(b, 0) != 0
  {
  }

  // So for such a text no end tag closes the document node, whatever those parameters are.
  lemma TagTextStaysOpen(b: seq<byte>, ev: Event, nodes: nat, fuel: nat)
    requires BeginsWithTag(b)
    ensures var r := ParseBuffer(b, ev, nodes, fuel);
      !r.Lost? && (r.Done? ==> r.stack != [] && r.stack[0].name == DOCUMENT_NAME)
  {
    hide ParseBuffer;
    ParametersDoNotMatter(b, ev, nodes, fuel);
    DocumentStaysOpen(b, NO_EVENT, nodes, fuel);
  }

  // ---- call by call

  // A node that is reported is no end tag of the document node, and neither is the next one.
  ghost predicate ReportsWell(b: seq<byte>, ps: ParserState, ev: Event, fuel: nat)
    requires !ps.scan.inAttrib
  {
    var r := NextNode(b, ps, ev, fuel);
    r.Return? ==> EventOk(r.ev) && NotHash(r.ps.lastElem)
  }

  lemma ReportIs(b: seq<byte>, ps: ParserState, ev: Event, fuel: nat)
    requires !ps.scan.inAttrib && ReportsWell(b, ps, ev, fuel) && NextNode(b, ps, ev, fuel).Return?
    ensures var r := NextNode(b, ps, ev, fuel); EventOk(r.ev) && NotHash(r.ps.lastElem)
  {
    hide NextNode, NotHash;
  }

  lemma NextReport(b: seq<byte>, ps: ParserState, fuel: nat)
    requires !ps.scan.inAttrib && NotHash(ps.lastElem)
    ensures ReportsWell(b, ps, NO_EVENT, fuel)
  {
    hide NextNode, NotHash;
    EndsOk(b, ps, NO_EVENT, fuel);
  }

  lemma FirstReport(b: seq<byte>, ev: Event, fuel: nat)
    requires b != [] && (EventOk(ev) || BeginsWithTag(b))
    ensures !FIRST_STATE.scan.inAttrib && ReportsWell(b, FIRST_STATE, ev, fuel)
  {
    hide NodeStep;
    if EventOk(ev) {
      EndsOk(b, FIRST_STATE, ev, fuel);
    } else {
      FirstTurn(b, ev);
      NotAtZero(b);
      EndsOk(b, FIRST_STATE, NO_EVENT, fuel);
    }
  }

  lemma StaysOpen(b: seq<byte>, ev: Event, nodes: nat, fuel: nat)
    requires EventOk(ev) || BeginsWithTag(b)
    ensures var r := ParseBuffer(b, ev, nodes, fuel);
      !r.Lost? && (r.Done? ==> r.stack != [] && r.stack[0].name == DOCUMENT_NAME)
  {
    hide ParseBuffer, EventOk, BeginsWithTag;
    if EventOk(ev) {
      DocumentStaysOpen(b, ev, nodes, fuel);
    } else {
      TagTextStaysOpen(b, ev, nodes, fuel);
    }
  }
}
