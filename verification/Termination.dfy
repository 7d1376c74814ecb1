// When parsing ends (src/upnpdom/Parser.cpp:463-936, src/upnpdom/Document.cpp:167-245). A > makes
// content start behind it, and content is read from there, which may be far back. A /> does the
// same without marking a new place; in a buffer without one, no byte is turned to twice for long.
module Termination {
  import opened Bytes
  import opened Escape
  import opened Lexer
  import opened Reader
  import opened Tree
  import opened Tokens
  import opened Builder

  predicate NoEmptyTag(b: seq<byte>) {
    forall i :: 0 <= i < |b| - 1 ==> !(b[i] == SLASH && b[i + 1] == GREATER)
  }

  // Content begins behind the last >, and not ahead of the scanner.
  predicate Sound(x: Scanner) {
    x.tagVal ==> x.save.Some? && x.save.value + 1 <= x.pos
  }

  // From where on the next token may be taken.
  function Base(x: Scanner): nat {
    if x.tagVal && x.save.Some? then x.save.value + 1 else x.pos
  }

  function Todo(b: seq<byte>, x: Scanner): nat {
    if Base(x) < |b| then |b| - Base(x) else 0
  }

  // ---- one token

  lemma {:induction false} SkipKeeps(b: seq<byte>, p: nat, tagVal: bool)
    ensures var r := SkipMarkup(b, p, tagVal); r.1 ==> tagVal && r.0 == p
    decreases |b| - p
  {
    hide AtMarkup, MarkupEnd, SkipWhite;
    if AtMarkup(b, p) {
      MarkupStartsWithLess(b, p);
      SkipKeeps(b, SkipWhite(b, MarkupEnd(b, p)), false);
    }
  }

  lemma PickMoves(b: seq<byte>, p: nat, tagVal: bool, save: Option<nat>)
    requires NoEmptyTag(b) && (tagVal ==> save.Some? && save.value + 1 <= p) && PickToken(b, p, tagVal, save).Took?
    ensures var k := PickToken(b, p, tagVal, save).value;
      && k.pos >= (if tagVal then save.value + 1 else p)
      && if k.tagVal then At(b, p) == GREATER && k == Pick(1, p, true, Some(p)) else k.save == save
  {
    hide NameEnd, ContentEnd, NameCharAt;
  }

  lemma TokenNoLonger(b: seq<byte>, p: nat, len: nat)
    requires Token(b, p, len).Some?
    ensures |Token(b, p, len).value| <= len
  {
    hide Unescaped;
  }

  // A token moves the scanner on; from its end back to its first byte is at least its length.
  lemma TokenMoves(b: seq<byte>, x: Scanner)
    requires NoEmptyTag(b) && Sound(x) && !IsWhite(At(b, x.pos)) && NextToken(b, x).Took?
    requires !x.inAttrib || At(b, x.pos) == QUOTE
    ensures var (y, tok) := NextToken(b, x).value;
      && Sound(y) && Base(y) >= Base(x)
      && (tok == [] ==> At(b, y.pos) == 0)
      && (tok != [] ==> Base(y) > Base(x) && (!y.tagVal ==> y.pos - |tok| >= Base(x)))
      && (y.tagVal && tok != [] ==> tok == GREATERTHAN)
  {
    hide Token, PickToken, SkipMarkup, ScanUntil;
    if At(b, x.pos) != 0 {
      var (p, tagVal) := SkipMarkup(b, x.pos, x.tagVal);
      SkipKeeps(b, x.pos, x.tagVal);
      PickMoves(b, p, tagVal, x.save);
      var k := PickToken(b, p, tagVal, x.save).value;
      if k.len > 0 {
        TokenNoLonger(b, k.pos, k.len);
        TokenNonEmpty(b, k.pos, k.len);
        if k.tagVal {
          PlainToken(b, p);
        }
      }
    }
  }

  lemma TokenNonEmpty(b: seq<byte>, p: nat, len: nat)
    requires Token(b, p, len).Some?
    ensures Token(b, p, len).value != []
  {
  }

  // Inside an attribute value, or at white space, it does not move back either.
  lemma TokenKeeps(b: seq<byte>, x: Scanner)
    requires NoEmptyTag(b) && Sound(x) && NextToken(b, x).Took?
    ensures var y := NextToken(b, x).value.0; Sound(y) && Base(y) >= Base(x)
  {
    hide Token, PickToken, SkipMarkup, ScanUntil;
    if !IsWhite(At(b, x.pos)) && (!x.inAttrib || At(b, x.pos) == QUOTE) {
      TokenMoves(b, x);
    }
  }

  lemma WhiteKeeps(b: seq<byte>, x: Scanner)
    requires Sound(x)
    ensures var y := IgnoreWhite(b, x);
      Sound(y) && Base(y) >= Base(x) && !IsWhite(At(b, y.pos)) && y.inAttrib == x.inAttrib
  {
  }

  // ---- one turn of getNextNode

  lemma FirstMoves(b: seq<byte>, x: Scanner)
    requires NoEmptyTag(b) && Sound(x) && !x.inAttrib && TokenAfterWhite(b, x).Took?
    ensures var (y, tok) := TokenAfterWhite(b, x).value;
      && Sound(y) && Base(y) >= Base(x)
      && (tok == [] ==> At(b, y.pos) == 0)
      && (tok != [] ==> Base(y) > Base(x) && (!y.tagVal ==> y.pos - |tok| >= Base(x)))
      && (y.tagVal && tok != [] ==> tok == GREATERTHAN)
  {
    hide *;
    WhiteKeeps(b, x);
    AfterWhiteIs(b, x);
    TokenMoves(b, IgnoreWhite(b, x));
  }

  lemma AfterWhiteIs(b: seq<byte>, x: Scanner)
    ensures TokenAfterWhite(b, x) == NextToken(b, IgnoreWhite(b, x))
  {
    hide NextToken;
  }

  lemma ValueKeeps(b: seq<byte>, x: Scanner)
    requires NoEmptyTag(b) && Sound(x) && !x.inAttrib && AttributeValue(b, x).Took?
    ensures var y := AttributeValue(b, x).value.0; Sound(y) && Base(y) >= Base(x)
  {
    hide NextToken, TokenAfterWhite;
    var equals := TokenAfterWhite(b, x).value.0;
    FirstMoves(b, x);
    var open := TokenAfterWhite(b, equals).value.0;
    FirstMoves(b, equals);
    var value := NextToken(b, open.(inAttrib := true)).value.0;
    TokenKeeps(b, open.(inAttrib := true));
    TokenKeeps(b, value.(inAttrib := false));
  }

  // A turn that goes on gains a byte, two when it begins to report a tag. A turn that returns
  // may put back one byte more than it took, but only once a tag is to be reported.
  ghost predicate Gains(b: seq<byte>, x: Scanner, ev: Event, r: Outcome) {
    match r
    case Error => true
    case Fault => true
    case Continue(ps, ev') =>
      && Sound(ps.scan)
      && (|| (At(b, ps.scan.pos) == 0 && ev'.kind == ev.kind && Base(ps.scan) >= Base(x))
          || Base(ps.scan) >= Base(x) + if ev'.kind == InvalidNode || ev.kind != InvalidNode then 1 else 2)
      && (ev.kind != InvalidNode ==> ev'.kind != InvalidNode)
    case Return(ps, _) =>
      Sound(ps.scan) && Base(ps.scan) >= Base(x) + if ev.kind == InvalidNode then 1 else -1
  }

  lemma TurnGains(b: seq<byte>, ps: ParserState, ev: Event)
    requires NoEmptyTag(b) && Sound(ps.scan) && !ps.scan.inAttrib
    ensures Gains(b, ps.scan, ev, NodeStep(b, ps, ev))
  {
    hide NextToken, TokenAfterWhite, AttributeValue, NoEmptyTag;
    var first := TokenAfterWhite(b, ps.scan);
    if first.Took? {
      var (x, tok) := first.value;
      FirstMoves(b, ps.scan);
      if tok == LESSTHAN || tok == ENDTAG {
        if TagName(b, x).Took? {
          FirstMoves(b, x);
        }
      } else if tok == GREATERTHAN || tok == COMPLETETAG || tok == [] || !ps.attrFound || ev.kind == ElementNode {
      } else if AttributeValue(b, x).Took? {
        ValueKeeps(b, x);
      }
    }
  }

  // ---- one call

  // A call that has gone base bytes far, or two more with a tag to report.
  ghost predicate GoneFar(x: Scanner, ev: Event, base: int) {
    Sound(x) && Base(x) >= base + if ev.kind == InvalidNode then 0 else 2
  }

  lemma {:induction false} CallEnds(b: seq<byte>, ps: ParserState, ev: Event, fuel: nat, base: int)
    requires NoEmptyTag(b) && !ps.scan.inAttrib && GoneFar(ps.scan, ev, base)
    requires At(b, ps.scan.pos) == 0 || fuel >= Todo(b, ps.scan)
    ensures var o := NextNode(b, ps, ev, fuel);
      !o.Continue? && (o.Return? ==> Sound(o.ps.scan) && (At(b, o.ps.scan.pos) == 0 || Base(o.ps.scan) >= base + 1))
    decreases fuel
  {
    hide NodeStep, NoEmptyTag;
    if At(b, ps.scan.pos) != 0 {
      assert fuel > 0;
      var r := NodeStep(b, ps, ev);
      TurnGains(b, ps, ev);
      if r.Continue? {
        CallEnds(b, r.ps, r.ev, fuel - 1, base);
      }
    }
  }

  // ---- the whole parse

  lemma {:induction false} RunEnds(b: seq<byte>, ps: ParserState, stack: seq<Frame>, nodes: nat, fuel: nat)
    requires NoEmptyTag(b) && !ps.scan.inAttrib && Sound(ps.scan) && stack != []
    requires fuel >= |b| && nodes >= if At(b, ps.scan.pos) == 0 then 1 else Todo(b, ps.scan) + 1
    ensures Run(b, ps, NO_EVENT, stack, nodes, fuel) != Cut
    decreases nodes
  {
    hide NextNode, NoEmptyTag, Apply;
    CallEnds(b, ps, NO_EVENT, fuel, Base(ps.scan));
    var o := NextNode(b, ps, NO_EVENT, fuel);
    if At(b, ps.scan.pos) == 0 {
      AtTheEnd(b, ps, fuel);
    } else if o.Return? && o.ev.kind != InvalidNode {
      var r := Apply(stack, o.ev);
      if r.Some? && r.value != [] {
        RunEnds(b, o.ps, r.value, nodes - 1, fuel);
      }
    }
  }

  lemma AtTheEnd(b: seq<byte>, ps: ParserState, fuel: nat)
    requires !ps.scan.inAttrib && At(b, ps.scan.pos) == 0
    ensures NextNode(b, ps, NO_EVENT, fuel) == Return(ps, NO_EVENT)
  {
  }

  // A buffer without an empty-element tag is parsed to its end, or to an error: as many turns in
  // a call as the buffer has bytes, and two more calls than that, are always enough.
  lemma ParseEnds(b: seq<byte>, ev: Event, nodes: nat, fuel: nat)
    requires NoEmptyTag(b) && nodes >= |b| + 2 && fuel >= |b|
    ensures ParseBuffer(b, ev, nodes, fuel) != Cut
  {
    hide NextNode, NoEmptyTag, Apply;
    if b != [] {
      var ps := FIRST_STATE;
      CallEnds(b, ps, ev, fuel, -2);
      var o := NextNode(b, ps, ev, fuel);
      if o.Return? && o.ev.kind != InvalidNode {
        var r := Apply(EMPTY_DOCUMENT, o.ev);
        if r.Some? && r.value != [] {
          RunEnds(b, o.ps, r.value, nodes - 1, fuel);
        }
      }
    }
  }

  // ---- the bounds do not matter

  // A call that is not cut off does the same with more turns.
  lemma {:induction false} MoreTurns(b: seq<byte>, ps: ParserState, ev: Event, fuel: nat, more: nat)
    requires !ps.scan.inAttrib && fuel <= more && !NextNode(b, ps, ev, fuel).Continue?
    ensures NextNode(b, ps, ev, more) == NextNode(b, ps, ev, fuel)
    decreases fuel
  {
    hide NodeStep;
    if At(b, ps.scan.pos) != 0 {
      var r := NodeStep(b, ps, ev);
      if r.Continue? {
        MoreTurns(b, r.ps, r.ev, fuel - 1, more - 1);
      }
    }
  }

  lemma {:induction false} MoreCalls(b: seq<byte>, ps: ParserState, ev: Event, stack: seq<Frame>, nodes: nat, fuel: nat,
                                     moreNodes: nat, moreFuel: nat)
    requires !ps.scan.inAttrib && stack != [] && nodes <= moreNodes && fuel <= moreFuel
    requires Run(b, ps, ev, stack, nodes, fuel) != Cut
    ensures Run(b, ps, ev, stack, moreNodes, moreFuel) == Run(b, ps, ev, stack, nodes, fuel)
    decreases nodes
  {
    hide NextNode, Apply;
    MoreTurns(b, ps, ev, fuel, moreFuel);
    var o := NextNode(b, ps, ev, fuel);
    if o.Return? && o.ev.kind != InvalidNode {
      var r := Apply(stack, o.ev);
      if r.Some? && r.value != [] {
        MoreCalls(b, o.ps, NO_EVENT, r.value, nodes - 1, fuel, moreNodes - 1, moreFuel);
      }
    }
  }

  // So what becomes of a buffer that is not cut off is the same for all larger bounds.
  lemma BoundsDoNotMatter(b: seq<byte>, ev: Event, nodes: nat, fuel: nat, moreNodes: nat, moreFuel: nat)
    requires nodes <= moreNodes && fuel <= moreFuel && ParseBuffer(b, ev, nodes, fuel) != Cut
    ensures ParseBuffer(b, ev, moreNodes, moreFuel) == ParseBuffer(b, ev, nodes, fuel)
  {
    if b != [] {
      MoreCalls(b, FIRST_STATE, ev, EMPTY_DOCUMENT, nodes, fuel, moreNodes, moreFuel);
    }
  }
}
