// When parsing comes to what C leaves undefined (src/upnpdom/Parser.cpp:463-936). SavePtr is declared
// (inc/upnpdom/Parser.h:74) but not initialised; it is set where a > is taken (Parser.cpp:656-661), and
// content is read from behind it (Parser.cpp:632, 667). A /> makes content due without a >. Skipped
// markup that does not end leads out of the buffer, and so may putting back a token of its first byte.
module Faults {
  import opened Bytes
  import opened Utf8
  import opened CharTables
  import opened Escape
  import opened Lexer
  import opened Reader
  import opened Tree
  import opened Tokens
  import opened Builder
  import opened RoundTrip
  import opened EndTags
  import opened Termination

  // All comments, processing instructions and declarations end.
  predicate Terminated(b: seq<byte>) {
    forall p: nat :: p < |b| && AtMarkup(b, p) ==> MarkupEnd(b, p) <= |b|
  }

  predicate Inside(b: seq<byte>, x: Scanner) {
    x.pos <= |b| && (x.save.Some? ==> x.save.value < |b|)
  }

  // A > has been taken, or content is not due and no /> can make it so.
  predicate Covered(b: seq<byte>, x: Scanner) {
    x.save.Some? || (NoEmptyTag(b) && !x.tagVal)
  }

  // ---- one token

  lemma {:induction false} NameInside(b: seq<byte>, p: nat)
    requires p <= |b|
    ensures NameEnd(b, p) <= |b|
    decreases |b| - p
  {
    hide IsNameCh, ToInt;
    if NameCharAt(b, p, true) {
      NameCharBounds(ToInt(b, p).0);
      NameInside(b, p + ToInt(b, p).1);
    }
  }

  lemma NameBegins(b: seq<byte>, p: nat)
    requires NameCharAt(b, p, false)
    ensures p + ToInt(b, p).1 <= |b|
  {
    hide IsNameCh, ToInt;
    StartsAndContinues(ToInt(b, p).0);
    NameCharBounds(ToInt(b, p).0);
  }

  lemma PickInside(b: seq<byte>, p: nat, tagVal: bool, save: Option<nat>)
    requires p <= |b| && (save.Some? ==> save.value < |b|) && PickToken(b, p, tagVal, save).Took?
    ensures var k := PickToken(b, p, tagVal, save).value;
      k.pos + k.len <= |b| && (k.pos >= p || k.pos >= 1) && (k.save.Some? ==> k.save.value < |b|)
    ensures save.Some? ==> PickToken(b, p, tagVal, save).value.save.Some?
  {
    hide ToInt, NameEnd, ContentEnd, IsNameCh;
    if NameCharAt(b, p, false) {
      NameBegins(b, p);
      NameInside(b, p + ToInt(b, p).1);
    }
    if At(b, p) == LESS && NameCharAt(b, p + 1, false) {
      NameBegins(b, p + 1);
    }
    SlashInside(b, p);
  }

  lemma SlashInside(b: seq<byte>, p: nat)
    requires p <= |b|
    ensures At(b, p) == LESS && ToInt(b, p + 1).0 == SLASH ==> p + 2 <= |b|
  {
  }

  // A token ends inside the buffer, and is no longer than what it was read from.
  lemma TokenInside(b: seq<byte>, x: Scanner)
    requires Inside(b, x) && NextToken(b, x).Took?
    ensures var (y, tok) := NextToken(b, x).value;
      Inside(b, y) && y.pos >= |tok| && (x.pos >= 1 ==> y.pos >= |tok| + 1) && (x.save.Some? ==> y.save.Some?)
  {
    hide Token, PickToken, SkipMarkup, ScanUntil;
    if At(b, x.pos) != 0 {
      if x.inAttrib && At(b, x.pos) != QUOTE {
        TokenNoLonger(b, x.pos, ScanUntil(b, x.pos, [QUOTE]) - x.pos);
      } else if !IsWhite(At(b, x.pos)) {
        var (p, tagVal) := SkipMarkup(b, x.pos, x.tagVal);
        PickInside(b, p, tagVal, x.save);
        var k := PickToken(b, p, tagVal, x.save).value;
        if k.len > 0 {
          TokenNoLonger(b, k.pos, k.len);
        }
      }
    }
  }

  lemma {:induction false} ContentInside(b: seq<byte>, p: nat)
    requires Terminated(b) && p <= |b|
    ensures ContentEnd(b, p) <= |b|
    decreases |b| - p
  {
    hide ScanUntil, StartsWith, Terminated;
    var m := ScanUntil(b, p, LESSTHAN);
    if StartsWith(b, m, BEGIN_COMMENT) {
      CommentEnds(b, m);
      var e := ScanUntil(b, m, END_COMMENT) + |END_COMMENT|;
      if At(b, e) != 0 {
        ContentInside(b, e);
      }
    }
  }

  lemma CommentEnds(b: seq<byte>, m: nat)
    requires Terminated(b) && StartsWith(b, m, BEGIN_COMMENT)
    ensures m < ScanUntil(b, m, END_COMMENT) + |END_COMMENT| <= |b|
  {
    hide ScanUntil;
    assert At(b, m + 0) == BEGIN_COMMENT[0];
    assert AtMarkup(b, m);
  }

  lemma {:induction false} MarkupInside(b: seq<byte>, p: nat, tagVal: bool)
    requires Terminated(b) && p <= |b|
    ensures SkipMarkup(b, p, tagVal).0 <= |b|
    decreases |b| - p
  {
    hide AtMarkup, MarkupEnd, SkipWhite;
    if AtMarkup(b, p) {
      MarkupStartsWithLess(b, p);
      MarkupInside(b, SkipWhite(b, MarkupEnd(b, p)), false);
    }
  }

  lemma PickCovered(b: seq<byte>, p: nat, tagVal: bool, save: Option<nat>)
    requires Terminated(b) && p <= |b| && (save.Some? ==> save.value < |b|)
    requires save.Some? || (NoEmptyTag(b) && !tagVal)
    ensures var k := PickToken(b, p, tagVal, save);
      !k.Wild? && (k.Took? ==> k.value.save.Some? || (NoEmptyTag(b) && !k.value.tagVal))
  {
    hide ToInt, NameEnd, ContentEnd, IsNameCh, Terminated;
    if save.Some? {
      ContentInside(b, save.value + 1);
    }
  }

  lemma TokenCovered(b: seq<byte>, x: Scanner)
    requires Terminated(b) && Inside(b, x) && Covered(b, x)
    ensures !NextToken(b, x).Wild?
    ensures NextToken(b, x).Took? ==> Covered(b, NextToken(b, x).value.0)
  {
    hide Token, PickToken, SkipMarkup, ScanUntil, Terminated, NoEmptyTag;
    var (p, tagVal) := SkipMarkup(b, x.pos, x.tagVal);
    MarkupInside(b, x.pos, x.tagVal);
    SkipKeeps(b, x.pos, x.tagVal);
    PickCovered(b, p, tagVal, x.save);
  }

  // ---- one turn

  // What holds of the scanner before a turn, and from ev on also of the node to report.
  ghost predicate Steady(b: seq<byte>, x: Scanner, ev: Event) {
    Inside(b, x) && (ev.kind == ElementNode ==> x.pos >= 1)
  }

  lemma WhiteSteady(b: seq<byte>, x: Scanner)
    requires Inside(b, x)
    ensures var y := IgnoreWhite(b, x);
      Inside(b, y) && y.pos >= x.pos && y.save == x.save && (Covered(b, x) ==> Covered(b, y))
  {
  }

  // The token that is taken behind white space.
  lemma FirstInside(b: seq<byte>, x: Scanner)
    requires Inside(b, x)
    ensures var first := TokenAfterWhite(b, x);
      && (first.Took? ==>
            var (y, tok) := first.value;
            Inside(b, y) && y.pos >= |tok| && (x.pos >= 1 ==> y.pos >= |tok| + 1) && (x.save.Some? ==> y.save.Some?))
      && (Terminated(b) && Covered(b, x) ==> !first.Wild? && (first.Took? ==> Covered(b, first.value.0)))
  {
    hide *;
    WhiteSteady(b, x);
    AfterWhiteIs(b, x);
    var y := IgnoreWhite(b, x);
    if NextToken(b, y).Took? {
      TokenInside(b, y);
    }
    if Terminated(b) && Covered(b, x) {
      TokenCovered(b, y);
    }
  }

  lemma QuotedInside(b: seq<byte>, x: Scanner, quoted: bool)
    requires Inside(b, x)
    ensures var y := x.(inAttrib := quoted);
      Inside(b, y) && (Covered(b, x) ==> Covered(b, y)) && y.save == x.save
  {
  }

  lemma ValueInside(b: seq<byte>, x: Scanner)
    requires Inside(b, x)
    ensures var r := AttributeValue(b, x);
      && (r.Took? ==> Inside(b, r.value.0) && (x.save.Some? ==> r.value.0.save.Some?))
      && (Terminated(b) && Covered(b, x) ==> !r.Wild? && (r.Took? ==> Covered(b, r.value.0)))
  {
    hide NextToken, TokenAfterWhite, Inside, Covered, Terminated;
    var equals := TokenAfterWhite(b, x);
    FirstInside(b, x);
    if equals.Took? {
      var open := TokenAfterWhite(b, equals.value.0);
      FirstInside(b, equals.value.0);
      if open.Took? {
        QuotedInside(b, open.value.0, true);
        var value := NextToken(b, open.value.0.(inAttrib := true));
        AnyToken(b, open.value.0.(inAttrib := true));
        if value.Took? {
          QuotedInside(b, value.value.0, false);
          AnyToken(b, value.value.0.(inAttrib := false));
        }
      }
    }
  }

  lemma AnyToken(b: seq<byte>, x: Scanner)
    requires Inside(b, x)
    ensures var r := NextToken(b, x);
      && (r.Took? ==> Inside(b, r.value.0) && (x.save.Some? ==> r.value.0.save.Some?))
      && (Terminated(b) && Covered(b, x) ==> !r.Wild? && (r.Took? ==> Covered(b, r.value.0)))
  {
    hide *;
    if NextToken(b, x).Took? {
      TokenInside(b, x);
    }
    if Terminated(b) && Covered(b, x) {
      TokenCovered(b, x);
    }
  }

  // No turn leaves the buffer, and none gives up the place behind the last >.
  lemma TurnInside(b: seq<byte>, ps: ParserState, ev: Event)
    requires !ps.scan.inAttrib && Inside(b, ps.scan)
    ensures var r := NodeStep(b, ps, ev);
      r.Continue? || r.Return? ==> Inside(b, r.ps.scan) && (ps.scan.save.Some? ==> r.ps.scan.save.Some?)
  {
    hide NextToken, TokenAfterWhite, AttributeValue;
    FirstInside(b, ps.scan);
    var first := TokenAfterWhite(b, ps.scan);
    if first.Took? {
      FirstInside(b, first.value.0);
      ValueInside(b, first.value.0);
    }
  }

  lemma TurnCovered(b: seq<byte>, ps: ParserState, ev: Event)
    requires Terminated(b) && !ps.scan.inAttrib && Steady(b, ps.scan, ev) && Covered(b, ps.scan)
    ensures var r := NodeStep(b, ps, ev);
      && !r.Fault? && (r.Continue? || r.Return? ==> Covered(b, r.ps.scan))
      && (r.Continue? ==> Steady(b, r.ps.scan, r.ev))
  {
    hide NextToken, TokenAfterWhite, AttributeValue, Terminated, NoEmptyTag;
    FirstInside(b, ps.scan);
    var first := TokenAfterWhite(b, ps.scan);
    if first.Took? {
      FirstInside(b, first.value.0);
      ValueInside(b, first.value.0);
    }
  }

  // ---- one call

  // Whatever the buffer holds, a call leaves the parser inside it.
  lemma {:induction false} CallInside(b: seq<byte>, ps: ParserState, ev: Event, fuel: nat)
    requires !ps.scan.inAttrib && Inside(b, ps.scan)
    ensures var r := NextNode(b, ps, ev, fuel);
      r.Continue? || r.Return? ==> Inside(b, r.ps.scan) && (ps.scan.save.Some? ==> r.ps.scan.save.Some?)
    decreases fuel
  {
    hide NodeStep, Inside;
    if At(b, ps.scan.pos) != 0 && fuel > 0 {
      TurnInside(b, ps, ev);
      var r := NodeStep(b, ps, ev);
      if r.Continue? {
        CallInside(b, r.ps, r.ev, fuel - 1);
      }
    }
  }

  lemma {:induction false} CallCovered(b: seq<byte>, ps: ParserState, ev: Event, fuel: nat)
    requires Terminated(b) && !ps.scan.inAttrib && Steady(b, ps.scan, ev) && Covered(b, ps.scan)
    ensures var r := NextNode(b, ps, ev, fuel);
      !r.Fault? && (r.Return? ==> Covered(b, r.ps.scan))
    decreases fuel
  {
    hide NodeStep, Covered, Steady, Terminated;
    if At(b, ps.scan.pos) != 0 && fuel > 0 {
      TurnCovered(b, ps, ev);
      var r := NodeStep(b, ps, ev);
      if r.Continue? {
        CallCovered(b, r.ps, r.ev, fuel - 1);
      }
    }
  }

  // ---- whole parses

  // Once a > has been taken, or where no /> can come, content is read from inside the buffer.
  lemma {:induction false} RunCovered(b: seq<byte>, ps: ParserState, stack: seq<Frame>, nodes: nat, fuel: nat)
    requires Terminated(b) && !ps.scan.inAttrib && stack != [] && Inside(b, ps.scan) && Covered(b, ps.scan)
    ensures Run(b, ps, NO_EVENT, stack, nodes, fuel) != Faulted
    decreases nodes, 1
  {
    hide NextNode, Apply, Terminated, Covered, Inside;
    if nodes > 0 {
      CallInside(b, ps, NO_EVENT, fuel);
      CallCovered(b, ps, NO_EVENT, fuel);
      AfterCall(b, ps, NO_EVENT, stack, nodes, fuel);
    }
  }

  // So it is when the first call comes out well.
  lemma {:induction false} AfterCall(b: seq<byte>, ps: ParserState, ev: Event, stack: seq<Frame>, nodes: nat, fuel: nat)
    requires Terminated(b) && !ps.scan.inAttrib && stack != [] && nodes > 0
    requires var o := NextNode(b, ps, ev, fuel);
      !o.Fault? && (o.Return? ==> Inside(b, o.ps.scan) && Covered(b, o.ps.scan))
    ensures Run(b, ps, ev, stack, nodes, fuel) != Faulted
    decreases nodes, 0
  {
    hide NextNode, Apply, Terminated, Covered, Inside;
    var o := NextNode(b, ps, ev, fuel);
    if o.Return? && o.ev.kind != InvalidNode {
      var r := Apply(stack, o.ev);
      if r.Some? && r.value != [] {
        RunCovered(b, o.ps, r.value, nodes - 1, fuel);
      }
    }
  }

  // The first token is a word that fills the buffer from its first byte on.
  ghost predicate WordAtStart(b: seq<byte>) {
    var first := TokenAfterWhite(b, FIRST_STATE.scan);
    first.Took? && IsWord(first.value.1) && first.value.0.pos <= |first.value.1|
  }

  lemma FirstTurnFaults(b: seq<byte>, ev: Event)
    requires NoEmptyTag(b) && Terminated(b) && At(b, 0) != 0
    ensures var r := NodeStep(b, FIRST_STATE, ev);
      && (r.Fault? <==> ev.kind == ElementNode && WordAtStart(b))
      && (r.Continue? || r.Return? ==> Inside(b, r.ps.scan) && Covered(b, r.ps.scan))
      && (r.Continue? ==> Steady(b, r.ps.scan, r.ev))
  {
    hide NextToken, TokenAfterWhite, AttributeValue, Terminated, NoEmptyTag;
    var x := FIRST_STATE.scan;
    FirstInside(b, x);
    var first := TokenAfterWhite(b, x);
    if first.Took? {
      FirstMovesOn(b);
      FirstInside(b, first.value.0);
      ValueInside(b, first.value.0);
    }
  }

  lemma FirstMovesOn(b: seq<byte>)
    requires NoEmptyTag(b) && At(b, 0) != 0 && TokenAfterWhite(b, FIRST_STATE.scan).Took?
    ensures TokenAfterWhite(b, FIRST_STATE.scan).value.0.pos >= 1
  {
    hide TokenAfterWhite, NoEmptyTag;
    FirstMoves(b, FIRST_STATE.scan);
    FirstInside(b, FIRST_STATE.scan);
  }

  // The call is the first turn, and from there on nothing goes wrong.
  lemma FirstCallFaults(b: seq<byte>, ev: Event, fuel: nat)
    requires NoEmptyTag(b) && Terminated(b) && fuel >= 1
    ensures !FIRST_STATE.scan.inAttrib
    ensures var o := NextNode(b, FIRST_STATE, ev, fuel);
      && (o.Fault? <==> ev.kind == ElementNode && WordAtStart(b))
      && (o.Return? ==> Inside(b, o.ps.scan) && Covered(b, o.ps.scan))
  {
    hide NodeStep, Terminated, NoEmptyTag, WordAtStart;
    if At(b, 0) == 0 {
      NoWordAtEnd(b);
    } else {
      FirstTurnFaults(b, ev);
      var r := NodeStep(b, FIRST_STATE, ev);
      if r.Continue? {
        CallInside(b, r.ps, r.ev, fuel - 1);
        CallCovered(b, r.ps, r.ev, fuel - 1);
      }
    }
  }

  lemma NoWordAtEnd(b: seq<byte>)
    requires At(b, 0) == 0
    ensures !WordAtStart(b)
  {
    AtZero(b, FIRST_STATE.scan);
  }

  // In a buffer without /> whose markup ends, nothing goes wrong but putting back a word of its first
  // byte, and that exactly when the parameters of the first call hold a start tag.
  lemma FaultsAtStart(b: seq<byte>, ev: Event, nodes: nat, fuel: nat)
    requires NoEmptyTag(b) && Terminated(b) && nodes >= 1 && fuel >= 1
    ensures ParseBuffer(b, ev, nodes, fuel) == Faulted <==> ev.kind == ElementNode && WordAtStart(b)
  {
    hide NextNode, NoEmptyTag, Terminated, WordAtStart, Inside, Covered;
    FirstCallFaults(b, ev, fuel);
    if b == [] {
      NoWordAtEnd(b);
    } else if !NextNode(b, FIRST_STATE, ev, fuel).Fault? {
      AfterCall(b, FIRST_STATE, ev, EMPTY_DOCUMENT, nodes, fuel);
    }
  }

  lemma NoWordBeforeTag(b: seq<byte>)
    requires BeginsWithTag(b)
    ensures !WordAtStart(b)
  {
    hide TokenAfterWhite, BeginsWithTag;
    FirstToken(b);
  }

  // What the parameters of the first call hold is no start tag, or does not matter.
  predicate Harmless(b: seq<byte>, ev: Event) {
    (ev.kind != ElementNode && EventOk(ev)) || BeginsWithTag(b)
  }

  // A buffer without /> whose markup ends is parsed to its end or to an error, without a step that
  // C leaves undefined; the last of these holds within any bounds.
  lemma ParsedOrRefused(b: seq<byte>, ev: Event, nodes: nat, fuel: nat)
    requires NoEmptyTag(b) && Terminated(b) && Harmless(b, ev)
    ensures ParseBuffer(b, ev, nodes, fuel) != Faulted
    ensures nodes >= |b| + 2 && fuel >= |b| ==>
      var r := ParseBuffer(b, ev, nodes, fuel);
      r.Failed? || (r.Done? && r.stack != [] && r.stack[0].name == DOCUMENT_NAME)
  {
    hide ParseBuffer, NoEmptyTag, Terminated, BeginsWithTag, EventOk, WordAtStart;
    FaultsAtStart(b, ev, nodes + 1, fuel + 1);
    if BeginsWithTag(b) {
      NoWordBeforeTag(b);
    }
    if ParseBuffer(b, ev, nodes, fuel) == Faulted {
      BoundsDoNotMatter(b, ev, nodes, fuel, nodes + 1, fuel + 1);
    }
    StaysOpen(b, ev, nodes, fuel);
    if nodes >= |b| + 2 && fuel >= |b| {
      ParseEnds(b, ev, nodes, fuel);
    }
  }

  // ---- printed documents

  // Every < is followed by a byte that opens no comment, instruction or declaration.
  predicate OnlyTags(s: seq<byte>) {
    forall i :: 0 <= i < |s| && s[i] == LESS ==> i + 1 < |s| && s[i + 1] != 33 && s[i + 1] != 63
  }

  lemma OnlyTagsConcat(s: seq<byte>, t: seq<byte>)
    requires OnlyTags(s) && OnlyTags(t)
    ensures OnlyTags(s + t)
  {
    var r := s + t;
    forall i | 0 <= i < |r| && r[i] == LESS ensures i + 1 < |r| && r[i + 1] != 33 && r[i + 1] != 63 {
      if i < |s| {
        assert s[i] == LESS;
      } else {
        assert t[i - |s|] == LESS;
      }
    }
  }

  lemma NoLessIsPlain(s: seq<byte>)
    requires LESS !in s
    ensures OnlyTags(s)
  {
  }

  lemma NameHasNoLess(name: seq<byte>)
    requires IsName(name)
    ensures LESS !in name && name != [] && name[0] != 33 && name[0] != 63
  {
    hide IsNameCh, ToUtf8, Escaped, Encode;
    var cs := NameParts(name);
    NameBytes(cs);
    forall i | 0 <= i < |name| ensures name[i] != LESS {
      EscapedBytes(name, i);
    }
    NameCharBytes(cs[0]);
  }

  lemma AttrPlain(a: Attribute)
    requires AttrName(a.name) && ReadableValue(a.value)
    ensures LESS !in PrintedAttr(a)
  {
    hide IsName, XmlText, Escaped;
    if IsName(a.name) {
      NameHasNoLess(a.name);
    }
    if XmlText(a.value) {
      EscapedIsClean(a.value);
    } else {
      QuoteStays();
    }
  }

  lemma {:induction false} AttrsPlain(attrs: seq<Attribute>)
    requires ReadableAttrs(attrs)
    ensures LESS !in PrintedAttrs(attrs)
  {
    hide AttrName, ReadableValue, PrintedAttr;
    if attrs != [] {
      AttrPlain(attrs[0]);
      AttrsPlain(attrs[1..]);
    }
  }

  lemma TagPlain(name: seq<byte>, attrs: seq<Attribute>)
    requires IsName(name) && ReadableAttrs(attrs)
    ensures OnlyTags(PrintedTag(name, attrs)) && OnlyTags(PrintedEnd(name))
  {
    hide IsName, ReadableAttrs, PrintedAttrs;
    NameHasNoLess(name);
    AttrsPlain(attrs);
    var rest := name + PrintedAttrs(attrs);
    assert rest[0] == name[0] && LESS !in rest;
    assert (name + TAG_END)[0] == name[0] && LESS !in name + TAG_END;
  }

  lemma {:induction false} NodePlain(t: Node)
    requires Readable(t)
    ensures OnlyTags(Printed(t))
    decreases t, 1
  {
    hide OnlyTags, IsName, PrintedTag, PrintedEnd, ReadableAttrs, PrintedAll;
    match t
    case Text(v) =>
      assert ReadableText(v);
      EscapedIsClean(v);
      NoLessIsPlain(Escaped(v));
    case Element(name, attrs, children) =>
      TagPlain(name, attrs);
      if children == [] {
        SignsPlain();
        OnlyTagsConcat(PrintedTag(name, attrs), EMPTY_END);
      } else {
        AllPlain(children);
        SignsPlain();
        OnlyTagsConcat(PrintedAll(children), PrintedEnd(name));
        OnlyTagsConcat(TagClose(children[0]), PrintedAll(children) + PrintedEnd(name));
        OnlyTagsConcat(PrintedTag(name, attrs), TagClose(children[0]) + (PrintedAll(children) + PrintedEnd(name)));
      }
  }

  lemma SignsPlain()
    ensures OnlyTags(EMPTY_END) && OnlyTags(GREATERTHAN) && OnlyTags(TAG_END) && OnlyTags([])
  {
  }

  lemma {:induction false} AllPlain(ts: seq<Node>)
    requires forall i :: 0 <= i < |ts| ==> Readable(ts[i])
    ensures OnlyTags(PrintedAll(ts))
    decreases ts, 0
  {
    hide OnlyTags, Readable, Printed;
    if ts == [] {
      SignsPlain();
    } else {
      NodePlain(ts[0]);
      AllPlain(ts[1..]);
      OnlyTagsConcat(Printed(ts[0]), PrintedAll(ts[1..]));
    }
  }

  // What is scanned for in a text that stands behind another.
  lemma StartsBehind(s: seq<byte>, t: seq<byte>, p: nat, key: seq<byte>)
    ensures StartsWith(s + t, |s| + p, key) <==> StartsWith(t, p, key)
  {
    forall i | 0 <= i < |key| ensures At(s + t, |s| + p + i) == key[i] <==> At(t, p + i) == key[i] {
    }
  }

  lemma {:induction false} ScanBehind(s: seq<byte>, t: seq<byte>, p: nat, key: seq<byte>)
    ensures StartsWith(s + t, |s| + p, key) <==> StartsWith(t, p, key)
    ensures ScanUntil(s + t, |s| + p, key) == |s| + ScanUntil(t, p, key)
    decreases |t| - p
  {
    hide StartsWith;
    StartsBehind(s, t, p, key);
    if At(t, p) != 0 && !StartsWith(t, p, key) {
      ScanBehind(s, t, p + 1, key);
    }
  }

  lemma MarkupBehind(s: seq<byte>, t: seq<byte>, p: nat)
    ensures AtMarkup(s + t, |s| + p) <==> AtMarkup(t, p)
    ensures AtMarkup(t, p) ==> MarkupEnd(s + t, |s| + p) == |s| + MarkupEnd(t, p)
  {
    hide StartsWith, ScanUntil;
    ScanBehind(s, t, p, BEGIN_COMMENT);
    ScanBehind(s, t, p, BEGIN_PROCESSING);
    ScanBehind(s, t, p, BEGIN_DOCTYPE);
    ScanBehind(s, t, p, END_COMMENT);
    ScanBehind(s, t, p, END_PROCESSING);
    ScanBehind(s, t, p, GREATERTHAN);
  }

  lemma OnlyTagsNoMarkup(s: seq<byte>, t: seq<byte>, p: nat)
    requires OnlyTags(s) && p < |s|
    ensures !AtMarkup(s + t, p)
  {
    hide AtMarkup;
    assert At(s + t, p) == s[p];
    assert s[p] == LESS ==> At(s + t, p + 1) == s[p + 1];
    NoMarkup(s + t, p);
  }

  lemma TerminatedBehind(s: seq<byte>, t: seq<byte>)
    requires OnlyTags(s) && Terminated(t)
    ensures Terminated(s + t)
  {
    hide AtMarkup, MarkupEnd, OnlyTags;
    var b := s + t;
    forall p: nat | p < |b| && AtMarkup(b, p) ensures MarkupEnd(b, p) <= |b| {
      if p < |s| {
        OnlyTagsNoMarkup(s, t, p);
        assert false;
      } else {
        MarkupBehind(s, t, p - |s|);
        assert |s| + (p - |s|) == p;
      }
    }
  }

  // A printed document of readable elements is read inside the buffer, within any bounds and
  // whatever the parameters of the first call hold.
  lemma PrintedIsSafe(doc: seq<Node>, ev: Event, nodes: nat, fuel: nat)
    requires doc != [] && forall i :: 0 <= i < |doc| ==> doc[i].Element? && Readable(doc[i])
    ensures ParseBuffer(PrintedAll(doc), ev, nodes, fuel) != Faulted
  {
    hide *;
    var b := PrintedAll(doc);
    var more := nodes + |b| + 1;
    PrintParse(doc, ev, more, fuel + 3);
    if ParseBuffer(b, ev, nodes, fuel) == Faulted {
      BoundsDoNotMatter(b, ev, nodes, fuel, more, fuel + 3);
    }
  }

  // ---- text behind a printed document

  predicate Childless(doc: seq<Node>) {
    forall i :: 0 <= i < |doc| ==> doc[i].Element? && doc[i].children == []
  }

  // No > is taken in a row of empty elements, and one in every other row.
  lemma {:induction false} TopElements(b: seq<byte>, ps: ParserState, p: nat, doc: seq<Node>, stack: seq<Frame>,
                                       fuel: nat)
    returns (n: nat, ps': ParserState)
    requires Ready(b, ps, p) && stack != [] && fuel >= 3 && HasAt(b, p, PrintedAll(doc))
    requires forall i :: 0 <= i < |doc| ==> doc[i].Element? && Readable(doc[i])
    ensures !ps.scan.inAttrib
    ensures Steps(b, ps, stack, n, fuel) == Some((ps', AddChildren(stack, doc)))
    ensures n <= |PrintedAll(doc)| && Ready(b, ps', p + |PrintedAll(doc)|)
    ensures ps'.scan.save.None? <==> ps.scan.save.None? && Childless(doc)
    ensures doc != [] ==> ps'.scan.tagVal
    decreases |doc|
  {
    hide HasAt, Step, Printed, Readable, PrintedAll;
    if doc == [] {
      n, ps' := 0, ps;
      assert Top(stack).children + [] == Top(stack).children;
      NothingPrinted();
      assert AddChildren(stack, doc) == stack;
      assert Ready(b, ps', p + |PrintedAll(doc)|);
    } else {
      var t, rest := doc[0], doc[1..];
      AllParts(b, p, doc);
      ReadyIsBefore(b, ps, p);
      var k, ps1 := ParseElement(b, ps, p, t, stack, fuel);
      var stack1 := AddChildren(stack, [t]);
      var m;
      m, ps' := TopElements(b, ps1, p + |Printed(t)|, rest, stack1, fuel);
      StepsAdd(b, ps, stack, k, m, fuel);
      AddsOn(stack, t, rest);
      n := k + m;
      ChildlessSplit(t, rest);
      assert doc == [t] + rest;
      assert Ready(b, ps', p + |PrintedAll(doc)|);
    }
  }

  lemma ChildlessSplit(t: Node, rest: seq<Node>)
    requires t.Element?
    ensures Childless([t] + rest) <==> t.children == [] && Childless(rest)
  {
    var doc := [t] + rest;
    if t.children == [] && Childless(rest) {
      forall i | 0 <= i < |doc| ensures doc[i].Element? && doc[i].children == [] {
        assert i > 0 ==> doc[i] == rest[i - 1];
      }
    }
    if Childless(doc) {
      assert doc[0] == t;
      forall i | 0 <= i < |rest| ensures rest[i].Element? && rest[i].children == [] {
        assert doc[i + 1] == rest[i];
      }
    }
  }

  lemma NothingPrinted()
    ensures PrintedAll([]) == []
  {
  }

  lemma AddsOn(stack: seq<Frame>, t: Node, rest: seq<Node>)
    requires stack != []
    ensures AddChildren(AddChildren(stack, [t]), rest) == AddChildren(stack, [t] + rest)
  {
    assert Top(stack).children + [t] + rest == Top(stack).children + ([t] + rest);
  }

  // Content is due, and no > has been taken.
  lemma WildContent(b: seq<byte>, ps: ParserState, r: nat, fuel: nat)
    requires !ps.scan.inAttrib && ps.scan.tagVal && ps.scan.save.None? && fuel >= 1
    requires Whites(b, ps.scan.pos, r) && ContentByte(b, r)
    ensures NextNode(b, ps, NO_EVENT, fuel) == Fault
  {
    hide AtMarkup, SkipMarkup, IsNameCh, ToInt;
    TokenHere(b, ps.scan, r);
    NotAtEnd(b, ps.scan.pos, r);
    NoMarkup(b, r);
    SkipNothing(b, r, true);
    assert PickToken(b, r, true, None) == Wild;
    assert NextToken(b, ps.scan.(pos := r)) == Wild;
  }

  // Anything else that is no tag ends the parse.
  lemma OtherwiseEnds(b: seq<byte>, ps: ParserState, r: nat, stack: seq<Frame>, nodes: nat, fuel: nat)
    requires !ps.scan.inAttrib && !ps.oneAttr && |stack| == 1
    requires Whites(b, ps.scan.pos, r) && !IsWhite(At(b, r)) && !ContentByte(b, r) && At(b, r) != LESS
    ensures Run(b, ps, NO_EVENT, stack, nodes, fuel) != Faulted
  {
    hide NextToken;
    if nodes > 0 && fuel > 0 && At(b, ps.scan.pos) != 0 {
      var x := ps.scan.(pos := r);
      TokenHere(b, ps.scan, r);
      if At(b, r) == 0 {
        AtZero(b, x);
        StepIs(b, ps, NO_EVENT, x, []);
        TurnGoesOn(b, ps, NO_EVENT, fuel);
        AtTheEnd(b, ps.(scan := x), fuel - 1);
      } else if At(b, r) == GREATER {
        GreaterToken(b, x);
      } else {
        CompleteToken(b, x);
        assert stack[..|stack| - 1] == [];
      }
    }
  }

  lemma {:induction false} StepsInside(b: seq<byte>, ps: ParserState, stack: seq<Frame>, n: nat, fuel: nat)
    requires !ps.scan.inAttrib && stack != [] && Inside(b, ps.scan) && Steps(b, ps, stack, n, fuel).Some?
    ensures Inside(b, Steps(b, ps, stack, n, fuel).value.0.scan)
    decreases n
  {
    hide NextNode, Apply, Inside;
    if n > 0 {
      CallInside(b, ps, NO_EVENT, fuel);
      var s := Step(b, ps, stack, fuel).value;
      StepsInside(b, s.0, s.1, n - 1, fuel);
    }
  }

  // White space, and what is behind it, in a text that stands behind another.
  lemma {:induction false} SkipBehind(s: seq<byte>, t: seq<byte>, p: nat)
    ensures SkipWhite(s + t, |s| + p) == |s| + SkipWhite(t, p)
    ensures ContentByte(s + t, |s| + p) <==> ContentByte(t, p)
    ensures At(s + t, |s| + p) == At(t, p)
    decreases |t| - p
  {
    if IsWhite(At(t, p)) {
      SkipBehind(s, t, p + 1);
    }
  }

  lemma BehindReady(b: seq<byte>, doc: seq<Node>)
    requires forall i :: 0 <= i < |doc| ==> doc[i].Element? && Readable(doc[i])
    ensures Ready(b, FIRST_STATE, 0) && !FIRST_STATE.scan.inAttrib && EMPTY_DOCUMENT != []
    ensures FIRST_STATE.scan.save.None? && Inside(b, FIRST_STATE.scan)
  {
    hide Readable;
  }

  lemma PrefixAt(s: seq<byte>, t: seq<byte>)
    ensures HasAt(s + t, 0, s)
  {
  }

  // At the end of the document.
  lemma AtTail(b: seq<byte>, ps: ParserState, doc: seq<Node>, tail: seq<byte>, r: nat, nodes: nat, fuel: nat)
    requires b == PrintedAll(doc) + tail && Terminated(tail) && (ps.scan.save.None? ==> At(b, r) != LESS)
    requires forall i :: 0 <= i < |doc| ==> Readable(doc[i])
    requires Ready(b, ps, |PrintedAll(doc)|) && Inside(b, ps.scan) && ps.scan.tagVal && nodes >= 1 && fuel >= 1
    requires r == SkipWhite(b, |PrintedAll(doc)|)
    ensures !ps.scan.inAttrib
    ensures Run(b, ps, NO_EVENT, [Frame(DOCUMENT_NAME, [], doc)], nodes, fuel) == Faulted <==>
      ps.scan.save.None? && ContentByte(b, r)
  {
    hide *;
    var stack := [Frame(DOCUMENT_NAME, [], doc)];
    ReadyParts(b, ps, |PrintedAll(doc)|, 0);
    WhitesOn(b, ps.scan.pos, |PrintedAll(doc)|);
    if ps.scan.save.Some? {
      AllPlain(doc);
      TerminatedBehind(PrintedAll(doc), tail);
      SavedIsCovered(b, ps.scan);
      RunCovered(b, ps, stack, nodes, fuel);
    } else if ContentByte(b, r) {
      WildContent(b, ps, r, fuel);
      FaultHere(b, ps, stack, nodes, fuel);
    } else {
      OtherwiseEnds(b, ps, r, stack, nodes, fuel);
    }
  }

  lemma WhitesOn(b: seq<byte>, p: nat, q: nat)
    requires Whites(b, p, q)
    ensures Whites(b, p, SkipWhite(b, q)) && !IsWhite(At(b, SkipWhite(b, q)))
  {
    hide IsWhite;
  }

  lemma SavedIsCovered(b: seq<byte>, x: Scanner)
    requires x.save.Some?
    ensures Covered(b, x)
  {
  }

  lemma FaultHere(b: seq<byte>, ps: ParserState, stack: seq<Frame>, nodes: nat, fuel: nat)
    requires !ps.scan.inAttrib && stack != [] && nodes >= 1 && NextNode(b, ps, NO_EVENT, fuel) == Fault
    ensures Run(b, ps, NO_EVENT, stack, nodes, fuel) == Faulted
  {
    hide NextNode;
  }

  // Any text may stand behind a printed document, with tags too if an element of the document has
  // children. The parser goes wrong exactly when the document is a row of empty elements and the text
  // is not blank, and does not begin with > or />.
  lemma TextBehind(doc: seq<Node>, tail: seq<byte>, ev: Event, nodes: nat, fuel: nat)
    requires doc != [] && forall i :: 0 <= i < |doc| ==> doc[i].Element? && Readable(doc[i])
    requires Terminated(tail) && (Childless(doc) ==> At(tail, SkipWhite(tail, 0)) != LESS)
    requires nodes > |PrintedAll(doc)| && fuel >= 3
    ensures ParseBuffer(PrintedAll(doc) + tail, ev, nodes, fuel) == Faulted <==>
      Childless(doc) && ContentByte(tail, SkipWhite(tail, 0))
  {
    hide *;
    var s := PrintedAll(doc);
    var b, r := s + tail, |s| + SkipWhite(tail, 0);
    BehindReady(b, doc);
    PrefixAt(s, tail);
    var n, ps' := TopElements(b, FIRST_STATE, 0, doc, EMPTY_DOCUMENT, fuel);
    AllParts(b, 0, doc);
    ElementParts(doc[0]);
    FirstCall(b, FIRST_STATE, ev, 0, doc[0], fuel - 1);
    NonEmptyElement(doc[0]);
    FirstRun(b, ev, nodes, fuel);
    StepsRun(b, FIRST_STATE, EMPTY_DOCUMENT, n, nodes - n, fuel);
    DocumentFrame(doc);
    StepsInside(b, FIRST_STATE, EMPTY_DOCUMENT, n, fuel);
    SkipBehind(s, tail, 0);
    SkipBehind(s, tail, SkipWhite(tail, 0));
    AtTail(b, ps', doc, tail, r, nodes - n, fuel);
  }

  // Whatever stands behind a start tag that is not empty, its > is taken before content is read.
  lemma StartTagFirst(b: seq<byte>, name: seq<byte>, attrs: seq<Attribute>, ev: Event, nodes: nat, fuel: nat)
    requires IsName(name) && ReadableAttrs(attrs) && HasAt(b, 0, PrintedTag(name, attrs) + GREATERTHAN)
    requires Terminated(b)
    ensures ParseBuffer(b, ev, nodes, fuel) != Faulted
  {
    hide *;
    var n, stack := 1 + |attrs|, EMPTY_DOCUMENT + [Frame(name, attrs, [])];
    StartState(b);
    TagBegins(b, name, attrs);
    ParametersDoNotMatter(b, ev, nodes, fuel);
    var ps := ParseTag(b, FIRST_STATE, 0, name, attrs, GREATERTHAN, EMPTY_DOCUMENT, fuel + 3);
    StepsRun(b, FIRST_STATE, EMPTY_DOCUMENT, n, nodes + 1, fuel + 3);
    StepsInside(b, FIRST_STATE, EMPTY_DOCUMENT, n, fuel + 3);
    OpenedIsSaved(ps, |PrintedTag(name, attrs)|);
    BehindTag(b, ps, stack, nodes + 1, fuel + 3);
    ParseIsRun(b, n + (nodes + 1), fuel + 3);
    if ParseBuffer(b, ev, nodes, fuel) == Faulted {
      BoundsDoNotMatter(b, NO_EVENT, nodes, fuel, n + (nodes + 1), fuel + 3);
    }
  }

  lemma OpenedIsSaved(ps: ParserState, g: nat)
    ensures ps == Opened(ps, g) ==> ps.scan.save.Some?
  {
  }

  lemma StartState(b: seq<byte>)
    ensures Before(b, FIRST_STATE, 0) && !FIRST_STATE.scan.inAttrib && EMPTY_DOCUMENT != []
    ensures Inside(b, FIRST_STATE.scan)
    ensures GREATERTHAN != EMPTY_END
  {
  }

  lemma ParseIsRun(b: seq<byte>, nodes: nat, fuel: nat)
    requires b != []
    ensures !FIRST_STATE.scan.inAttrib && EMPTY_DOCUMENT != []
    ensures ParseBuffer(b, NO_EVENT, nodes, fuel) == Run(b, FIRST_STATE, NO_EVENT, EMPTY_DOCUMENT, nodes, fuel)
  {
    hide Run;
  }

  lemma TagBegins(b: seq<byte>, name: seq<byte>, attrs: seq<Attribute>)
    requires IsName(name) && HasAt(b, 0, PrintedTag(name, attrs) + GREATERTHAN)
    ensures BeginsWithTag(b) && b != []
  {
    hide IsName, PrintedAttrs;
    NameHasNoLess(name);
    var rest := PrintedAttrs(attrs) + GREATERTHAN;
    assert PrintedTag(name, attrs) + GREATERTHAN == LESSTHAN + (name + rest);
    HasAtSplit(b, 0, LESSTHAN, name + rest);
    HasAtHead(b, 0, LESSTHAN);
    HasAtHead(b, 1, name + rest);
    assert SkipWhite(b, 0) == 0;
  }

  lemma BehindTag(b: seq<byte>, ps: ParserState, stack: seq<Frame>, nodes: nat, fuel: nat)
    requires Terminated(b) && Inside(b, ps.scan) && stack != [] && fuel >= 1 && nodes >= 1 && !ps.scan.inAttrib
    requires if ps.oneAttr then AtTagEnd(b, ps) else ps.scan.save.Some?
    ensures Run(b, ps, NO_EVENT, stack, nodes, fuel) != Faulted
  {
    hide NextNode, Terminated;
    if ps.oneAttr {
      var qs := Opened(ps, ps.scan.pos);
      TagEndIsForgotten(b, ps, fuel - 1);
      CallInside(b, qs, NO_EVENT, fuel - 1);
      CallCovered(b, qs, NO_EVENT, fuel - 1);
      AfterCall(b, ps, NO_EVENT, stack, nodes, fuel);
    } else {
      RunCovered(b, ps, stack, nodes, fuel);
    }
  }

  // ---- texts that go wrong

  // An empty element comes first, and behind it something that may be content, whatever follows.
  lemma EmptyTagFirst(b: seq<byte>, name: seq<byte>, r: nat, ev: Event, nodes: nat, fuel: nat)
    requires IsName(name) && HasAt(b, 0, LESSTHAN + name) && nodes >= 3 && fuel >= 2
    requires At(b, 1 + |name|) == SLASH && At(b, 2 + |name|) == GREATER
    requires Whites(b, 3 + |name|, r) && ContentByte(b, r)
    ensures ParseBuffer(b, ev, nodes, fuel) == Faulted
  {
    hide *;
    var g := 1 + |name|;
    FirstIs(b, g);
    EmptyStartNode(b, FIRST_STATE, ev, 0, name, fuel);
    var ps1 := ParserState(Scanner(g, true, None, false), true, false, name);
    var ps2 := ParserState(Scanner(g + 2, true, None, false), true, false, name);
    EmptyEndNode(b, ps1, fuel);
    WildContent(b, ps2, r, fuel);
    ThreeCalls(b, ps1, ps2, ev, name, nodes, fuel);
  }

  lemma FirstIs(b: seq<byte>, g: nat)
    requires At(b, g) == SLASH
    ensures Ready(b, FIRST_STATE, 0) && !FIRST_STATE.scan.inAttrib && FIRST_STATE.scan.save.None? && b != []
  {
  }

  // A start tag and its end are reported, and the next call goes wrong.
  lemma ThreeCalls(b: seq<byte>, ps1: ParserState, ps2: ParserState, ev: Event, name: seq<byte>, nodes: nat, fuel: nat)
    requires b != [] && nodes >= 3 && !ps1.scan.inAttrib && !ps2.scan.inAttrib && !FIRST_STATE.scan.inAttrib
    requires NextNode(b, FIRST_STATE, ev, fuel) == Return(ps1, Event(ElementNode, name, None, false))
    requires NextNode(b, ps1, NO_EVENT, fuel) == Return(ps2, Event(ElementNode, name, None, true))
    requires NextNode(b, ps2, NO_EVENT, fuel) == Fault
    ensures ParseBuffer(b, ev, nodes, fuel) == Faulted
  {
    hide NextNode;
    var f := Frame(name, [], []);
    var stack := EMPTY_DOCUMENT + [f];
    assert stack[..1] == EMPTY_DOCUMENT;
    var closed := AddChild(EMPTY_DOCUMENT, Closed(f));
    assert Run(b, ps2, NO_EVENT, closed, nodes - 2, fuel) == Faulted;
    assert Run(b, ps1, NO_EVENT, stack, nodes - 1, fuel) == Faulted;
  }

  // In bytes, <a/>x .
  lemma UnsetExample(ev: Event, nodes: nat, fuel: nat)
    requires nodes >= 3 && fuel >= 2
    ensures ParseBuffer([LESS, 97, SLASH, GREATER, 120], ev, nodes, fuel) == Faulted
  {
    hide IsName, ParseBuffer;
    var b: seq<byte> := [LESS, 97, SLASH, GREATER, 120];
    LetterIsName(97);
    assert b[0..2] == LESSTHAN + [97];
    EmptyTagFirst(b, [97], 4, ev, nodes, fuel);
  }

  // Skipped markup comes first and does not end.
  lemma OpenMarkup(b: seq<byte>, ev: Event, nodes: nat, fuel: nat)
    requires AtMarkup(b, SkipWhite(b, 0)) && SkipMarkup(b, SkipWhite(b, 0), false).0 > |b| && nodes >= 1 && fuel >= 1
    ensures ParseBuffer(b, ev, nodes, fuel) == Faulted
  {
    hide AtMarkup, SkipMarkup, PickToken, SkipWhite;
    MarkupStartsWithLess(b, SkipWhite(b, 0));
    SkipWhites(b, 0, 0);
    assert NextToken(b, IgnoreWhite(b, FIRST_STATE.scan)) == Wild;
    hide NextToken;
    NotBlank(b);
    assert NodeStep(b, FIRST_STATE, ev) == Fault;
  }

  lemma NotBlank(b: seq<byte>)
    requires At(b, SkipWhite(b, 0)) != 0
    ensures At(b, 0) != 0 && b != []
  {
  }

  // In bytes, <! .
  lemma OpenMarkupExample(ev: Event, nodes: nat, fuel: nat)
    requires nodes >= 1 && fuel >= 1
    ensures ParseBuffer([LESS, 33], ev, nodes, fuel) == Faulted
  {
    hide ParseBuffer, StartsWith, ScanUntil, SkipMarkup;
    var b: seq<byte> := [LESS, 33];
    assert SkipWhite(b, 0) == 0;
    assert AtMarkup(b, 0) && MarkupEnd(b, 0) > 2 by { BareDeclaration(b); }
    SkipOver(b, 0);
    OpenMarkup(b, ev, nodes, fuel);
  }

  lemma BareDeclaration(b: seq<byte>)
    requires b == [LESS, 33]
    ensures StartsWith(b, 0, BEGIN_DOCTYPE) && !StartsWith(b, 0, BEGIN_COMMENT) && !StartsWith(b, 0, BEGIN_PROCESSING)
    ensures ScanUntil(b, 0, GREATERTHAN) == 2
  {
    assert At(b, 0 + 2) != BEGIN_COMMENT[2] && At(b, 0 + 1) != BEGIN_PROCESSING[1];
    ScanNone(b);
  }

  lemma ScanNone(b: seq<byte>)
    requires b == [LESS, 33]
    ensures ScanUntil(b, 0, GREATERTHAN) == 2
  {
    assert !StartsWith(b, 0, GREATERTHAN) by { assert At(b, 0 + 0) != GREATERTHAN[0]; }
    assert !StartsWith(b, 1, GREATERTHAN) by { assert At(b, 1 + 0) != GREATERTHAN[0]; }
    assert ScanUntil(b, 2, GREATERTHAN) == 2;
    assert ScanUntil(b, 1, GREATERTHAN) == 2;
  }

  lemma SkipOver(b: seq<byte>, p: nat)
    requires AtMarkup(b, p)
    ensures SkipMarkup(b, p, false).0 >= MarkupEnd(b, p)
  {
    hide AtMarkup, MarkupEnd;
  }

  // In bytes, a , with a start tag in the parameters of the first call.
  lemma PutBackExample(ev: Event, nodes: nat, fuel: nat)
    requires ev.kind == ElementNode && nodes >= 1 && fuel >= 1
    ensures ParseBuffer([97], ev, nodes, fuel) == Faulted
  {
    hide ParseBuffer, IsName, NextToken;
    var b: seq<byte> := [97];
    LetterIsName(97);
    assert b[0..1] == b;
    NameToken(b, FIRST_STATE.scan, b);
    NoWhites(b, 0);
    TokenHere(b, FIRST_STATE.scan, 0);
    assert NoEmptyTag(b);
    OnlyTagsNoMarkup(b, [], 0);
    assert b + [] == b;
    FaultsAtStart(b, ev, nodes, fuel);
  }
}
