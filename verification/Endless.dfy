// Parses that go on for ever (src/upnpdom/Parser.cpp:620-667, 738-936). Behind a /> content is
// read from the last >; where that content is taken for the start of a tag, the parser comes back
// to the same /> again and again. The printer writes such documents.
module Endless {
  import opened Bytes
  import opened Utf8
  import opened CharTables
  import opened Escape
  import opened Lexer
  import opened Reader
  import opened Tree
  import opened Tokens
  import opened Builder
  import opened RoundTrip

  // A start tag n, the text <, an empty element m, and a text v.
  function Looping(n: seq<byte>, m: seq<byte>, v: seq<byte>): Node {
    Element(n, [], [Text(LESSTHAN), Element(m, [], []), Text(v)])
  }

  // Such a buffer: content < behind the > at g, and <m/> behind it.
  ghost predicate LoopAt(b: seq<byte>, g: nat, m: seq<byte>) {
    var q := g + 1 + |Escaped(LESSTHAN)|;
    IsName(m) && HasAt(b, g + 1, Escaped(LESSTHAN)) && HasAt(b, q, LESSTHAN + m) && HasAt(b, q + 1 + |m|, EMPTY_END)
  }

  // Content is due, and would be read from behind g.
  ghost predicate Due(b: seq<byte>, ps: ParserState, g: nat, p: nat) {
    && !ps.scan.inAttrib && !ps.oneAttr && ps.scan.tagVal && ps.scan.save == Some(g)
    && Whites(b, ps.scan.pos, p) && ContentByte(b, p)
  }

  // The first call takes the content for a < and reports an element of that name.
  lemma FalseTag(b: seq<byte>, ps: ParserState, g: nat, p: nat, m: seq<byte>, fuel: nat)
    requires LoopAt(b, g, m) && Due(b, ps, g, p)
    ensures var q := g + 1 + |Escaped(LESSTHAN)|;
      var o := NextNode(b, ps, NO_EVENT, fuel);
      if fuel < 2 then o.Continue?
      else o == Return(ParserState(Scanner(q, false, Some(g), false), true, false, LESSTHAN),
                       Event(ElementNode, LESSTHAN, None, false))
  {
    hide *;
    var q := g + 1 + |Escaped(LESSTHAN)|;
    LoopLayout(b, g, m);
    DueParts(b, ps, g, p);
    var x, y, z := ps.scan.(pos := p), Scanner(q, false, Some(g), false), Scanner(q + 1, false, Some(g), false);
    var w := z.(pos := q + 1 + |m|);
    var ps1, ev1 := ParserState(z, true, false, LESSTHAN), Event(ElementNode, LESSTHAN, None, false);
    NameToken(b, z, m);
    TokenHere(b, ps.scan, p);
    NoComment(b, q);
    ContentFromSave(b, x, LESSTHAN);
    NoWhites(b, q);
    TokenHere(b, y, q);
    BeginTagToken(b, y);
    OnStartTag(b, ps, NO_EVENT, y, z, LESSTHAN);
    StepIs(b, ps, NO_EVENT, y, LESSTHAN);
    if fuel == 0 {
      NoTurns(b, ps, NO_EVENT);
    } else {
      TurnGoesOn(b, ps, NO_EVENT, fuel);
      NoWhites(b, q + 1);
      TokenHere(b, z, q + 1);
      StepIs(b, ps1, ev1, w, m);
      OnName(b, ps1, ev1, w, m);
      PutBackIs(ps1, ev1, w, |m| + 1);
      if fuel == 1 {
        NoTurns(b, ps1, ev1);
      } else {
        TurnReturns(b, ps1, ev1, fuel - 1);
      }
    }
  }

  lemma LoopLayout(b: seq<byte>, g: nat, m: seq<byte>)
    requires LoopAt(b, g, m)
    ensures var q := g + 1 + |Escaped(LESSTHAN)|;
      && IsName(m) && HasAt(b, g + 1, Escaped(LESSTHAN)) && HasAt(b, q, LESSTHAN + m) && HasAt(b, q + 1, m)
      && HasAt(b, q + 1 + |m|, EMPTY_END)
      && At(b, q) == LESS && At(b, q + 1) != 33 && At(b, q + 1) != 0
      && Punctuation(At(b, q + 1 + |m|)) && XmlText(LESSTHAN) && LESSTHAN != [] && !IsWhite(LESS)
  {
    hide *;
    LoopParts(b, g, m);
    Signs();
    var q := g + 1 + |Escaped(LESSTHAN)|;
    HasAtSplit(b, q, LESSTHAN, m);
    FirstByte(b, q);
    EmptyEndLayout(b, q + 1 + |m|);
    SignFacts(b, q + 1 + |m|);
    NameToken(b, Scanner(q + 1, false, Some(g), false), m);
    NameIsNoBang(b, q + 1);
  }

  lemma LoopParts(b: seq<byte>, g: nat, m: seq<byte>)
    requires LoopAt(b, g, m)
    ensures var q := g + 1 + |Escaped(LESSTHAN)|;
      IsName(m) && HasAt(b, g + 1, Escaped(LESSTHAN)) && HasAt(b, q, LESSTHAN + m) && HasAt(b, q + 1 + |m|, EMPTY_END)
  {
    hide Escaped, IsName;
  }

  lemma Signs()
    ensures |LESSTHAN| == 1 && |GREATERTHAN| == 1 && |EMPTY_END| == 3 && LESSTHAN != [] && !IsWhite(LESS)
    ensures XmlText(LESSTHAN)
  {
    hide XmlText;
    EncodeOne(LESS);
    OneByteEncoding(LESS);
  }

  lemma FirstByte(b: seq<byte>, q: nat)
    ensures HasAt(b, q, LESSTHAN) ==> At(b, q) == LESS
    ensures HasAt(b, q, GREATERTHAN) ==> At(b, q) == GREATER
    ensures HasAt(b, q, EMPTY_END) ==> At(b, q + 2) == LF
  {
  }

  lemma NameIsNoBang(b: seq<byte>, p: nat)
    requires !Punctuation(At(b, p))
    ensures At(b, p) != 33 && At(b, p) != 0
  {
  }

  lemma DueParts(b: seq<byte>, ps: ParserState, g: nat, p: nat)
    requires Due(b, ps, g, p)
    ensures !ps.scan.inAttrib && ps.scan.tagVal && ps.scan.save == Some(g) && Whites(b, ps.scan.pos, p)
    ensures ContentByte(b, p) && !IsWhite(At(b, p)) && At(b, p) != 0 && At(b, ps.scan.pos) != 0
  {
    NotAtEnd(b, ps.scan.pos, p);
  }

  // From there on three calls lead back to where content is due, with one more element open.
  lemma {:induction false} GoesRound(b: seq<byte>, ps: ParserState, g: nat, p: nat, m: seq<byte>, r: nat,
                                     stack: seq<Frame>, nodes: nat, fuel: nat)
    requires LoopAt(b, g, m) && Due(b, ps, g, p) && stack != []
    requires Whites(b, g + 1 + |Escaped(LESSTHAN)| + 1 + |m| + 2, r) && ContentByte(b, r)
    ensures Run(b, ps, NO_EVENT, stack, nodes, fuel) == Cut
    decreases nodes
  {
    hide *;
    var q := g + 1 + |Escaped(LESSTHAN)|;
    LoopLayout(b, g, m);
    DueParts(b, ps, g, p);
    FalseTag(b, ps, g, p, m, fuel);
    var ps1 := ParserState(Scanner(q, false, Some(g), false), true, false, LESSTHAN);
    var ps2 := ParserState(Scanner(q + 1 + |m|, true, Some(g), false), true, false, m);
    var ps3 := ParserState(Scanner(q + 1 + |m| + 2, true, Some(g), false), true, false, m);
    var stack1 := stack + [Frame(LESSTHAN, [], [])];
    var stack2 := stack1 + [Frame(m, [], [])];
    if nodes == 0 || fuel < 2 {
      CutHere(b, ps, stack, nodes, fuel);
    } else {
      Opens(b, ps, ps1, stack, nodes, fuel, LESSTHAN);
      ReadyAt(b, ps1, q);
      EmptyEndLayout(b, q + 1 + |m|);
      EmptyStartNode(b, ps1, NO_EVENT, q, m, fuel);
      if nodes == 1 {
        CutHere(b, ps1, stack1, 0, fuel);
      } else {
        Opens(b, ps1, ps2, stack1, nodes - 1, fuel, m);
        EmptyEndNode(b, ps2, fuel);
        if nodes == 2 {
          CutHere(b, ps2, stack2, 0, fuel);
        } else {
          var stack3 := Closes(b, ps2, ps3, stack1, nodes - 2, fuel, m);
          DueAt(b, ps3, g, r);
          GoesRound(b, ps3, g, r, m, r, stack3, nodes - 3, fuel);
        }
      }
    }
  }

  lemma CutHere(b: seq<byte>, ps: ParserState, stack: seq<Frame>, nodes: nat, fuel: nat)
    requires !ps.scan.inAttrib && stack != [] && (nodes == 0 || NextNode(b, ps, NO_EVENT, fuel).Continue?)
    ensures Run(b, ps, NO_EVENT, stack, nodes, fuel) == Cut
  {
    hide NextNode;
  }

  lemma ReadyAt(b: seq<byte>, ps: ParserState, q: nat)
    requires !ps.scan.inAttrib && !ps.oneAttr && ps.scan.pos == q
    ensures Ready(b, ps, q)
  {
  }

  lemma DueAt(b: seq<byte>, ps: ParserState, g: nat, p: nat)
    requires !ps.scan.inAttrib && !ps.oneAttr && ps.scan.tagVal && ps.scan.save == Some(g)
    requires Whites(b, ps.scan.pos, p) && ContentByte(b, p)
    ensures Due(b, ps, g, p)
  {
  }

  // A reported start tag opens an element, and its end closes it.
  lemma Opens(b: seq<byte>, ps: ParserState, ps': ParserState, stack: seq<Frame>, nodes: nat, fuel: nat,
              name: seq<byte>)
    requires !ps.scan.inAttrib && !ps'.scan.inAttrib && stack != [] && nodes > 0
    requires NextNode(b, ps, NO_EVENT, fuel) == Return(ps', Event(ElementNode, name, None, false))
    ensures Run(b, ps, NO_EVENT, stack, nodes, fuel) ==
      Run(b, ps', NO_EVENT, stack + [Frame(name, [], [])], nodes - 1, fuel)
  {
    hide NextNode;
  }

  lemma Closes(b: seq<byte>, ps: ParserState, ps': ParserState, stack: seq<Frame>, nodes: nat, fuel: nat,
               name: seq<byte>)
    returns (after: seq<Frame>)
    requires !ps.scan.inAttrib && !ps'.scan.inAttrib && stack != [] && nodes > 0
    requires NextNode(b, ps, NO_EVENT, fuel) == Return(ps', Event(ElementNode, name, None, true))
    ensures after != []
    ensures Run(b, ps, NO_EVENT, stack + [Frame(name, [], [])], nodes, fuel) ==
      Run(b, ps', NO_EVENT, after, nodes - 1, fuel)
  {
    hide NextNode;
    var f := Frame(name, [], []);
    assert (stack + [f])[..|stack|] == stack;
    after := AddChild(stack, Closed(f));
  }

  // ---- the printer's own output

  // What is printed for a looping element.
  lemma PrintedIs(n: seq<byte>, m: seq<byte>, v: seq<byte>)
    ensures PrintedAll([Looping(n, m, v)])
      == (LESSTHAN + n)
         + (GREATERTHAN + (Escaped(LESSTHAN) + ((LESSTHAN + m) + (EMPTY_END + (Escaped(v) + PrintedEnd(n))))))
  {
    hide Escaped, PrintedEnd;
    var none: seq<Attribute>, kids := [], [Text(LESSTHAN), Element(m, [], []), Text(v)];
    assert n + PrintedAttrs(none) == n && m + PrintedAttrs(none) == m;
    assert Printed(Element(m, [], [])) == (LESSTHAN + m) + EMPTY_END;
    assert kids[1..] == [Element(m, [], []), Text(v)] && kids[1..][1..] == [Text(v)] && [Text(v)][1..] == [];
    assert PrintedAll([Text(v)]) == Escaped(v);
    assert PrintedAll(kids[1..]) == (LESSTHAN + m) + (EMPTY_END + Escaped(v));
    assert PrintedAll(kids) == Escaped(LESSTHAN) + ((LESSTHAN + m) + (EMPTY_END + Escaped(v)));
    var one := [Looping(n, m, v)];
    assert one[1..] == [] && PrintedAll(one) == Printed(one[0]);
  }

  lemma PrintedLoop(n: seq<byte>, m: seq<byte>, v: seq<byte>)
    requires IsName(n) && IsName(m)
    ensures var b := PrintedAll([Looping(n, m, v)]);
      var g := 1 + |n|;
      var e := g + 1 + |Escaped(LESSTHAN)| + 1 + |m| + |EMPTY_END|;
      && HasAt(b, 0, LESSTHAN + n) && At(b, g) == GREATER && LoopAt(b, g, m)
      && HasAt(b, e, Escaped(v)) && At(b, e + |Escaped(v)|) == LESS && At(b, e - 1) == LF
  {
    hide *;
    var b, g := PrintedAll([Looping(n, m, v)]), 1 + |n|;
    var q := g + 1 + |Escaped(LESSTHAN)|;
    Signs();
    PrintedIs(n, m, v);
    var r5 := Escaped(v) + PrintedEnd(n);
    var r4 := EMPTY_END + r5;
    var r3 := (LESSTHAN + m) + r4;
    var r2 := Escaped(LESSTHAN) + r3;
    WholeAt(b);
    HasAtSplit(b, 0, LESSTHAN + n, GREATERTHAN + r2);
    HasAtSplit(b, g, GREATERTHAN, r2);
    FirstByte(b, g);
    HasAtSplit(b, g + 1, Escaped(LESSTHAN), r3);
    HasAtSplit(b, q, LESSTHAN + m, r4);
    HasAtSplit(b, q + 1 + |m|, EMPTY_END, r5);
    FirstByte(b, q + 1 + |m|);
    HasAtSplit(b, q + 1 + |m| + 3, Escaped(v), PrintedEnd(n));
    EndLayout(b, q + 1 + |m| + 3 + |Escaped(v)|, n);
    PartsLoop(b, g, m);
  }

  lemma WholeAt(b: seq<byte>)
    ensures HasAt(b, 0, b)
  {
    assert b[0..|b|] == b;
  }

  lemma PartsLoop(b: seq<byte>, g: nat, m: seq<byte>)
    requires var q := g + 1 + |Escaped(LESSTHAN)|;
      IsName(m) && HasAt(b, g + 1, Escaped(LESSTHAN)) && HasAt(b, q, LESSTHAN + m) && HasAt(b, q + 1 + |m|, EMPTY_END)
    ensures LoopAt(b, g, m)
  {
    hide Escaped, IsName;
  }

  // However long it goes on, the parser does not finish the text printed for such an element,
  // whatever its names are and whatever its last text is, if that is not white space alone.
  lemma PrintedForEver(n: seq<byte>, m: seq<byte>, v: seq<byte>, ev: Event, nodes: nat, fuel: nat)
    requires IsName(n) && IsName(m) && XmlText(v) && !Blank(v)
    ensures ParseBuffer(PrintedAll([Looping(n, m, v)]), ev, nodes, fuel) == Cut
  {
    hide *;
    var b, g := PrintedAll([Looping(n, m, v)]), 1 + |n|;
    var e := g + 1 + |Escaped(LESSTHAN)| + 1 + |m| + |EMPTY_END|;
    PrintedLoop(n, m, v);
    LoopLayout(b, g, m);
    Signs();
    EscapedLess(b, g);
    TextIsSolid(b, e, v);
    var r := SkipWhite(b, e);
    SkipStops(b, e);
    TextByte(b, e, v, r);
    FromLineFeed(b, e, r);
    StartsLooping(b, g, n, m, r, ev, nodes, fuel);
  }

  lemma SkipStops(b: seq<byte>, e: nat)
    ensures !IsWhite(At(b, SkipWhite(b, e)))
  {
  }

  lemma EscapedLess(b: seq<byte>, g: nat)
    requires HasAt(b, g + 1, Escaped(LESSTHAN))
    ensures ContentByte(b, g + 1)
  {
    var s := Escaped(LESSTHAN);
    assert s == EscapedByte(LESS) + Escaped([]);
    HasAtIndex(b, g + 1, s);
    assert At(b, g + 1 + 0) == AMP;
  }

  lemma FromLineFeed(b: seq<byte>, e: nat, r: nat)
    requires e >= 1 && Whites(b, e, r) && At(b, e - 1) == LF
    ensures Whites(b, e - 1, r)
  {
  }

  lemma StartsLooping(b: seq<byte>, g: nat, n: seq<byte>, m: seq<byte>, r: nat, ev: Event, nodes: nat, fuel: nat)
    requires IsName(n) && g == 1 + |n| && HasAt(b, 0, LESSTHAN + n) && At(b, g) == GREATER && LoopAt(b, g, m)
    requires ContentByte(b, g + 1) && ContentByte(b, r) && Whites(b, g + 1 + |Escaped(LESSTHAN)| + 1 + |m| + 2, r)
    ensures ParseBuffer(b, ev, nodes, fuel) == Cut
  {
    hide *;
    LoopLayout(b, g, m);
    FirstStateIs(b);
    SomeBytes(b, g);
    var ps := ParserState(Scanner(g + 1, true, Some(g), false), false, false, n);
    if nodes > 0 && fuel >= 2 {
      StartNode(b, FIRST_STATE, ev, 0, n, fuel);
      OpenedIs(ParserState(FIRST_STATE.scan, true, false, n), g);
      OpensFirst(b, ps, ev, nodes, fuel, n);
      NoWhites(b, g + 1);
      DueAt(b, ps, g, g + 1);
      GoesRound(b, ps, g, g + 1, m, r, EMPTY_DOCUMENT + [Frame(n, [], [])], nodes - 1, fuel);
    } else {
      if nodes > 0 {
        StartCut(b, ev, n, fuel);
      }
      FirstCut(b, ev, nodes, fuel);
    }
  }

  lemma SomeBytes(b: seq<byte>, g: nat)
    requires At(b, g) == GREATER
    ensures b != []
  {
  }

  lemma FirstStateIs(b: seq<byte>)
    ensures Ready(b, FIRST_STATE, 0) && !FIRST_STATE.scan.inAttrib && FIRST_STATE.scan.pos == 0 && EMPTY_DOCUMENT != []
  {
  }

  lemma OpensFirst(b: seq<byte>, ps: ParserState, ev: Event, nodes: nat, fuel: nat, name: seq<byte>)
    requires !ps.scan.inAttrib && nodes > 0 && b != [] && !FIRST_STATE.scan.inAttrib
    requires NextNode(b, FIRST_STATE, ev, fuel) == Return(ps, Event(ElementNode, name, None, false))
    ensures EMPTY_DOCUMENT != []
    ensures ParseBuffer(b, ev, nodes, fuel) ==
      Run(b, ps, NO_EVENT, EMPTY_DOCUMENT + [Frame(name, [], [])], nodes - 1, fuel)
  {
    hide NextNode;
  }

  lemma StartCut(b: seq<byte>, ev: Event, n: seq<byte>, fuel: nat)
    requires IsName(n) && HasAt(b, 0, LESSTHAN + n) && At(b, 1 + |n|) == GREATER && fuel < 2
    ensures !FIRST_STATE.scan.inAttrib && NextNode(b, FIRST_STATE, ev, fuel).Continue?
  {
    hide *;
    FirstStateIs(b);
    SignFacts(b, 1 + |n|);
    NameStep(b, FIRST_STATE, ev, 0, n);
    if fuel == 0 {
      NoTurns(b, FIRST_STATE, ev);
    } else {
      TurnGoesOn(b, FIRST_STATE, ev, fuel);
      NoTurns(b, NodeStep(b, FIRST_STATE, ev).ps, NodeStep(b, FIRST_STATE, ev).ev);
    }
  }

  lemma FirstCut(b: seq<byte>, ev: Event, nodes: nat, fuel: nat)
    requires b != [] && !FIRST_STATE.scan.inAttrib && (nodes == 0 || NextNode(b, FIRST_STATE, ev, fuel).Continue?)
    ensures ParseBuffer(b, ev, nodes, fuel) == Cut
  {
    hide NextNode;
  }

  // In bytes, <a>&lt;<b/> and a line feed, x</a> and a line feed.
  const ENDLESS: seq<byte> :=
    [LESS, 97, GREATER, AMP, 108, 116, SEMI, LESS, 98, SLASH, GREATER, LF, 120, LESS, SLASH, 97, GREATER, LF]

  lemma LessIs()
    ensures Escaped(LESSTHAN) == [AMP, 108, 116, SEMI]
  {
    EscapedSnoc([], LESS);
    assert [] + [LESS] == LESSTHAN;
  }

  lemma EndlessExample(ev: Event, nodes: nat, fuel: nat)
    ensures PrintedAll([Looping([97], [98], [120])]) == ENDLESS
    ensures ParseBuffer(ENDLESS, ev, nodes, fuel) == Cut
  {
    hide IsName, XmlText, ParseBuffer, PrintedAll;
    LetterIsName(97);
    LetterIsName(98);
    LetterIsText(120);
    var v: seq<byte> := [120];
    assert !IsWhite(v[0]);
    PrintedForEver([97], [98], v, ev, nodes, fuel);
    PrintedIs([97], [98], v);
    LessIs();
    assert Escaped(v) == v by { EscapedSnoc([], 120); }
  }

  // ---- one call that goes on for ever

  // Behind the content < at g stand markup that is skipped up to e, the bytes />, and content at r.
  ghost predicate CallLoopAt(b: seq<byte>, g: nat, e: nat, r: nat) {
    var q := g + 1 + |Escaped(LESSTHAN)|;
    && HasAt(b, g + 1, Escaped(LESSTHAN)) && At(b, q) == LESS && !StartsWith(b, q, BEGIN_COMMENT)
    && SkipMarkup(b, q, false) == (e, false) && At(b, e) == SLASH && At(b, e + 1) == GREATER
    && Whites(b, e + 2, r) && ContentByte(b, r)
  }

  lemma SkippedTag(b: seq<byte>, g: nat, e: nat, r: nat)
    requires CallLoopAt(b, g, e, r)
    ensures var q := g + 1 + |Escaped(LESSTHAN)|;
      TokenAfterWhite(b, Scanner(q, false, Some(g), false)) == Took((Scanner(e + 2, true, Some(g), false), COMPLETETAG))
  {
    hide SkipMarkup, AtMarkup, Token, Escaped, ContentEnd;
    PlainTokenPair(b, e);
    var y := Scanner(g + 1 + |Escaped(LESSTHAN)|, false, Some(g), false);
    NoWhites(b, y.pos);
    TokenHere(b, y, y.pos);
  }

  lemma {:induction false} CallForEver(b: seq<byte>, ps: ParserState, ev: Event, g: nat, p: nat, e: nat, r: nat,
                                       fuel: nat)
    requires CallLoopAt(b, g, e, r) && Due(b, ps, g, p)
    ensures NextNode(b, ps, ev, fuel).Continue?
    decreases fuel
  {
    hide *;
    DueParts(b, ps, g, p);
    if fuel == 0 {
      NoTurns(b, ps, ev);
    } else {
      var y, z := Scanner(g + 1 + |Escaped(LESSTHAN)|, false, Some(g), false), Scanner(e + 2, true, Some(g), false);
      var ps1 := ParserState(z, true, false, COMPLETETAG);
      Signs();
      CallParts(b, g, e, r);
      TokenHere(b, ps.scan, p);
      ContentFromSave(b, ps.scan.(pos := p), LESSTHAN);
      SkippedTag(b, g, e, r);
      OnStartTag(b, ps, ev, y, z, COMPLETETAG);
      StepIs(b, ps, ev, y, LESSTHAN);
      TurnGoesOn(b, ps, ev, fuel);
      DueAt(b, ps1, g, r);
      CallForEver(b, ps1, Event(ElementNode, COMPLETETAG, None, false), g, r, e, r, fuel - 1);
    }
  }

  lemma CallParts(b: seq<byte>, g: nat, e: nat, r: nat)
    requires CallLoopAt(b, g, e, r)
    ensures var q := g + 1 + |Escaped(LESSTHAN)|;
      HasAt(b, g + 1, Escaped(LESSTHAN)) && At(b, q) == LESS && !StartsWith(b, q, BEGIN_COMMENT)
    ensures Whites(b, e + 2, r) && ContentByte(b, r) && COMPLETETAG != []
  {
    hide Escaped;
  }

  // In bytes, <a>&lt;<!x>/>x; the second call does not return.
  const ONE_CALL: seq<byte> := [LESS, 97, GREATER, AMP, 108, 116, SEMI, LESS, 33, 120, GREATER, SLASH, GREATER, 120]

  lemma OneCallExample(ev: Event, nodes: nat, fuel: nat)
    ensures var ps := ParserState(Scanner(3, true, Some(2), false), false, false, [97]);
      (fuel >= 2 ==> NextNode(ONE_CALL, FIRST_STATE, ev, fuel) == Return(ps, Event(ElementNode, [97], None, false)))
      && NextNode(ONE_CALL, ps, NO_EVENT, fuel).Continue?
    ensures ParseBuffer(ONE_CALL, ev, nodes, fuel) == Cut
  {
    hide *;
    var b, n := ONE_CALL, [97];
    var ps := ParserState(Scanner(3, true, Some(2), false), false, false, n);
    LetterIsName(97);
    OneCallLayout();
    FirstStateIs(b);
    SomeBytes(b, 2);
    NoWhites(b, 3);
    DueAt(b, ps, 2, 3);
    CallForEver(b, ps, NO_EVENT, 2, 3, 11, 13, fuel);
    if fuel >= 2 {
      StartNode(b, FIRST_STATE, ev, 0, n, fuel);
      OpenedIs(ParserState(FIRST_STATE.scan, true, false, n), 2);
      if nodes > 0 {
        OpensFirst(b, ps, ev, nodes, fuel, n);
        CutHere(b, ps, EMPTY_DOCUMENT + [Frame(n, [], [])], nodes - 1, fuel);
      } else {
        FirstCut(b, ev, nodes, fuel);
      }
    } else {
      StartCut(b, ev, n, fuel);
      FirstCut(b, ev, nodes, fuel);
    }
  }

  lemma OneCallLayout()
    ensures HasAt(ONE_CALL, 0, LESSTHAN + [97]) && At(ONE_CALL, 2) == GREATER && ContentByte(ONE_CALL, 3)
    ensures CallLoopAt(ONE_CALL, 2, 11, 13)
  {
    hide SkipMarkup, Escaped, AtMarkup;
    var b := ONE_CALL;
    LessIs();
    assert b[0..2] == LESSTHAN + [97] && b[3..7] == [AMP, 108, 116, SEMI];
    SkipsMarkup();
    NoDash(b);
  }

  lemma NoDash(b: seq<byte>)
    requires b == ONE_CALL
    ensures !StartsWith(b, 7, BEGIN_COMMENT) && !StartsWith(b, 7, BEGIN_PROCESSING)
  {
    assert At(b, 7 + 2) != BEGIN_COMMENT[2] && At(b, 7 + 1) != BEGIN_PROCESSING[1];
  }

  lemma SkipsMarkup()
    ensures SkipMarkup(ONE_CALL, 7, false) == (11, false)
  {
    hide SkipMarkup, StartsWith, ScanUntil;
    var b: seq<byte> := ONE_CALL;
    var s: seq<byte> := [LESS, 33, 120];
    assert b[7..10] == s;
    ScanPast(b, 7, s, GREATER);
    NoDash(b);
    assert StartsWith(b, 7, BEGIN_DOCTYPE) by { Doctype(b); }
    assert MarkupEnd(b, 7) == 11;
    assert SkipWhite(b, 11) == 11;
    NoMarkup(b, 11);
    SkipNothing(b, 11, false);
    SkipOnce(b, 7);
  }

  lemma Doctype(b: seq<byte>)
    requires b == ONE_CALL
    ensures StartsWith(b, 7, BEGIN_DOCTYPE)
  {
  }

  lemma SkipOnce(b: seq<byte>, p: nat)
    requires AtMarkup(b, p)
    ensures SkipMarkup(b, p, false) == SkipMarkup(b, SkipWhite(b, MarkupEnd(b, p)), false)
  {
    hide AtMarkup, MarkupEnd, SkipWhite;
  }
}
