// Documents with an XML declaration, comments and declarations before and behind them
// (src/upnpdom/Parser.cpp:574-588). Such markup is described by its bytes.
module Prologs {
  import opened Bytes
  import opened CharTables
  import opened Escape
  import opened Lexer
  import opened Reader
  import opened Tree
  import opened Tokens
  import opened Builder
  import opened RoundTrip

  // <!-- text -->, <? text ?> and <! text >, with the white space behind.
  datatype Kind = Comment | Instruction | Declaration
  datatype Piece = Piece(kind: Kind, text: seq<byte>, white: seq<byte>)

  function Opening(k: Kind): seq<byte> {
    match k
    case Comment => [60, 33, 45, 45]
    case Instruction => [60, 63]
    case Declaration => [60, 33]
  }

  function EndMark(k: Kind): seq<byte> {
    match k
    case Comment => [45, 45, 62]
    case Instruction => [63, 62]
    case Declaration => [62]
  }

  function Mark(k: Kind, text: seq<byte>): seq<byte> {
    Opening(k) + text + EndMark(k)
  }

  predicate OccursAt(s: seq<byte>, i: nat, key: seq<byte>) {
    i + |key| <= |s| && s[i..i + |key|] == key
  }

  // It is closed at its first end mark.
  predicate IsMark(k: Kind, text: seq<byte>) {
    && 0 !in text
    && (forall i: nat :: i < |Opening(k) + text| ==> !OccursAt(Mark(k, text), i, EndMark(k)))
    && (k == Declaration ==> !([45, 45] <= text))
  }

  // Any text without a > is closed at its first end mark.
  lemma PlainMark(k: Kind, text: seq<byte>)
    requires 0 !in text && 62 !in text && (k == Declaration ==> !([45, 45] <= text))
    ensures IsMark(k, text)
  {
    var s := Opening(k) + text;
    forall i: nat | i < |s| ensures !OccursAt(Mark(k, text), i, EndMark(k)) {
      if OccursAt(Mark(k, text), i, EndMark(k)) {
        EndsInGreater(k, text, i);
      }
    }
  }

  lemma EndsInGreater(k: Kind, text: seq<byte>, i: nat)
    requires OccursAt(Mark(k, text), i, EndMark(k)) && i < |Opening(k) + text|
    ensures 62 in text
  {
    var s, e := Opening(k) + text, EndMark(k);
    assert Mark(k, text)[i..i + |e|][|e| - 1] == 62;
    assert i + |e| - 1 < |s|;
    assert s[i + |e| - 1] == 62;
  }

  predicate IsSpace(s: seq<byte>) {
    forall i :: 0 <= i < |s| ==> s[i] == 9 || s[i] == 10 || s[i] == 12 || s[i] == 13 || s[i] == 32
  }

  predicate IsProlog(ps: seq<Piece>) {
    forall k :: 0 <= k < |ps| ==> IsMark(ps[k].kind, ps[k].text) && IsSpace(ps[k].white)
  }

  function PrologText(ps: seq<Piece>): seq<byte> {
    if ps == [] then [] else Mark(ps[0].kind, ps[0].text) + (ps[0].white + PrologText(ps[1..]))
  }

  // ---- one piece

  lemma OccursThere(b: seq<byte>, p: nat, s: seq<byte>, i: nat, key: seq<byte>)
    requires HasAt(b, p, s) && i + |key| <= |s|
    ensures StartsWith(b, p + i, key) <==> OccursAt(s, i, key)
  {
    HasAtIndex(b, p, s);
    forall j | 0 <= j < |key| ensures At(b, p + i + j) == key[j] <==> s[i..i + |key|][j] == key[j] {
      assert At(b, p + (i + j)) == s[i + j];
    }
  }

  // Scanning stops at the first end mark.
  lemma {:induction false} ScanFirst(b: seq<byte>, p: nat, s: seq<byte>, key: seq<byte>, i: nat)
    requires HasAt(b, p, s + key) && 0 !in s && i <= |s| && key != []
    requires forall j: nat :: j < |s| ==> !OccursAt(s + key, j, key)
    ensures ScanUntil(b, p + i, key) == p + |s|
    decreases |s| - i
  {
    hide StartsWith;
    OccursThere(b, p, s + key, i, key);
    if i < |s| {
      HasAtIndex(b, p, s + key);
      assert At(b, p + i) == (s + key)[i] == s[i];
      ScanFirst(b, p, s, key, i + 1);
    } else {
      assert OccursAt(s + key, i, key);
    }
  }

  // A mark is skipped as a whole.
  lemma MarkSkipped(b: seq<byte>, p: nat, k: Kind, text: seq<byte>)
    requires IsMark(k, text) && HasAt(b, p, Mark(k, text))
    ensures AtMarkup(b, p) && MarkupEnd(b, p) == p + |Mark(k, text)| && At(b, p) == LESS
  {
    hide ScanUntil, HasAt;
    var s := Opening(k) + text;
    NoZero(k, text);
    HasAtIndex(b, p, Mark(k, text));
    ScanFirst(b, p, s, EndMark(k), 0);
    KindIs(b, p, k, text);
  }

  lemma NoZero(k: Kind, text: seq<byte>)
    requires 0 !in text
    ensures 0 !in Opening(k) + text && EndMark(k) != []
    ensures Mark(k, text) == (Opening(k) + text) + EndMark(k)
  {
  }

  // Which kind of markup stands there.
  lemma KindIs(b: seq<byte>, p: nat, k: Kind, text: seq<byte>)
    requires IsMark(k, text) && HasAt(b, p, Mark(k, text))
    ensures At(b, p) == LESS
    ensures StartsWith(b, p, BEGIN_COMMENT) <==> k == Comment
    ensures StartsWith(b, p, BEGIN_PROCESSING) <==> k == Instruction
    ensures k == Declaration ==> StartsWith(b, p, BEGIN_DOCTYPE)
    ensures EndMark(k) == (match k case Comment => END_COMMENT case Instruction => END_PROCESSING
                           case Declaration => GREATERTHAN)
  {
    var s := Mark(k, text);
    HasAtIndex(b, p, s);
    assert At(b, p + 0) == s[0] == 60 && At(b, p + 1) == s[1];
    match k
    case Comment =>
      assert At(b, p + 2) == s[2] && At(b, p + 3) == s[3];
      assert At(b, p + 1) != BEGIN_PROCESSING[1];
    case Instruction =>
      assert At(b, p + 1) == 63;
      assert At(b, p + 1) != BEGIN_COMMENT[1];
    case Declaration =>
      assert At(b, p + 1) == 33 && At(b, p + 1) != BEGIN_PROCESSING[1];
      NoDashes(text, s);
      assert At(b, p + 2) == s[2] && (|s| > 3 ==> At(b, p + 3) == s[3]);
      assert At(b, p + 2) != BEGIN_COMMENT[2] || At(b, p + 3) != BEGIN_COMMENT[3];
  }

  lemma NoDashes(text: seq<byte>, s: seq<byte>)
    requires !([45, 45] <= text) && s == Mark(Declaration, text)
    ensures |s| > 2 && (s[2] != 45 || (|s| > 3 && s[3] != 45))
  {
    if |text| > 1 {
      assert s[2] == text[0] && s[3] == text[1];
      assert text[..2] == [text[0], text[1]];
    }
  }

  lemma SpaceIsWhite(b: seq<byte>, p: nat, white: seq<byte>)
    requires IsSpace(white) && HasAt(b, p, white)
    ensures Whites(b, p, p + |white|)
  {
    HasAtIndex(b, p, white);
    forall i | p <= i < p + |white| ensures IsWhite(At(b, i)) {
      assert At(b, p + (i - p)) == white[i - p];
    }
  }

  // All pieces are skipped, and content is not due behind them.
  lemma {:induction false} PrologSkipped(b: seq<byte>, p: nat, ps: seq<Piece>, tagVal: bool)
    requires IsProlog(ps) && HasAt(b, p, PrologText(ps))
    requires var q := p + |PrologText(ps)|; !IsWhite(At(b, q)) && !AtMarkup(b, q)
    ensures SkipMarkup(b, p, tagVal) == (p + |PrologText(ps)|, if ps == [] then tagVal else false)
    decreases |ps|
  {
    hide AtMarkup, MarkupEnd, IsWhite, HasAt, IsMark, IsSpace, Mark;
    if ps != [] {
      var Piece(k, text, white) := ps[0];
      var rest := PrologText(ps[1..]);
      HasAtSplit(b, p, Mark(k, text), white + rest);
      HasAtSplit(b, p + |Mark(k, text)|, white, rest);
      MarkSkipped(b, p, k, text);
      var e := p + |Mark(k, text)|;
      SpaceIsWhite(b, e, white);
      NextSolid(b, e + |white|, ps[1..]);
      SkipWhites(b, e, e + |white|);
      PrologSkipped(b, e + |white|, ps[1..], false);
    }
  }

  // What begins the other pieces, or stands behind them, is not white.
  lemma NextSolid(b: seq<byte>, p: nat, ps: seq<Piece>)
    requires IsProlog(ps) && HasAt(b, p, PrologText(ps)) && !IsWhite(At(b, p + |PrologText(ps)|))
    ensures !IsWhite(At(b, p))
  {
    hide HasAt, IsMark;
    if ps != [] {
      HasAtSplit(b, p, Mark(ps[0].kind, ps[0].text), ps[0].white + PrologText(ps[1..]));
      KindIs(b, p, ps[0].kind, ps[0].text);
    }
  }

  // Before a tag they do not matter to a token.
  lemma TokenBehind(b: seq<byte>, x: Scanner, ps: seq<Piece>)
    requires !x.inAttrib && !x.tagVal && IsProlog(ps) && HasAt(b, x.pos, PrologText(ps))
    requires var q := x.pos + |PrologText(ps)|; q < |b| && At(b, q) == LESS && At(b, q + 1) != 33 && At(b, q + 1) != 63
    ensures NextToken(b, x) == NextToken(b, x.(pos := x.pos + |PrologText(ps)|))
    ensures !IsWhite(At(b, x.pos)) && At(b, x.pos) != 0
  {
    hide PickToken, TakePicked, SkipMarkup, HasAt, IsProlog, AtMarkup;
    var q := x.pos + |PrologText(ps)|;
    NoMarkup(b, q);
    LessIsSolid(b, q);
    PrologSkipped(b, x.pos, ps, false);
    SkipNothing(b, q, false);
    NextSolid(b, x.pos, ps);
    if ps != [] {
      FirstMark(b, x.pos, ps);
    }
  }

  lemma LessIsSolid(b: seq<byte>, q: nat)
    ensures At(b, q) == LESS ==> !IsWhite(At(b, q)) && At(b, q) != 0
  {
  }

  lemma FirstMark(b: seq<byte>, p: nat, ps: seq<Piece>)
    requires ps != [] && IsProlog(ps) && HasAt(b, p, PrologText(ps))
    ensures At(b, p) == LESS
  {
    hide HasAt, IsMark;
    HasAtSplit(b, p, Mark(ps[0].kind, ps[0].text), ps[0].white + PrologText(ps[1..]));
    KindIs(b, p, ps[0].kind, ps[0].text);
  }

  // ---- a document behind them

  // White space and pieces in front of the document.
  function Front(white: seq<byte>, ps: seq<Piece>): seq<byte> {
    white + PrologText(ps)
  }

  function StateAt(q: nat): ParserState {
    FIRST_STATE.(scan := FIRST_STATE.scan.(pos := q))
  }

  // The first call from the beginning is one from behind them.
  lemma FirstTokenSame(b: seq<byte>, white: seq<byte>, ps: seq<Piece>)
    requires IsSpace(white) && IsProlog(ps) && HasAt(b, 0, Front(white, ps))
    requires var q := |Front(white, ps)|; q < |b| && At(b, q) == LESS && At(b, q + 1) != 33 && At(b, q + 1) != 63
    ensures TokenAfterWhite(b, FIRST_STATE.scan) == TokenAfterWhite(b, StateAt(|Front(white, ps)|).scan)
    ensures At(b, 0) != 0
  {
    hide *;
    var x, q := FIRST_STATE.scan, |Front(white, ps)|;
    var y, z := x.(pos := |white|), x.(pos := q);
    FrontParts(b, white, ps);
    SpaceIsWhite(b, 0, white);
    TokenBehind(b, y, ps);
    TokenHere(b, x, |white|);
    LessIsSolid(b, q);
    NoWhites(b, q);
    TokenHere(b, z, q);
    NotAtEnd(b, 0, |white|);
  }

  lemma FrontParts(b: seq<byte>, white: seq<byte>, ps: seq<Piece>)
    requires HasAt(b, 0, Front(white, ps))
    ensures HasAt(b, 0, white) && HasAt(b, |white|, PrologText(ps)) && |Front(white, ps)| == |white| + |PrologText(ps)|
    ensures FIRST_STATE.scan.pos == 0 && !FIRST_STATE.scan.inAttrib && !FIRST_STATE.scan.tagVal
    ensures StateAt(|Front(white, ps)|).scan == FIRST_STATE.scan.(pos := |Front(white, ps)|)
  {
    hide PrologText;
    HasAtSplit(b, 0, white, PrologText(ps));
  }

  lemma FirstCallSame(b: seq<byte>, white: seq<byte>, ps: seq<Piece>, ev: Event, fuel: nat)
    requires IsSpace(white) && IsProlog(ps) && HasAt(b, 0, Front(white, ps)) && fuel >= 1
    requires var q := |Front(white, ps)|; q < |b| && At(b, q) == LESS && At(b, q + 1) != 33 && At(b, q + 1) != 63
    ensures !FIRST_STATE.scan.inAttrib && !StateAt(|Front(white, ps)|).scan.inAttrib
    ensures NextNode(b, FIRST_STATE, ev, fuel) == NextNode(b, StateAt(|Front(white, ps)|), ev, fuel)
  {
    hide TokenAfterWhite, TagName, AttributeValue, HasAt, IsProlog, IsSpace, Front;
    FirstTokenSame(b, white, ps);
    assert NodeStep(b, FIRST_STATE, ev) == NodeStep(b, StateAt(|Front(white, ps)|), ev);
  }

  // Pieces at the end of the buffer end the parse.
  lemma EpilogEnds(b: seq<byte>, ps: ParserState, e: nat, after: seq<Piece>, stack: seq<Frame>, nodes: nat, fuel: nat)
    requires Ready(b, ps, e) && IsProlog(after) && HasAt(b, e, PrologText(after)) && |b| == e + |PrologText(after)|
    requires stack != [] && nodes >= 1 && fuel >= 1
    ensures !ps.scan.inAttrib && Run(b, ps, NO_EVENT, stack, nodes, fuel) == Done(stack)
  {
    hide *;
    ReadyParts(b, ps, e, 0);
    if after == [] {
      NoPieces(after);
      EndOfInput(b, ps, stack, nodes, fuel);
    } else {
      FirstMark(b, e, after);
      LessIsSolid(b, e);
      EndIsSolid(b);
      PrologSkipped(b, e, after, ps.scan.tagVal);
      NotAtEnd(b, ps.scan.pos, e);
      TokenHere(b, ps.scan, e);
      EndToken(b, ps.scan.(pos := e));
      var y := ps.scan.(pos := |b|, tagVal := false);
      StepIs(b, ps, NO_EVENT, y, []);
      EndStep(b, ps, y);
      TurnGoesOn(b, ps, NO_EVENT, fuel);
      AtEndReturns(b, ps.(scan := y), fuel - 1);
      EndRun(b, ps, ps.(scan := y), stack, nodes, fuel);
    }
  }

  lemma NoPieces(ps: seq<Piece>)
    requires ps == []
    ensures PrologText(ps) == []
  {
  }

  lemma EndIsSolid(b: seq<byte>)
    ensures !IsWhite(At(b, |b|)) && !AtMarkup(b, |b|)
  {
    NoMarkup(b, |b|);
  }

  lemma EndToken(b: seq<byte>, x: Scanner)
    requires !x.inAttrib && At(b, x.pos) == LESS && SkipMarkup(b, x.pos, x.tagVal) == (|b|, false)
    ensures NextToken(b, x) == Took((x.(pos := |b|, tagVal := false), []))
  {
    hide SkipMarkup, NameEnd, IsNameCh;
    assert At(b, |b|) == 0;
    PunctuationAt(b, |b|);
  }

  lemma EndStep(b: seq<byte>, ps: ParserState, y: Scanner)
    requires !y.inAttrib
    ensures OnToken(b, ps, NO_EVENT, y, []) == Continue(ps.(scan := y), NO_EVENT)
  {
    hide TagName, AttributeValue;
  }

  lemma AtEndReturns(b: seq<byte>, ps: ParserState, fuel: nat)
    requires !ps.scan.inAttrib && ps.scan.pos == |b|
    ensures NextNode(b, ps, NO_EVENT, fuel) == Return(ps, NO_EVENT)
  {
  }

  lemma EndRun(b: seq<byte>, ps: ParserState, end: ParserState, stack: seq<Frame>, nodes: nat, fuel: nat)
    requires !ps.scan.inAttrib && stack != [] && nodes >= 1
    requires NextNode(b, ps, NO_EVENT, fuel) == Return(end, NO_EVENT)
    ensures Run(b, ps, NO_EVENT, stack, nodes, fuel) == Done(stack)
  {
    hide NextNode;
  }

  // Any markup of these kinds may stand before a printed document and behind it, with white space: the
  // same document comes back, whatever the in-out parameters hold at first.
  lemma PrologParse(white: seq<byte>, ps: seq<Piece>, doc: seq<Node>, after: seq<Piece>, ev: Event, nodes: nat,
                    fuel: nat)
    requires IsSpace(white) && IsProlog(ps) && IsProlog(after)
    requires doc != [] && forall i :: 0 <= i < |doc| ==> doc[i].Element? && Readable(doc[i])
    requires nodes > |PrintedAll(doc)| && fuel >= 3
    ensures ParseBuffer(white + PrologText(ps) + PrintedAll(doc) + PrologText(after), ev, nodes, fuel)
         == Done([Frame(DOCUMENT_NAME, [], doc)])
  {
    hide *;
    var front, text := Front(white, ps), PrintedAll(doc);
    var b, q := front + text + PrologText(after), |front|;
    FrontIs(white, ps);
    Three(front, text, PrologText(after));
    AllParts(b, q, doc);
    ReadableStart(b, q, doc[0]);
    NonEmptyElement(doc[0]);
    InBuffer(b, q);
    FirstCallSame(b, white, ps, ev, fuel);
    StartsThere(b, q, doc);
    ElementParts(doc[0]);
    FirstCall(b, StateAt(q), ev, q, doc[0], fuel - 1);
    FrontRun(b, q, ev, nodes, fuel);
    var n, ps' := ParseChildren(b, StateAt(q), q, doc, EMPTY_DOCUMENT, fuel);
    StepsRun(b, StateAt(q), EMPTY_DOCUMENT, n, nodes - n, fuel);
    DocumentFrame(doc);
    EpilogEnds(b, ps', q + |text|, after, [Frame(DOCUMENT_NAME, [], doc)], nodes - n, fuel);
  }

  lemma FrontIs(white: seq<byte>, ps: seq<Piece>)
    ensures Front(white, ps) == white + PrologText(ps)
  {
  }

  lemma Three(a: seq<byte>, b: seq<byte>, c: seq<byte>)
    ensures var s := a + b + c;
      HasAt(s, 0, a) && HasAt(s, |a|, b) && HasAt(s, |a| + |b|, c) && |s| == |a| + |b| + |c|
  {
    var s := a + b + c;
    assert s[0..|a|] == a && s[|a|..|a| + |b|] == b && s[|a| + |b|..|s|] == c;
  }

  lemma InBuffer(b: seq<byte>, q: nat)
    requires At(b, q) == LESS
    ensures q < |b| && b != []
  {
  }

  lemma StartsThere(b: seq<byte>, q: nat, doc: seq<Node>)
    requires forall i :: 0 <= i < |doc| ==> doc[i].Element? && Readable(doc[i])
    ensures Ready(b, StateAt(q), q) && Before(b, StateAt(q), q) && EMPTY_DOCUMENT != []
    ensures ReadableChildren(doc) && TextPlace(StateAt(q), doc, q)
  {
    hide Readable;
  }

  lemma FrontRun(b: seq<byte>, q: nat, ev: Event, nodes: nat, fuel: nat)
    requires b != [] && nodes > 0 && !FIRST_STATE.scan.inAttrib && !StateAt(q).scan.inAttrib && EMPTY_DOCUMENT != []
    requires NextNode(b, FIRST_STATE, ev, fuel) == NextNode(b, StateAt(q), ev, fuel)
    requires NextNode(b, StateAt(q), ev, fuel) == NextNode(b, StateAt(q), NO_EVENT, fuel)
    ensures ParseBuffer(b, ev, nodes, fuel) == Run(b, StateAt(q), NO_EVENT, EMPTY_DOCUMENT, nodes, fuel)
  {
    hide NextNode, Apply;
  }
}
