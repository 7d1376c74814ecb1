// The Parser class (src/upnpdom/Parser.cpp:267-936): its methods move pointers and fill a
// token buffer step by step, and each is proved to compute the functions of Lexer and Reader.
module Parser {
  import opened Bytes
  import opened Utf8
  import opened CharTables
  import opened Escape
  import opened Lexer
  import opened Reader

  // How a method of the class ends: well, with the error return, or where C leaves undefined what
  // comes next.
  datatype Verdict = Fine | Failing | Faulting

  function Taking<T>(v: Verdict, t: T): Taken<T> {
    match v
    case Fine => Took(t)
    case Failing => Refused
    case Faulting => Wild
  }

  function Ending(v: Verdict, more: bool, ps: ParserState, ev: Event): Outcome {
    match v
    case Fine => if more then Continue(ps, ev) else Return(ps, ev)
    case Failing => Error
    case Faulting => Fault
  }

  class XmlParser {
    const buff: seq<byte>
    var currPtr: nat
    var tagVal: bool
    var savePtr: Option<nat>
    var inAttrib: bool
    var attrFound: bool
    var atLeastOneAttrFound: bool
    var lastElem: seq<byte>
    var tokBuf: seq<byte>

    // The in-out parameters of getNextNode.
    var nodeType: NodeKind
    var nodeName: seq<byte>
    var nodeValue: Option<seq<byte>>
    var isEnd: bool

    // SavePtr is not set; the parameters are first, whatever the caller's variables hold.
    constructor (s: seq<byte>, first: Event)
      ensures buff == s
      ensures State() == ParserState(Scanner(0, false, None, false), true, false, [])
      ensures CurrentEvent() == first
    {
      buff := s;
      currPtr := 0;
      tagVal := false;
      savePtr := None;
      inAttrib := false;
      attrFound := true;
      atLeastOneAttrFound := false;
      lastElem := [];
      tokBuf := [];
      nodeType := first.kind;
      nodeName := first.name;
      nodeValue := first.value;
      isEnd := first.isEnd;
    }

    ghost function Scan(): Scanner
      reads this
    {
      Scanner(currPtr, tagVal, savePtr, inAttrib)
    }

    ghost function State(): ParserState
      reads this
    {
      ParserState(Scan(), attrFound, atLeastOneAttrFound, lastElem)
    }

    function CurrentEvent(): Event
      reads this
    {
      Event(nodeType, nodeName, nodeValue, isEnd)
    }

    // The caller clears the parameters before the next call.
    method ClearEvent()
      modifies this
      ensures CurrentEvent() == NO_EVENT && State() == old(State())
    {
      nodeType := InvalidNode;
      nodeName := [];
      nodeValue := None;
      isEnd := false;
    }

    method FindNextMatch(p: nat, key: seq<byte>) returns (q: nat)
      ensures q == ScanUntil(buff, p, key)
    {
      q := p;
      while At(buff, q) != 0 && !StartsWith(buff, q, key)
        invariant p <= q && ScanUntil(buff, q, key) == ScanUntil(buff, p, key)
        decreases |buff| - q
      {
        q := q + 1;
      }
    }

    method SkipUntilString(p: nat, key: seq<byte>) returns (q: nat)
      ensures q == ScanUntil(buff, p, key) + |key|
    {
      q := FindNextMatch(p, key);
      q := q + |key|;
    }

    method SkipString(p: nat) returns (q: nat)
      ensures q == SkipWhite(buff, p)
    {
      q := p;
      while IsWhite(At(buff, q))
        invariant p <= q && SkipWhite(buff, q) == SkipWhite(buff, p)
        decreases |buff| - q
      {
        q := q + 1;
      }
    }

    method ReadContent(p: nat) returns (q: nat)
      ensures q == ContentEnd(buff, p)
    {
      q := p;
      var reading := true;
      while reading
        invariant p <= q
        invariant if reading then ContentEnd(buff, q) == ContentEnd(buff, p) else q == ContentEnd(buff, p)
        decreases reading, |buff| - q
      {
        q := FindNextMatch(q, LESSTHAN);
        if StartsWith(buff, q, BEGIN_COMMENT) {
          assert At(buff, q + 0) == BEGIN_COMMENT[0];
          q := SkipUntilString(q, END_COMMENT);
          if At(buff, q) == 0 {
            reading := false;
          }
        } else {
          reading := false;
        }
      }
    }

    method ReadName(p: nat) returns (q: nat)
      ensures q == NameEnd(buff, p)
    {
      hide IsNameCh, ToInt;
      q := p;
      var more := IsNameChar(ToInt(buff, q).0, true);
      while more
        invariant p <= q
        invariant NameEnd(buff, q) == NameEnd(buff, p)
        invariant more <==> NameCharAt(buff, q, true)
        decreases |buff| - q
      {
        NameCharBounds(ToInt(buff, q).0);
        q := q + ToInt(buff, q).1;
        more := IsNameChar(ToInt(buff, q).0, true);
      }
    }

    // Unescapes len bytes at p into the token buffer.
    method CopyToken(p: nat, len: nat) returns (ok: bool)
      requires tokBuf == []
      modifies this`tokBuf
      ensures ok <==> Token(buff, p, len).Some?
      ensures ok ==> Some(tokBuf) == Token(buff, p, len)
    {
      hide *;
      TokenIs(buff, p, len);
      if len == 0 {
        return false;
      }
      var psrc, pend := p, p + len;
      ghost var all := Unescaped(buff, p, pend);
      NothingYet(all);
      while psrc < pend
        invariant Unfinished(all, Unescaped(buff, psrc, pend), tokBuf)
        decreases pend - psrc
      {
        UnescapedStep(buff, psrc, pend, all, tokBuf);
        var c, cl := GetChar(buff, psrc);
        if c <= 0 {
          return false;
        }
        if cl == 1 {
          tokBuf := tokBuf + [c];
        } else {
          tokBuf := tokBuf + ToUtf8(c);
        }
        psrc := psrc + cl;
      }
      AtEnd(buff, psrc, pend, all, tokBuf);
      return psrc <= pend;
    }

    // With got read already, the rest completes it.
    ghost predicate Unfinished(all: Option<seq<byte>>, rest: Option<seq<byte>>, got: seq<byte>) {
      (all.Some? <==> rest.Some?) && (all.Some? ==> all.value == got + rest.value)
    }

    lemma TokenIs(b: seq<byte>, p: nat, len: nat)
      ensures Token(b, p, len) == if len == 0 then None else Unescaped(b, p, p + len)
    {
    }

    lemma NothingYet(all: Option<seq<byte>>)
      ensures Unfinished(all, all, [])
    {
      assert all.Some? ==> [] + all.value == all.value;
    }

    lemma AtEnd(b: seq<byte>, p: nat, end: nat, all: Option<seq<byte>>, got: seq<byte>)
      requires p >= end && Unfinished(all, Unescaped(b, p, end), got)
      ensures if p == end then all == Some(got) else all.None?
    {
      assert got + [] == got;
    }

    lemma UnescapedStep(b: seq<byte>, p: nat, end: nat, all: Option<seq<byte>>, got: seq<byte>)
      requires p < end && Unfinished(all, Unescaped(b, p, end), got)
      ensures var (c, len) := CharAt(b, p);
        if c <= 0 then all.None?
        else
          len > 0 && 0 <= c <= 0x7FFF_FFFF && (len == 1 ==> c < 256)
          && Unfinished(all, Unescaped(b, p + len, end), got + if len == 1 then [c] else ToUtf8(c))
    {
      hide CharAt, ToUtf8;
      var (c, len) := CharAt(b, p);
      if c > 0 && all.Some? {
        var piece, tail := if len == 1 then [c] else ToUtf8(c), Unescaped(b, p + len, end).value;
        assert got + (piece + tail) == (got + piece) + tail;
      }
    }

    // Copies the token found at currPtr and moves past it; the last part of getNextToken.
    method FinishToken(len: nat) returns (v: Verdict)
      requires tokBuf == []
      modifies this`currPtr, this`tokBuf
      ensures TakePicked(buff, Pick(len, old(currPtr), tagVal, savePtr), inAttrib) == Taking(v, (Scan(), tokBuf))
    {
      hide Token;
      if len > 0 {
        var ok := CopyToken(currPtr, len);
        if !ok {
          return Failing;
        }
      } else if At(buff, currPtr) == 0 {
        return Fine;
      } else {
        tokBuf := tokBuf + [At(buff, currPtr)];
        return Failing;
      }
      currPtr := currPtr + len;
      return Fine;
    }

    // Skips comments, processing instructions and declarations, unless one of them does not end.
    method SkipMarkupHere() returns (inside: bool)
      requires currPtr <= |buff|
      modifies this`currPtr, this`tagVal
      ensures inside <==> SkipMarkup(buff, old(currPtr), old(tagVal)).0 <= |buff|
      ensures inside ==> (currPtr, tagVal) == SkipMarkup(buff, old(currPtr), old(tagVal))
    {
      hide StartsWith, SkipWhite, ScanUntil;
      while StartsWith(buff, currPtr, BEGIN_COMMENT) || StartsWith(buff, currPtr, BEGIN_PROCESSING)
         || StartsWith(buff, currPtr, BEGIN_DOCTYPE)
        invariant SkipMarkup(buff, currPtr, tagVal) == SkipMarkup(buff, old(currPtr), old(tagVal))
        invariant currPtr <= |buff|
        decreases |buff| - currPtr
      {
        MarkupStartsWithLess(buff, currPtr);
        ghost var end := MarkupEnd(buff, currPtr);
        if StartsWith(buff, currPtr, BEGIN_COMMENT) {
          currPtr := SkipUntilString(currPtr, END_COMMENT);
        } else if StartsWith(buff, currPtr, BEGIN_PROCESSING) {
          currPtr := SkipUntilString(currPtr, END_PROCESSING);
        } else {
          currPtr := SkipUntilString(currPtr, GREATERTHAN);
        }
        assert currPtr == end;
        if currPtr > |buff| {
          return false;
        }
        currPtr := SkipString(currPtr);
        tagVal := false;
      }
      return true;
    }

    // Leaves the content of an element as the token to copy.
    method StartContent() returns (v: Verdict, len: nat)
      modifies this`currPtr, this`tagVal
      ensures ContentPick(buff, savePtr) == Taking(v, Pick(len, currPtr, tagVal, savePtr))
    {
      hide ContentEnd;
      tagVal := false;
      if savePtr.None? {
        return Faulting, 0;
      }
      currPtr := savePtr.value + 1;
      var end := ReadContent(currPtr);
      return if end > |buff| then Faulting else Fine, end - currPtr;
    }

    // The checks that decide which token stands at currPtr.
    method ChooseToken() returns (v: Verdict, len: nat)
      modifies this`currPtr, this`tagVal, this`savePtr
      ensures PickToken(buff, old(currPtr), old(tagVal), old(savePtr))
           == Taking(v, Pick(len, currPtr, tagVal, savePtr))
    {
      hide ToInt, ContentPick, NameEnd, IsNameCh;
      v, len := Fine, 0;
      if At(buff, currPtr) == LESS {
        var temp := ToInt(buff, currPtr + 1).0;
        var begins := IsNameChar(temp, false);
        if temp == SLASH {
          len := 2;
        } else if begins {
          len := 1;
        } else {
          return Failing, 0;
        }
        tagVal := false;
        NotName(LESS, currPtr);
      }
      if At(buff, currPtr) == QUOTE && !tagVal {
        len := 1;
        NotName(QUOTE, currPtr);
      }
      if At(buff, currPtr) == EQUAL && !tagVal {
        len := 1;
        NotName(EQUAL, currPtr);
      }
      var named := IsNameChar(ToInt(buff, currPtr).0, false);
      if At(buff, currPtr) == SLASH {
        if At(buff, currPtr + 1) == GREATER {
          len := 2;
          tagVal := true;
        } else if tagVal {
          v, len := StartContent();
        }
      } else if At(buff, currPtr) == GREATER {
        len := 1;
        savePtr := Some(currPtr);
        tagVal := true;
      } else if tagVal {
        v, len := StartContent();
      } else if named {
        var end := ReadName(currPtr + ToInt(buff, currPtr).1);
        len := end - currPtr;
      }
    }

    // Punctuation does not start a name.
    lemma NotName(c: byte, p: nat)
      requires At(buff, p) == c && (c == LESS || c == QUOTE || c == EQUAL)
      ensures !NameCharAt(buff, p, false)
    {
      PunctuationIsNoName(c);
    }

    method GetNextToken() returns (v: Verdict)
      modifies this`currPtr, this`tagVal, this`savePtr, this`tokBuf
      ensures NextToken(buff, old(Scan())) == Taking(v, (Scan(), tokBuf))
    {
      hide Token, PickToken, ScanUntil, SkipMarkup, TakePicked;
      tokBuf := [];
      if At(buff, currPtr) == 0 {
        return Fine;
      }
      if inAttrib && At(buff, currPtr) != QUOTE {
        var end := FindNextMatch(currPtr, [QUOTE]);
        var len := end - currPtr;
        var ok := CopyToken(currPtr, len);
        if !ok {
          return Failing;
        }
        currPtr := currPtr + len;
        return Fine;
      }
      if IsWhite(At(buff, currPtr)) {
        tokBuf := [SPACE];
        currPtr := currPtr + 1;
        return Fine;
      }
      var inside := SkipMarkupHere();
      if !inside {
        return Faulting;
      }
      var len;
      v, len := ChooseToken();
      if v.Fine? {
        v := FinishToken(len);
      }
    }

    method IgnoreWhiteSpaces()
      requires !inAttrib
      modifies this`currPtr, this`tagVal, this`savePtr, this`tokBuf
      ensures Scan() == IgnoreWhite(buff, old(Scan()))
    {
      while IsWhite(At(buff, currPtr))
        invariant IgnoreWhite(buff, Scan()) == IgnoreWhite(buff, old(Scan()))
        decreases |buff| - currPtr
      {
        var v := GetNextToken();
      }
    }

    // The rest of an attribute after its name.
    method GetAttributeValue() returns (v: Verdict)
      requires !inAttrib
      modifies this`currPtr, this`tagVal, this`savePtr, this`tokBuf, this`inAttrib, this`nodeValue
      ensures v.Fine? ==> nodeValue.Some?
      ensures AttributeValue(buff, old(Scan())) == Taking(v, (Scan(), if nodeValue.Some? then nodeValue.value else []))
    {
      hide NextToken, SkipWhite;
      IgnoreWhiteSpaces();
      v := GetNextToken();
      if !v.Fine? { return; }
      IgnoreWhiteSpaces();
      v := GetNextToken();
      if !v.Fine? { return; }
      inAttrib := true;
      v := GetNextToken();
      if !v.Fine? { return; }
      inAttrib := false;
      if tokBuf == [] { return Failing; }
      nodeValue := Some(tokBuf);
      v := GetNextToken();
    }

    // Reads a tag name into nodeName.
    method GetTagName() returns (v: Verdict)
      requires !inAttrib
      modifies this`currPtr, this`tagVal, this`savePtr, this`tokBuf, this`nodeName
      ensures TagName(buff, old(Scan())) == Taking(v, (Scan(), nodeName))
      ensures v.Fine? ==> tokBuf == nodeName
    {
      hide NextToken, SkipWhite;
      IgnoreWhiteSpaces();
      v := GetNextToken();
      if !v.Fine? { return; }
      if tokBuf == [] { return Failing; }
      nodeName := tokBuf;
    }

    // Puts the last n bytes back; no pointer before the buffer is one C knows.
    method RewindCurrentPtr(n: nat) returns (v: Verdict)
      modifies this`currPtr
      ensures if n <= old(currPtr) then v == Fine && currPtr == old(currPtr) - n else v == Faulting
    {
      if n > currPtr {
        return Faulting;
      }
      currPtr := currPtr - n;
      return Fine;
    }

    // What the loop does with the token in tokBuf.
    method HandleToken() returns (v: Verdict, more: bool)
      requires !inAttrib
      modifies this
      ensures OnToken(buff, old(State()), old(CurrentEvent()), old(Scan()), old(tokBuf))
           == Ending(v, more, State(), CurrentEvent())
    {
      hide TagName, AttributeValue;
      v, more := Fine, false;
      if tokBuf == LESSTHAN {
        v := GetTagName();
        if !v.Fine? { return; }
        lastElem := tokBuf;
        nodeValue := None;
        nodeType := ElementNode;
        attrFound := true;
        atLeastOneAttrFound := false;
        isEnd := false;
        more := true;
      } else if tokBuf == GREATERTHAN {
        attrFound := false;
        if atLeastOneAttrFound {
          atLeastOneAttrFound := false;
          more := true;
        }
      } else if tokBuf == ENDTAG {
        v := GetTagName();
        if !v.Fine? { return; }
        nodeValue := None;
        nodeType := ElementNode;
        isEnd := true;
        more := true;
      } else if tokBuf == COMPLETETAG {
        if nodeType == ElementNode || nodeType == AttributeNode {
          isEnd := false;
          v := RewindCurrentPtr(|tokBuf|);
          return;
        }
        nodeName := lastElem;
        nodeValue := None;
        nodeType := ElementNode;
        attrFound := true;
        atLeastOneAttrFound := false;
        isEnd := true;
      } else if tokBuf == [] {
        isEnd := false;
        more := true;
      } else if !attrFound {
        nodeValue := Some(tokBuf);
        nodeName := TEXT_NAME;
        nodeType := TextNode;
        isEnd := false;
      } else if nodeType == ElementNode {
        v := RewindCurrentPtr(|tokBuf| + 1);
      } else {
        nodeName := tokBuf;
        v := GetAttributeValue();
        if !v.Fine? { return; }
        nodeType := AttributeNode;
        isEnd := false;
        atLeastOneAttrFound := true;
      }
    }

    // One turn of the loop in getNextNode; more says that the loop goes on.
    method NodeTurn() returns (v: Verdict, more: bool)
      requires !inAttrib
      modifies this
      ensures NodeStep(buff, old(State()), old(CurrentEvent())) == Ending(v, more, State(), CurrentEvent())
    {
      hide NextToken, SkipWhite, TagName, AttributeValue;
      IgnoreWhiteSpaces();
      v := GetNextToken();
      if !v.Fine? { return v, false; }
      ghost var ps, ev := State(), CurrentEvent();
      v, more := HandleToken();
    }

    // getNextNode, cut off after fuel turns of its loop.
    method GetNextNode(fuel: nat) returns (v: Verdict, cut: bool)
      requires !inAttrib
      modifies this
      ensures v.Fine? ==> !inAttrib
      ensures NextNode(buff, old(State()), old(CurrentEvent()), fuel) == Ending(v, cut, State(), CurrentEvent())
    {
      hide NodeStep;
      var left := fuel;
      while At(buff, currPtr) != 0
        invariant !inAttrib
        invariant NextNode(buff, State(), CurrentEvent(), left)
               == NextNode(buff, old(State()), old(CurrentEvent()), fuel)
        decreases left
      {
        if left == 0 {
          return Fine, true;
        }
        left := left - 1;
        var more;
        v, more := NodeTurn();
        if !v.Fine? || !more {
          return v, false;
        }
      }
      return Fine, false;
    }
  }
}
