// Requests by their text: which command a request line gives, which lines are lines, and where a request
// with a content length in decimal ends (src/genlib/miniserver/miniserver.cpp:195-247, 344-366, 471-535).
module Requests {
  import opened Bytes
  import opened Escape
  import opened Numbers
  import opened Letters
  import opened HttpResponse
  import opened StrToLong
  import opened MiniServer

  // ---- the command

  function MethodName(c: Command): seq<byte> {
    match c
    case Get => [103, 101, 116]
    case Post => [112, 111, 115, 116]
    case MPost => [109, 45, 112, 111, 115, 116]
    case Subscribe => [115, 117, 98, 115, 99, 114, 105, 98, 101]
    case Unsubscribe => [117, 110, 115, 117, 98, 115, 99, 114, 105, 98, 101]
    case Notify => [110, 111, 116, 105, 102, 121]
  }

  lemma NamesDiffer(line: seq<byte>, c: Command, d: Command)
    requires c != d
    ensures !(Begins(line, MethodName(c)) && Begins(line, MethodName(d)))
  {
    hide Begins;
    BeginsOnce(line, MethodName(c), MethodName(d), 0);
  }

  // A request line gives a command exactly when it begins with the name of its method, in any case.
  lemma CommandExact(line: seq<byte>, c: Command)
    ensures CommandOf(line) == Some(c) <==> Begins(line, MethodName(c))
  {
    hide Begins, MatchNoCase;
    Names(line);
    forall d: Command | d != c ensures !(Begins(line, MethodName(c)) && Begins(line, MethodName(d))) {
      NamesDiffer(line, c, d);
    }
  }

  lemma Names(line: seq<byte>)
    ensures MatchNoCase(line, 0, GET) <==> Begins(line, MethodName(Get))
    ensures MatchNoCase(line, 0, POST) <==> Begins(line, MethodName(Post))
    ensures MatchNoCase(line, 0, M_POST) <==> Begins(line, MethodName(MPost))
    ensures MatchNoCase(line, 0, SUBSCRIBE) <==> Begins(line, MethodName(Subscribe))
    ensures MatchNoCase(line, 0, UNSUBSCRIBE) <==> Begins(line, MethodName(Unsubscribe))
    ensures MatchNoCase(line, 0, NOTIFY) <==> Begins(line, MethodName(Notify))
  {
    hide MatchNoCase, Begins;
    MatchIsBegins(line, MethodName(Get));
    MatchIsBegins(line, MethodName(Post));
    MatchIsBegins(line, MethodName(MPost));
    MatchIsBegins(line, MethodName(Subscribe));
    MatchIsBegins(line, MethodName(Unsubscribe));
    MatchIsBegins(line, MethodName(Notify));
    assert MethodName(MPost) == M_POST && MethodName(Unsubscribe) == UNSUBSCRIBE;
  }

  // ---- lines

  // Text without line ends, then carriage returns, then a line feed.
  predicate IsTextLine(line: seq<byte>, text: nat) {
    && text < |line| && line[|line| - 1] == LF
    && (forall i :: 0 <= i < text ==> line[i] != CR && line[i] != LF)
    && (forall i :: text <= i < |line| - 1 ==> line[i] == CR)
  }

  // Such a line is read as one.
  lemma {:induction false} TextLineRead(line: seq<byte>, text: nat, i: nat)
    requires IsTextLine(line, text) && i < |line|
    ensures LineOf(line, i, i > text) == (|line|, true)
    decreases |line| - i
  {
    if i < |line| - 1 {
      TextLineRead(line, text, i + 1);
      if i < text {
        assert line[i] != CR && line[i] != LF;
      }
    }
  }

  // And no other line is.
  lemma {:induction false} LineIsText(line: seq<byte>, i: nat, cr: bool) returns (text: nat)
    requires i <= |line| && LineOf(line, i, cr) == (|line|, true)
    ensures i <= text < |line| && line[|line| - 1] == LF && (cr ==> text == i)
    ensures (forall j :: i <= j < text ==> line[j] != CR && line[j] != LF)
    ensures (forall j :: text <= j < |line| - 1 ==> line[j] == CR)
    decreases |line| - i
  {
    if line[i] == LF {
      text := i;
    } else if line[i] == CR {
      text := LineIsText(line, i + 1, true);
      text := i;
    } else {
      text := LineIsText(line, i + 1, false);
    }
  }

  lemma RequestLineExact(line: seq<byte>)
    ensures IsRequestLine(line) <==> exists text: nat :: IsTextLine(line, text)
  {
    hide LineOf;
    if IsRequestLine(line) {
      var text := LineIsText(line, 0, false);
      assert IsTextLine(line, text);
    }
    if text: nat :| IsTextLine(line, text) {
      TextLineRead(line, text, 0);
    }
  }

  // ---- the content length

  predicate IsGap(s: seq<byte>) {
    forall k :: 0 <= k < |s| ==> s[k] == SPACE || s[k] == TAB
  }

  predicate IsWhiteEnd(s: seq<byte>) {
    forall k :: 0 <= k < |s| ==> s[k] == SPACE || s[k] == TAB || s[k] == CR || s[k] == LF
  }

  // The name in any case, the colon, the number, and what stands behind it.
  function LengthHeader(name: seq<byte>, gap: seq<byte>, blanks: seq<byte>, n: nat, end: seq<byte>): seq<byte> {
    name + (gap + ([58] + (blanks + (Decimal(n) + end))))
  }

  predicate IsLengthHeader(name: seq<byte>, gap: seq<byte>, blanks: seq<byte>, n: nat) {
    SameLetters(name, LENGTH_NAME) && IsGap(gap) && AllBlank(blanks) && n <= LONG_MAX
  }

  lemma {:induction false} GapOver(s: seq<byte>, p: nat, gap: seq<byte>)
    requires HasAt(s, p, gap) && IsGap(gap) && At(s, p + |gap|) == 58
    ensures p <= |s| && SkipBlanks(s, p) == p + |gap|
    decreases |gap|
  {
    if gap != [] {
      HasAtHead(s, p, gap);
      GapOver(s, p + 1, gap[1..]);
    }
  }

  lemma {:induction false} DigitsOverAll(s: seq<byte>, p: nat, n: nat, i: nat)
    requires HasAt(s, p, Decimal(n)) && i <= |Decimal(n)|
    requires p + |Decimal(n)| < |s| ==> DigitValue(s[p + |Decimal(n)|], 10) < 0
    ensures DigitsEnd(s, p + i) == p + |Decimal(n)|
    decreases |Decimal(n)| - i
  {
    hide InBase, Decimal;
    DecimalIs(n);
    HasAtIndex(s, p, Decimal(n));
    if i < |Decimal(n)| {
      AllDigits(n, 10, false, i);
      assert At(s, p + i) == Decimal(n)[i];
      DigitsOverAll(s, p, n, i + 1);
    }
  }

  lemma DecimalIs(n: nat)
    ensures Decimal(n) == InBase(n, 10, false)
  {
  }

  // The number behind the colon, and where it stops.
  lemma NumberIs(blanks: seq<byte>, n: nat, end: seq<byte>)
    requires AllBlank(blanks) && n <= LONG_MAX && (end != [] ==> DigitValue(end[0], 10) < 0)
    ensures Number(blanks + (Decimal(n) + end)) == (n, |blanks| + |Decimal(n)|)
  {
    hide *;
    NumberValue(blanks, n, end);
    NumberPlaces(blanks, n, end);
    NumberParts(blanks + (Decimal(n) + end), n, |blanks|, |blanks| + |Decimal(n)|);
  }

  lemma NumberValue(blanks: seq<byte>, n: nat, end: seq<byte>)
    requires AllBlank(blanks) && n <= LONG_MAX && (end != [] ==> DigitValue(end[0], 10) < 0)
    ensures StrToL(blanks + (Decimal(n) + end), 10) == Some(n)
  {
    hide *;
    DecimalIs(n);
    NoSign(blanks, n, end);
    NumberRead(blanks, [], n, 10, false, end);
  }

  lemma NumberPlaces(blanks: seq<byte>, n: nat, end: seq<byte>)
    requires AllBlank(blanks) && (end != [] ==> DigitValue(end[0], 10) < 0)
    ensures var s, b := blanks + (Decimal(n) + end), |blanks|;
      b <= |s| && Blanks(s, 0) == b && Prefix(s, b, 10) == b && DigitsEnd(s, b) == b + |Decimal(n)|
  {
    hide *;
    var s, b, digits := blanks + (Decimal(n) + end), |blanks|, Decimal(n);
    DecimalIs(n);
    NoSign(blanks, n, end);
    PlacesIn(s, blanks, digits, end);
    AllDigits(n, 10, false, 0);
    FirstByte(s, b, b, [], digits, 10);
    BlanksOver(s, 0, blanks);
    PrefixIs(s, b, [], n, 10, false, end);
    DigitsOverAll(s, b, n, 0);
  }

  lemma PlacesIn(s: seq<byte>, blanks: seq<byte>, digits: seq<byte>, end: seq<byte>)
    requires s == blanks + (digits + end)
    ensures HasAt(s, 0, blanks) && HasAt(s, |blanks|, []) && HasAt(s, |blanks|, digits)
    ensures HasAt(s, |blanks| + |digits|, end) && |s| == |blanks| + |digits| + |end|
    ensures |blanks| + |digits| < |s| ==> s[|blanks| + |digits|] == end[0]
  {
    Placed(blanks, [], digits, end);
    assert [] + (digits + end) == digits + end;
  }

  lemma NoSign(blanks: seq<byte>, n: nat, end: seq<byte>)
    requires end != [] ==> DigitValue(end[0], 10) < 0
    ensures blanks + ([] + (Decimal(n) + end)) == blanks + (Decimal(n) + end)
    ensures EndsNumber(end, n, 10) && IsSign([])
    ensures Clamped(Signed(n, [])) == if n > LONG_MAX then LONG_MAX else n
  {
    hide Decimal, DigitValue;
    assert [] + (Decimal(n) + end) == Decimal(n) + end;
  }

  lemma NumberParts(s: seq<byte>, n: nat, b: nat, e: nat)
    requires StrToL(s, 10) == Some(n) && b <= |s| && Blanks(s, 0) == b && Prefix(s, b, 10) == b && DigitsEnd(s, b) == e
    ensures Number(s) == (n, e)
  {
    hide StrToL, Blanks, Prefix, DigitsEnd;
  }

  lemma {:induction false} WhiteToEnd(s: seq<byte>, p: nat, end: seq<byte>)
    requires HasAt(s, p, end) && |s| == p + |end| && 0 !in end
    ensures OnlyWhite(s, p) <==> IsWhiteEnd(end)
    decreases |end|
  {
    if end != [] {
      HasAtHead(s, p, end);
      WhiteToEnd(s, p + 1, end[1..]);
      assert end == [end[0]] + end[1..];
      assert forall k :: 0 <= k < |end| ==> end[k] == if k == 0 then end[0] else end[1..][k - 1];
    }
  }

  // A header with a length in decimal is read as that, and refused exactly when something other than white
  // space stands behind the number.
  lemma LengthHeaderExact(name: seq<byte>, gap: seq<byte>, blanks: seq<byte>, n: nat, end: seq<byte>)
    requires IsLengthHeader(name, gap, blanks, n) && 0 !in end && (end != [] ==> !(48 <= end[0] <= 57))
    ensures ContentLengthOf(LengthHeader(name, gap, blanks, n, end)) == if IsWhiteEnd(end) then Some(n) else None
  {
    hide *;
    var line := LengthHeader(name, gap, blanks, n, end);
    var number := blanks + (Decimal(n) + end);
    var i := |name| + |gap|;
    HeaderPlaces(name, gap, number);
    HeaderIs(name, gap, blanks, n, end);
    NoDigit(end);
    NumberIs(blanks, n, end);
    PlacesIn(number, blanks, Decimal(n), end);
    WhiteToEnd(number, |blanks| + |Decimal(n)|, end);
    GapIn(line, name, gap, number);
    LengthIs(line, name, i, number, n, |blanks| + |Decimal(n)|);
  }

  lemma GapIn(line: seq<byte>, name: seq<byte>, gap: seq<byte>, number: seq<byte>)
    requires line == name + (gap + ([58] + number))
    ensures name <= line && line[|name|..|name| + |gap|] == gap
  {
  }

  lemma NoDigit(end: seq<byte>)
    requires end != [] ==> !(48 <= end[0] <= 57)
    ensures end != [] ==> DigitValue(end[0], 10) < 0
  {
  }

  lemma HeaderIs(name: seq<byte>, gap: seq<byte>, blanks: seq<byte>, n: nat, end: seq<byte>)
    requires IsLengthHeader(name, gap, blanks, n)
    ensures LengthHeader(name, gap, blanks, n, end) == name + (gap + ([58] + (blanks + (Decimal(n) + end))))
    ensures SameLetters(name, LENGTH_NAME) && IsGap(gap) && AllBlank(blanks) && n <= LONG_MAX
    ensures blanks + (Decimal(n) + end) != []
  {
    hide Decimal, SameLetters;
  }

  lemma HeaderPlaces(name: seq<byte>, gap: seq<byte>, number: seq<byte>)
    ensures var line := name + (gap + ([58] + number));
      && HasAt(line, |name|, gap) && At(line, |name| + |gap|) == 58 && |line| == |name| + |gap| + 1 + |number|
      && line[|name| + |gap| + 1..] == number
  {
    var line := name + (gap + ([58] + number));
    assert line[0..|line|] == line;
    HasAtSplit(line, 0, name, gap + ([58] + number));
    HasAtSplit(line, |name|, gap, [58] + number);
    HasAtHead(line, |name| + |gap|, [58] + number);
  }

  lemma LengthIs(line: seq<byte>, name: seq<byte>, i: nat, number: seq<byte>, n: nat, stop: nat)
    requires name <= line && SameLetters(name, LENGTH_NAME) && |name| <= i < |line| && line[i + 1..] == number != []
    requires HasAt(line, |name|, line[|name|..i]) && IsGap(line[|name|..i]) && At(line, i) == 58
    requires Number(number) == (n, stop)
    ensures ContentLengthOf(line) == if OnlyWhite(number, stop) then Some(n) else None
  {
    hide Number, OnlyWhite, MatchNoCase, SameLetters;
    assert line == name + line[|name|..];
    TextBegins(name, LENGTH_NAME, line[|name|..]);
    KeyOfLength(line);
    SameLength(name, LENGTH_NAME);
    GapOver(line, |name|, line[|name|..i]);
  }

  lemma SameLength(name: seq<byte>, key: seq<byte>)
    requires SameLetters(name, key)
    ensures |name| == |key|
  {
  }

  lemma KeyOfLength(line: seq<byte>)
    ensures MatchNoCase(line, 0, LENGTH_NAME) <==> Begins(line, LENGTH_NAME)
    ensures Begins(line, LENGTH_NAME) ==> |line| >= |LENGTH_NAME|
  {
    hide MatchNoCase;
    MatchIsBegins(line, LENGTH_NAME);
  }

  // ---- whole requests

  // Header lines that do not give a length.
  predicate AreOthers(lines: seq<seq<byte>>) {
    forall k :: 0 <= k < |lines| ==> !Begins(lines[k], LENGTH_NAME)
  }

  predicate AreHeaderLines(lines: seq<seq<byte>>) {
    forall k :: 0 <= k < |lines| ==> IsRequestLine(lines[k]) && !IsEmptyLine(lines[k])
  }

  // A line feed, or a carriage return and a line feed.
  predicate IsEmptyLine(line: seq<byte>) {
    line == [10] || line == [13, 10]
  }

  lemma EmptyIsBlank(line: seq<byte>)
    ensures IsEmptyLine(line) <==> IsBlankLine(line)
  {
  }

  lemma OtherHasNone(line: seq<byte>)
    requires !Begins(line, LENGTH_NAME)
    ensures ContentLengthOf(line) == Some(-1)
  {
    hide MatchNoCase, Begins;
    KeyOfLength(line);
  }

  lemma {:induction false} NoLength(lines: seq<seq<byte>>)
    requires AreOthers(lines)
    ensures LengthOf(lines, -1) == Some(-1)
    decreases |lines|
  {
    hide ContentLengthOf, Begins;
    if lines != [] {
      OtherHasNone(lines[0]);
      NoLength(lines[1..]);
    }
  }

  lemma {:induction false} LengthFound(before: seq<seq<byte>>, line: seq<byte>, n: nat, behind: seq<seq<byte>>)
    requires AreOthers(before) && ContentLengthOf(line) == Some(n)
    ensures LengthOf(before + ([line] + behind), -1) == Some(n)
    decreases |before|
  {
    hide ContentLengthOf, Begins;
    var lines := before + ([line] + behind);
    if before == [] {
      assert lines[0] == line && lines[1..] == behind;
    } else {
      assert lines[0] == before[0] && lines[1..] == before[1..] + ([line] + behind);
      OtherHasNone(before[0]);
      LengthFound(before[1..], line, n, behind);
    }
  }

  // A request as it should be is framed exactly: its command is the one that its first line begins with, and
  // its body is what stands behind the blank line, as long as the first content length says in decimal.
  lemma RequestRead(c: Command, requestLine: seq<byte>, before: seq<seq<byte>>, name: seq<byte>, gap: seq<byte>,
                    blanks: seq<byte>, end: seq<byte>, behind: seq<seq<byte>>, blank: seq<byte>, body: seq<byte>)
    requires IsRequestLine(requestLine) && Begins(requestLine, MethodName(c)) && IsEmptyLine(blank)
    requires AreOthers(before) && IsLengthHeader(name, gap, blanks, |body|)
    requires end != [] && IsWhiteEnd(end)
    requires AreHeaderLines(before + ([LengthHeader(name, gap, blanks, |body|, end)] + behind))
    ensures var lines := before + ([LengthHeader(name, gap, blanks, |body|, end)] + behind);
      var head := requestLine + Joined(lines) + blank;
      && FramingOf(head + body) == Framed(c, |head|, |body|)
      && forall stop :: ReadsBody(head + body, |head|, |body|, stop) <==> stop == |head + body|
  {
    hide *;
    var line := LengthHeader(name, gap, blanks, |body|, end);
    var lines := before + ([line] + behind);
    WhiteBytes(end);
    LengthHeaderExact(name, gap, blanks, |body|, end);
    LengthFound(before, line, |body|, behind);
    CommandExact(requestLine, c);
    HeaderLines(lines);
    EmptyIsBlank(blank);
    RequestFramed(requestLine, lines, blank, body);
  }

  lemma WhiteBytes(end: seq<byte>)
    requires IsWhiteEnd(end)
    ensures 0 !in end && (end != [] ==> !(48 <= end[0] <= 57))
  {
  }

  lemma HeaderLines(lines: seq<seq<byte>>)
    requires AreHeaderLines(lines)
    ensures forall k :: 0 <= k < |lines| ==> IsRequestLine(lines[k]) && !IsBlankLine(lines[k])
  {
    hide IsRequestLine, IsBlankLine, IsEmptyLine;
    forall k | 0 <= k < |lines| ensures !IsBlankLine(lines[k]) {
      EmptyIsBlank(lines[k]);
    }
  }

  // Without a content length there is no body, and a request that has to have one is refused.
  lemma RequestWithoutLength(c: Command, requestLine: seq<byte>, lines: seq<seq<byte>>, blank: seq<byte>,
                             more: seq<byte>)
    requires IsRequestLine(requestLine) && Begins(requestLine, MethodName(c)) && IsEmptyLine(blank)
    requires AreOthers(lines) && AreHeaderLines(lines)
    ensures var head := requestLine + Joined(lines) + blank;
      if c == Post || c == MPost then FramingOf(head + more) == Bad(LengthRequired)
      else
        && FramingOf(head + more) == Framed(c, |head|, -1)
        && forall stop :: ReadsBody(head + more, |head|, -1, stop) <==> stop == |head|
  {
    hide *;
    var s, n := requestLine + Joined(lines) + blank + more, |requestLine|;
    NoLength(lines);
    CommandExact(requestLine, c);
    HeaderLines(lines);
    EmptyIsBlank(blank);
    RequestParts(requestLine, lines, blank, more);
    HeaderLineRead(s, 0, requestLine);
    HeadersRead(s, n, lines, blank, c, -1);
    FramingStep(s, n);
    NoBody(s, |requestLine + Joined(lines) + blank|);
    LineAtFront(s, requestLine);
  }

  lemma LineAtFront(s: seq<byte>, line: seq<byte>)
    ensures HasAt(s, 0, line) ==> |line| <= |s| && s[0..|line|] == line
  {
  }

  lemma NoBody(s: seq<byte>, start: nat)
    requires start <= |s|
    ensures forall stop :: ReadsBody(s, start, -1, stop) <==> stop == start
  {
  }
}
