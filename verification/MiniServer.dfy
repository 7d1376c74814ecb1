// Reading a request (src/genlib/miniserver/miniserver.cpp:174-291, 344-366, 375-535, 544-680): a
// buffered reader, and the framing of the request by its lines and its content length.
module MiniServer {
  import opened Bytes
  import opened Escape
  import opened HttpResponse
  import opened HttpReader

  const MAX_BUFFER_SIZE := 2048
  const BUFSIZE := 3

  // ---- what is read

  // getLine from p on: where it stops, and whether a line feed was found. After a carriage
  // return only a line feed, or another carriage return, may come.
  function LineOf(s: seq<byte>, p: nat, cr: bool): (r: (nat, bool))
    requires p <= |s|
    ensures p <= r.0 <= |s| && (r.1 ==> p < r.0 && s[r.0 - 1] == LF)
    decreases |s| - p
  {
    if p == |s| then (p, false)
    else if s[p] == LF then (p + 1, true)
    else if s[p] == CR then LineOf(s, p + 1, true)
    else if cr then (p + 1, false)
    else LineOf(s, p + 1, false)
  }

  datatype Command = Get | Post | MPost | Subscribe | Unsubscribe | Notify

  const GET: seq<byte> := [103, 101, 116]
  const POST: seq<byte> := [112, 111, 115, 116]
  const M_POST: seq<byte> := [109, 45] + POST
  const SUBSCRIBE: seq<byte> := [115, 117, 98, 115, 99, 114, 105, 98, 101]
  const UNSUBSCRIBE: seq<byte> := [117, 110] + SUBSCRIBE
  const NOTIFY: seq<byte> := [110, 111, 116, 105, 102, 121]
  const LENGTH_NAME: seq<byte> := CONTENT + [45, 108, 101, 110, 103, 116, 104]

  // GetCommandType; None for an unknown method.
  function CommandOf(line: seq<byte>): Option<Command> {
    if MatchNoCase(line, 0, GET) then Some(Get)
    else if MatchNoCase(line, 0, POST) then Some(Post)
    else if MatchNoCase(line, 0, M_POST) then Some(MPost)
    else if MatchNoCase(line, 0, SUBSCRIBE) then Some(Subscribe)
    else if MatchNoCase(line, 0, UNSUBSCRIBE) then Some(Unsubscribe)
    else if MatchNoCase(line, 0, NOTIFY) then Some(Notify)
    else None
  }

  function SkipBlanks(s: seq<byte>, i: nat): (j: nat)
    requires i <= |s|
    ensures i <= j <= |s|
    decreases |s| - i
  {
    if i < |s| && (s[i] == SPACE || s[i] == TAB) then SkipBlanks(s, i + 1) else i
  }

  function DigitsEnd(s: seq<byte>, i: nat): (j: nat)
    requires i <= |s|
    ensures i <= j <= |s|
    decreases |s| - i
  {
    if i < |s| && DigitValue(s[i], 10) >= 0 then DigitsEnd(s, i + 1) else i
  }

  // White space from i on, up to the end or a NUL byte.
  predicate OnlyWhite(s: seq<byte>, i: nat)
    decreases |s| - i
  {
    i < |s| && s[i] != 0 ==> (s[i] == SPACE || s[i] == TAB || s[i] == CR || s[i] == LF) && OnlyWhite(s, i + 1)
  }

  // strtol in base 10: the number, and where it stopped; (0, 0) when there are no digits.
  function Number(s: seq<byte>): (r: (int, nat))
    ensures r.1 <= |s|
  {
    var n := StrToL(s, 10);
    if n.None? then (0, 0) else (n.value, DigitsEnd(s, Prefix(s, Blanks(s, 0), 10)))
  }

  // ParseContentLength: -1 for another header, None for a malformed length.
  function ContentLengthOf(line: seq<byte>): Option<int> {
    if !MatchNoCase(line, 0, LENGTH_NAME) || |line| < |LENGTH_NAME| then Some(-1)
    else
      var i := SkipBlanks(line, |LENGTH_NAME|);
      if At(line, i) != 58 || i + 1 >= |line| then None
      else
        var (n, stop) := Number(line[i + 1..]);
        if OnlyWhite(line[i + 1..], stop) then Some(n) else None
  }

  predicate IsBlankLine(line: seq<byte>) {
    line == [LF] || line == [CR, LF]
  }

  datatype Failure = MalformedLine | NotImplemented | LengthRequired

  // The request line and the headers: the command, where the body begins, and its length.
  datatype Framing = Framed(command: Command, end: nat, length: int) | Bad(failure: Failure)

  // The headers from p on, with the length found so far.
  function HeadersFrom(s: seq<byte>, p: nat, command: Command, length: int): (r: Framing)
    requires p <= |s|
    ensures r.Framed? ==> p <= r.end <= |s|
    decreases |s| - p
  {
    var (e, ok) := LineOf(s, p, false);
    if !ok then Bad(MalformedLine)
    else
      var line := s[p..e];
      var n := if length < 0 then ContentLengthOf(line) else Some(length);
      if n.None? then Bad(MalformedLine)
      else if !IsBlankLine(line) then HeadersFrom(s, e, command, n.value)
      else if n.value < 0 && (command.Post? || command.MPost?) then Bad(LengthRequired)
      else Framed(command, e, n.value)
  }

  function FramingOf(s: seq<byte>): (r: Framing)
    ensures r.Framed? ==> r.end <= |s|
  {
    var (e, ok) := LineOf(s, 0, false);
    if !ok then Bad(MalformedLine)
    else if CommandOf(s[..e]).None? then Bad(NotImplemented)
    else HeadersFrom(s, e, CommandOf(s[..e]).value, -1)
  }

  // A line by itself: one line feed, at its end, and nothing but carriage returns from the first
  // of them on.
  predicate IsRequestLine(line: seq<byte>) {
    line != [] && LineOf(line, 0, false) == (|line|, true)
  }

  function Joined(lines: seq<seq<byte>>): seq<byte> {
    if lines == [] then [] else lines[0] + Joined(lines[1..])
  }

  // The length that a list of header lines gives: that of the first one that has a length which
  // is not negative; None when a line before has a malformed one.
  function LengthOf(lines: seq<seq<byte>>, length: int): Option<int> {
    if length >= 0 then Some(length)
    else if lines == [] then Some(-1)
    else
      var n := ContentLengthOf(lines[0]);
      if n.None? then None else LengthOf(lines[1..], n.value)
  }

  // A line ends where it ends by itself, whatever stands around it.
  lemma {:induction false} LineInPlace(s: seq<byte>, p: nat, line: seq<byte>, i: nat, cr: bool)
    requires HasAt(s, p, line) && i <= |line| && LineOf(line, i, cr) == (|line|, true)
    ensures LineOf(s, p + i, cr) == (p + |line|, true)
    decreases |line| - i
  {
    if i < |line| {
      assert s[p + i] == s[p..p + |line|][i];
      if line[i] != LF && (line[i] == CR || !cr) {
        LineInPlace(s, p, line, i + 1, cr || line[i] == CR);
      }
    }
  }

  lemma HeaderLineRead(s: seq<byte>, p: nat, line: seq<byte>)
    requires IsRequestLine(line) && HasAt(s, p, line)
    ensures p + |line| <= |s| && LineOf(s, p, false) == (p + |line|, true) && s[p..p + |line|] == line
  {
    LineInPlace(s, p, line, 0, false);
  }

  lemma BlankLineRead(s: seq<byte>, p: nat, blank: seq<byte>)
    requires IsBlankLine(blank) && HasAt(s, p, blank)
    ensures p + |blank| <= |s| && LineOf(s, p, false) == (p + |blank|, true) && s[p..p + |blank|] == blank
    ensures ContentLengthOf(blank) == Some(-1)
  {
    assert LineOf(blank, 0, false) == (|blank|, true);
    HeaderLineRead(s, p, blank);
    assert Lower(At(blank, 0)) != LENGTH_NAME[0];
  }

  // Proper header lines and a blank one are read exactly up to the blank one.
  lemma {:induction false} HeadersRead(s: seq<byte>, p: nat, lines: seq<seq<byte>>, blank: seq<byte>,
                                       command: Command, length: int)
    requires forall k :: 0 <= k < |lines| ==> IsRequestLine(lines[k]) && !IsBlankLine(lines[k])
    requires IsBlankLine(blank) && HasAt(s, p, Joined(lines) + blank) && LengthOf(lines, length).Some?
    ensures HeadersFrom(s, p, command, length) ==
      if LengthOf(lines, length).value < 0 && (command.Post? || command.MPost?) then Bad(LengthRequired)
      else Framed(command, p + |Joined(lines)| + |blank|, LengthOf(lines, length).value)
    decreases |lines|
  {
    hide *;
    HeadersParts(s, p, lines, blank, length);
    if lines == [] {
      BlankLineRead(s, p, blank);
      HeadersStep(s, p, blank, command, length);
    } else {
      HeaderLineRead(s, p, lines[0]);
      HeadersStep(s, p, lines[0], command, length);
      var n := if length < 0 then ContentLengthOf(lines[0]).value else length;
      HeadersRead(s, p + |lines[0]|, lines[1..], blank, command, n);
    }
  }

  lemma HeadersStep(s: seq<byte>, p: nat, line: seq<byte>, command: Command, length: int)
    requires p + |line| <= |s| && LineOf(s, p, false) == (p + |line|, true) && s[p..p + |line|] == line
    requires length < 0 ==> ContentLengthOf(line).Some?
    ensures var n := if length < 0 then ContentLengthOf(line).value else length;
      HeadersFrom(s, p, command, length) == (
        if !IsBlankLine(line) then HeadersFrom(s, p + |line|, command, n)
        else if n < 0 && (command.Post? || command.MPost?) then Bad(LengthRequired)
        else Framed(command, p + |line|, n))
  {
    hide ContentLengthOf, LineOf, IsBlankLine;
  }

  lemma HeadersParts(s: seq<byte>, p: nat, lines: seq<seq<byte>>, blank: seq<byte>, length: int)
    requires HasAt(s, p, Joined(lines) + blank) && LengthOf(lines, length).Some?
    ensures lines == [] ==> HasAt(s, p, blank) && Joined(lines) == []
    ensures lines == [] ==> LengthOf(lines, length) == Some(if length >= 0 then length else -1)
    ensures lines != [] ==>
      && HasAt(s, p, lines[0]) && HasAt(s, p + |lines[0]|, Joined(lines[1..]) + blank)
      && |Joined(lines)| == |lines[0]| + |Joined(lines[1..])|
      && (length < 0 ==> ContentLengthOf(lines[0]).Some?)
      && LengthOf(lines, length) == LengthOf(lines[1..], if length < 0 then ContentLengthOf(lines[0]).value else length)
  {
    hide ContentLengthOf, HasAt;
    if lines == [] {
      assert Joined(lines) + blank == blank;
    } else {
      assert Joined(lines) + blank == lines[0] + (Joined(lines[1..]) + blank);
      HasAtSplit(s, p, lines[0], Joined(lines[1..]) + blank);
    }
  }

  // A line cut out of its place ends where it did.
  lemma {:induction false} LineByItself(s: seq<byte>, p: nat, e: nat, i: nat, cr: bool)
    requires p + i <= e <= |s| && LineOf(s, p + i, cr) == (e, true)
    ensures LineOf(s[p..e], i, cr) == (e - p, true)
    decreases e - i
  {
    if p + i < |s| && s[p + i] != LF && (s[p + i] == CR || !cr) {
      LineByItself(s, p, e, i + 1, cr || s[p + i] == CR);
    }
  }

  lemma CutLine(s: seq<byte>, p: nat, e: nat)
    requires p <= |s| && LineOf(s, p, false) == (e, true)
    ensures IsRequestLine(s[p..e]) && HasAt(s, p, s[p..e])
  {
    hide LineOf;
    LineByItself(s, p, e, 0, false);
  }

  // Headers that are accepted are lines, none of them blank, and then a blank one.
  lemma {:induction false} HeadersSplit(s: seq<byte>, p: nat, command: Command, length: int)
    returns (lines: seq<seq<byte>>, blank: seq<byte>)
    requires p <= |s| && HeadersFrom(s, p, command, length).Framed?
    ensures forall k :: 0 <= k < |lines| ==> IsRequestLine(lines[k]) && !IsBlankLine(lines[k])
    ensures IsBlankLine(blank) && HasAt(s, p, Joined(lines) + blank)
    ensures LengthOf(lines, length).Some?
    ensures HeadersFrom(s, p, command, length) ==
      Framed(command, p + |Joined(lines)| + |blank|, LengthOf(lines, length).value)
    decreases |s| - p
  {
    hide *;
    var e, n := FramedStep(s, p, command, length);
    CutLine(s, p, e);
    if IsBlankLine(s[p..e]) {
      lines, blank := [], s[p..e];
      BlankLineRead(s, p, blank);
      NoLines(s, p, blank, length, n);
    } else {
      var rest;
      rest, blank := HeadersSplit(s, e, command, n);
      lines := [s[p..e]] + rest;
      OneMoreLine(s, p, s[p..e], rest, blank, length, n);
    }
  }

  // One turn of the loop on headers that are accepted: the line, and the length after it.
  lemma FramedStep(s: seq<byte>, p: nat, command: Command, length: int) returns (e: nat, n: int)
    requires p <= |s| && HeadersFrom(s, p, command, length).Framed?
    ensures p < e <= |s| && LineOf(s, p, false) == (e, true)
    ensures Some(n) == if length < 0 then ContentLengthOf(s[p..e]) else Some(length)
    ensures HeadersFrom(s, p, command, length) == if IsBlankLine(s[p..e]) then Framed(command, e, n)
      else HeadersFrom(s, e, command, n)
  {
    hide ContentLengthOf, LineOf;
    e := LineOf(s, p, false).0;
    n := if length < 0 then ContentLengthOf(s[p..e]).value else length;
  }

  lemma NoLines(s: seq<byte>, p: nat, blank: seq<byte>, length: int, n: int)
    requires HasAt(s, p, blank) && Some(n) == (if length < 0 then Some(-1) else Some(length))
    ensures HasAt(s, p, Joined([]) + blank) && Joined([]) == [] && LengthOf([], length) == Some(n)
  {
    assert [] + blank == blank;
  }

  lemma OneMoreLine(s: seq<byte>, p: nat, line: seq<byte>, rest: seq<seq<byte>>, blank: seq<byte>, length: int, n: int)
    requires HasAt(s, p, line) && HasAt(s, p + |line|, Joined(rest) + blank)
    requires Some(n) == if length < 0 then ContentLengthOf(line) else Some(length)
    ensures var lines := [line] + rest;
      && HasAt(s, p, Joined(lines) + blank) && |Joined(lines)| == |line| + |Joined(rest)|
      && LengthOf(lines, length) == LengthOf(rest, n)
  {
    hide ContentLengthOf;
    var lines := [line] + rest;
    assert lines[1..] == rest;
    assert Joined(lines) + blank == line + (Joined(rest) + blank);
    HasAtJoin(s, p, line, Joined(rest) + blank);
  }

  lemma HasAtJoin(s: seq<byte>, p: nat, a: seq<byte>, b: seq<byte>)
    requires HasAt(s, p, a) && HasAt(s, p + |a|, b)
    ensures HasAt(s, p, a + b)
  {
    assert s[p..p + |a + b|] == s[p..p + |a|] + s[p + |a|..p + |a| + |b|];
  }

  // How much of the body may have been read: all of it and at most two bytes more, as three
  // bytes are asked for at a time, or less when the stream ends.
  predicate ReadsBody(s: seq<byte>, start: nat, length: int, end: nat) {
    && start <= end <= |s|
    && if length <= 0 then end == start
       else start + length <= end < start + length + BUFSIZE || (end == |s| && end < start + length)
  }

  // A request is framed by its headers.
  lemma RequestFramed(requestLine: seq<byte>, lines: seq<seq<byte>>, blank: seq<byte>, body: seq<byte>)
    requires IsRequestLine(requestLine) && CommandOf(requestLine).Some? && IsBlankLine(blank)
    requires forall k :: 0 <= k < |lines| ==> IsRequestLine(lines[k]) && !IsBlankLine(lines[k])
    requires LengthOf(lines, -1) == Some(|body|)
    ensures var head := requestLine + Joined(lines) + blank;
      && FramingOf(head + body) == Framed(CommandOf(requestLine).value, |head|, |body|)
      && forall end :: ReadsBody(head + body, |head|, |body|, end) <==> end == |head + body|
  {
    hide *;
    var s := requestLine + Joined(lines) + blank + body;
    RequestParts(requestLine, lines, blank, body);
    HeaderLineRead(s, 0, requestLine);
    HeadersRead(s, |requestLine|, lines, blank, CommandOf(requestLine).value, -1);
    FramingStep(s, |requestLine|);
    BodyWhole(s, |requestLine + Joined(lines) + blank|, |body|);
  }

  lemma RequestParts(requestLine: seq<byte>, lines: seq<seq<byte>>, blank: seq<byte>, body: seq<byte>)
    ensures var s := requestLine + Joined(lines) + blank + body;
      HasAt(s, 0, requestLine) && HasAt(s, |requestLine|, Joined(lines) + blank)
  {
    hide *;
    var headers := Joined(lines);
    Parts(requestLine, headers + blank, body);
    assert requestLine + headers + blank + body == requestLine + (headers + blank) + body;
  }

  lemma Parts(a: seq<byte>, b: seq<byte>, c: seq<byte>)
    ensures HasAt(a + b + c, 0, a) && HasAt(a + b + c, |a|, b)
  {
    var s := a + b + c;
    assert s[0..|a|] == a;
    assert s[|a|..|a| + |b|] == b;
  }

  lemma FramingStep(s: seq<byte>, e: nat)
    requires e <= |s| && LineOf(s, 0, false) == (e, true) && CommandOf(s[0..e]).Some?
    ensures FramingOf(s) == HeadersFrom(s, e, CommandOf(s[0..e]).value, -1)
  {
    hide LineOf, CommandOf, HeadersFrom;
    assert s[0..e] == s[..e];
  }

  lemma BodyWhole(s: seq<byte>, start: nat, length: nat)
    requires start + length == |s|
    ensures forall end :: ReadsBody(s, start, length, end) <==> end == |s|
  {
  }

  // ---- the reader

  class NetReader {
    const sock: Socket
    const data: array<byte>
    var offset: nat
    var buflen: nat

    constructor (sock: Socket)
      requires sock.pos == 0
      ensures Valid() && Pos() == 0 && this.sock == sock && fresh(data)
    {
      this.sock := sock;
      data := new byte[MAX_BUFFER_SIZE + 1];
      offset := 0;
      buflen := 0;
    }

    ghost predicate Valid()
      reads this, sock, data
    {
      && offset <= buflen <= MAX_BUFFER_SIZE < data.Length && buflen - offset <= sock.pos <= |sock.stream|
      && data[offset..buflen] == sock.stream[sock.pos - (buflen - offset)..sock.pos]
    }

    // How much of the stream has been handed out.
    ghost function Pos(): (p: nat)
      requires Valid()
      reads this, sock, data
      ensures p <= |sock.stream|
    {
      sock.pos - (buflen - offset)
    }

    // refillBuffer.
    method Refill() returns (n: nat)
      requires Valid() && offset == buflen
      modifies this, sock, data
      ensures Valid() && Pos() == old(Pos()) && offset == 0 && n == buflen
      ensures n == 0 <==> Pos() == |sock.stream|
    {
      var bytes := sock.Read(MAX_BUFFER_SIZE);
      CopyInto(data, 0, bytes);
      buflen := |bytes|;
      offset := 0;
      n := buflen;
      assert data[0..buflen] == data[..buflen] == bytes;
    }

    // getChar: one byte, or none at the end of the stream.
    method GetChar() returns (c: seq<byte>)
      requires Valid()
      modifies this, sock, data
      ensures Valid() && old(Pos()) <= Pos() && c == sock.stream[old(Pos())..Pos()]
      ensures if old(Pos()) < |sock.stream| then |c| == 1 else c == []
    {
      if offset >= buflen {
        var n := Refill();
        if n == 0 {
          return [];
        }
      }
      c := Take(1);
    }

    // The next bytes of the buffer.
    method Take(count: nat) returns (bytes: seq<byte>)
      requires Valid() && count <= buflen - offset
      modifies this`offset
      ensures Valid() && Pos() == old(Pos()) + count && bytes == sock.stream[old(Pos())..Pos()]
    {
      TakeParts(data[..], sock.stream, offset, buflen, count, Pos());
      assert data[offset..buflen] == data[..][offset..buflen];
      bytes := data[offset..offset + count];
      offset := offset + count;
      assert data[offset..buflen] == data[..][offset..buflen];
    }

    lemma TakeParts(d: seq<byte>, stream: seq<byte>, from: nat, to: nat, count: nat, pos: nat)
      requires from + count <= to <= |d| && pos + (to - from) <= |stream|
      requires d[from..to] == stream[pos..pos + (to - from)]
      ensures d[from..from + count] == stream[pos..pos + count]
      ensures d[from + count..to] == stream[pos + count..pos + (to - from)]
    {
      assert d[from..from + count] == d[from..to][..count];
      assert d[from + count..to] == d[from..to][count..];
    }

    // getLine.
    method GetLine() returns (line: seq<byte>, newlineNotFound: bool)
      requires Valid()
      modifies this, sock, data
      ensures Valid() && (Pos(), !newlineNotFound) == LineOf(sock.stream, old(Pos()), false)
      ensures old(Pos()) <= Pos() && line == sock.stream[old(Pos())..Pos()]
    {
      hide *;
      line, newlineNotFound := [], false;
      var crFound := false;
      ReaderFacts();
      while true
        invariant Valid() && old(Pos()) <= Pos() && line == sock.stream[old(Pos())..Pos()] && !newlineNotFound
        invariant LineOf(sock.stream, old(Pos()), false) == LineOf(sock.stream, Pos(), crFound)
        decreases |sock.stream| - Pos()
      {
        ghost var stream, start, p := sock.stream, old(Pos()), Pos();
        ReaderFacts();
        LineStep(stream, p, crFound);
        var c := GetChar();
        ReaderFacts();
        if c == [] {
          newlineNotFound := true;
          return;
        }
        assert stream[start..p] + stream[p..p + 1] == stream[start..p + 1];
        line := line + c;
        if c[0] == LF {
          return;
        } else if c[0] == CR {
          crFound := true;
        } else if crFound {
          newlineNotFound := true;
          return;
        }
      }
    }

    lemma LineStep(s: seq<byte>, p: nat, cr: bool)
      requires p <= |s|
      ensures LineOf(s, p, cr) ==
        if p == |s| then (p, false)
        else if s[p] == LF then (p + 1, true)
        else if s[p] == CR then LineOf(s, p + 1, true)
        else if cr then (p + 1, false)
        else LineOf(s, p + 1, false)
    {
    }

    lemma ReaderFacts()
      requires Valid()
      ensures Pos() <= |sock.stream|
    {
    }

    // readData: some bytes, at most as many as are asked for, none only at the end.
    method ReadData(count: nat) returns (bytes: seq<byte>)
      requires Valid() && count > 0
      modifies this, sock, data
      ensures Valid() && old(Pos()) <= Pos() && bytes == sock.stream[old(Pos())..Pos()] && |bytes| <= count
      ensures bytes == [] <==> old(Pos()) == |sock.stream|
    {
      if offset >= buflen {
        var n := Refill();
        if n == 0 {
          return [];
        }
      }
      bytes := Take(if count < buflen - offset then count else buflen - offset);
    }
  }

  datatype Outcome = Request(command: Command, document: seq<byte>) | Refused(failure: Failure)

  // The headers, after the request line.
  method ReadHeaders(reader: NetReader, command: Command, reqLine: seq<byte>)
    returns (document: seq<byte>, framing: Framing)
    requires reader.Valid() && reqLine == reader.sock.stream[..reader.Pos()]
    modifies reader, reader.sock, reader.data
    ensures reader.Valid() && framing == HeadersFrom(reader.sock.stream, old(reader.Pos()), command, -1)
    ensures framing.Framed? ==> reader.Pos() == framing.end && document == reader.sock.stream[..framing.end]
  {
    ghost var s := reader.sock.stream;
    document := reqLine;
    var contentLength := -1;
    while true
      invariant reader.Valid() && document == s[..reader.Pos()]
      invariant HeadersFrom(s, old(reader.Pos()), command, -1) == HeadersFrom(s, reader.Pos(), command, contentLength)
      decreases |s| - reader.Pos()
    {
      hide ContentLengthOf, NetReader.Valid, LineOf;
      reader.ReaderFacts();
      ghost var p := reader.Pos();
      var line, newlineNotFound := reader.GetLine();
      reader.ReaderFacts();
      if newlineNotFound {
        return document, Bad(MalformedLine);
      }
      if contentLength < 0 {
        var n := ContentLengthOf(line);
        if n.None? {
          return document, Bad(MalformedLine);
        }
        contentLength := n.value;
      }
      document := document + line;
      assert s[..p] + s[p..reader.Pos()] == s[..reader.Pos()];
      if IsBlankLine(line) {
        if contentLength < 0 && (command.Post? || command.MPost?) {
          return document, Bad(LengthRequired);
        }
        return document, Framed(command, |document|, contentLength);
      }
    }
  }

  // The body, three bytes at a time.
  method ReadBodyOf(reader: NetReader, length: int, head: seq<byte>) returns (document: seq<byte>)
    requires reader.Valid() && head == reader.sock.stream[..reader.Pos()]
    modifies reader, reader.sock, reader.data
    ensures reader.Valid() && old(reader.Pos()) <= reader.Pos() && document == reader.sock.stream[..reader.Pos()]
    ensures ReadsBody(reader.sock.stream, old(reader.Pos()), length, reader.Pos())
  {
    ghost var s, start := reader.sock.stream, reader.Pos();
    document := head;
    if length > 0 {
      var totalBytesRead := 0;
      while true
        invariant reader.Valid() && start <= reader.Pos() && document == s[..reader.Pos()]
        invariant totalBytesRead == reader.Pos() - start < length
        decreases |s| - reader.Pos()
      {
        hide NetReader.Valid;
        reader.ReaderFacts();
        ghost var p := reader.Pos();
        var bytes := reader.ReadData(BUFSIZE);
        reader.ReaderFacts();
        assert s[..p] + s[p..reader.Pos()] == s[..reader.Pos()];
        document := document + bytes;
        totalBytesRead := totalBytesRead + |bytes|;
        if bytes == [] || totalBytesRead >= length {
          break;
        }
      }
    }
  }

  // For every fragmentation of the reads: the document is an exact prefix of the stream, the
  // request line and the headers up to the first blank line, and then the body.
  method ReadRequest(sock: Socket) returns (outcome: Outcome)
    requires sock.pos == 0
    modifies sock
    ensures var framing := FramingOf(sock.stream);
      match outcome
      case Refused(failure) => framing == Bad(failure)
      case Request(command, document) =>
        && framing.Framed? && command == framing.command && |document| <= |sock.stream|
        && document == sock.stream[..|document|] && ReadsBody(sock.stream, framing.end, framing.length, |document|)
  {
    hide HeadersFrom, LineOf, CommandOf, MatchNoCase;
    var reader := new NetReader(sock);
    var reqLine, newlineNotFound := reader.GetLine();
    if newlineNotFound {
      return Refused(MalformedLine);
    }
    var command := CommandOf(reqLine);
    if command.None? {
      return Refused(NotImplemented);
    }
    var document, framing := ReadHeaders(reader, command.value, reqLine);
    if framing.Bad? {
      return Refused(framing.failure);
    }
    document := ReadBodyOf(reader, framing.length, document);
    return Request(framing.command, document);
  }
}
