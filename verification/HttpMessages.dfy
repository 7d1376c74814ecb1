// What comes out of a well-formed response: the header lines unfolded, and the body however it
// is announced (sections 2.2 and 3.6.1 of RFC 2616).
module HttpMessages {
  import opened Bytes
  import opened Escape
  import opened Numbers
  import opened HttpResponse
  import opened Letters
  import opened StrToLong

  const BLANK: seq<byte> := [CR, LF]

  // One line with the line feed only at its end.
  predicate IsLine(line: seq<byte>) {
    && 0 < |line| < SOCKET_BUFFER_SIZE && line[|line| - 1] == LF
    && forall k :: 0 <= k < |line| - 1 ==> line[k] != LF
  }

  // A header line, or a continuation of one.
  predicate IsHeader(line: seq<byte>) {
    IsLine(line) && EndsCRLF(line) && |line| > 2
  }

  predicate AreHeaders(lines: seq<seq<byte>>) {
    forall k :: 0 <= k < |lines| ==> IsHeader(lines[k])
  }

  function Joined(lines: seq<seq<byte>>): seq<byte> {
    if lines == [] then [] else lines[0] + Joined(lines[1..])
  }

  // The lines without the line ends that are followed by white space.
  function Unfold(lines: seq<seq<byte>>): seq<byte> {
    if lines == [] then []
    else
      var folded := |lines| > 1 && lines[1] != [] && lines[1][0] in {9, 32} && |lines[0]| >= 2;
      (if folded then lines[0][..|lines[0]| - 2] else lines[0]) + Unfold(lines[1..])
  }

  // The length announced by the lines that are no continuations; the first line is looked at too.
  function Announced(lines: seq<seq<byte>>, length: int, first: bool): int {
    if lines == [] then if length == NO_CONTENT then 0 else length
    else Announced(lines[1..], if Continues(lines[0]) && !first then length else LengthAfter(length, lines[0]), false)
  }

  lemma {:induction false} LineEndIs(s: seq<byte>, p: nat, line: seq<byte>, max: nat)
    requires HasAt(s, p, line) && 0 < |line| <= max && line[|line| - 1] == LF
    requires forall k :: 0 <= k < |line| - 1 ==> line[k] != LF
    ensures LineEnd(s, p, max) == p + |line|
    decreases max
  {
    HasAtHead(s, p, line);
    if |line| > 1 {
      assert forall k :: 0 <= k < |line| - 2 ==> line[1..][k] == line[k + 1];
      LineEndIs(s, p + 1, line[1..], max - 1);
    }
  }

  lemma NextLineIs(s: seq<byte>, p: nat, line: seq<byte>)
    requires HasAt(s, p, line) && IsLine(line)
    ensures p + |line| <= |s| && NextLine(s, p) == p + |line| && s[p..p + |line|] == line
  {
    LineEndIs(s, p, line, SOCKET_BUFFER_SIZE - 1);
  }

  // The headers after some well-formed lines.
  function AfterLines(h: Head, lines: seq<seq<byte>>): Head
    decreases lines
  {
    if lines == [] then h else AfterLines(WithLine(h, lines[0]), lines[1..])
  }

  // The last buffer is a whole header line, or there is none.
  ghost predicate Whole(h: Head) {
    || h.buffers == []
    || (EndsCRLF(Last(h.buffers)) && forall k :: 0 <= k < |Last(h.buffers)| - 1 ==> Last(h.buffers)[k] != LF)
  }

  // A header line is never the blank one, and is looked at unless it is a continuation.
  lemma OneHeader(h: Head, line: seq<byte>)
    requires Whole(h) && IsHeader(line)
    ensures Whole(WithLine(h, line)) && WithLine(h, line).buffers != [] && Last(WithLine(h, line).buffers) == line
    ensures !IsBlank(h, line)
    ensures WithLine(h, line).length == if Continues(line) && h.buffers != [] then h.length
      else LengthAfter(h.length, line)
    ensures !(Continues(line) && h.buffers != [] && !EndsCRLF(Last(h.buffers)))
  {
    hide LengthAfter;
  }

  lemma BlankEnds(h: Head)
    requires Whole(h)
    ensures IsBlank(h, BLANK) && WithLine(h, BLANK).buffers == h.buffers + [BLANK]
    ensures WithLine(h, BLANK).length == h.length
    ensures WithLine(h, BLANK).total == h.total + 2
  {
    assert !Continues(BLANK);
    BlankHasNoName();
    hide LengthAfter;
    LengthSame(h.length);
  }

  lemma BlankHasNoName()
    ensures !MatchNoCase(BLANK, 0, CONTENT) && !MatchNoCase(BLANK, 0, CHUNKED) && !MatchNoCase(BLANK, 0, CONTENT_LENGTH)
  {
    assert Lower(At(BLANK, 0 + 0)) == CR;
    assert CONTENT[0] != CR && CHUNKED[0] != CR && CONTENT_LENGTH[0] == CONTENT[0];
  }

  lemma LengthSame(length: int)
    requires !MatchNoCase(BLANK, 0, CONTENT) && !MatchNoCase(BLANK, 0, CHUNKED)
    requires !MatchNoCase(BLANK, 0, CONTENT_LENGTH)
    ensures LengthAfter(length, BLANK) == length
  {
    hide MatchNoCase;
  }

  function Settled(length: int): int {
    if length == NO_CONTENT then 0 else length
  }

  // getHeaders reads the lines, and stops behind the blank one.
  lemma {:induction false} HeadersAre(s: seq<byte>, p: nat, h: Head, lines: seq<seq<byte>>)
    requires Whole(h) && AreHeaders(lines) && HasAt(s, p, Joined(lines) + BLANK)
    ensures var g := AfterLines(h, lines);
      Headers(s, p, h) == (Head(g.buffers + [BLANK], g.total + 2, Settled(g.length)), p + |Joined(lines)| + 2)
      && Whole(g) && Badly(s, p, h) == 0
    decreases lines
  {
    hide *;
    if lines == [] {
      LastLine(s, p, h);
    } else {
      var line := lines[0];
      FirstLine(s, p, lines);
      OneHeader(h, line);
      LineTurn(s, p, h, line);
      RestAreHeaders(lines);
      HeadersAre(s, p + |line|, WithLine(h, line), lines[1..]);
      AfterLinesStep(h, lines);
    }
  }

  lemma LastLine(s: seq<byte>, p: nat, h: Head)
    requires Whole(h) && HasAt(s, p, Joined([]) + BLANK)
    ensures var g := AfterLines(h, []);
      Headers(s, p, h) == (Head(g.buffers + [BLANK], g.total + 2, Settled(g.length)), p + |Joined([])| + 2)
      && Whole(g) && Badly(s, p, h) == 0
  {
    assert Joined([]) + BLANK == BLANK;
    NextLineIs(s, p, BLANK);
    BlankEnds(h);
    BlankTurn(s, p, h);
    hide WithLine, Headers, Badly, Whole;
  }

  lemma FirstLine(s: seq<byte>, p: nat, lines: seq<seq<byte>>)
    requires lines != [] && AreHeaders(lines) && HasAt(s, p, Joined(lines) + BLANK)
    ensures var line := lines[0];
      && IsHeader(line) && line != [] && p + |line| <= |s| && NextLine(s, p) == p + |line| && s[p..p + |line|] == line
      && HasAt(s, p + |line|, Joined(lines[1..]) + BLANK)
  {
    var line := lines[0];
    assert Joined(lines) + BLANK == line + (Joined(lines[1..]) + BLANK);
    HasAtSplit(s, p, line, Joined(lines[1..]) + BLANK);
    NextLineIs(s, p, line);
  }

  lemma RestAreHeaders(lines: seq<seq<byte>>)
    requires lines != [] && AreHeaders(lines)
    ensures AreHeaders(lines[1..]) && |Joined(lines)| == |lines[0]| + |Joined(lines[1..])|
  {
  }

  lemma AfterLinesStep(h: Head, lines: seq<seq<byte>>)
    requires lines != []
    ensures AfterLines(h, lines) == AfterLines(WithLine(h, lines[0]), lines[1..])
  {
    hide WithLine;
  }

  lemma BlankTurn(s: seq<byte>, p: nat, h: Head)
    requires p + 2 <= |s| && NextLine(s, p) == p + 2 && s[p..p + 2] == BLANK && IsBlank(h, BLANK)
    ensures Headers(s, p, h) == (WithLine(h, BLANK).(length := Settled(WithLine(h, BLANK).length)), p + 2)
    ensures Badly(s, p, h) == 0
  {
    hide WithLine, IsBlank, NextLine;
    assert !Continues(BLANK);
  }

  lemma LineTurn(s: seq<byte>, p: nat, h: Head, line: seq<byte>)
    requires line != [] && p + |line| <= |s| && NextLine(s, p) == p + |line| && s[p..p + |line|] == line
    requires !IsBlank(h, line)
    requires !(Continues(line) && h.buffers != [] && !EndsCRLF(Last(h.buffers)))
    ensures Headers(s, p, h) == Headers(s, p + |line|, WithLine(h, line))
    ensures Badly(s, p, h) == Badly(s, p + |line|, WithLine(h, line))
  {
    hide WithLine, IsBlank, NextLine, EndsCRLF, Continues;
  }

  // The buffers hold the unfolded lines; of the last one only what a continuation leaves.
  lemma {:induction false} BuffersUnfold(h: Head, lines: seq<seq<byte>>)
    requires Whole(h) && AreHeaders(lines)
    ensures var g := AfterLines(h, lines);
      && Whole(g) && (lines != [] || h.buffers != [] ==> g.buffers != [])
      && Concat(g.buffers) == (if h.buffers == [] then Unfold(lines)
                               else Concat(h.buffers[..|h.buffers| - 1]) + Unfold([Last(h.buffers)] + lines))
      && Settled(g.length) == Announced(lines, h.length, h.buffers == [])
    decreases lines
  {
    hide *;
    if lines == [] {
      NothingMore(h);
    } else {
      var line, rest := lines[0], lines[1..];
      RestAreHeaders(lines);
      FirstIsHeader(lines);
      OneHeader(h, line);
      AfterLinesStep(h, lines);
      BuffersUnfold(WithLine(h, line), rest);
      OneUnfolds(h, line, rest);
      AnnouncedStep(lines, h.length, h.buffers == []);
      assert lines == [line] + rest;
    }
  }

  lemma FirstIsHeader(lines: seq<seq<byte>>)
    requires lines != [] && AreHeaders(lines)
    ensures IsHeader(lines[0])
  {
  }

  lemma AnnouncedStep(lines: seq<seq<byte>>, length: int, first: bool)
    requires lines != []
    ensures Announced(lines, length, first)
      == Announced(lines[1..], if Continues(lines[0]) && !first then length else LengthAfter(length, lines[0]), false)
  {
  }

  lemma NothingMore(h: Head)
    requires Whole(h)
    ensures var g := AfterLines(h, []);
      && g == h && Concat(g.buffers) ==
        (if h.buffers == [] then Unfold([]) else Concat(h.buffers[..|h.buffers| - 1]) + Unfold([Last(h.buffers)] + []))
      && Settled(g.length) == Announced([], h.length, h.buffers == [])
  {
    if h.buffers != [] {
      assert [Last(h.buffers)] + [] == [Last(h.buffers)] && [Last(h.buffers)][1..] == [];
      assert Unfold([Last(h.buffers)]) == Last(h.buffers) + [] == Last(h.buffers);
    }
  }

  lemma OneUnfolds(h: Head, line: seq<byte>, rest: seq<seq<byte>>)
    requires Whole(h) && IsHeader(line)
    ensures var h' := WithLine(h, line);
      h'.buffers != [] && Concat(h'.buffers[..|h'.buffers| - 1]) + Unfold([line] + rest)
      == if h.buffers == [] then Unfold([line] + rest)
         else Concat(h.buffers[..|h.buffers| - 1]) + Unfold([Last(h.buffers)] + ([line] + rest))
  {
    hide LengthAfter;
    var h' := WithLine(h, line);
    var before := Unfolded(h.buffers, line);
    assert h'.buffers[..|h'.buffers| - 1] == before;
    if h.buffers == [] {
      assert Concat(before) == [];
    } else {
      var last, front := Last(h.buffers), h.buffers[..|h.buffers| - 1];
      var all := [last] + ([line] + rest);
      assert all[1..] == [line] + rest && all[1] == line;
      var cut := if Continues(line) then last[..|last| - 2] else last;
      assert before == front + [cut];
      ConcatSnoc(front, cut);
      assert Concat(front) + cut + Unfold([line] + rest) == Concat(front) + (cut + Unfold([line] + rest));
    }
  }

  // The whole response, for every stream that begins with well-formed headers.
  lemma ResponseIs(lines: seq<seq<byte>>, rest: seq<byte>)
    requires AreHeaders(lines)
    ensures var s := Joined(lines) + BLANK + rest;
      && Badly(s, 0, NO_HEADERS) == 0
      && Response(s) == Prepend(Unfold(lines) + BLANK,
        Body(s, |Joined(lines) + BLANK|, Announced(lines, NO_CONTENT, true)))
  {
    var s, p := Joined(lines) + BLANK + rest, |Joined(lines) + BLANK|;
    assert s[0..0 + p] == Joined(lines) + BLANK;
    HeadersAre(s, 0, NO_HEADERS, lines);
    BuffersUnfold(NO_HEADERS, lines);
    var g := AfterLines(NO_HEADERS, lines);
    ConcatSnoc(g.buffers, BLANK);
    FillsExactly(s);
    hide Headers, Body, Concat, Unfold, AfterLines, Announced, Badly, Joined;
  }

  // ---- chunked bodies

  predicate IsHexDigit(c: byte) {
    48 <= c <= 57 || 65 <= c <= 70 || 97 <= c <= 102
  }

  // The data with its length in hexadecimal before it, in either case, and what may stand behind that in
  // its line; and the line end behind the data.
  datatype Chunk = Chunk(upper: bool, extension: seq<byte>, data: seq<byte>, end: seq<byte>)

  function SizeLine(c: Chunk): seq<byte> {
    InBase(|c.data|, 16, c.upper) + c.extension
  }

  predicate IsChunk(c: Chunk) {
    && 0 < |c.data| <= LONG_MAX && c.extension != [] && !IsHexDigit(c.extension[0])
    && IsLine(SizeLine(c)) && IsLine(c.end)
  }

  // A zero, and what may stand behind it.
  predicate IsLastSize(last: seq<byte>) {
    && IsLine(last) && |last| > 1 && last[0] == 48 && !IsHexDigit(last[1]) && last[1] != 88 && last[1] != 120
  }

  lemma HexDigits(c: byte)
    ensures DigitValue(c, 16) >= 0 <==> IsHexDigit(c)
    ensures Lower(c) == 120 <==> c == 88 || c == 120
  {
  }

  lemma SizeRead(c: Chunk)
    requires IsChunk(c)
    ensures StrToL(SizeLine(c), 16) == Some(|c.data|)
  {
    hide InBase, StrToL, IsLine;
    HexDigits(c.extension[0]);
    NumberRead([], [], |c.data|, 16, c.upper, c.extension);
    assert [] + ([] + SizeLine(c)) == SizeLine(c);
  }

  lemma LastSizeRead(last: seq<byte>)
    requires IsLastSize(last)
    ensures StrToL(last, 16) == Some(0)
  {
    hide InBase, StrToL, IsLine;
    AllDigits(0, 16, false, 0);
    HexDigits(last[1]);
    NumberRead([], [], 0, 16, false, last[1..]);
    assert [] + ([] + ([48] + last[1..])) == last;
  }

  function Encoded(chunks: seq<Chunk>, last: seq<byte>): seq<byte> {
    if chunks == [] then last else SizeLine(chunks[0]) + (chunks[0].data + (chunks[0].end + Encoded(chunks[1..], last)))
  }

  function Data(chunks: seq<Chunk>): seq<byte> {
    if chunks == [] then [] else chunks[0].data + Data(chunks[1..])
  }

  // Decoding an encoded body gives the data back, whatever follows the last size line.
  lemma {:induction false} DecodesChunks(s: seq<byte>, p: nat, chunks: seq<Chunk>, last: seq<byte>)
    requires (forall k :: 0 <= k < |chunks| ==> IsChunk(chunks[k])) && IsLastSize(last)
    requires HasAt(s, p, Encoded(chunks, last))
    ensures Chunks(s, p) == Got(Data(chunks))
    decreases chunks
  {
    hide *;
    if chunks == [] {
      LastSizeRead(last);
      LastSizeParts(last);
      LastChunk(s, p, last);
    } else {
      var c := chunks[0];
      LastSizeParts(last);
      FirstChunk(s, p, chunks, last);
      DecodesChunks(s, p + |SizeLine(c)| + |c.data| + |c.end|, chunks[1..], last);
      DataStep(chunks);
    }
  }

  lemma DataStep(chunks: seq<Chunk>)
    requires chunks != []
    ensures Got(Data(chunks)) == Prepend(chunks[0].data, Got(Data(chunks[1..])))
  {
  }

  lemma LastSizeParts(last: seq<byte>)
    requires IsLastSize(last)
    ensures IsLine(last)
  {
  }

  lemma LastChunk(s: seq<byte>, p: nat, last: seq<byte>)
    requires IsLine(last) && StrToL(last, 16) == Some(0) && HasAt(s, p, Encoded([], last))
    ensures p <= |s| && Chunks(s, p) == Got(Data([]))
  {
    NextLineIs(s, p, last);
    hide StrToL, NextLine;
  }

  lemma FirstChunk(s: seq<byte>, p: nat, chunks: seq<Chunk>, last: seq<byte>)
    requires chunks != [] && (forall k :: 0 <= k < |chunks| ==> IsChunk(chunks[k])) && IsLine(last)
    requires HasAt(s, p, Encoded(chunks, last))
    ensures var c := chunks[0];
      var q := p + |SizeLine(c)| + |c.data| + |c.end|;
      && q <= |s| && Chunks(s, p) == Prepend(c.data, Chunks(s, q)) && HasAt(s, q, Encoded(chunks[1..], last))
  {
    hide *;
    var c, rest := chunks[0], Encoded(chunks[1..], last);
    ChunkParts(chunks, last);
    EncodedNonEmpty(chunks[1..], last);
    HasAtSplit(s, p, SizeLine(c), c.data + (c.end + rest));
    var e := p + |SizeLine(c)|;
    HasAtSplit(s, e, c.data, c.end + rest);
    HasAtSplit(s, e + |c.data|, c.end, rest);
    NextLineIs(s, p, SizeLine(c));
    NextLineIs(s, e + |c.data|, c.end);
    Stands(s, e, c.data);
    Stands(s, e + |c.data| + |c.end|, rest);
    ChunkTurn(s, p, e, |c.data|);
  }

  lemma Stands(s: seq<byte>, p: nat, data: seq<byte>)
    requires HasAt(s, p, data)
    ensures p + |data| <= |s| && s[p..p + |data|] == data
  {
  }

  lemma ChunkParts(chunks: seq<Chunk>, last: seq<byte>)
    requires chunks != [] && (forall k :: 0 <= k < |chunks| ==> IsChunk(chunks[k])) && IsLine(last)
    ensures var c, rest := chunks[0], Encoded(chunks[1..], last);
      && Encoded(chunks, last) == SizeLine(c) + (c.data + (c.end + rest))
      && IsLine(SizeLine(c)) && IsLine(c.end) && SizeLine(c) != [] && c.end != [] && last != [] && c.data != []
      && StrToL(SizeLine(c), 16) == Some(|c.data|)
  {
    hide StrToL, InBase;
    assert IsChunk(chunks[0]);
    SizeRead(chunks[0]);
  }

  lemma ChunkTurn(s: seq<byte>, p: nat, e: nat, n: nat)
    requires p < e && e + n < |s| && n > 0 && NextLine(s, p) == e && StrToL(s[p..e], 16) == Some(n)
    ensures Chunks(s, p) == Prepend(s[e..e + n], Chunks(s, NextLine(s, e + n)))
  {
    hide StrToL, NextLine;
  }

  lemma EncodedNonEmpty(chunks: seq<Chunk>, last: seq<byte>)
    requires last != [] && forall k :: 0 <= k < |chunks| ==> IsChunk(chunks[k])
    ensures Encoded(chunks, last) != []
  {
    hide StrToL;
    if chunks != [] {
      assert IsChunk(chunks[0]);
    }
  }

  lemma ChunkedBody(lines: seq<seq<byte>>, chunks: seq<Chunk>, last: seq<byte>, trailer: seq<byte>)
    requires AreHeaders(lines) && Announced(lines, NO_CONTENT, true) == IS_CHUNKED
    requires (forall k :: 0 <= k < |chunks| ==> IsChunk(chunks[k])) && IsLastSize(last)
    ensures Response(Joined(lines) + BLANK + (Encoded(chunks, last) + trailer)) ==
      Got(Unfold(lines) + BLANK + Data(chunks))
  {
    hide *;
    var head, body := Joined(lines) + BLANK, Encoded(chunks, last);
    ResponseIs(lines, body + trailer);
    BodyThere(head, body, trailer);
    DecodesChunks(head + (body + trailer), |head|, chunks, last);
    ChunksPrepended(head + (body + trailer), |head|, Unfold(lines) + BLANK, Data(chunks));
  }

  lemma BodyThere(head: seq<byte>, body: seq<byte>, trailer: seq<byte>)
    ensures HasAt(head + (body + trailer), |head|, body)
  {
    var s := head + (body + trailer);
    assert s[|head|..|head| + |body|] == body;
  }

  lemma ChunksPrepended(s: seq<byte>, p: nat, head: seq<byte>, data: seq<byte>)
    requires p <= |s| && Chunks(s, p) == Got(data)
    ensures Prepend(head, Body(s, p, IS_CHUNKED)) == Got(head + data)
  {
    hide Chunks;
  }

  lemma CountedBody(lines: seq<seq<byte>>, body: seq<byte>, more: seq<byte>)
    requires AreHeaders(lines) && Announced(lines, NO_CONTENT, true) == |body|
    ensures Response(Joined(lines) + BLANK + (body + more)) == Got(Unfold(lines) + BLANK + body)
  {
    var s, p := Joined(lines) + BLANK + (body + more), |Joined(lines) + BLANK|;
    ResponseIs(lines, body + more);
    assert s[p..] == body + more && (body != [] ==> s[p..p + |body|] == body);
    hide Response, Unfold, Joined;
    if more == [] {
      assert body + more == body;
    }
  }

  lemma OpenBody(lines: seq<seq<byte>>, body: seq<byte>)
    requires AreHeaders(lines) && Announced(lines, NO_CONTENT, true) == UNKNOWN_LENGTH
    ensures Response(Joined(lines) + BLANK + body) == Got(Unfold(lines) + BLANK + body)
  {
    var s, p := Joined(lines) + BLANK + body, |Joined(lines) + BLANK|;
    ResponseIs(lines, body);
    assert s[p..] == body;
    hide Response, Unfold, Joined;
  }

  // ---- what announces a body

  // A header that neither gives a length nor says that the body is chunked.
  predicate IsOther(line: seq<byte>) {
    !Begins(line, CONTENT_LENGTH) && !Begins(line, CHUNKED)
  }

  predicate AreOthers(lines: seq<seq<byte>>) {
    forall k :: 0 <= k < |lines| ==> IsOther(lines[k])
  }

  lemma KeysAre(line: seq<byte>)
    ensures MatchNoCase(line, 0, CONTENT) <==> Begins(line, CONTENT)
    ensures MatchNoCase(line, 0, CONTENT_LENGTH) <==> Begins(line, CONTENT_LENGTH)
    ensures MatchNoCase(line, 0, CHUNKED) <==> Begins(line, CHUNKED)
    ensures Begins(line, CONTENT_LENGTH) ==> Begins(line, CONTENT) && !Begins(line, CHUNKED)
    ensures Begins(line, CONTENT) ==> !Begins(line, CHUNKED)
    ensures Begins(line, CONTENT) || Begins(line, CHUNKED) ==> !Continues(line)
  {
    hide MatchNoCase;
    MatchIsBegins(line, CONTENT);
    MatchIsBegins(line, CONTENT_LENGTH);
    MatchIsBegins(line, CHUNKED);
    BeginsOnce(line, CONTENT, CHUNKED, 0);
    if Begins(line, CONTENT_LENGTH) {
      assert line[..|CONTENT|] == line[..|CONTENT_LENGTH|][..|CONTENT|];
    }
    if Begins(line, CONTENT) {
      LetterAt(line, CONTENT, 0);
    }
    if Begins(line, CHUNKED) {
      LetterAt(line, CHUNKED, 0);
    }
  }

  // A header with a length in decimal, behind white space, and what may stand behind it.
  function LengthLine(name: seq<byte>, blanks: seq<byte>, n: nat, behind: seq<byte>): seq<byte> {
    name + (blanks + (Decimal(n) + behind))
  }

  predicate IsLengthLine(name: seq<byte>, blanks: seq<byte>, n: nat, behind: seq<byte>) {
    SameLetters(name, CONTENT_LENGTH) && AllBlank(blanks) && n <= LONG_MAX && behind != [] && !(48 <= behind[0] <= 57)
  }

  lemma LengthRead(name: seq<byte>, blanks: seq<byte>, n: nat, behind: seq<byte>, length: int)
    requires IsLengthLine(name, blanks, n, behind) && length != IS_CHUNKED
    ensures var line := LengthLine(name, blanks, n, behind);
      LengthAfter(length, line) == n && !Continues(line)
  {
    hide InBase, MatchNoCase, StrToL, Begins, Continues;
    var line := LengthLine(name, blanks, n, behind);
    TextBegins(name, CONTENT_LENGTH, blanks + (Decimal(n) + behind));
    KeysAre(line);
    NumberRead(blanks, [], n, 10, false, behind);
    assert line[|CONTENT_LENGTH|..] == blanks + ([] + (Decimal(n) + behind));
  }

  // What the other headers make of the length.
  lemma OtherAfter(length: int, line: seq<byte>)
    requires IsOther(line)
    ensures LengthAfter(length, line) ==
      if length == NO_CONTENT && Begins(line, CONTENT) then UNKNOWN_LENGTH else length
  {
    hide MatchNoCase, Begins;
    KeysAre(line);
  }

  lemma {:induction false} OthersAfter(lines: seq<seq<byte>>, length: int, first: bool)
    requires AreOthers(lines) && length != NO_CONTENT
    ensures Announced(lines, length, first) == length
    decreases |lines|
  {
    hide IsOther, LengthAfter, Continues;
    if lines != [] {
      assert IsOther(lines[0]);
      OtherAfter(length, lines[0]);
      OthersAfter(lines[1..], length, false);
    }
  }

  // The headers before the one that gives the length.
  lemma {:induction false} LengthAnnounced(before: seq<seq<byte>>, line: seq<byte>, n: nat, behind: seq<seq<byte>>,
                                           length: int, first: bool)
    requires AreOthers(before) && AreOthers(behind) && (length == NO_CONTENT || length == UNKNOWN_LENGTH)
    requires !Continues(line)
    requires LengthAfter(NO_CONTENT, line) == n && LengthAfter(UNKNOWN_LENGTH, line) == n
    ensures Announced(before + ([line] + behind), length, first) == n
    decreases |before|
  {
    hide IsOther, LengthAfter, Continues;
    var lines := before + ([line] + behind);
    if before == [] {
      assert lines[0] == line && lines[1..] == behind;
      OthersAfter(behind, n, false);
    } else {
      assert lines[0] == before[0] && lines[1..] == before[1..] + ([line] + behind);
      assert IsOther(before[0]);
      OtherAfter(length, before[0]);
      LengthAnnounced(before[1..], line, n, behind,
        if Continues(before[0]) && !first then length else LengthAfter(length, before[0]), false);
    }
  }

  // Once a body is chunked no header changes that.
  lemma {:induction false} ChunkedStays(lines: seq<seq<byte>>, first: bool)
    ensures Announced(lines, IS_CHUNKED, first) == IS_CHUNKED
    decreases |lines|
  {
    hide MatchNoCase, Continues, StrToL;
    if lines != [] {
      ChunkedStays(lines[1..], false);
    }
  }

  lemma {:induction false} ChunkedAnnounced(before: seq<seq<byte>>, line: seq<byte>, behind: seq<seq<byte>>,
                                            length: int, first: bool)
    requires Begins(line, CHUNKED)
    ensures Announced(before + ([line] + behind), length, first) == IS_CHUNKED
    decreases |before|
  {
    var lines := before + ([line] + behind);
    KeysAre(line);
    hide MatchNoCase, Begins, Continues, StrToL;
    if before == [] {
      assert lines[0] == line && lines[1..] == behind;
      ChunkedStays(behind, false);
    } else {
      hide LengthAfter;
      assert lines[0] == before[0] && lines[1..] == before[1..] + ([line] + behind);
      ChunkedAnnounced(before[1..], line, behind,
        if Continues(before[0]) && !first then length else LengthAfter(length, before[0]), false);
    }
  }

  // ---- responses by their text

  // A response with a length comes back with as many bytes of body: the header that gives it may have
  // any case, and any headers around it that do not give another or say that the body is chunked.
  lemma CountedResponse(before: seq<seq<byte>>, name: seq<byte>, blanks: seq<byte>, end: seq<byte>,
                        behind: seq<seq<byte>>, body: seq<byte>, more: seq<byte>)
    requires IsLengthLine(name, blanks, |body|, end) && AreOthers(before) && AreOthers(behind)
    requires AreHeaders(before + ([LengthLine(name, blanks, |body|, end)] + behind))
    ensures var lines := before + ([LengthLine(name, blanks, |body|, end)] + behind);
      Response(Joined(lines) + BLANK + (body + more)) == Got(Unfold(lines) + BLANK + body)
  {
    hide *;
    var line := LengthLine(name, blanks, |body|, end);
    Lengths();
    LengthRead(name, blanks, |body|, end, NO_CONTENT);
    LengthRead(name, blanks, |body|, end, UNKNOWN_LENGTH);
    LengthAnnounced(before, line, |body|, behind, NO_CONTENT, true);
    CountedBody(before + ([line] + behind), body, more);
  }

  lemma Lengths()
    ensures NO_CONTENT != IS_CHUNKED && UNKNOWN_LENGTH != IS_CHUNKED
  {
  }

  // In bytes, the header Content-Length: 12 .
  const TWELVE: seq<byte> :=
    [67, 111, 110, 116, 101, 110, 116, 45, 76, 101, 110, 103, 116, 104, 58, SPACE, 49, 50, CR, LF]

  lemma TwelveExample(body: seq<byte>, more: seq<byte>)
    requires |body| == 12
    ensures Response(TWELVE + BLANK + (body + more)) == Got(TWELVE + BLANK + body)
  {
    hide *;
    var name := TwelveIs();
    CountedResponse([], name, [SPACE], BLANK, [], body, more);
  }

  lemma TwelveIs() returns (name: seq<byte>)
    ensures TWELVE == LengthLine(name, [SPACE], 12, BLANK) && IsLengthLine(name, [SPACE], 12, BLANK)
    ensures [] + ([TWELVE] + []) == [TWELVE] && AreOthers([]) && AreHeaders([TWELVE])
    ensures Joined([TWELVE]) == TWELVE && Unfold([TWELVE]) == TWELVE
  {
    name := TWELVE[..15];
    assert Decimal(1) == [49] && Decimal(12) == [49] + [50];
    assert IsHeader(TWELVE);
    var one := [TWELVE];
    assert one[1..] == [] && Joined(one) == TWELVE + [] && Unfold(one) == TWELVE + [];
  }

  // A chunked response comes back as its unfolded headers and its data, whatever the other headers are.
  lemma ChunkedResponse(before: seq<seq<byte>>, line: seq<byte>, behind: seq<seq<byte>>, chunks: seq<Chunk>,
                        last: seq<byte>, trailer: seq<byte>)
    requires Begins(line, CHUNKED) && AreHeaders(before + ([line] + behind))
    requires (forall k :: 0 <= k < |chunks| ==> IsChunk(chunks[k])) && IsLastSize(last)
    ensures var lines := before + ([line] + behind);
      Response(Joined(lines) + BLANK + (Encoded(chunks, last) + trailer)) == Got(Unfold(lines) + BLANK + Data(chunks))
  {
    hide *;
    ChunkedAnnounced(before, line, behind, NO_CONTENT, true);
    ChunkedBody(before + ([line] + behind), chunks, last, trailer);
  }

  // Without a length, but with some content header, everything up to the end is the body.
  lemma OpenResponse(before: seq<seq<byte>>, line: seq<byte>, behind: seq<seq<byte>>, body: seq<byte>)
    requires Begins(line, CONTENT) && AreOthers(before) && IsOther(line) && AreOthers(behind)
    requires AreHeaders(before + ([line] + behind))
    ensures var lines := before + ([line] + behind);
      Response(Joined(lines) + BLANK + body) == Got(Unfold(lines) + BLANK + body)
  {
    hide *;
    OpenAnnounced(before, line, behind, NO_CONTENT, true);
    OpenBody(before + ([line] + behind), body);
  }

  lemma {:induction false} OpenAnnounced(before: seq<seq<byte>>, line: seq<byte>, behind: seq<seq<byte>>, length: int,
                                         first: bool)
    requires Begins(line, CONTENT) && AreOthers(before) && IsOther(line) && AreOthers(behind)
    requires length == NO_CONTENT || length == UNKNOWN_LENGTH
    ensures Announced(before + ([line] + behind), length, first) == UNKNOWN_LENGTH
    decreases |before|
  {
    KeysAre(line);
    hide IsOther, LengthAfter, Continues, MatchNoCase, Begins;
    var lines := before + ([line] + behind);
    if before == [] {
      assert lines[0] == line && lines[1..] == behind;
      OtherAfter(length, line);
      OthersAfter(behind, UNKNOWN_LENGTH, false);
    } else {
      assert lines[0] == before[0] && lines[1..] == before[1..] + ([line] + behind);
      assert IsOther(before[0]);
      OtherAfter(length, before[0]);
      OpenAnnounced(before[1..], line, behind,
        if Continues(before[0]) && !first then length else LengthAfter(length, before[0]), false);
    }
  }

  // Without any content header there is no body, whatever follows.
  lemma EmptyResponse(lines: seq<seq<byte>>, more: seq<byte>)
    requires AreHeaders(lines)
    requires forall k :: 0 <= k < |lines| ==> !Begins(lines[k], CONTENT) && !Begins(lines[k], CHUNKED)
    ensures Response(Joined(lines) + BLANK + more) == Got(Unfold(lines) + BLANK)
  {
    hide *;
    NothingAnnounced(lines, true);
    assert [] + more == more;
    CountedBody(lines, [], more);
    assert Unfold(lines) + BLANK + [] == Unfold(lines) + BLANK;
  }

  lemma {:induction false} NothingAnnounced(lines: seq<seq<byte>>, first: bool)
    requires forall k :: 0 <= k < |lines| ==> !Begins(lines[k], CONTENT) && !Begins(lines[k], CHUNKED)
    ensures Announced(lines, NO_CONTENT, first) == 0
    decreases |lines|
  {
    hide LengthAfter, Continues, MatchNoCase, Begins;
    if lines != [] {
      KeysAre(lines[0]);
      OtherAfter(NO_CONTENT, lines[0]);
      NothingAnnounced(lines[1..], false);
    }
  }

  // ---- where reading goes wrong

  // A chunk whose size line holds a negative number makes the code pass a negative count to recv.
  lemma NegativeSize(before: seq<seq<byte>>, line: seq<byte>, behind: seq<seq<byte>>, blanks: seq<byte>, n: nat,
                     upper: bool, extension: seq<byte>, rest: seq<byte>)
    requires Begins(line, CHUNKED) && AreHeaders(before + ([line] + behind)) && AllBlank(blanks)
    requires n > 0 && extension != [] && !IsHexDigit(extension[0])
    requires IsLine(blanks + ([MINUS] + (InBase(n, 16, upper) + extension)))
    ensures var lines, sizeLine := before + ([line] + behind), blanks + ([MINUS] + (InBase(n, 16, upper) + extension));
      Response(Joined(lines) + BLANK + (sizeLine + rest)) == Fault
  {
    hide *;
    var lines, sizeLine := before + ([line] + behind), blanks + ([MINUS] + (InBase(n, 16, upper) + extension));
    ChunkedAnnounced(before, line, behind, NO_CONTENT, true);
    NegativeRead(blanks, n, upper, extension);
    var head := Joined(lines) + BLANK;
    ResponseIs(lines, sizeLine + rest);
    FirstSize(head, sizeLine, rest);
    ChunkedFault(head + (sizeLine + rest), |head|, Unfold(lines) + BLANK);
  }

  lemma NegativeRead(blanks: seq<byte>, n: nat, upper: bool, extension: seq<byte>)
    requires AllBlank(blanks) && n > 0 && extension != [] && !IsHexDigit(extension[0])
    ensures var size := StrToL(blanks + ([MINUS] + (InBase(n, 16, upper) + extension)), 16);
      size.Some? && size.value < 0
  {
    hide InBase, StrToL;
    HexDigits(extension[0]);
    NumberRead(blanks, [MINUS], n, 16, upper, extension);
  }

  lemma FirstSize(head: seq<byte>, sizeLine: seq<byte>, rest: seq<byte>)
    requires IsLine(sizeLine)
    ensures var s := head + (sizeLine + rest);
      && NextLine(s, |head|) == |head| + |sizeLine|
      && SizeIn(s, |head|, |head| + |sizeLine|) == SizeIn(sizeLine, 0, |sizeLine|)
      && SizeIn(sizeLine, 0, |sizeLine|) == if StrToL(sizeLine, 16).Some? then StrToL(sizeLine, 16).value else 0
  {
    hide StrToL, LineEnd, NextLine;
    var s, p := head + (sizeLine + rest), |head|;
    assert s[p..p + |sizeLine|] == sizeLine == sizeLine[0..|sizeLine|];
    NextLineIs(s, p, sizeLine);
  }

  lemma ChunkedFault(s: seq<byte>, p: nat, head: seq<byte>)
    requires p <= |s| && SizeIn(s, p, NextLine(s, p)) < 0
    ensures Prepend(head, Body(s, p, IS_CHUNKED)) == Fault
  {
    hide SizeIn, NextLine;
  }

  const CHUNKED_LINE: seq<byte> := CHUNKED + BLANK
  const MINUS_FIVE: seq<byte> := [MINUS, 53, CR, LF]

  lemma NegativeSizeExample(rest: seq<byte>)
    ensures Response(Joined([CHUNKED_LINE]) + BLANK + (MINUS_FIVE + rest)) == Fault
  {
    ChunkedHeader();
    MinusFive();
    hide *;
    NegativeSize([], CHUNKED_LINE, [], [], 5, false, BLANK, rest);
  }

  lemma MinusFive()
    ensures [] + ([MINUS] + (InBase(5, 16, false) + BLANK)) == MINUS_FIVE && IsLine(MINUS_FIVE)
    ensures BLANK != [] && !IsHexDigit(BLANK[0]) && AllBlank([])
  {
  }

  lemma ChunkedHeader()
    ensures [] + ([CHUNKED_LINE] + []) == [CHUNKED_LINE] && AreHeaders([CHUNKED_LINE])
    ensures Begins(CHUNKED_LINE, CHUNKED)
  {
    assert IsHeader(CHUNKED_LINE);
    assert CHUNKED_LINE[..|CHUNKED|] == CHUNKED;
  }

  // A content length of minus one is the value that stands for a chunked body.
  const MINUS_ONE: seq<byte> := CONTENT_LENGTH + [SPACE, MINUS, 49] + BLANK

  lemma MinusOneIsChunked()
    ensures AreHeaders([MINUS_ONE]) && Announced([MINUS_ONE], NO_CONTENT, true) == IS_CHUNKED
  {
    var line, number := MINUS_ONE, [SPACE, MINUS, 49, CR, LF];
    assert IsHeader(line);
    assert MatchNoCase(line, 0, CONTENT_LENGTH);
    assert !MatchNoCase(line, 0, CHUNKED) by { assert Lower(At(line, 0 + 0)) != CHUNKED[0]; }
    assert line[|CONTENT_LENGTH|..] == number;
    MinusOne(number);
    hide StrToL, MatchNoCase;
    var lines := [line];
    assert lines[1..] == [];
  }

  lemma MinusOne(s: seq<byte>)
    requires s == [SPACE, MINUS, 49, CR, LF]
    ensures StrToL(s, 10) == Some(-1)
  {
    assert Blanks(s, 1) == 1;
    assert Blanks(s, 0) == 1 && Prefix(s, 1, 10) == 2;
    assert DigitValue(s[2], 10) == 1 && DigitValue(s[3], 10) == -1;
    assert Digits(s, 3, 10, 1) == 1;
    assert Digits(s, 2, 10, 0) == 1;
  }

  // The body behind it is decoded.
  lemma MinusOneExample(chunks: seq<Chunk>, last: seq<byte>, trailer: seq<byte>)
    requires (forall k :: 0 <= k < |chunks| ==> IsChunk(chunks[k])) && IsLastSize(last)
    ensures Response(Joined([MINUS_ONE]) + BLANK + (Encoded(chunks, last) + trailer))
      == Got(Unfold([MINUS_ONE]) + BLANK + Data(chunks))
  {
    MinusOneIsChunked();
    hide *;
    ChunkedBody([MINUS_ONE], chunks, last, trailer);
  }

  // A line a, a folded line behind it, and the blank line: the first ends without CRLF.
  const BADLY_FOLDED: seq<byte> := [97, LF, SPACE, 98, CR, LF, CR, LF]

  lemma FoldedParts(one: seq<byte>, two: seq<byte>)
    requires one == [97, LF] && two == [SPACE, 98, CR, LF]
    ensures HasAt(BADLY_FOLDED, 0, one) && HasAt(BADLY_FOLDED, 2, two) && HasAt(BADLY_FOLDED, 6, BLANK)
    ensures |BADLY_FOLDED| == 8
  {
    assert BADLY_FOLDED == one + (two + BLANK);
    var s := one + (two + BLANK);
    assert s[0..|s|] == s;
    HasAtSplit(s, 0, one, two + BLANK);
    HasAtSplit(s, 2, two, BLANK);
  }

  lemma BadlyFoldedExample()
    ensures Badly(BADLY_FOLDED, 0, NO_HEADERS) == 1 && Response(BADLY_FOLDED) == Fault
  {
    hide LengthAfter, LineEnd;
    var s: seq<byte> := BADLY_FOLDED;
    var one, two: seq<byte> := [97, LF], [SPACE, 98, CR, LF];
    FoldedParts(one, two);
    NextLineIs(s, 0, one);
    NextLineIs(s, 2, two);
    NextLineIs(s, 6, BLANK);
    var h1 := WithLine(NO_HEADERS, one);
    var h2 := WithLine(h1, two);
    assert h1.buffers == [one] && h2.buffers == [one] + [two];
    assert Last(h1.buffers) == one && Last(h2.buffers) == two;
    assert !IsBlank(NO_HEADERS, one) && !IsBlank(h1, two) && IsBlank(h2, BLANK);
    hide WithLine, IsBlank, NextLine;
    assert Badly(s, 6, h2) == 0;
    assert Badly(s, 2, h1) == 1;
  }
}
