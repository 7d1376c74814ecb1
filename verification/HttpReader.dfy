// Reading a response from a socket (src/genlib/http_client/http_client.c:1434-1447, 1505-1624,
// 1715-1737, 1789-1922). A read brings any part of what was asked for, one byte at least.
module HttpReader {
  import opened Bytes
  import opened Escape
  import opened HttpResponse

  class Socket {
    const stream: seq<byte>
    var pos: nat

    constructor (stream: seq<byte>)
      ensures this.stream == stream && pos == 0
    {
      this.stream := stream;
      pos := 0;
    }

    // read_timeout: between 1 and count bytes, or none at the end of the stream.
    method Read(count: nat) returns (data: seq<byte>)
      requires pos <= |stream| && count > 0
      modifies this
      ensures old(pos) <= pos <= |stream| && data == stream[old(pos)..pos] && |data| <= count
      ensures data == [] <==> old(pos) == |stream|
    {
      if pos == |stream| {
        return [];
      }
      var k: nat :| 1 <= k <= count && pos + k <= |stream|;
      data := stream[pos..pos + k];
      pos := pos + k;
    }

    // readLine, byte by byte.
    method ReadLine() returns (line: seq<byte>)
      requires pos <= |stream|
      modifies this
      ensures pos == NextLine(stream, old(pos)) && line == stream[old(pos)..pos]
    {
      line := [];
      var left := SOCKET_BUFFER_SIZE - 1;
      while left > 0
        invariant 0 <= left && old(pos) <= pos <= |stream| && line == stream[old(pos)..pos]
        invariant NextLine(stream, old(pos)) == LineEnd(stream, pos, left)
      {
        var c := Read(1);
        if c == [] {
          return;
        }
        line := line + c;
        left := left - 1;
        if c[0] == LF {
          return;
        }
      }
    }
  }

  // getHeaders: the list of buffers, the sum and the content length.
  method GetHeaders(sock: Socket) returns (buffers: seq<seq<byte>>, totalSize: int, contentLength: int)
    requires sock.pos == 0
    modifies sock
    ensures sock.pos <= |sock.stream|
    ensures (Head(buffers, totalSize, contentLength), sock.pos) == Headers(sock.stream, 0, NO_HEADERS)
  {
    buffers, totalSize, contentLength := [], 0, NO_CONTENT;
    while true
      invariant sock.pos <= |sock.stream|
      invariant Headers(sock.stream, 0, NO_HEADERS) ==
        Headers(sock.stream, sock.pos, Head(buffers, totalSize, contentLength))
      decreases |sock.stream| - sock.pos
    {
      hide MatchNoCase, StrToL, Headers;
      ghost var h, p := Head(buffers, totalSize, contentLength), sock.pos;
      HeadersStep(sock.stream, p, h);
      var line := sock.ReadLine();
      if line == [] {
        break;
      }
      totalSize := totalSize + |line|;
      if Continues(line) && buffers != [] {
        if EndsCRLF(Last(buffers)) {
          buffers := buffers[|buffers| - 1 := Last(buffers)[..|Last(buffers)| - 2]];
        }
        totalSize := totalSize - 2;
      }
      var blank := false;
      if buffers == [] || EndsCRLF(Last(buffers)) {
        if MatchNoCase(line, 0, CONTENT) && contentLength == NO_CONTENT {
          contentLength := UNKNOWN_LENGTH;
        }
        if MatchNoCase(line, 0, CHUNKED) {
          contentLength := IS_CHUNKED;
        }
        if MatchNoCase(line, 0, CONTENT_LENGTH) && contentLength != IS_CHUNKED {
          var n := if |CONTENT_LENGTH| <= |line| then StrToL(line[|CONTENT_LENGTH|..], 10) else None;
          contentLength := if n.Some? then n.value else 0;
        }
        blank := |line| == 2 && line[0] == CR;
      }
      buffers := buffers + [line];
      assert Head(buffers, totalSize, contentLength) == WithLine(h, line);
      if blank {
        break;
      }
    }
    if contentLength == NO_CONTENT {
      contentLength := 0;
    }
  }

  lemma HeadersStep(s: seq<byte>, p: nat, h: Head)
    requires p <= |s|
    ensures var e := NextLine(s, p);
      if e == p then Headers(s, p, h) == (h.(length := if h.length == NO_CONTENT then 0 else h.length), p)
      else
        var after := WithLine(h, s[p..e]);
        Headers(s, p, h) ==
          if IsBlank(h, s[p..e]) then (after.(length := if after.length == NO_CONTENT then 0 else after.length), e)
          else Headers(s, e, after)
  {
    hide WithLine, IsBlank, NextLine;
  }

  // What is still to come of the body; chunkSize is negative before the first size line.
  ghost function ToCome(s: seq<byte>, p: nat, contentLength: int, chunkSize: int): Outcome
    requires p <= |s|
  {
    if contentLength != IS_CHUNKED then Body(s, p, contentLength)
    else if chunkSize < 0 then Chunks(s, p)
    else if chunkSize == 0 then Chunks(s, NextLine(s, p))
    else if |s| - p <= chunkSize then Got(s[p..])
    else Prepend(s[p..p + chunkSize], Chunks(s, NextLine(s, p + chunkSize)))
  }

  // A size line, behind the line end of the chunk before it.
  method ReadChunkSize(sock: Socket, chunkSize: int) returns (size: int)
    requires sock.pos <= |sock.stream| && chunkSize <= 0
    modifies sock
    ensures old(sock.pos) <= sock.pos <= |sock.stream|
    ensures ToCome(sock.stream, old(sock.pos), IS_CHUNKED, chunkSize)
         == if size == 0 then Got([]) else if size < 0 then Fault else ToCome(sock.stream, sock.pos, IS_CHUNKED, size)
    ensures size > 0 ==> sock.pos > old(sock.pos)
  {
    hide *;
    ghost var s, p := sock.stream, sock.pos;
    if chunkSize == 0 {
      var end := sock.ReadLine();
      LineBounds(s, p);
    }
    ghost var q := sock.pos;
    var line := sock.ReadLine();
    SizeLine(s, q);
    ChunkBegins(s, p, chunkSize);
    size := 0;
    if line != [] {
      var n := StrToL(line, 16);
      if n.Some? {
        size := n.value;
      }
    }
  }

  lemma LineBounds(s: seq<byte>, p: nat)
    requires p <= |s|
    ensures p <= NextLine(s, p) <= |s|
  {
  }

  lemma ChunkBegins(s: seq<byte>, p: nat, chunkSize: int)
    requires p <= |s| && chunkSize <= 0
    ensures ToCome(s, p, IS_CHUNKED, chunkSize) == Chunks(s, if chunkSize < 0 then p else NextLine(s, p))
  {
    hide Chunks, NextLine;
  }

  lemma SizeLine(s: seq<byte>, p: nat)
    requires p <= |s|
    ensures var e := NextLine(s, p);
      && p <= e <= |s|
      && var n := StrToL(s[p..e], 16);
      var size := if e == p || n.None? then 0 else n.value;
      Chunks(s, p) == if size == 0 then Got([]) else if size < 0 then Fault else ToCome(s, e, IS_CHUNKED, size)
  {
    hide StrToL, LineEnd;
  }

  // The loop of read_http_response; a negative size of a chunk becomes the count of the next read.
  method ReadBody(sock: Socket, length: int, before: seq<seq<byte>>, sum: int)
    returns (buffers: seq<seq<byte>>, totalSize: int, fault: bool)
    requires sock.pos <= |sock.stream|
    modifies sock
    ensures Prepend(Concat(before), Body(sock.stream, old(sock.pos), length)) == if fault then Fault
      else Got(Concat(buffers))
    ensures totalSize - |Concat(buffers)| == sum - |Concat(before)| && totalSize >= sum
  {
    hide *;
    Constants();
    StartOfBody(sock.stream, sock.pos, length, Concat(before));
    buffers, totalSize, fault := before, sum, false;
    var contentLength, chunkSize, done := length, -1, length == 0;
    ghost var all := Prepend(Concat(before), Body(sock.stream, sock.pos, length));
    ghost var s := sock.stream;
    while !done
      invariant sock.pos <= |s|
      invariant all == if done then Got(Concat(buffers))
        else Prepend(Concat(buffers), ToCome(s, sock.pos, contentLength, chunkSize))
      invariant !done ==> contentLength != 0
      invariant totalSize - |Concat(buffers)| == sum - |Concat(before)| && totalSize >= sum
      decreases !done, |s| - sock.pos
    {
      if contentLength == IS_CHUNKED && chunkSize <= 0 {
        chunkSize := ReadChunkSize(sock, chunkSize);
        PrependEnds(Concat(buffers));
        if chunkSize == 0 {
          done := true;
          break;
        }
        if chunkSize < 0 {
          fault := true;
          return;
        }
      }
      var nextToRead := SOCKET_BUFFER_SIZE;
      if contentLength == IS_CHUNKED {
        if chunkSize < SOCKET_BUFFER_SIZE {
          nextToRead := chunkSize;
        }
      } else if contentLength > 0 {
        if contentLength < SOCKET_BUFFER_SIZE {
          nextToRead := contentLength;
        }
      }
      var data := ReadPart(sock, nextToRead, contentLength, chunkSize, Concat(buffers));
      ConcatSnoc(buffers, data);
      buffers := buffers + [data];
      if data != [] {
        if contentLength > 0 {
          contentLength := contentLength - |data|;
          if contentLength == 0 {
            done := true;
          }
        }
        if contentLength == IS_CHUNKED {
          chunkSize := chunkSize - |data|;
        }
        totalSize := totalSize + |data|;
      } else {
        done := true;
      }
    }
  }

  lemma PrependEnds(a: seq<byte>)
    ensures Prepend(a, Got([])) == Got(a) && Prepend(a, Fault) == Fault
  {
    assert a + [] == a;
  }

  lemma Constants()
    ensures IS_CHUNKED == -1 && SOCKET_BUFFER_SIZE == 5000
  {
  }

  // One read, at most up to the end of the body or of the chunk.
  method ReadPart(sock: Socket, count: nat, contentLength: int, chunkSize: int, ghost before: seq<byte>)
    returns (data: seq<byte>)
    requires sock.pos <= |sock.stream| && count > 0 && contentLength != 0
    requires (contentLength > 0 ==> count <= contentLength)
    requires contentLength == IS_CHUNKED ==> 0 < chunkSize && count <= chunkSize
    modifies sock
    ensures old(sock.pos) <= sock.pos <= |sock.stream| && |data| <= count
    ensures (data == [] ==> old(sock.pos) == |sock.stream|)
    ensures data != [] ==> sock.pos > old(sock.pos)
    ensures Prepend(before, ToCome(sock.stream, old(sock.pos), contentLength, chunkSize))
      == if data == [] || contentLength == |data| then Got(before + data)
         else Prepend(before + data,
           ToCome(sock.stream, sock.pos, if contentLength > 0 then contentLength - |data| else contentLength,
                                            if contentLength == IS_CHUNKED then chunkSize - |data| else chunkSize))
  {
    hide *;
    Constants();
    ghost var s, p := sock.stream, sock.pos;
    data := sock.Read(count);
    Arrives(s, p, contentLength, chunkSize, |data|);
    ghost var length := if contentLength > 0 then contentLength - |data| else contentLength;
    ghost var rest := if length == 0 then Got([])
      else ToCome(s, sock.pos, length, if contentLength == IS_CHUNKED then chunkSize - |data| else chunkSize);
    Grouped(before, data, rest);
    PrependEnds(before);
    PrependEnds(before + data);
    if data == [] {
      assert before + [] == before;
    }
  }

  // However many bytes arrive, they are the next ones, and the rest is still to come.
  lemma Arrives(s: seq<byte>, p: nat, contentLength: int, chunkSize: int, k: nat)
    requires p + k <= |s| && contentLength != 0 && (contentLength > 0 ==> k <= contentLength)
    requires contentLength == IS_CHUNKED ==> 0 < chunkSize && k <= chunkSize
    ensures var length := if contentLength > 0 then contentLength - k else contentLength;
      ToCome(s, p, contentLength, chunkSize)
      == Prepend(s[p..p + k],
                 if length == 0 then Got([])
                   else ToCome(s, p + k, length, if contentLength == IS_CHUNKED then chunkSize - k else chunkSize))
    ensures p == |s| ==> ToCome(s, p, contentLength, chunkSize) == Got([])
  {
    if contentLength == IS_CHUNKED {
      ChunkArrives(s, p, chunkSize, k);
    } else if contentLength > 0 {
      hide Chunks;
      var e := if |s| - p <= contentLength then |s| else p + contentLength;
      assert s[p..e] == s[p..p + k] + s[p + k..e];
    } else {
      hide Chunks;
      assert s[p..] == s[p..p + k] + s[p + k..];
    }
  }

  lemma ChunkArrives(s: seq<byte>, p: nat, chunkSize: int, k: nat)
    requires p + k <= |s| && 0 < chunkSize && k <= chunkSize
    ensures ToCome(s, p, IS_CHUNKED, chunkSize) == Prepend(s[p..p + k], ToCome(s, p + k, IS_CHUNKED, chunkSize - k))
    ensures p == |s| ==> ToCome(s, p, IS_CHUNKED, chunkSize) == Got([])
  {
    NothingLeft(s);
    hide Chunks, LineEnd;
    if |s| - p <= chunkSize {
      assert s[p..] == s[p..p + k] + s[p + k..];
    } else {
      var rest := Chunks(s, NextLine(s, p + chunkSize));
      if rest.Got? {
        assert s[p..p + chunkSize] + rest.data == s[p..p + k] + (s[p + k..p + chunkSize] + rest.data);
        if k == chunkSize {
          assert s[p + k..p + chunkSize] + rest.data == rest.data;
        }
      }
    }
  }

  lemma StartOfBody(s: seq<byte>, p: nat, length: int, before: seq<byte>)
    requires p <= |s|
    ensures Body(s, p, length) == if length == 0 then Got([]) else ToCome(s, p, length, -1)
    ensures Prepend(before, Got([])) == Got(before)
  {
    hide Chunks;
    PrependEnds(before);
  }

  lemma Grouped(a: seq<byte>, b: seq<byte>, o: Outcome)
    ensures Prepend(a, Prepend(b, o)) == Prepend(a + b, o)
  {
    if o.Got? {
      assert a + (b + o.data) == a + b + o.data;
    }
  }

  lemma NothingLeft(s: seq<byte>)
    ensures NextLine(s, |s|) == |s| && Chunks(s, |s|) == Got([])
  {
  }

  // concat_socket_buffers into the allocated space.
  method ConcatSocketBuffers(buffers: seq<seq<byte>>, out: array<byte>)
    requires |Concat(buffers)| <= out.Length
    modifies out
    ensures out[..|Concat(buffers)|] == Concat(buffers)
    ensures out[|Concat(buffers)|..] == old(out[|Concat(buffers)|..])
  {
    var i, at := 0, 0;
    assert buffers[..0] == [];
    while i < |buffers|
      invariant 0 <= i <= |buffers| && at == |Concat(buffers[..i])| <= |Concat(buffers)|
      invariant out[..at] == Concat(buffers[..i]) && out[|Concat(buffers)|..] == old(out[|Concat(buffers)|..])
    {
      assert buffers[..i + 1] == buffers[..i] + [buffers[i]];
      ConcatSnoc(buffers[..i], buffers[i]);
      ConcatPrefix(buffers, i + 1);
      CopyInto(out, at, buffers[i]);
      at := at + |buffers[i]|;
      i := i + 1;
    }
    assert buffers[..i] == buffers;
  }

  lemma {:induction false} ConcatPrefix(buffers: seq<seq<byte>>, k: nat)
    requires k <= |buffers|
    ensures |Concat(buffers[..k])| <= |Concat(buffers)|
    decreases |buffers|
  {
    if k == |buffers| {
      assert buffers[..k] == buffers;
    } else {
      assert buffers[..|buffers| - 1][..k] == buffers[..k];
      ConcatPrefix(buffers[..|buffers| - 1], k);
    }
  }

  // memcpy.
  method CopyInto(out: array<byte>, at: nat, data: seq<byte>)
    requires at + |data| <= out.Length
    modifies out
    ensures out[..at + |data|] == old(out[..at]) + data && out[at + |data|..] == old(out[at + |data|..])
  {
    var k := 0;
    while k < |data|
      invariant 0 <= k <= |data|
      invariant out[..at] == old(out[..at]) && out[at..at + k] == data[..k] && out[at + k..] == old(out[at + k..])
    {
      out[at + k] := data[k];
      k := k + 1;
    }
    assert out[..at + |data|] == out[..at] + out[at..at + |data|];
  }

  // read_http_response: whatever parts the reads bring, the result is the same, and so is where it
  // goes wrong. Then nothing is said of the result.
  method ReadHttpResponse(sock: Socket) returns (out: array<byte>, fault: bool)
    requires sock.pos == 0
    modifies sock
    ensures fresh(out) && (fault <==> Response(sock.stream).Fault?)
    ensures !fault ==>
      var data := Response(sock.stream).data;
      out.Length == |data| + 1 && out[..|data|] == data && out[|data|] == 0
  {
    hide *;
    ResponseParts(sock.stream);
    out := new byte[0];
    var buffers, totalSize, contentLength := GetHeaders(sock);
    fault := false;
    if totalSize > 0 {
      buffers, totalSize, fault := ReadBody(sock, contentLength, buffers, totalSize);
      if fault {
        return;
      }
    } else {
      PrependEnds(Concat(buffers));
    }
    out := new byte[totalSize + 1];
    if |Concat(buffers)| > totalSize {
      return out, true;
    }
    ConcatSocketBuffers(buffers, out);
    out[totalSize] := 0;
  }

  lemma ResponseParts(s: seq<byte>)
    ensures var (h, p) := Headers(s, 0, NO_HEADERS);
      && p <= |s| && 0 <= h.total <= |Concat(h.buffers)|
      && Response(s) == if h.total < |Concat(h.buffers)| then Fault
                        else Prepend(Concat(h.buffers), if h.total > 0 then Body(s, p, h.length) else Got([]))
  {
    hide Headers, Badly, Body;
    SumOfBuffers(s, 0, NO_HEADERS);
    FillsExactly(s);
    SumIsPositive(s, 0, NO_HEADERS);
    assert |Concat([])| == 0;
  }
}
