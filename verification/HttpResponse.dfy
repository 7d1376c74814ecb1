// What read_http_response returns (src/genlib/http_client/http_client.c:1505-1624, 1789-1922), as a
// function of the bytes that arrive before the end of the stream.
module HttpResponse {
  import opened Bytes
  import opened Escape

  const SOCKET_BUFFER_SIZE := 5000
  const CONTENT: seq<byte> := [99, 111, 110, 116, 101, 110, 116]
  const CONTENT_LENGTH: seq<byte> := CONTENT + [45, 108, 101, 110, 103, 116, 104, 58]
  const CHUNKED: seq<byte> := [116, 114, 97, 110, 115, 102, 101, 114, 45, 101, 110, 99, 111, 100, 105, 110, 103, 58, 32,
                               99, 104, 117, 110, 107, 101, 100]

  // Values of ContentLength that are no length.
  const NO_CONTENT := -3
  const UNKNOWN_LENGTH := -2
  const IS_CHUNKED := -1

  // readLine: up to and with a line feed, at most max bytes.
  function LineEnd(s: seq<byte>, p: nat, max: nat): (e: nat)
    requires p <= |s|
    ensures p <= e <= |s| && e - p <= max
    ensures e == p ==> max == 0 || p == |s|
    decreases max
  {
    if max == 0 || p == |s| then p
    else if s[p] == LF then p + 1
    else LineEnd(s, p + 1, max - 1)
  }

  function NextLine(s: seq<byte>, p: nat): nat
    requires p <= |s|
  {
    LineEnd(s, p, SOCKET_BUFFER_SIZE - 1)
  }

  // strtol: the number at the front, after white space and a sign; None when there are no digits.
  // A long has 32 bits and saturates.
  const LONG_MAX := 0x7FFF_FFFF
  const MINUS: byte := 45
  const PLUS: byte := 43

  function Blanks(s: seq<byte>, p: nat): nat
    requires p <= |s|
    ensures p <= Blanks(s, p) <= |s|
    decreases |s| - p
  {
    if p < |s| && (s[p] == SPACE || TAB <= s[p] <= CR) then Blanks(s, p + 1) else p
  }

  function Digits(s: seq<byte>, p: nat, base: int, sum: nat): (r: nat)
    requires p <= |s| && base > 0
    ensures sum <= LONG_MAX + 1 ==> r <= LONG_MAX + 1
    decreases |s| - p
  {
    if p == |s| || DigitValue(s[p], base) < 0 then sum
    else
      var next := sum * base + DigitValue(s[p], base);
      Digits(s, p + 1, base, if next > LONG_MAX then LONG_MAX + 1 else next)
  }

  // Where the digits begin: behind a sign, and behind 0x in base 16.
  function Prefix(s: seq<byte>, p: nat, base: int): (q: nat)
    requires p <= |s|
    ensures p <= q <= |s|
  {
    var q := if At(s, p) == PLUS || At(s, p) == MINUS then p + 1 else p;
    if base == 16 && At(s, q) == 48 && Lower(At(s, q + 1)) == 120 && DigitValue(At(s, q + 2), 16) >= 0 then q + 2 else q
  }

  function StrToL(s: seq<byte>, base: int): (r: Option<int>)
    requires base > 0
    ensures r.Some? ==> -LONG_MAX - 1 <= r.value <= LONG_MAX
  {
    var b := Blanks(s, 0);
    var p := Prefix(s, b, base);
    if DigitValue(At(s, p), base) < 0 then None
    else
      var n: int := Digits(s, p, base, 0);
      Some(if At(s, b) == MINUS then -n else if n > LONG_MAX then LONG_MAX else n)
  }

  predicate EndsCRLF(line: seq<byte>) {
    |line| >= 2 && line[|line| - 1] == LF && line[|line| - 2] == CR
  }

  predicate Continues(line: seq<byte>) {
    line != [] && (line[0] == SPACE || line[0] == TAB)
  }

  function Last(buffers: seq<seq<byte>>): seq<byte>
    requires buffers != []
  {
    buffers[|buffers| - 1]
  }

  // The length the headers announce, after one more line.
  function LengthAfter(length: int, line: seq<byte>): int {
    var known := if MatchNoCase(line, 0, CONTENT) && length == NO_CONTENT then UNKNOWN_LENGTH else length;
    var chunked := if MatchNoCase(line, 0, CHUNKED) then IS_CHUNKED else known;
    if MatchNoCase(line, 0, CONTENT_LENGTH) && chunked != IS_CHUNKED then
      var n := if |CONTENT_LENGTH| <= |line| then StrToL(line[|CONTENT_LENGTH|..], 10) else None;
      if n.Some? then n.value else 0
    else chunked
  }

  // The headers read so far: the list of buffers, the sum kept along with it, and the length.
  datatype Head = Head(buffers: seq<seq<byte>>, total: int, length: int)

  const NO_HEADERS := Head([], 0, NO_CONTENT)

  // A continuation line takes the CRLF off the line before it.
  function Unfolded(buffers: seq<seq<byte>>, line: seq<byte>): (r: seq<seq<byte>>)
    ensures |r| == |buffers|
  {
    if Continues(line) && buffers != [] && EndsCRLF(Last(buffers)) then
      buffers[|buffers| - 1 := Last(buffers)[..|Last(buffers)| - 2]]
    else buffers
  }

  // A header name is looked for only at the front of a line behind a properly ended one.
  predicate AtFront(buffers: seq<seq<byte>>) {
    buffers == [] || EndsCRLF(Last(buffers))
  }

  function WithLine(h: Head, line: seq<byte>): Head {
    var before := Unfolded(h.buffers, line);
    Head(before + [line],
         h.total + |line| - (if Continues(line) && h.buffers != [] then 2 else 0),
         if AtFront(before) then LengthAfter(h.length, line) else h.length)
  }

  predicate IsBlank(h: Head, line: seq<byte>) {
    AtFront(Unfolded(h.buffers, line)) && |line| == 2 && line[0] == CR
  }

  // getHeaders: reads lines up to a blank one or the end of the stream, and says where it stopped.
  function Headers(s: seq<byte>, p: nat, h: Head): (r: (Head, nat))
    requires p <= |s|
    ensures p <= r.1 <= |s|
    decreases |s| - p
  {
    var e := NextLine(s, p);
    if e == p then (h.(length := if h.length == NO_CONTENT then 0 else h.length), p)
    else
      var line := s[p..e];
      var after := WithLine(h, line);
      if IsBlank(h, line) then (after.(length := if after.length == NO_CONTENT then 0 else after.length), e)
      else Headers(s, e, after)
  }

  // What reading gives: some bytes, or a fault, where the code passes a negative count to recv or
  // writes past its allocation.
  datatype Outcome = Fault | Got(data: seq<byte>)

  function Prepend(a: seq<byte>, o: Outcome): Outcome {
    if o.Fault? then Fault else Got(a + o.data)
  }

  // The number in the size line between p and e; a line that is missing or holds none counts as zero.
  function SizeIn(s: seq<byte>, p: nat, e: nat): int
    requires p <= e <= |s|
  {
    var size := if e > p then StrToL(s[p..e], 16) else None;
    if size.None? then 0 else size.value
  }

  // A chunked body from the size line at p on, up to a size of zero.
  function Chunks(s: seq<byte>, p: nat): Outcome
    requires p <= |s|
    decreases |s| - p
  {
    var e := NextLine(s, p);
    var size := SizeIn(s, p, e);
    if size == 0 then Got([])
    else if size < 0 then Fault
    else if |s| - e <= size then Got(s[e..])
    else Prepend(s[e..e + size], Chunks(s, NextLine(s, e + size)))
  }

  // The sizes read of a chunked body, one after the other.
  function Sizes(s: seq<byte>, p: nat): seq<int>
    requires p <= |s|
    decreases |s| - p
  {
    var e := NextLine(s, p);
    var size := SizeIn(s, p, e);
    if size <= 0 || |s| - e <= size then [size] else [size] + Sizes(s, NextLine(s, e + size))
  }

  // The body behind the headers.
  function Body(s: seq<byte>, p: nat, length: int): Outcome
    requires p <= |s|
  {
    if length == 0 then Got([])
    else if length == IS_CHUNKED then Chunks(s, p)
    else if length > 0 then Got(s[p..if |s| - p <= length then |s| else p + length])
    else Got(s[p..])
  }

  function Concat(buffers: seq<seq<byte>>): seq<byte> {
    if buffers == [] then [] else Concat(buffers[..|buffers| - 1]) + Last(buffers)
  }

  lemma ConcatSnoc(buffers: seq<seq<byte>>, b: seq<byte>)
    ensures Concat(buffers + [b]) == Concat(buffers) + b
  {
    assert (buffers + [b])[..|buffers + [b]| - 1] == buffers;
  }

  // ---- the sum and the buffers

  // Continuation lines behind a line without CRLF: two bytes are taken off the sum for each,
  // but none off the buffers.
  function Badly(s: seq<byte>, p: nat, h: Head): nat
    requires p <= |s|
    decreases |s| - p
  {
    var e := NextLine(s, p);
    if e == p then 0
    else
      var line := s[p..e];
      (if Continues(line) && h.buffers != [] && !EndsCRLF(Last(h.buffers)) then 1 else 0)
      + if IsBlank(h, line) then 0 else Badly(s, e, WithLine(h, line))
  }

  lemma LineSum(h: Head, line: seq<byte>)
    ensures |Concat(WithLine(h, line).buffers)| - WithLine(h, line).total == |Concat(h.buffers)| - h.total
      + if Continues(line) && h.buffers != [] && !EndsCRLF(Last(h.buffers)) then 2 else 0
  {
    var before := Unfolded(h.buffers, line);
    ConcatSnoc(before, line);
    if before != h.buffers {
      assert before[..|before| - 1] == h.buffers[..|before| - 1];
    }
  }

  // The sum falls short of the buffers by two for every badly folded line, so the concatenation
  // fills its allocation exactly if and only if there is none.
  lemma {:induction false} SumOfBuffers(s: seq<byte>, p: nat, h: Head)
    requires p <= |s|
    ensures var r := Headers(s, p, h).0;
      |Concat(r.buffers)| - r.total == |Concat(h.buffers)| - h.total + 2 * Badly(s, p, h)
    decreases |s| - p
  {
    var e := NextLine(s, p);
    if e > p {
      var line := s[p..e];
      LineSum(h, line);
      hide WithLine, IsBlank, Concat;
      if !IsBlank(h, line) {
        SumOfBuffers(s, e, WithLine(h, line));
      }
    }
  }

  lemma FillsExactly(s: seq<byte>)
    ensures var h := Headers(s, 0, NO_HEADERS).0; h.total == |Concat(h.buffers)| <==> Badly(s, 0, NO_HEADERS) == 0
  {
    SumOfBuffers(s, 0, NO_HEADERS);
    assert |Concat([])| == 0;
  }

  // The sum is never negative: only a lone byte of white space at the end of the stream takes more
  // off it than it adds.
  lemma {:induction false} SumIsPositive(s: seq<byte>, p: nat, h: Head)
    requires p <= |s| && (if p < |s| && h.buffers != [] then h.total >= 1 else h.total >= 0)
    ensures Headers(s, p, h).0.total >= 0
    decreases |s| - p
  {
    var e := NextLine(s, p);
    if e > p {
      var line := s[p..e];
      var after := WithLine(h, line);
      TotalAfter(s, p, h);
      hide IsBlank, LineEnd, WithLine;
      if !IsBlank(h, line) {
        SumIsPositive(s, e, after);
      }
    }
  }

  lemma TotalAfter(s: seq<byte>, p: nat, h: Head)
    requires p <= |s| && p < NextLine(s, p) && h.total >= if h.buffers != [] then 1 else 0
    ensures var e := NextLine(s, p);
      var after := WithLine(h, s[p..e]);
      after.buffers != [] && after.total >= if e < |s| then 1 else 0
  {
    var e := NextLine(s, p);
    LineIsLong(s, p, SOCKET_BUFFER_SIZE - 1);
    hide LineEnd, LengthAfter, EndsCRLF;
    assert s[p..e][0] == s[p];
  }

  // A line of one byte is a line feed, or the last of the stream.
  lemma LineIsLong(s: seq<byte>, p: nat, max: nat)
    requires p < |s| && max > 1
    ensures var e := LineEnd(s, p, max); e == p + 1 ==> s[p] == LF || e == |s|
  {
  }

  // ---- the whole response

  // The unfolded headers and the body; empty when nothing arrives.
  function Response(s: seq<byte>): Outcome {
    var (h, p) := Headers(s, 0, NO_HEADERS);
    if Badly(s, 0, NO_HEADERS) > 0 then Fault
    else Prepend(Concat(h.buffers), if h.total > 0 then Body(s, p, h.length) else Got([]))
  }

  lemma {:induction false} ChunksFault(s: seq<byte>, p: nat)
    requires p <= |s|
    ensures Chunks(s, p).Fault? <==> exists n :: n in Sizes(s, p) && n < 0
    decreases |s| - p
  {
    hide SizeIn, LineEnd;
    var e := NextLine(s, p);
    var size := SizeIn(s, p, e);
    if size <= 0 || |s| - e <= size {
      assert size in Sizes(s, p);
    } else {
      var next := NextLine(s, e + size);
      ChunksFault(s, next);
      assert Sizes(s, p) == [size] + Sizes(s, next);
      assert forall n :: n in Sizes(s, p) <==> n == size || n in Sizes(s, next);
    }
  }

  // Reading goes wrong on exactly these streams: a folded line follows one without CRLF, or a size
  // line that is read holds a negative number.
  lemma ResponseFault(s: seq<byte>)
    ensures var (h, p) := Headers(s, 0, NO_HEADERS);
      Response(s).Fault? <==>
        || Badly(s, 0, NO_HEADERS) > 0
        || (h.total > 0 && h.length == IS_CHUNKED && exists n :: n in Sizes(s, p) && n < 0)
  {
    hide Headers, Badly, Chunks, Sizes, Concat;
    var (h, p) := Headers(s, 0, NO_HEADERS);
    ChunksFault(s, p);
  }
}
