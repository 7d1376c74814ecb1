// remove_dots itself (src/genlib/http_client/http_client.c:1092-1166): two indices move through
// one buffer, and an array holds where each segment of the output begins.
module RemoveDots {
  import opened Bytes
  import opened Escape
  import opened DotSegments

  // The path part of the text, and what its folding gives.
  ghost function Path(s: seq<byte>): seq<byte> {
    s[..PathEnd(s)]
  }

  ghost function Folded(s: seq<byte>): Option<seq<byte>> {
    Fold(Split(Path(s), 0), [], PathEnd(s) == |s|)
  }

  // Does a dot segment begin at i?
  ghost predicate DotsAt(s: seq<byte>, i: nat)
    requires i <= PathEnd(s)
  {
    var e := NextSlash(Path(s), i);
    IsDots(Path(s)[i..e]) && (e < PathEnd(s) || PathEnd(s) == |s|)
  }

  // The segment at start has been read up to from; the closed ones are on the stack.
  ghost predicate Going(s: seq<byte>, start: nat, from: nat, stack: seq<seq<byte>>) {
    && start <= from <= PathEnd(s) && (start == 0 || s[start - 1] == SLASH) && Plain(s[start..from])
    && Folded(s) == Fold(Split(Path(s), start), stack, PathEnd(s) == |s|)
    && (from > start ==> !DotsAt(s, start))
  }

  lemma FirstSegment(s: seq<byte>)
    ensures Going(s, 0, 0, [])
  {
  }

  // The tests of the loop recognise the dot segments.
  lemma DotTests(s: seq<byte>, i: nat)
    requires i < PathEnd(s)
    ensures var single := s[i] == DOT && (i + 1 == |s| || s[i + 1] == SLASH);
      var double := s[i] == DOT && !single && s[i + 1] == DOT && (i + 2 == |s| || s[i + 2] == SLASH);
      var seg := Path(s)[i..NextSlash(Path(s), i)];
      && (single <==> DotsAt(s, i) && seg == SINGLE) && (double <==> DotsAt(s, i) && seg == DOUBLE)
      && (single ==> NextSlash(Path(s), i) == i + 1) && (double ==> NextSlash(Path(s), i) == i + 2)
  {
    var p := Path(s);
    var e := NextSlash(p, i);
    if s[i] == DOT && (i + 1 == |s| || s[i + 1] == SLASH) {
      NextIs(s, i, i + 1);
      assert p[i..i + 1] == SINGLE;
    } else if s[i] == DOT && s[i + 1] == DOT && (i + 2 == |s| || s[i + 2] == SLASH) {
      NextIs(s, i, i + 2);
      assert p[i..i + 2] == DOUBLE;
    }
    assert e > i ==> p[i..e][0] == s[i];
    assert e > i + 1 ==> p[i..e][1] == s[i + 1];
    assert e < |p| ==> s[e] == SLASH;
  }

  lemma NextIs(s: seq<byte>, i: nat, e: nat)
    requires i < PathEnd(s) && i < e <= |s| && (e == |s| || s[e] == SLASH)
    requires forall k :: i <= k < e ==> s[k] == DOT
    ensures e <= PathEnd(s) && NextSlash(Path(s), i) == e && (e < PathEnd(s) || PathEnd(s) == |s|)
  {
    assert PathEnd(s) < |s| ==> s[PathEnd(s)] != DOT && s[PathEnd(s)] != SLASH;
  }

  // A dot segment is passed, with the slash behind it.
  lemma PassDots(s: seq<byte>, start: nat, stack: seq<seq<byte>>)
    requires Going(s, start, start, stack) && start < PathEnd(s) && DotsAt(s, start)
    ensures var e := NextSlash(Path(s), start);
      var seg := Path(s)[start..e];
      if seg == DOUBLE && |stack| < 2 then Folded(s) == None
      else if e == |s| then Folded(s) == Some(Joined(Closing(stack, seg)))
      else e < PathEnd(s) && Going(s, e + 1, e + 1, Closing(stack, seg))
  {
    hide Fold, Split, Joined, Closing, NextSlash, IsDots;
    FoldAt(Path(s), start, stack, PathEnd(s) == |s|);
  }

  lemma DotsAtSlash(s: seq<byte>, start: nat)
    requires start < PathEnd(s) && s[start] == SLASH
    ensures !DotsAt(s, start)
  {
  }

  // A segment is closed by a slash.
  lemma CloseSegment(s: seq<byte>, start: nat, from: nat, stack: seq<seq<byte>>)
    requires start <= from < |s| && Going(s, start, from, stack) && from < PathEnd(s) && s[from] == SLASH
    ensures Going(s, from + 1, from + 1, stack + [s[start..from]])
    ensures Joined(stack + [s[start..from]]) == Joined(stack) + s[start..from] + [SLASH]
  {
    hide *;
    var p, seg := Path(s), s[start..from];
    GoingParts(s, start, from, stack);
    PathParts(s, start, from);
    JoinedSnoc(stack, seg);
    assert Joined(stack) + (seg + [SLASH]) == Joined(stack) + seg + [SLASH];
    if from == start {
      DotsAtSlash(s, start);
    }
    SegmentEnds(p, start, from);
    FoldAt(p, start, stack, PathEnd(s) == |s|);
    NotDots(s, start, stack);
    MakeGoing(s, from + 1, stack + [seg]);
  }

  lemma GoingParts(s: seq<byte>, start: nat, from: nat, stack: seq<seq<byte>>)
    requires Going(s, start, from, stack)
    ensures start <= from <= PathEnd(s) && Plain(s[start..from])
    ensures Folded(s) == Fold(Split(Path(s), start), stack, PathEnd(s) == |s|) && (from > start ==> !DotsAt(s, start))
    ensures |Path(s)| == PathEnd(s)
  {
  }

  lemma PathParts(s: seq<byte>, start: nat, from: nat)
    requires start <= from <= PathEnd(s)
    ensures |Path(s)| == PathEnd(s) && Path(s)[start..from] == s[start..from]
    ensures (from < PathEnd(s) ==> Path(s)[from] == s[from])
  {
  }

  lemma NotDots(s: seq<byte>, start: nat, stack: seq<seq<byte>>)
    requires start <= PathEnd(s) && !DotsAt(s, start) && NextSlash(Path(s), start) < PathEnd(s)
    ensures var seg := Path(s)[start..NextSlash(Path(s), start)]; seg != DOUBLE && Closing(stack, seg) == stack + [seg]
  {
  }

  lemma MakeGoing(s: seq<byte>, start: nat, stack: seq<seq<byte>>)
    requires start <= PathEnd(s) && start > 0 && s[start - 1] == SLASH
    requires Folded(s) == Fold(Split(Path(s), start), stack, PathEnd(s) == |s|)
    ensures Going(s, start, start, stack)
  {
  }

  lemma {:induction false} SegmentEnds(p: seq<byte>, i: nat, e: nat)
    requires i <= e <= |p| && (e == |p| || p[e] == SLASH) && Plain(p[i..e])
    ensures NextSlash(p, i) == e
    decreases e - i
  {
    if i < e {
      assert p[i] == p[i..e][0];
      assert forall x :: x in p[i + 1..e] ==> x in p[i..e];
      SegmentEnds(p, i + 1, e);
    }
  }

  // A byte of a segment is copied.
  lemma CopyByte(s: seq<byte>, start: nat, from: nat, stack: seq<seq<byte>>)
    requires Going(s, start, from, stack) && from < PathEnd(s) && s[from] != SLASH
    requires (from > start || !DotsAt(s, start))
    ensures Going(s, start, from + 1, stack) && s[start..from + 1] == s[start..from] + [s[from]]
  {
    hide Folded, DotsAt;
    assert s[start..from + 1] == s[start..from] + [s[from]];
  }

  // At the end of the path the last segment stays open.
  lemma LastSegment(s: seq<byte>, start: nat, stack: seq<seq<byte>>)
    requires Going(s, start, PathEnd(s), stack)
    ensures Folded(s) == Some(Joined(stack) + s[start..PathEnd(s)])
  {
    var p := Path(s);
    assert p[start..|p|] == s[start..PathEnd(s)];
    SegmentEnds(p, start, |p|);
    hide Fold, Split, Joined, NextSlash;
    FoldAt(p, start, stack, PathEnd(s) == |s|);
  }

  lemma ReducedIs(s: seq<byte>)
    ensures Reduced(s) == if Folded(s).None? then None else Some(Folded(s).value + s[PathEnd(s)..])
  {
  }

  // The offsets behind the slashes of the output.
  ghost predicate Offsets(offsets: seq<int>, stack: seq<seq<byte>>) {
    |stack| <= |offsets| && forall k :: 0 <= k < |stack| ==> offsets[k] == |Joined(stack[..k + 1])|
  }

  lemma OffsetPushed(offsets: seq<int>, stack: seq<seq<byte>>, seg: seq<byte>, at: int)
    requires Offsets(offsets, stack) && |stack| < |offsets| && at == |Joined(stack + [seg])|
    ensures Offsets(offsets[|stack| := at], stack + [seg])
  {
    hide Joined;
    var more, grown := stack + [seg], offsets[|stack| := at];
    forall k | 0 <= k < |more| ensures grown[k] == |Joined(more[..k + 1])| {
      if k < |stack| {
        assert more[..k + 1] == stack[..k + 1];
      } else {
        assert more[..k + 1] == more;
      }
    }
  }

  // Popping goes back to where the popped segment began.
  lemma OffsetPopped(offsets: seq<int>, stack: seq<seq<byte>>, out: seq<byte>)
    requires Offsets(offsets, stack) && |stack| >= 2 && out == Joined(stack)
    ensures 0 <= offsets[|stack| - 2] <= |out| && out[..offsets[|stack| - 2]] == Joined(Popped(stack))
    ensures Offsets(offsets, Popped(stack)) && |Popped(stack)| == |stack| - 1 && |Popped(stack)| <= offsets[|stack| - 2]
  {
    JoinedPrefix(stack, |stack| - 1);
    JoinedLength(Popped(stack));
    hide Joined;
    assert stack[..|stack| - 2 + 1] == Popped(stack);
    forall k | 0 <= k < |Popped(stack)| ensures offsets[k] == |Joined(Popped(stack)[..k + 1])| {
      assert Popped(stack)[..k + 1] == stack[..k + 1];
    }
  }

  // What the output stands for: the segments closed so far, where the open one starts in the
  // text, and whether a dot segment ended the text.
  datatype Progress = Progress(stack: seq<seq<byte>>, start: nat, done: bool)

  // The loop's state: the output before copyTo, and the text as it was from just before
  // copyFrom on.
  ghost predicate Loop(s: seq<byte>, text: seq<byte>, offsets: seq<int>, copyTo: int, copyFrom: int, lastSegment: int,
                       g: Progress) {
    && |text| > |s| == |offsets| && 0 <= copyTo <= |s| && copyTo <= copyFrom
    && lastSegment == |g.stack| - 1 && Offsets(offsets, g.stack) && |g.stack| <= copyTo
    && (forall k :: 0 <= k < |s| && k >= copyFrom - 1 ==> text[k] == s[k])
    && if g.done then
         copyFrom >= |s| && Folded(s) == Some(Joined(g.stack)) && text[..copyTo] == Joined(g.stack) && PathEnd(s) == |s|
       else
         && g.start <= copyFrom <= |s| && Going(s, g.start, copyFrom, g.stack)
         && text[..copyTo] == Joined(g.stack) + s[g.start..copyFrom]
  }

  lemma LoopBounds(s: seq<byte>, text: seq<byte>, offsets: seq<int>, copyTo: int, copyFrom: int, lastSegment: int,
                   g: Progress)
    requires Loop(s, text, offsets, copyTo, copyFrom, lastSegment, g)
    ensures 0 <= copyTo <= |s| && copyTo <= copyFrom && -1 <= lastSegment < copyTo && |text| > |s| == |offsets|
    ensures copyFrom < |s| ==> 0 <= lastSegment + 1 < |offsets|
  {
  }

  lemma LoopStarts(s: seq<byte>, text: seq<byte>, offsets: seq<int>)
    requires |text| > |s| == |offsets| && text[..|s|] == s
    ensures Loop(s, text, offsets, 0, 0, -1, Progress([], 0, false))
  {
    FirstSegment(s);
    assert forall k :: 0 <= k < |s| ==> text[k] == text[..|s|][k];
  }

  // The bytes the tests read are those of the text, and a segment starts behind a slash.
  lemma LoopReads(s: seq<byte>, text: seq<byte>, offsets: seq<int>, copyTo: int, copyFrom: int, lastSegment: int,
                  g: Progress)
    requires Loop(s, text, offsets, copyTo, copyFrom, lastSegment, g) && copyFrom < |s| && !EndsPath(text[copyFrom])
    ensures forall k :: copyFrom <= k < |s| ==> text[k] == s[k]
    ensures !g.done && g.start <= copyFrom < PathEnd(s) && Going(s, g.start, copyFrom, g.stack)
    ensures (copyFrom == 0 || text[copyFrom - 1] == SLASH) <==> copyFrom == g.start
  {
    hide Going, Joined, Offsets, Folded, PathEnd, EndsPath;
    assert text[copyFrom] == s[copyFrom];
    if !g.done {
      InsidePath(s, g.start, copyFrom, g.stack);
    }
  }

  // Inside the path, a byte after a slash begins a segment.
  lemma InsidePath(s: seq<byte>, start: nat, from: nat, stack: seq<seq<byte>>)
    requires Going(s, start, from, stack) && from < |s| && !EndsPath(s[from])
    ensures from < PathEnd(s) && ((from == 0 || s[from - 1] == SLASH) <==> from == start)
  {
    hide Folded, Fold, Split, DotsAt, PathEnd;
    if start < from {
      assert s[start..from][from - 1 - start] == s[from - 1];
      assert s[from - 1] in s[start..from];
    }
  }

  // A single dot.
  lemma LoopSingle(s: seq<byte>, text: seq<byte>, offsets: seq<int>, copyTo: int, copyFrom: int, lastSegment: int,
                   g: Progress)
    returns (g': Progress)
    requires Loop(s, text, offsets, copyTo, copyFrom, lastSegment, g) && copyFrom < |s| && !EndsPath(text[copyFrom])
    requires text[copyFrom] == DOT && copyFrom == g.start && (copyFrom + 1 == |s| || text[copyFrom + 1] == SLASH)
    ensures Loop(s, text, offsets, copyTo, copyFrom + 2, lastSegment, g')
  {
    LoopReads(s, text, offsets, copyTo, copyFrom, lastSegment, g);
    DotTests(s, copyFrom);
    PassDots(s, g.start, g.stack);
    g' := Progress(g.stack, copyFrom + 2, copyFrom + 2 > |s|);
    assert s[g.start..copyFrom] == [] && (copyFrom + 2 <= |s| ==> s[copyFrom + 2..copyFrom + 2] == []);
    hide Going, Joined, Fold, Split, NextSlash, DotsAt, PathEnd, Folded, Offsets;
  }

  // Two dots pop a segment, or go past the root.
  lemma LoopDouble(s: seq<byte>, text: seq<byte>, offsets: seq<int>, copyTo: int, copyFrom: int, lastSegment: int,
                   g: Progress)
    returns (g': Progress)
    requires Loop(s, text, offsets, copyTo, copyFrom, lastSegment, g) && copyFrom < |s| && !EndsPath(text[copyFrom])
    requires text[copyFrom] == DOT && copyFrom == g.start && copyFrom + 1 < |s| && text[copyFrom + 1] == DOT
    requires copyFrom + 2 == |s| || text[copyFrom + 2] == SLASH
    ensures lastSegment <= 0 ==> Folded(s) == None
    ensures lastSegment > 0 ==> lastSegment < |offsets| && 0 <= offsets[lastSegment - 1] <= copyFrom + 3
    ensures lastSegment > 0 ==> Loop(s, text, offsets, offsets[lastSegment - 1], copyFrom + 3, lastSegment - 1, g')
  {
    hide Going, Joined, Fold, Split, NextSlash, DotsAt, PathEnd, Folded, Offsets;
    LoopReads(s, text, offsets, copyTo, copyFrom, lastSegment, g);
    DotTests(s, copyFrom);
    PassDots(s, g.start, g.stack);
    g' := Progress(Popped(g.stack), copyFrom + 3, copyFrom + 3 > |s|);
    if lastSegment > 0 {
      assert s[g.start..copyFrom] == [] && (copyFrom + 3 <= |s| ==> s[copyFrom + 3..copyFrom + 3] == []);
      var out := text[..copyTo];
      assert out == Joined(g.stack) + [] == Joined(g.stack);
      OffsetPopped(offsets, g.stack, out);
      assert text[..offsets[lastSegment - 1]] == out[..offsets[lastSegment - 1]];
    }
  }

  // A byte is copied; a slash closes the segment.
  lemma LoopCopy(s: seq<byte>, text: seq<byte>, offsets: seq<int>, copyTo: int, copyFrom: int, lastSegment: int,
                 g: Progress)
    returns (g': Progress)
    requires Loop(s, text, offsets, copyTo, copyFrom, lastSegment, g) && copyFrom < |s| && !EndsPath(text[copyFrom])
    requires copyFrom > g.start || !DotsTest(text, |s|, copyFrom)
    ensures 0 <= lastSegment + 1 < |offsets|
    ensures var slash := text[copyFrom] == SLASH;
      Loop(s, text[copyTo := text[copyFrom]], if slash then offsets[lastSegment + 1 := copyTo + 1] else offsets,
           copyTo + 1, copyFrom + 1, if slash then lastSegment + 1 else lastSegment, g')
  {
    hide *;
    LoopReads(s, text, offsets, copyTo, copyFrom, lastSegment, g);
    LoopBounds(s, text, offsets, copyTo, copyFrom, lastSegment, g);
    if text[copyFrom] == SLASH {
      g' := LoopSlash(s, text, offsets, copyTo, copyFrom, lastSegment, g);
    } else {
      if copyFrom == g.start {
        NoDotsHere(s, text, copyFrom);
      }
      LoopByte(s, text, offsets, copyTo, copyFrom, lastSegment, g);
      g' := g;
    }
  }

  lemma LoopByte(s: seq<byte>, text: seq<byte>, offsets: seq<int>, copyTo: int, copyFrom: int, lastSegment: int,
                 g: Progress)
    requires Loop(s, text, offsets, copyTo, copyFrom, lastSegment, g) && copyFrom < PathEnd(s)
    requires text[copyFrom] != SLASH
    requires !g.done && g.start <= PathEnd(s) && (copyFrom > g.start || !DotsAt(s, g.start))
    ensures Loop(s, text[copyTo := text[copyFrom]], offsets, copyTo + 1, copyFrom + 1, lastSegment, g)
  {
    hide Going, Joined, PathEnd, DotsAt, Folded, Offsets;
    var c := text[copyFrom];
    Extended(text, copyTo, c);
    assert c == s[copyFrom];
    CopyByte(s, g.start, copyFrom, g.stack);
    assert Joined(g.stack) + s[g.start..copyFrom] + [c] == Joined(g.stack) + s[g.start..copyFrom + 1];
  }

  lemma LoopSlash(s: seq<byte>, text: seq<byte>, offsets: seq<int>, copyTo: int, copyFrom: int, lastSegment: int,
                  g: Progress)
    returns (g': Progress)
    requires Loop(s, text, offsets, copyTo, copyFrom, lastSegment, g) && copyFrom < PathEnd(s)
    requires text[copyFrom] == SLASH
    requires !g.done && 0 <= lastSegment + 1 < |offsets|
    ensures Loop(s, text[copyTo := SLASH], offsets[lastSegment + 1 := copyTo + 1], copyTo + 1, copyFrom + 1,
      lastSegment + 1, g')
  {
    hide Going, Joined, PathEnd, DotsAt, Folded, Offsets;
    var seg := s[g.start..copyFrom];
    Extended(text, copyTo, SLASH);
    CloseSegment(s, g.start, copyFrom, g.stack);
    g' := Progress(g.stack + [seg], copyFrom + 1, false);
    assert |text[..copyTo]| == copyTo;
    OffsetPushed(offsets, g.stack, seg, copyTo + 1);
    assert s[copyFrom + 1..copyFrom + 1] == [] && Joined(g'.stack) + [] == Joined(g'.stack);
  }

  lemma Extended(text: seq<byte>, i: int, c: byte)
    requires 0 <= i < |text|
    ensures text[i := c][..i + 1] == text[..i] + [c]
  {
  }

  // The tests of the loop at index i.
  predicate DotsTest(text: seq<byte>, size: nat, i: nat)
    requires i < size <= |text|
  {
    && text[i] == DOT
    && (i + 1 == size || text[i + 1] == SLASH || (text[i + 1] == DOT && (i + 2 == size || text[i + 2] == SLASH)))
  }

  lemma NoDotsHere(s: seq<byte>, text: seq<byte>, i: nat)
    requires i < PathEnd(s) && |text| > |s| && (forall k :: i <= k < |s| ==> text[k] == s[k]) && !DotsTest(text, |s|, i)
    ensures !DotsAt(s, i)
  {
    hide DotsAt, PathEnd, NextSlash, Path;
    DotTests(s, i);
    if DotsAt(s, i) {
      DotsAreDots(s, i);
    }
  }

  lemma DotsAreDots(s: seq<byte>, i: nat)
    requires i <= PathEnd(s) && DotsAt(s, i)
    ensures NextSlash(Path(s), i) <= |Path(s)|
    ensures Path(s)[i..NextSlash(Path(s), i)] == SINGLE || Path(s)[i..NextSlash(Path(s), i)] == DOUBLE
  {
  }

  // After the loop the path is reduced, and the rest of the text is still to be copied.
  lemma LoopEnds(s: seq<byte>, text: seq<byte>, offsets: seq<int>, copyTo: int, copyFrom: int, lastSegment: int,
                 g: Progress)
    requires Loop(s, text, offsets, copyTo, copyFrom, lastSegment, g)
    requires copyFrom >= |s| || EndsPath(text[copyFrom])
    ensures Folded(s) == Some(text[..copyTo]) && 0 <= copyTo <= |s|
    ensures PathEnd(s) == if copyFrom < |s| then copyFrom else |s|
    ensures forall k :: copyFrom <= k < |s| ==> text[k] == s[k]
  {
    if !g.done {
      if copyFrom < |s| {
        assert EndsPath(s[copyFrom]);
      }
      assert copyFrom == PathEnd(s);
      LastSegment(s, g.start, g.stack);
    }
  }

  // A dot segment at copyFrom is passed: taken bytes with the slash, none when there is none.
  method TakeDots(text: array<byte>, size: nat, Segments: array<int>, copyTo: nat, copyFrom: nat, lastSegment: int,
                  ghost s: seq<byte>, ghost g: Progress,
                  ghost now: seq<byte>, ghost offsets: seq<int>)
    returns (fail: bool, taken: nat, to: nat, last: int, ghost g': Progress)
    requires |s| == size < text.Length && Segments.Length == size && copyFrom < size && !EndsPath(text[copyFrom])
    requires now == text[..] && offsets == Segments[..] && Loop(s, now, offsets, copyTo, copyFrom, lastSegment, g)
    ensures fail ==> Folded(s) == None
    ensures !fail ==> Loop(s, now, offsets, to, copyFrom + taken, last, g') && to <= copyFrom + taken
    ensures !fail && taken == 0 ==>
      && to == copyTo <= size && last == lastSegment && g' == g && 0 <= last + 1 < size
      && (copyFrom > g.start || !DotsTest(now, size, copyFrom))
  {
    hide *;
    LoopBounds(s, now, offsets, copyTo, copyFrom, lastSegment, g);
    LoopReads(s, now, offsets, copyTo, copyFrom, lastSegment, g);
    DotsTestIs(now, size, copyFrom);
    fail, taken, to, last, g' := false, 0, copyTo, lastSegment, g;
    if text[copyFrom] == DOT && (copyFrom == 0 || text[copyFrom - 1] == SLASH) {
      if copyFrom + 1 == size || text[copyFrom + 1] == SLASH {
        g' := LoopSingle(s, now, offsets, copyTo, copyFrom, lastSegment, g);
        taken := 2;
      } else if text[copyFrom + 1] == DOT && (copyFrom + 2 == size || text[copyFrom + 2] == SLASH) {
        g' := LoopDouble(s, now, offsets, copyTo, copyFrom, lastSegment, g);
        taken := 3;
        if lastSegment > 0 {
          last := lastSegment - 1;
          to := Segments[last];
        } else {
          fail := true;
        }
      }
    }
  }

  // Removes the dot segments of the first size bytes; a zero byte ends the result. The error
  // is returned exactly when a .. would go past the root.
  method RemoveDots(text: array<byte>, size: nat) returns (ok: bool)
    requires 0 < size < text.Length
    modifies text
    ensures ok <==> Reduced(old(text[..size])).Some?
    ensures ok ==>
      var r := Reduced(old(text[..size])).value;
      |r| <= size && text[..|r|] == r && text[|r|] == 0
    ensures forall k :: size < k < text.Length ==> text[k] == old(text[k])
  {
    ghost var s := text[..size];
    var copyTo, copyFrom := 0, 0;
    var Segments := new int[size];
    var lastSegment := -1;
    ghost var g, now, offsets := Progress([], 0, false), text[..], Segments[..];
    hide *;
    ReducedIs(s);
    LoopStarts(s, now, offsets);
    while copyFrom < size && !EndsPath(text[copyFrom])
      invariant now == text[..] && offsets == Segments[..]
      invariant Loop(s, now, offsets, copyTo, copyFrom, lastSegment, g)
      invariant 0 <= copyTo <= copyFrom && forall k :: size < k < text.Length ==> text[k] == old(text[k])
      decreases size - copyFrom
    {
      var fail;
      fail, copyTo, copyFrom, lastSegment, g :=
        Turn(text, size, Segments, copyTo, copyFrom, lastSegment, s, g, now, offsets);
      if fail {
        return false;
      }
      now, offsets := text[..], Segments[..];
    }
    LoopEnds(s, now, offsets, copyTo, copyFrom, lastSegment, g);
    CopyTail(text, size, copyTo, copyFrom, s);
    return true;
  }

  // One turn of the loop.
  method Turn(text: array<byte>, size: nat, Segments: array<int>, copyTo: nat, copyFrom: nat, lastSegment: int,
              ghost s: seq<byte>, ghost g: Progress,
              ghost now: seq<byte>, ghost offsets: seq<int>)
    returns (fail: bool, to: nat, from: nat, last: int, ghost g': Progress)
    requires |s| == size < text.Length && Segments.Length == size && copyFrom < size && !EndsPath(text[copyFrom])
    requires now == text[..] && offsets == Segments[..] && Loop(s, now, offsets, copyTo, copyFrom, lastSegment, g)
    modifies text, Segments
    ensures fail ==> Folded(s) == None
    ensures !fail ==> Loop(s, text[..], Segments[..], to, from, last, g') && to <= from && from > copyFrom
    ensures forall k :: size < k < text.Length ==> text[k] == old(text[k])
  {
    hide *;
    var taken;
    fail, taken, to, last, g' := TakeDots(text, size, Segments, copyTo, copyFrom, lastSegment, s, g, now, offsets);
    if fail || taken > 0 {
      from := copyFrom + taken;
      return;
    }
    g' := LoopCopy(s, now, offsets, copyTo, copyFrom, lastSegment, g);
    last := CopyOne(text, Segments, copyTo, copyFrom, lastSegment);
    to, from := copyTo + 1, copyFrom + 1;
  }

  lemma DotsTestIs(text: seq<byte>, size: nat, i: nat)
    requires i < size <= |text|
    ensures DotsTest(text, size, i) <==>
      text[i] == DOT
      && (i + 1 == size || text[i + 1] == SLASH || (text[i + 1] == DOT && (i + 2 == size || text[i + 2] == SLASH)))
  {
  }

  // One byte is copied; behind a slash a new segment begins.
  method CopyOne(text: array<byte>, Segments: array<int>, copyTo: nat, copyFrom: nat, lastSegment: int)
    returns (last: int)
    requires copyTo < text.Length && copyFrom < text.Length && 0 <= lastSegment + 1 < Segments.Length
    modifies text, Segments
    ensures text[..] == old(text[..])[copyTo := old(text[copyFrom])]
    ensures forall k :: 0 <= k < text.Length && k != copyTo ==> text[k] == old(text[k])
    ensures if old(text[copyFrom]) == SLASH
      then last == lastSegment + 1 && Segments[..] == old(Segments[..])[last := copyTo + 1]
      else last == lastSegment && Segments[..] == old(Segments[..])
  {
    last := lastSegment;
    if text[copyFrom] == SLASH {
      last := last + 1;
      Segments[last] := copyTo + 1;
    }
    text[copyTo] := text[copyFrom];
  }

  // The query or fragment follows, and the terminating zero.
  method CopyTail(text: array<byte>, size: nat, to: nat, from: nat, ghost s: seq<byte>)
    requires size < text.Length && to <= size && to <= from && |s| == size
    requires forall k :: from <= k < size ==> text[k] == s[k]
    modifies text
    ensures var r := old(text[..to]) + if from < size then s[from..] else [];
      |r| <= size && text[..|r|] == r && text[|r|] == 0
    ensures forall k :: size < k < text.Length ==> text[k] == old(text[k])
  {
    var copyTo, copyFrom := to, from;
    while copyFrom < size
      invariant to <= copyTo <= size && from <= copyFrom && copyTo - to == copyFrom - from
      invariant from < size ==> copyFrom <= size
      invariant from >= size ==> copyTo == to
      invariant text[..to] == old(text[..to])
      invariant from < size ==> text[to..copyTo] == s[from..copyFrom]
      invariant forall k :: copyFrom <= k < size ==> text[k] == s[k]
      invariant forall k :: size < k < text.Length ==> text[k] == old(text[k])
    {
      assert s[from..copyFrom + 1] == s[from..copyFrom] + [s[copyFrom]];
      text[copyTo] := text[copyFrom];
      assert text[to..copyTo + 1] == text[to..copyTo] + [text[copyTo]];
      copyTo := copyTo + 1;
      copyFrom := copyFrom + 1;
    }
    text[copyTo] := 0;
    ghost var r := old(text[..to]) + if from < size then s[from..] else [];
    assert text[..copyTo] == text[..to] + text[to..copyTo];
    assert from < size ==> s[from..copyFrom] == s[from..];
    assert |r| == copyTo;
  }
}
