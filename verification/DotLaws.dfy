// The laws of dot segments (section 5.2, step 6, of RFC 2396), as remove_dots keeps them
// (src/genlib/http_client/http_client.c:1092-1166). Together they say what every path is reduced to:
// each law takes one segment away, and the last one ends it.
module DotLaws {
  import opened Bytes
  import opened DotSegments

  // Segments without slashes and marks, that are no dot segments.
  predicate IsSegment(seg: seq<byte>) {
    47 !in seg && 63 !in seg && 35 !in seg
  }

  predicate IsOrdinary(seg: seq<byte>) {
    IsSegment(seg) && seg != [46] && seg != [46, 46]
  }

  predicate AllOrdinary(segs: seq<seq<byte>>) {
    forall k :: 0 <= k < |segs| ==> IsOrdinary(segs[k])
  }

  // Segments with a slash behind each.
  function Slashed(segs: seq<seq<byte>>): seq<byte> {
    if segs == [] then [] else segs[0] + [47] + Slashed(segs[1..])
  }

  // A query or a fragment, or nothing.
  predicate IsTail(tail: seq<byte>) {
    tail == [] || tail[0] == 63 || tail[0] == 35
  }

  predicate IsPath(p: seq<byte>) {
    63 !in p && 35 !in p
  }

  // ---- what is folded

  lemma ReducedAt(p: seq<byte>, tail: seq<byte>)
    requires IsPath(p) && IsTail(tail)
    ensures var path := Fold(Split(p, 0), [], tail == []);
      Reduced(p + tail) == if path.None? then None else Some(path.value + tail)
  {
    hide Fold, Split, PathEnd;
    var s := p + tail;
    assert forall k :: 0 <= k < |p| ==> s[k] == p[k] && p[k] in p;
    PathEndIs(s, |p|);
    assert s[..|p|] == p && s[|p|..] == tail;
  }

  lemma {:induction false} SlashedPath(segs: seq<seq<byte>>)
    requires AllOrdinary(segs)
    ensures IsPath(Slashed(segs))
  {
    if segs != [] {
      assert IsOrdinary(segs[0]);
      SlashedPath(segs[1..]);
    }
  }

  lemma {:induction false} SlashIn(p: seq<byte>, q: seq<byte>, i: nat)
    requires i <= |q|
    ensures NextSlash(p + q, |p| + i) == |p| + NextSlash(q, i)
    decreases |q| - i
  {
    if i < |q| {
      assert (p + q)[|p| + i] == q[i];
      if q[i] != 47 {
        SlashIn(p, q, i + 1);
      }
    }
  }

  // Splitting does not look at what stands in front.
  lemma {:induction false} SplitIn(p: seq<byte>, q: seq<byte>, i: nat)
    requires i <= |q|
    ensures Split(p + q, |p| + i) == Split(q, i)
    decreases |q| - i
  {
    hide NextSlash, Split;
    SlashIn(p, q, i);
    var e := NextSlash(q, i);
    SplitAt(p + q, |p| + i);
    SplitAt(q, i);
    assert (p + q)[|p| + i..|p| + e] == q[i..e];
    if e < |q| {
      SplitIn(p, q, e + 1);
    }
  }

  // One segment and its slash.
  lemma SplitSegment(seg: seq<byte>, rest: seq<byte>)
    requires IsSegment(seg)
    ensures Split(seg + [47] + rest, 0) == [seg] + Split(rest, 0)
  {
    hide Split, NextSlash;
    var p := seg + [47] + rest;
    assert p == [] + seg + ([47] + rest);
    SlashAfter([], seg, [47] + rest, 0);
    SplitAt(p, 0);
    assert p[0..|seg|] == seg && p == (seg + [47]) + rest;
    SplitIn(seg + [47], rest, 0);
  }

  lemma SplitLast(seg: seq<byte>)
    requires IsSegment(seg)
    ensures Split(seg, 0) == [seg]
  {
    hide Split, NextSlash;
    assert seg == [] + seg + [];
    SlashAfter([], seg, [], 0);
    NoSlash(seg);
    SplitAt(seg, 0);
    assert seg[0..|seg|] == seg;
  }

  lemma FoldFirst(seg: seq<byte>, segs: seq<seq<byte>>, stack: seq<seq<byte>>, atEnd: bool)
    requires segs != []
    ensures seg == [46] ==> Fold([seg] + segs, stack, atEnd) == Fold(segs, stack, atEnd)
    ensures seg == [46, 46] && |stack| >= 2 ==>
      Fold([seg] + segs, stack, atEnd) == Fold(segs, stack[..|stack| - 1], atEnd)
    ensures seg == [46, 46] && |stack| < 2 ==> Fold([seg] + segs, stack, atEnd) == None
    ensures seg != [46] && seg != [46, 46] ==> Fold([seg] + segs, stack, atEnd) == Fold(segs, stack + [seg], atEnd)
  {
    assert ([seg] + segs)[1..] == segs;
  }

  // Ordinary segments are put on the stack.
  lemma {:induction false} FoldOrdinary(front: seq<seq<byte>>, rest: seq<byte>, stack: seq<seq<byte>>, atEnd: bool)
    requires AllOrdinary(front)
    ensures Fold(Split(Slashed(front) + rest, 0), stack, atEnd) == Fold(Split(rest, 0), stack + front, atEnd)
    decreases |front|
  {
    hide Fold, Split;
    if front == [] {
      assert Slashed(front) + rest == rest && stack + front == stack;
    } else {
      var seg, more := front[0], Slashed(front[1..]) + rest;
      assert IsOrdinary(seg);
      assert Slashed(front) + rest == seg + [47] + more;
      SplitSegment(seg, more);
      FoldFirst(seg, Split(more, 0), stack, atEnd);
      FoldOrdinary(front[1..], rest, stack + [seg], atEnd);
      assert stack + front == stack + [seg] + front[1..];
    }
  }

  lemma {:induction false} JoinedIsSlashed(stack: seq<seq<byte>>)
    ensures Joined(stack) == Slashed(stack)
  {
    JoinedIsJoinedAll(stack);
    SlashedIsJoinedAll(stack);
  }

  lemma {:induction false} SlashedIsJoinedAll(stack: seq<seq<byte>>)
    ensures Slashed(stack) == JoinedAll(stack)
  {
    if stack != [] {
      SlashedIsJoinedAll(stack[1..]);
    }
  }

  // ---- the laws

  lemma PathsAre(front: seq<seq<byte>>, seg: seq<byte>, rest: seq<byte>)
    requires AllOrdinary(front) && IsSegment(seg) && IsPath(rest)
    ensures IsPath(Slashed(front) + (seg + [47] + rest)) && IsPath(Slashed(front) + rest)
  {
    SlashedPath(front);
    hide Slashed, AllOrdinary;
  }

  // A segment of one dot is dropped.
  lemma DotLaw(front: seq<seq<byte>>, rest: seq<byte>, tail: seq<byte>)
    requires AllOrdinary(front) && IsPath(rest) && IsTail(tail)
    ensures Reduced(Slashed(front) + ([46] + [47] + rest) + tail) == Reduced(Slashed(front) + rest + tail)
  {
    hide Reduced, Fold, Split, Slashed, AllOrdinary;
    var atEnd := tail == [];
    PathsAre(front, [46], rest);
    ReducedAt(Slashed(front) + ([46] + [47] + rest), tail);
    ReducedAt(Slashed(front) + rest, tail);
    FoldOrdinary(front, [46] + [47] + rest, [], atEnd);
    FoldOrdinary(front, rest, [], atEnd);
    SplitSegment([46], rest);
    FoldFirst([46], Split(rest, 0), [] + front, atEnd);
  }

  // A segment of two dots takes the one in front of it away, unless that is the first; then it is refused.
  lemma UpLaw(front: seq<seq<byte>>, rest: seq<byte>, tail: seq<byte>)
    requires AllOrdinary(front) && IsPath(rest) && IsTail(tail)
    ensures Reduced(Slashed(front) + ([46, 46] + [47] + rest) + tail) ==
      if |front| < 2 then None else Reduced(Slashed(front[..|front| - 1]) + rest + tail)
  {
    hide *;
    var atEnd := tail == [];
    DotsAre();
    PathsAre(front, [46, 46], rest);
    ReducedAt(Slashed(front) + ([46, 46] + [47] + rest), tail);
    FoldOrdinary(front, [46, 46] + [47] + rest, [], atEnd);
    SplitSegment([46, 46], rest);
    NoFront(front);
    FoldFirst([46, 46], Split(rest, 0), front, atEnd);
    if |front| >= 2 {
      var fewer := front[..|front| - 1];
      FewerAre(front);
      PathsAre(fewer, [], rest);
      ReducedAt(Slashed(fewer) + rest, tail);
      FoldOrdinary(fewer, rest, [], atEnd);
      NoFront(fewer);
    }
  }

  lemma DotsAre()
    ensures IsSegment([46]) && IsSegment([46, 46]) && IsSegment([])
  {
  }

  lemma NoFront(front: seq<seq<byte>>)
    ensures [] + front == front
  {
  }

  lemma FewerAre(front: seq<seq<byte>>)
    requires AllOrdinary(front) && front != []
    ensures AllOrdinary(front[..|front| - 1])
  {
    hide IsOrdinary;
  }

  // Behind the last slash dots count only at the end of the text. A path without dot segments stays.
  lemma LastLaw(front: seq<seq<byte>>, last: seq<byte>, tail: seq<byte>)
    requires AllOrdinary(front) && IsSegment(last) && IsTail(tail)
    ensures Reduced(Slashed(front) + last + tail) ==
      if tail == [] && last == [46] then Some(Slashed(front))
      else if tail == [] && last == [46, 46] then
        if |front| < 2 then None else Some(Slashed(front[..|front| - 1]))
      else Some(Slashed(front) + last + tail)
  {
    hide *;
    var atEnd := tail == [];
    LastIsPath(front, last);
    ReducedAt(Slashed(front) + last, tail);
    FoldOrdinary(front, last, [], atEnd);
    SplitLast(last);
    NoFront(front);
    FoldOne(last, front, atEnd);
    JoinedIsSlashed(front);
    NoTail(Slashed(front), tail);
    if |front| >= 2 {
      JoinedIsSlashed(front[..|front| - 1]);
      NoTail(Slashed(front[..|front| - 1]), tail);
    }
  }

  lemma LastIsPath(front: seq<seq<byte>>, last: seq<byte>)
    requires AllOrdinary(front) && IsSegment(last)
    ensures IsPath(Slashed(front) + last)
  {
    SlashedPath(front);
    hide Slashed, AllOrdinary;
  }

  lemma NoTail(p: seq<byte>, tail: seq<byte>)
    ensures tail == [] ==> p + tail == p
  {
  }

  lemma FoldOne(last: seq<byte>, stack: seq<seq<byte>>, atEnd: bool)
    ensures Fold([last], stack, atEnd) ==
      if atEnd && last == [46] then Some(Joined(stack))
      else if atEnd && last == [46, 46] then
        if |stack| < 2 then None else Some(Joined(stack[..|stack| - 1]))
      else Some(Joined(stack) + last)
  {
    hide Joined;
  }
}
