// remove_dots (src/genlib/http_client/http_client.c:1092-1166) edits a path in place; here is
// what it computes, with a stack of segments, and what follows from that.
module DotSegments {
  import opened Bytes
  import opened Escape

  const DOT: byte := 46
  const QUESTION: byte := 63
  const SINGLE: seq<byte> := [DOT]
  const DOUBLE: seq<byte> := [DOT, DOT]

  predicate EndsPath(c: byte) {
    c == QUESTION || c == HASH
  }

  // Where the query or fragment begins, or the length of the text.
  function PathEnd(s: seq<byte>): (n: nat)
    ensures n <= |s| && (n < |s| ==> EndsPath(s[n]))
    ensures forall k :: 0 <= k < n ==> !EndsPath(s[k])
  {
    if s == [] || EndsPath(s[0]) then 0 else 1 + PathEnd(s[1..])
  }

  // The next slash from i on, or the length of the path.
  function NextSlash(p: seq<byte>, i: nat): (e: nat)
    requires i <= |p|
    ensures i <= e <= |p| && (e < |p| ==> p[e] == SLASH)
    ensures forall k :: i <= k < e ==> p[k] != SLASH
    decreases |p| - i
  {
    if i == |p| || p[i] == SLASH then i else NextSlash(p, i + 1)
  }

  // The segments of a path from i on: the pieces between slashes.
  function Split(p: seq<byte>, i: nat): (r: seq<seq<byte>>)
    requires i <= |p|
    ensures r != []
    decreases |p| - i
  {
    var e := NextSlash(p, i);
    [p[i..e]] + if e < |p| then Split(p, e + 1) else []
  }

  // The closed segments, each with the slash behind it.
  function Joined(stack: seq<seq<byte>>): seq<byte> {
    if stack == [] then [] else Joined(stack[..|stack| - 1]) + (stack[|stack| - 1] + [SLASH])
  }

  predicate IsDots(seg: seq<byte>) {
    seg == SINGLE || seg == DOUBLE
  }

  function Popped(stack: seq<seq<byte>>): seq<seq<byte>> {
    if stack == [] then [] else stack[..|stack| - 1]
  }

  // The stack after a closed segment.
  function Closing(stack: seq<seq<byte>>, seg: seq<byte>): seq<seq<byte>> {
    if seg == SINGLE then stack else if seg == DOUBLE then Popped(stack) else stack + [seg]
  }

  // One dot leaves the stack, two dots pop it unless only the root is left, and any other
  // segment is pushed. The last segment is not closed; a dot segment there counts only at the
  // end of the text.
  function Fold(segs: seq<seq<byte>>, stack: seq<seq<byte>>, atEnd: bool): Option<seq<byte>>
    requires segs != []
    decreases |segs|
  {
    var seg := segs[0];
    var last := |segs| == 1;
    if last && (!atEnd || !IsDots(seg)) then Some(Joined(stack) + seg)
    else if seg == DOUBLE && |stack| < 2 then None
    else if last then Some(Joined(Closing(stack, seg)))
    else Fold(segs[1..], Closing(stack, seg), atEnd)
  }

  // The text without dot segments; None when a .. would go past the root.
  function Reduced(s: seq<byte>): Option<seq<byte>> {
    var n := PathEnd(s);
    var path := Fold(Split(s[..n], 0), [], n == |s|);
    if path.None? then None else Some(path.value + s[n..])
  }

  predicate Plain(seg: seq<byte>) {
    SLASH !in seg
  }

  // ---- the result has no dot segments left

  lemma {:induction false} JoinedSnoc(stack: seq<seq<byte>>, seg: seq<byte>)
    ensures Joined(stack + [seg]) == Joined(stack) + (seg + [SLASH])
  {
    assert (stack + [seg])[..|stack + [seg]| - 1] == stack;
  }

  lemma {:induction false} JoinedLength(stack: seq<seq<byte>>)
    ensures |Joined(stack)| >= |stack|
  {
    if stack != [] {
      JoinedLength(stack[..|stack| - 1]);
    }
  }

  lemma {:induction false} JoinedPrefix(stack: seq<seq<byte>>, k: nat)
    requires k <= |stack|
    ensures |Joined(stack[..k])| <= |Joined(stack)| && Joined(stack)[..|Joined(stack[..k])|] == Joined(stack[..k])
    ensures k < |stack| ==> |Joined(stack[..k])| < |Joined(stack)|
    decreases |stack|
  {
    if k < |stack| {
      var rest := stack[..|stack| - 1];
      JoinedPrefix(rest, k);
      assert rest[..k] == stack[..k];
    } else {
      assert stack[..k] == stack;
    }
  }

  // The slash found does not depend on what stands before the segment.
  lemma {:induction false} SlashAfter(a: seq<byte>, seg: seq<byte>, b: seq<byte>, i: nat)
    requires Plain(seg) && i <= |seg|
    ensures NextSlash(a + seg + b, |a| + i) == if b != [] && b[0] == SLASH then |a| + |seg|
      else NextSlash(a + seg + b, |a| + |seg|)
    decreases |seg| - i
  {
    if i < |seg| {
      assert (a + seg + b)[|a| + i] == seg[i];
      SlashAfter(a, seg, b, i + 1);
    }
  }

  // Splitting what was joined gives the segments back.
  lemma {:induction false} SplitJoined(front: seq<byte>, stack: seq<seq<byte>>, last: seq<byte>)
    requires Plain(last) && forall k :: 0 <= k < |stack| ==> Plain(stack[k])
    ensures Split(front + JoinedAll(stack) + last, |front|) == stack + [last]
    decreases |stack|
  {
    hide *;
    var p := front + JoinedAll(stack) + last;
    JoinedAllParts(stack);
    if stack == [] {
      assert p == front + last + [];
      SlashAfter(front, last, [], 0);
      NoSlash(p);
      SplitAt(p, |front|);
      assert p[|front|..|p|] == last;
    } else {
      var seg, rest := stack[0], JoinedAll(stack[1..]) + last;
      var front' := front + seg + [SLASH];
      assert p == front + seg + ([SLASH] + rest);
      SlashAfter(front, seg, [SLASH] + rest, 0);
      SplitAt(p, |front|);
      assert p[|front|..|front| + |seg|] == seg;
      assert p == front' + JoinedAll(stack[1..]) + last;
      SplitJoined(front', stack[1..], last);
      assert stack + [last] == [seg] + (stack[1..] + [last]);
    }
  }

  lemma NoSlash(p: seq<byte>)
    ensures NextSlash(p, |p|) == |p|
  {
  }

  lemma SplitAt(p: seq<byte>, i: nat)
    requires i <= |p|
    ensures var e := NextSlash(p, i); Split(p, i) == [p[i..e]] + if e < |p| then Split(p, e + 1) else []
  {
  }

  // Folding from the segment at i on.
  lemma FoldAt(p: seq<byte>, i: nat, stack: seq<seq<byte>>, atEnd: bool)
    requires i <= |p|
    ensures var e := NextSlash(p, i);
      Fold(Split(p, i), stack, atEnd)
      == if e == |p| && (!atEnd || !IsDots(p[i..e])) then Some(Joined(stack) + p[i..e])
         else if p[i..e] == DOUBLE && |stack| < 2 then None
         else if e == |p| then Some(Joined(Closing(stack, p[i..e])))
         else Fold(Split(p, e + 1), Closing(stack, p[i..e]), atEnd)
  {
    hide Closing, Joined, IsDots;
    var e := NextSlash(p, i);
    SplitAt(p, i);
    if e < |p| {
      assert Split(p, i)[1..] == Split(p, e + 1);
    }
  }

  lemma JoinedAllParts(stack: seq<seq<byte>>)
    ensures JoinedAll(stack) == if stack == [] then [] else stack[0] + [SLASH] + JoinedAll(stack[1..])
  {
  }

  // The same text from the front.
  function JoinedAll(stack: seq<seq<byte>>): seq<byte> {
    if stack == [] then [] else stack[0] + [SLASH] + JoinedAll(stack[1..])
  }

  lemma {:induction false} JoinedAllSnoc(stack: seq<seq<byte>>, seg: seq<byte>)
    ensures JoinedAll(stack + [seg]) == JoinedAll(stack) + (seg + [SLASH])
  {
    if stack == [] {
      assert [] + [seg] == [seg] && [seg][1..] == [];
    } else {
      assert (stack + [seg])[1..] == stack[1..] + [seg];
      JoinedAllSnoc(stack[1..], seg);
    }
  }

  lemma {:induction false} JoinedIsJoinedAll(stack: seq<seq<byte>>)
    ensures Joined(stack) == JoinedAll(stack)
  {
    if stack != [] {
      var rest := stack[..|stack| - 1];
      JoinedIsJoinedAll(rest);
      JoinedAllSnoc(rest, stack[|stack| - 1]);
      assert stack == rest + [stack[|stack| - 1]];
    }
  }

  // Segments that are no dots are only joined again.
  lemma {:induction false} FoldPlain(segs: seq<seq<byte>>, stack: seq<seq<byte>>, last: seq<byte>, atEnd: bool)
    requires forall k :: 0 <= k < |segs| ==> !IsDots(segs[k])
    requires atEnd ==> !IsDots(last)
    ensures Fold(segs + [last], stack, atEnd) == Some(Joined(stack + segs) + last)
    decreases |segs|
  {
    if segs == [] {
      assert stack + [] == stack;
    } else {
      assert (segs + [last])[1..] == segs[1..] + [last];
      FoldPlain(segs[1..], stack + [segs[0]], last, atEnd);
      assert stack + segs == stack + [segs[0]] + segs[1..];
    }
  }

  // What folding gives is a join of segments without dots.
  lemma {:induction false} FoldGives(segs: seq<seq<byte>>, stack: seq<seq<byte>>, atEnd: bool)
    returns (kept: seq<seq<byte>>, last: seq<byte>)
    requires segs != [] && Fold(segs, stack, atEnd).Some?
    requires forall k :: 0 <= k < |stack| ==> !IsDots(stack[k]) && Plain(stack[k])
    requires forall k :: 0 <= k < |segs| ==> Plain(segs[k])
    ensures Fold(segs, stack, atEnd) == Some(Joined(kept) + last) && Plain(last) && (atEnd ==> !IsDots(last))
    ensures forall k :: 0 <= k < |kept| ==> !IsDots(kept[k]) && Plain(kept[k])
    decreases |segs|
  {
    var seg := segs[0];
    if |segs| == 1 {
      if !atEnd || !IsDots(seg) {
        kept, last := stack, seg;
      } else {
        kept, last := Closing(stack, seg), [];
        assert Joined(kept) + [] == Joined(kept);
      }
    } else {
      kept, last := FoldGives(segs[1..], Closing(stack, seg), atEnd);
    }
  }

  lemma {:induction false} SplitPlain(p: seq<byte>, i: nat)
    requires i <= |p|
    ensures forall k :: 0 <= k < |Split(p, i)| ==> Plain(Split(p, i)[k])
    ensures forall k, x :: 0 <= k < |Split(p, i)| && x in Split(p, i)[k] ==> x in p
    decreases |p| - i
  {
    var e := NextSlash(p, i);
    if e < |p| {
      SplitPlain(p, e + 1);
    }
  }

  // ---- results

  lemma {:induction false} PathEndIs(s: seq<byte>, n: nat)
    requires n <= |s| && (n < |s| ==> EndsPath(s[n])) && forall k :: 0 <= k < n ==> !EndsPath(s[k])
    ensures PathEnd(s) == n
    decreases s
  {
    if n > 0 {
      assert forall k :: 0 <= k < n - 1 ==> s[1..][k] == s[k + 1];
      PathEndIs(s[1..], n - 1);
    }
  }

  lemma {:induction false} JoinedBytes(stack: seq<seq<byte>>, x: byte)
    requires x in Joined(stack)
    ensures x == SLASH || exists k :: 0 <= k < |stack| && x in stack[k]
    decreases |stack|
  {
    if x in Joined(stack[..|stack| - 1]) {
      JoinedBytes(stack[..|stack| - 1], x);
    } else if x != SLASH {
      assert x in stack[|stack| - 1];
    }
  }

  // Reducing again changes nothing.
  lemma ReducedOnce(s: seq<byte>)
    requires Reduced(s).Some?
    ensures Reduced(Reduced(s).value) == Reduced(s)
  {
    hide Fold, Split, Joined, JoinedAll, PathEnd;
    var n := PathEnd(s);
    var atEnd := n == |s|;
    SplitPlain(s[..n], 0);
    var kept, last := FoldGives(Split(s[..n], 0), [], atEnd);
    var path := Joined(kept) + last;
    var r := path + s[n..];
    ResultPath(s, kept, last, n);
    assert r[..|path|] == path && r[|path|..] == s[n..];
    SplitJoined([], kept, last);
    JoinedIsJoinedAll(kept);
    assert [] + JoinedAll(kept) + last == path;
    assert [] + kept == kept;
    FoldPlain(kept, [], last, atEnd);
  }

  // The query or fragment begins where the path of the result ends.
  lemma ResultPath(s: seq<byte>, kept: seq<seq<byte>>, last: seq<byte>, n: nat)
    requires n == PathEnd(s) && Fold(Split(s[..n], 0), [], n == |s|) == Some(Joined(kept) + last)
    ensures PathEnd(Joined(kept) + last + s[n..]) == |Joined(kept) + last|
  {
    var path := Joined(kept) + last;
    var r := path + s[n..];
    forall k | 0 <= k < |path| ensures !EndsPath(r[k]) {
      assert r[k] == path[k];
      SplitPlain(s[..n], 0);
      FoldBytes(Split(s[..n], 0), [], n == |s|, path[k]);
      assert path[k] == SLASH || path[k] in s[..n];
    }
    PathEndIs(r, |path|);
  }

  // Folding brings in no bytes but slashes.
  lemma {:induction false} FoldBytes(segs: seq<seq<byte>>, stack: seq<seq<byte>>, atEnd: bool, x: byte)
    requires segs != [] && Fold(segs, stack, atEnd).Some? && x in Fold(segs, stack, atEnd).value
    ensures x == SLASH || (exists k :: 0 <= k < |segs| && x in segs[k]) || exists k :: 0 <= k < |stack| && x in stack[k]
    decreases |segs|
  {
    var seg := segs[0];
    var next := Closing(stack, seg);
    if |segs| == 1 {
      if x in Joined(stack) {
        JoinedBytes(stack, x);
      } else if x in Joined(Popped(stack)) {
        JoinedBytes(Popped(stack), x);
      } else {
        assert x in segs[0];
      }
    } else {
      FoldBytes(segs[1..], next, atEnd, x);
      if k :| 0 <= k < |segs[1..]| && x in segs[1..][k] {
        assert x in segs[k + 1];
      }
    }
  }

  // Reducing brings in no bytes but slashes.
  lemma ReducedBytes(s: seq<byte>, x: byte)
    requires Reduced(s).Some? && x in Reduced(s).value
    ensures x == SLASH || x in s
  {
    var n := PathEnd(s);
    var segs := Split(s[..n], 0);
    SplitPlain(s[..n], 0);
    if x !in s[n..] {
      FoldBytes(segs, [], n == |s|, x);
      assert x == SLASH || x in s[..n];
    } else {
      assert exists k :: n <= k < |s| && s[k] == x;
    }
  }

  // The query and fragment stay as they are, and the text gets no longer.
  lemma {:induction false} FoldIsNoLonger(p: seq<byte>, i: nat, stack: seq<seq<byte>>, atEnd: bool)
    requires i <= |p| && Fold(Split(p, i), stack, atEnd).Some?
    ensures |Fold(Split(p, i), stack, atEnd).value| <= |Joined(stack)| + (|p| - i)
    decreases |p| - i
  {
    hide *;
    var e := NextSlash(p, i);
    FoldAt(p, i, stack, atEnd);
    ClosingLength(stack, p[i..e]);
    if e < |p| {
      FoldIsNoLonger(p, e + 1, Closing(stack, p[i..e]), atEnd);
    }
  }

  lemma ClosingLength(stack: seq<seq<byte>>, seg: seq<byte>)
    ensures |Joined(Closing(stack, seg))| <= |Joined(stack)| + if IsDots(seg) then 0 else |seg| + 1
  {
    JoinedSnoc(stack, seg);
    if stack != [] {
      JoinedPrefix(stack, |stack| - 1);
    }
  }

  lemma ReducedShape(s: seq<byte>)
    requires Reduced(s).Some?
    ensures var r := Reduced(s).value;
      |r| <= |s| && PathEnd(r) == |r| - (|s| - PathEnd(s)) && r[PathEnd(r)..] == s[PathEnd(s)..]
  {
    var n := PathEnd(s);
    SplitPlain(s[..n], 0);
    var kept, last := FoldGives(Split(s[..n], 0), [], n == |s|);
    FoldIsNoLonger(s[..n], 0, [], n == |s|);
    ResultPath(s, kept, last, n);
  }

  // How deep below the root closed segments lead, counted from a depth.
  function Depth(segs: seq<seq<byte>>, from: int): int {
    if segs == [] then from
    else Depth(segs[1..], from + if segs[0] == SINGLE then 0 else if segs[0] == DOUBLE then -1 else 1)
  }

  // A counted .. that stands at the root.
  ghost predicate PastRoot(segs: seq<seq<byte>>, from: int, atEnd: bool, k: nat)
    requires k < |segs|
  {
    segs[k] == DOUBLE && (k < |segs| - 1 || atEnd) && Depth(segs[..k], from) < 2
  }

  // The error means exactly that some .. goes past the root.
  lemma {:induction false} FailsAtRoot(segs: seq<seq<byte>>, stack: seq<seq<byte>>, atEnd: bool)
    requires segs != []
    ensures Fold(segs, stack, atEnd).None? <==>
      exists k {:trigger PastRoot(segs, |stack|, atEnd, k)} :: 0 <= k < |segs| && PastRoot(segs, |stack|, atEnd, k)
    decreases |segs|
  {
    var seg := segs[0];
    assert segs[..0] == [];
    if seg == DOUBLE && (|segs| > 1 || atEnd) && |stack| < 2 {
      assert PastRoot(segs, |stack|, atEnd, 0);
    } else if |segs| > 1 {
      var rest, next := segs[1..], Closing(stack, seg);
      FailsAtRoot(rest, next, atEnd);
      forall k | 0 <= k < |rest| ensures PastRoot(rest, |next|, atEnd, k) <==> PastRoot(segs, |stack|, atEnd, k + 1) {
        assert segs[..k + 1][1..] == rest[..k] && segs[..k + 1][0] == seg;
      }
      if k :| 0 <= k < |rest| && PastRoot(rest, |next|, atEnd, k) {
        assert PastRoot(segs, |stack|, atEnd, k + 1);
      }
      forall k | 0 <= k < |segs| && PastRoot(segs, |stack|, atEnd, k)
        ensures k > 0 && PastRoot(rest, |next|, atEnd, k - 1)
      {
      }
    }
  }
}
