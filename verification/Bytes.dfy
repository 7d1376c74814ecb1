// C strings: a buffer of bytes that reads as zero outside its bounds.
module Bytes {

  datatype Option<+T> = None | Some(value: T)

  type byte = x: int | 0 <= x < 256

  const TAB: byte := 9
  const LF: byte := 10
  const FF: byte := 12
  const CR: byte := 13
  const SPACE: byte := 32
  const QUOTE: byte := 34
  const HASH: byte := 35
  const AMP: byte := 38
  const APOS: byte := 39
  const SLASH: byte := 47
  const SEMI: byte := 59
  const LESS: byte := 60
  const EQUAL: byte := 61
  const GREATER: byte := 62

  // The byte at index p; the terminating zero, and everything past it, reads as zero.
  function At(b: seq<byte>, p: int): byte {
    if 0 <= p < |b| then b[p] else 0
  }

  // The bytes s stand in b from index p on.
  predicate HasAt(b: seq<byte>, p: int, s: seq<byte>) {
    0 <= p <= p + |s| <= |b| && b[p..p + |s|] == s
  }

  lemma HasAtIndex(b: seq<byte>, p: int, s: seq<byte>)
    requires HasAt(b, p, s)
    ensures forall i :: 0 <= i < |s| ==> At(b, p + i) == s[i]
  {
    forall i | 0 <= i < |s| ensures At(b, p + i) == s[i] {
      assert b[p..p + |s|][i] == b[p + i];
    }
  }

  lemma HasAtSplit(b: seq<byte>, p: int, s: seq<byte>, t: seq<byte>)
    requires HasAt(b, p, s + t)
    ensures HasAt(b, p, s) && HasAt(b, p + |s|, t)
  {
    assert b[p..p + |s|] == b[p..p + |s + t|][..|s|];
    assert b[p + |s|..p + |s| + |t|] == b[p..p + |s + t|][|s|..];
  }

  lemma HasAtHead(b: seq<byte>, p: int, s: seq<byte>)
    requires HasAt(b, p, s) && |s| > 0
    ensures At(b, p) == s[0] && HasAt(b, p + 1, s[1..])
  {
    HasAtIndex(b, p, s);
    assert s == [s[0]] + s[1..];
    HasAtSplit(b, p, [s[0]], s[1..]);
  }
}
