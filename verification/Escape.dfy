// Escaping in the printer (copy_with_escape, src/upnpdom/domCif.cpp:1451-1462) and
// unescaping in the parser (get_char and copy_token, src/upnpdom/Parser.cpp:367-461).
module Escape {
  import opened Bytes
  import opened Utf8

  const QUOT_REF: seq<byte> := [AMP, 113, 117, 111, 116, SEMI]  // &quot;
  const LT_REF: seq<byte> := [AMP, 108, 116, SEMI]              // &lt;
  const GT_REF: seq<byte> := [AMP, 103, 116, SEMI]              // &gt;
  const APOS_REF: seq<byte> := [AMP, 97, 112, 111, 115, SEMI]   // &apos;
  const AMP_REF: seq<byte> := [AMP, 97, 109, 112, SEMI]         // &amp;
  const HEX_REF: seq<byte> := [AMP, HASH, 120]                  // &#x
  const DEC_REF: seq<byte> := [AMP, HASH]                       // &#

  // The growable buffer the printer appends to.
  class MemBuffer {
    var contents: seq<byte>

    constructor ()
      ensures contents == []
    {
      contents := [];
    }

    method Append(s: seq<byte>)
      modifies this
      ensures contents == old(contents) + s
    {
      contents := contents + s;
    }
  }

  // What one byte is printed as. The double quote is printed as it is.
  function EscapedByte(c: byte): (s: seq<byte>)
    ensures |s| >= 1
  {
    if c == LESS then LT_REF
    else if c == GREATER then GT_REF
    else if c == AMP then AMP_REF
    else if c == APOS then APOS_REF
    else [c]
  }

  function Escaped(v: seq<byte>): (s: seq<byte>)
    ensures |s| >= |v|
  {
    if v == [] then [] else EscapedByte(v[0]) + Escaped(v[1..])
  }

  lemma {:induction false} EscapedConcat(v: seq<byte>, w: seq<byte>)
    ensures Escaped(v + w) == Escaped(v) + Escaped(w)
  {
    if v == [] {
      assert v + w == w;
    } else {
      assert (v + w)[1..] == v[1..] + w;
      EscapedConcat(v[1..], w);
    }
  }

  lemma EscapedSnoc(v: seq<byte>, c: byte)
    ensures Escaped(v + [c]) == Escaped(v) + EscapedByte(c)
  {
    EscapedConcat(v, [c]);
    assert [c][1..] == [];
    assert Escaped([c]) == EscapedByte(c) + [];
  }

  lemma NothingEscaped()
    ensures Escaped([]) == []
  {
  }

  method CopyWithEscape(buf: MemBuffer, p: seq<byte>)
    modifies buf
    ensures buf.contents == old(buf.contents) + Escaped(p)
  {
    hide Escaped;
    assert p[..0] == [] && Escaped([]) == [] by { NothingEscaped(); }
    var i := 0;
    while i < |p|
      invariant 0 <= i <= |p|
      invariant buf.contents == old(buf.contents) + Escaped(p[..i])
    {
      var piece;
      if p[i] == LESS {
        piece := LT_REF;
      } else if p[i] == GREATER {
        piece := GT_REF;
      } else if p[i] == AMP {
        piece := AMP_REF;
      } else if p[i] == APOS {
        piece := APOS_REF;
      } else {
        piece := [p[i]];
      }
      assert piece == EscapedByte(p[i]);
      hide EscapedByte;
      buf.Append(piece);
      EscapedSnoc(p[..i], p[i]);
      assert p[..i + 1] == p[..i] + [p[i]];
      i := i + 1;
    }
    assert p[..|p|] == p;
  }

  function Lower(c: byte): byte {
    if 65 <= c <= 90 then c + 32 else c
  }

  // strncasecmp against a lower-case key.
  predicate MatchNoCase(b: seq<byte>, p: int, key: seq<byte>) {
    forall i :: 0 <= i < |key| ==> Lower(At(b, p + i)) == key[i]
  }

  // The value of a digit, or -1.
  function DigitValue(c: byte, base: int): int {
    if 48 <= c <= 57 then c - 48
    else if base == 16 && 65 <= c <= 70 then c - 55
    else if base == 16 && 97 <= c <= 102 then c - 87
    else -1
  }

  // The sum is a 32-bit int that wraps around.
  function Wrap32(x: int): int {
    (x + 0x8000_0000) % 0x1_0000_0000 - 0x8000_0000
  }

  // The value of a run of digits continuing from sum, and the index after it.
  function Numeral(b: seq<byte>, p: nat, base: int, sum: int): (r: (int, nat))
    ensures r.1 >= p
    decreases |b| - p
  {
    var d := DigitValue(At(b, p), base);
    if d < 0 || p >= |b| then (sum, p)
    else Numeral(b, p + 1, base, Wrap32(sum * base + d))
  }

  // The character of a reference whose digits start at p; skip is the length of its prefix.
  function NumericRef(b: seq<byte>, p: nat, base: int, skip: nat): (int, nat) {
    var (sum, end) := Numeral(b, p, base, 0);
    if end == p || At(b, end) != SEMI || !IsXmlCh(sum) then (-1, 0)
    else (sum, skip + (end - p) + 1)
  }

  // One possibly escaped character at p and the bytes it takes; code -1 when there is none.
  function CharAt(b: seq<byte>, p: nat): (r: (int, nat))
    ensures r.0 > 0 ==> IsXmlCh(r.0) && r.1 >= 1
    ensures r.0 > 0 && r.1 == 1 ==> r.0 <= 127
    ensures r.0 > 0 ==> |ToUtf8(r.0)| <= r.1
    ensures r.0 > 0 || r.0 == -1
  {
    var c := At(b, p);
    if c != AMP then
      if 0 < c <= 127 && IsXmlCh(c) then (c, 1)
      else
        var (i, len) := ToInt(b, p);
        if !IsXmlCh(i) then (-1, 0)
        else ReencodingIsNoLonger(b, p); (i, len)
    else if MatchNoCase(b, p, QUOT_REF) then (QUOTE, 6)
    else if MatchNoCase(b, p, LT_REF) then (LESS, 4)
    else if MatchNoCase(b, p, GT_REF) then (GREATER, 4)
    else if MatchNoCase(b, p, APOS_REF) then (APOS, 6)
    else if MatchNoCase(b, p, AMP_REF) then (AMP, 5)
    else if MatchNoCase(b, p, HEX_REF) then NumericRef(b, p + 3, 16, 3)
    else if MatchNoCase(b, p, DEC_REF) then NumericRef(b, p + 2, 10, 2)
    else (-1, 0)
  }

  // The bytes from p up to end with references resolved; None on a malformed character
  // or when a character straddles end.
  function Unescaped(b: seq<byte>, p: nat, end: nat): (r: Option<seq<byte>>)
    ensures r.Some? ==> p <= end && |r.value| <= end - p
    decreases end - p
  {
    if p == end then Some([])
    else if p > end then None
    else
      var (c, len) := CharAt(b, p);
      if c <= 0 then None
      else
        var rest := Unescaped(b, p + len, end);
        if rest.None? then None
        else Some((if len == 1 then [c] else ToUtf8(c)) + rest.value)
  }

  // copy_token refuses an empty range.
  function Token(b: seq<byte>, p: nat, len: nat): Option<seq<byte>> {
    if len == 0 then None else Unescaped(b, p, p + len)
  }

  // The digit loops of get_char.
  method ReadNumeral(b: seq<byte>, p: nat, base: int) returns (sum: int, end: nat)
    ensures (sum, end) == Numeral(b, p, base, 0)
  {
    sum, end := 0, p;
    while DigitValue(At(b, end), base) >= 0
      invariant p <= end
      invariant Numeral(b, end, base, sum) == Numeral(b, p, base, 0)
      decreases |b| - end
    {
      sum := Wrap32(sum * base + DigitValue(At(b, end), base));
      end := end + 1;
    }
  }

  method GetChar(b: seq<byte>, p: nat) returns (c: int, len: nat)
    ensures (c, len) == CharAt(b, p)
  {
    hide ToUtf8, ToInt, MatchNoCase, Numeral;
    if At(b, p) != AMP {
      if 0 < At(b, p) <= 127 && IsXmlCh(At(b, p)) {
        return At(b, p), 1;
      }
      var (i, n) := ToInt(b, p);
      if !IsXmlCh(i) {
        return -1, 0;
      }
      return i, n;
    }
    if MatchNoCase(b, p, QUOT_REF) { return QUOTE, 6; }
    if MatchNoCase(b, p, LT_REF) { return LESS, 4; }
    if MatchNoCase(b, p, GT_REF) { return GREATER, 4; }
    if MatchNoCase(b, p, APOS_REF) { return APOS, 6; }
    if MatchNoCase(b, p, AMP_REF) { return AMP, 5; }
    var base, skip := 10, 2;
    if MatchNoCase(b, p, HEX_REF) {
      base, skip := 16, 3;
    } else if !MatchNoCase(b, p, DEC_REF) {
      return -1, 0;
    }
    var sum, end := ReadNumeral(b, p + skip, base);
    if end == p + skip || At(b, end) != SEMI || !IsXmlCh(sum) {
      return -1, 0;
    }
    return sum, skip + (end - (p + skip)) + 1;
  }

  // Everything copy_token produces is shortest-form UTF-8 of XML characters.
  lemma {:induction false} UnescapedIsXmlText(b: seq<byte>, p: nat, end: nat)
    requires Unescaped(b, p, end).Some?
    ensures XmlText(Unescaped(b, p, end).value)
    decreases end - p
  {
    hide ToUtf8, CharAt;
    if p == end {
      assert Encode([]) == [];
    } else {
      var (c, len) := CharAt(b, p);
      UnescapedIsXmlText(b, p + len, end);
      EncodeOne(c);
      OneByteEncoding(c);
      XmlTextConcat(ToUtf8(c), Unescaped(b, p + len, end).value);
    }
  }

  lemma EncodeOne(c: XmlChar)
    ensures Encode([c]) == ToUtf8(c) && XmlText(ToUtf8(c))
  {
    hide ToUtf8;
    var one: seq<XmlChar> := [c];
    assert one[1..] == [];
    assert Encode(one) == ToUtf8(c) + [];
  }

  lemma OneByteEncoding(c: XmlChar)
    ensures c <= 127 ==> ToUtf8(c) == [c]
  {
  }

  // The bytes of a non-ASCII character are printed unchanged.
  lemma {:induction false} HighBytesUnescaped(v: seq<byte>)
    requires forall i :: 0 <= i < |v| ==> v[i] >= 128
    ensures Escaped(v) == v
  {
    if v != [] {
      HighBytesUnescaped(v[1..]);
      assert Escaped(v) == [v[0]] + v[1..];
    }
  }

  lemma MatchExact(b: seq<byte>, p: int, key: seq<byte>)
    requires HasAt(b, p, key) && forall i :: 0 <= i < |key| ==> Lower(key[i]) == key[i]
    ensures MatchNoCase(b, p, key)
  {
    HasAtIndex(b, p, key);
  }

  // The printed form of an ASCII character is read back as that character.
  lemma CharAtEscapedByte(b: seq<byte>, p: nat, c: byte)
    requires HasAt(b, p, EscapedByte(c)) && c <= 127 && IsXmlCh(c)
    ensures CharAt(b, p) == (c, |EscapedByte(c)|)
  {
    var s := EscapedByte(c);
    HasAtIndex(b, p, s);
    assert At(b, p + 0) == s[0];
    if c == LESS || c == GREATER || c == AMP || c == APOS {
      MatchExact(b, p, s);
      assert At(b, p + 1) == s[1] && At(b, p + 2) == s[2];
      assert !MatchNoCase(b, p, QUOT_REF) by { assert Lower(At(b, p + 1)) != QUOT_REF[1]; }
      assert c != LESS ==> !MatchNoCase(b, p, LT_REF) by {
        assert c != LESS ==> Lower(At(b, p + 1)) != LT_REF[1];
      }
      assert c != GREATER ==> !MatchNoCase(b, p, GT_REF) by {
        assert c != GREATER ==> Lower(At(b, p + 1)) != GT_REF[1];
      }
      assert c == AMP ==> !MatchNoCase(b, p, APOS_REF) by {
        assert c == AMP ==> Lower(At(b, p + 2)) != APOS_REF[2];
      }
    }
  }

  // A printed character is read back, and the read stops exactly at its end.
  lemma CharAtEscaped(b: seq<byte>, p: nat, c: XmlChar)
    requires HasAt(b, p, Escaped(ToUtf8(c)))
    ensures CharAt(b, p) == (c, |Escaped(ToUtf8(c))|)
  {
    hide ToUtf8, ToInt;
    if c > 127 {
      var s := ToUtf8(c);
      HighBytesUnescaped(s);
      ToIntInvertsToUtf8(c, b, p);
      HasAtIndex(b, p, s);
      assert At(b, p + 0) == s[0];
    } else {
      OneByteEncoding(c);
      EscapedSnoc([], c);
      assert [] + [c] == [c];
      CharAtEscapedByte(b, p, c);
    }
  }

  lemma {:induction false} UnescapedEscaped(b: seq<byte>, p: nat, cs: seq<XmlChar>)
    requires HasAt(b, p, Escaped(Encode(cs)))
    ensures Unescaped(b, p, p + |Escaped(Encode(cs))|) == Some(Encode(cs))
    decreases |cs|
  {
    hide ToUtf8, CharAt, Escaped;
    if cs == [] {
      NothingEscaped();
    } else {
      var c := cs[0];
      var head, tail := ToUtf8(c), Encode(cs[1..]);
      assert Encode(cs) == head + tail;
      EscapedConcat(head, tail);
      HasAtSplit(b, p, Escaped(head), Escaped(tail));
      CharAtEscaped(b, p, c);
      UnescapedEscaped(b, p + |Escaped(head)|, cs[1..]);
      EscapedLength(c);
    }
  }

  // Only an ASCII byte printed as itself takes one byte.
  lemma EscapedLength(c: XmlChar)
    ensures |Escaped(ToUtf8(c))| == 1 ==> ToUtf8(c) == [c]
  {
    hide ToUtf8;
    OneByteEncoding(c);
  }

  // Reading back what copy_with_escape printed gives the string itself exactly when the
  // string is non-empty and is shortest-form UTF-8 of XML characters.
  lemma EscapeRoundTrip(b: seq<byte>, p: nat, v: seq<byte>)
    requires HasAt(b, p, Escaped(v))
    ensures Token(b, p, |Escaped(v)|) == Some(v) <==> v != [] && XmlText(v)
  {
    hide ToUtf8, CharAt;
    if v != [] && XmlText(v) {
      var cs: seq<XmlChar> :| v == Encode(cs);
      UnescapedEscaped(b, p, cs);
    } else if Token(b, p, |Escaped(v)|) == Some(v) {
      UnescapedIsXmlText(b, p, p + |Escaped(v)|);
    }
  }

  // The printer writes &lt; &gt; &amp; and &apos; and leaves every other byte, the double quote too.
  lemma EscapedForms(c: byte)
    ensures Escaped([60]) == [38, 108, 116, 59] && Escaped([62]) == [38, 103, 116, 59]
    ensures Escaped([38]) == [38, 97, 109, 112, 59] && Escaped([39]) == [38, 97, 112, 111, 115, 59]
    ensures c != 60 && c != 62 && c != 38 && c != 39 ==> Escaped([c]) == [c]
  {
    forall d: byte ensures Escaped([d]) == EscapedByte(d) {
      EscapedSnoc([], d);
      assert [] + [d] == [d];
    }
  }
}
