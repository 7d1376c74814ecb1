// The UTF-8 codec of the XML parser: toutf8 and toint (src/upnpdom/Parser.cpp:191-231),
// in the form of section 2 of RFC 2279, which has sequences of up to six bytes.
module Utf8 {
  import opened Bytes

  // Characters allowed by section 2.2 of XML 1.0.
  predicate IsXmlCh(c: int) {
    || 0x20 <= c <= 0xD7FF || c == 0x9 || c == 0xA || c == 0xD
    || 0xE000 <= c <= 0xFFFD || 0x10000 <= c <= 0x10FFFF
  }

  type Code = c: int | 0 <= c <= 0x7FFFFFFF
  type XmlChar = c: Code | IsXmlCh(c) witness 0x20

  // A continuation byte with the low six bits of c.
  function Tail(c: nat): (b: byte)
    ensures IsTail(b)
  {
    0x80 + c % 64
  }

  predicate IsTail(b: byte) {
    0x80 <= b < 0xC0
  }

  // The shifts by 6, 12, 18, 24 and 30 bits are c1 to c5.
  function ToUtf8(c: Code): (s: seq<byte>)
    ensures 1 <= |s| <= 6
    ensures c <= 0x10FFFF ==> |s| <= 4
    ensures |s| == 1 <==> c <= 127
    ensures c > 127 ==> forall i :: 0 <= i < |s| ==> s[i] >= 128
  {
    var c1 := c / 64;
    var c2 := c1 / 64;
    var c3 := c2 / 64;
    var c4 := c3 / 64;
    var c5 := c4 / 64;
    if c <= 127 then [c]
    else if c <= 0x07FF then [0xC0 + c1, Tail(c)]
    else if c <= 0xFFFF then [0xE0 + c2, Tail(c1), Tail(c)]
    else if c <= 0x1FFFFF then [0xF0 + c3, Tail(c2), Tail(c1), Tail(c)]
    else if c <= 0x3FFFFFF then [0xF8 + c4, Tail(c3), Tail(c2), Tail(c1), Tail(c)]
    else [0xFC + c5, Tail(c4), Tail(c3), Tail(c2), Tail(c1), Tail(c)]
  }

  // Appends the low six bits of a continuation byte.
  function Shift(c: nat, b: byte): nat
    requires IsTail(b)
  {
    c * 64 + (b - 0x80)
  }

  // The character at p and its length in bytes; code -1 and length 0 for a malformed sequence.
  function ToInt(b: seq<byte>, p: int): (r: (int, nat))
    ensures r.0 == -1 || 0 <= r.0 <= 0x7FFFFFFF
    ensures r.0 == -1 <==> r.1 == 0
    ensures 0 < r.0 ==> 0 <= p < p + r.1 <= |b|
    ensures r.1 == 1 ==> r.0 == At(b, p) <= 127
  {
    var c := At(b, p);
    var s1, s2, s3, s4, s5 := At(b, p + 1), At(b, p + 2), At(b, p + 3), At(b, p + 4), At(b, p + 5);
    if c <= 127 then (c, 1)
    else if 0xC0 <= c < 0xE0 && IsTail(s1) then (Shift(c - 0xC0, s1), 2)
    else if 0xE0 <= c < 0xF0 && IsTail(s1) && IsTail(s2) then (Shift(Shift(c - 0xE0, s1), s2), 3)
    else if 0xF0 <= c < 0xF8 && IsTail(s1) && IsTail(s2) && IsTail(s3) then
      (Shift(Shift(Shift(c - 0xF0, s1), s2), s3), 4)
    else if 0xF8 <= c < 0xFC && IsTail(s1) && IsTail(s2) && IsTail(s3) && IsTail(s4) then
      (Shift(Shift(Shift(Shift(c - 0xF8, s1), s2), s3), s4), 5)
    else if 0xFC <= c < 0xFE && IsTail(s1) && IsTail(s2) && IsTail(s3) && IsTail(s4) && IsTail(s5) then
      (Shift(Shift(Shift(Shift(Shift(c - 0xFC, s1), s2), s3), s4), s5), 6)
    else (-1, 0)
  }

  // Shifting the low six bits back in restores the value.
  lemma ShiftTail(c: nat)
    ensures Shift(c / 64, Tail(c)) == c
  {
  }

  // toint undoes toutf8 on every value, whatever bytes come after.
  lemma ToIntInvertsToUtf8(c: Code, b: seq<byte>, p: int)
    requires HasAt(b, p, ToUtf8(c))
    ensures ToInt(b, p) == (c, |ToUtf8(c)|)
  {
    var s := ToUtf8(c);
    HasAtIndex(b, p, s);
    assert At(b, p + 0) == s[0];
    ShiftTail(c);
    if |s| == 2 {
      assert At(b, p + 1) == s[1];
    } else if |s| > 2 {
      ShiftTail(c / 64);
      assert At(b, p + 1) == s[1] && At(b, p + 2) == s[2];
      if |s| > 3 {
        ShiftTail(c / 64 / 64);
        assert At(b, p + 3) == s[3];
        if |s| > 4 {
          ShiftTail(c / 64 / 64 / 64);
          assert At(b, p + 4) == s[4];
          if |s| > 5 {
            ShiftTail(c / 64 / 64 / 64 / 64);
            assert At(b, p + 5) == s[5];
          }
        }
      }
    }
  }

  // A decoded character re-encodes in no more bytes than it was read from.
  lemma ReencodingIsNoLonger(b: seq<byte>, p: int)
    requires ToInt(b, p).0 >= 0
    ensures |ToUtf8(ToInt(b, p).0)| <= ToInt(b, p).1
  {
  }

  // The concatenated encodings of a sequence of XML characters.
  function Encode(cs: seq<XmlChar>): (s: seq<byte>)
    ensures |s| >= |cs|
  {
    if cs == [] then [] else ToUtf8(cs[0]) + Encode(cs[1..])
  }

  // Shortest-form UTF-8 of XML characters.
  ghost predicate XmlText(s: seq<byte>) {
    exists cs: seq<XmlChar> :: s == Encode(cs)
  }

  lemma {:induction false} EncodeConcat(cs: seq<XmlChar>, ds: seq<XmlChar>)
    ensures Encode(cs + ds) == Encode(cs) + Encode(ds)
  {
    if cs == [] {
      assert cs + ds == ds;
    } else {
      var rest := cs[1..] + ds;
      assert (cs + ds)[1..] == rest;
      var head := ToUtf8(cs[0]);
      assert Encode(cs + ds) == head + Encode(rest);
      EncodeConcat(cs[1..], ds);
      assert head + (Encode(cs[1..]) + Encode(ds)) == head + Encode(cs[1..]) + Encode(ds);
    }
  }

  lemma XmlTextConcat(s: seq<byte>, t: seq<byte>)
    requires XmlText(s) && XmlText(t)
    ensures XmlText(s + t)
  {
    var cs: seq<XmlChar> :| s == Encode(cs);
    var ds: seq<XmlChar> :| t == Encode(ds);
    EncodeConcat(cs, ds);
  }

  // Encodings of two, three and four bytes: U+00E9, U+20AC and U+1F600.
  lemma KnownEncodings()
    ensures ToUtf8(0xE9) == [0xC3, 0xA9] && ToUtf8(0x20AC) == [0xE2, 0x82, 0xAC]
    ensures ToUtf8(0x1F600) == [0xF0, 0x9F, 0x98, 0x80]
  {
  }
}
