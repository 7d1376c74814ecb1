// What getNextToken returns on each piece of printed text.
module Tokens {
  import opened Bytes
  import opened Utf8
  import opened CharTables
  import opened Escape
  import opened Lexer
  import opened Tree

  lemma PunctuationAt(b: seq<byte>, p: nat)
    requires Punctuation(At(b, p))
    ensures !NameCharAt(b, p, false) && !NameCharAt(b, p, true)
  {
    hide IsNameCh;
    PunctuationIsNoName(At(b, p));
  }

  // What may start a name may also continue it.
  lemma StartsAndContinues(c: int)
    requires IsNameCh(c, false)
    ensures IsNameCh(c, true)
  {
  }

  // A plain byte is its own token.
  lemma PlainToken(b: seq<byte>, p: nat)
    requires 0 < At(b, p) <= 127 && IsXmlCh(At(b, p)) && At(b, p) != AMP
    ensures Token(b, p, 1) == Some([At(b, p)])
  {
    hide ToUtf8, ToInt;
    var c := At(b, p);
    assert CharAt(b, p) == (c, 1);
    assert Unescaped(b, p + 1, p + 1) == Some([]);
    assert [c] + [] == [c];
  }

  lemma PlainTokenPair(b: seq<byte>, p: nat)
    requires 0 < At(b, p) <= 127 && IsXmlCh(At(b, p)) && At(b, p) != AMP
    requires 0 < At(b, p + 1) <= 127 && IsXmlCh(At(b, p + 1)) && At(b, p + 1) != AMP
    ensures Token(b, p, 2) == Some([At(b, p), At(b, p + 1)])
  {
    hide ToUtf8, ToInt;
    PlainToken(b, p + 1);
    var c := At(b, p);
    assert CharAt(b, p) == (c, 1);
    var rest := Unescaped(b, p + 1, p + 2);
    assert rest == Some([At(b, p + 1)]);
    assert [c] + rest.value == [c, At(b, p + 1)];
  }

  lemma NoMarkup(b: seq<byte>, p: nat)
    requires At(b, p) == LESS ==> At(b, p + 1) != 33 && At(b, p + 1) != 63
    ensures !AtMarkup(b, p)
  {
    var c0, c1 := At(b, p + 0), At(b, p + 1);
    assert c0 != LESS || (c1 != 33 && c1 != 63);
    assert !StartsWith(b, p, BEGIN_COMMENT) by {
      assert c0 != BEGIN_COMMENT[0] || c1 != BEGIN_COMMENT[1];
    }
    assert !StartsWith(b, p, BEGIN_PROCESSING) by {
      assert c0 != BEGIN_PROCESSING[0] || c1 != BEGIN_PROCESSING[1];
    }
    assert !StartsWith(b, p, BEGIN_DOCTYPE) by {
      assert c0 != BEGIN_DOCTYPE[0] || c1 != BEGIN_DOCTYPE[1];
    }
  }

  lemma BeginTagToken(b: seq<byte>, x: Scanner)
    requires !x.inAttrib && At(b, x.pos) == LESS && NameCharAt(b, x.pos + 1, false)
    ensures NextToken(b, x) == Took((x.(pos := x.pos + 1, tagVal := false), LESSTHAN))
  {
    hide IsNameCh, ToInt, Token, AtMarkup;
    var n := At(b, x.pos + 1);
    if Punctuation(n) {
      PunctuationAt(b, x.pos + 1);
      assert false;
    }
    NoMarkup(b, x.pos);
    PlainToken(b, x.pos);
    SlashIsNoName(b, x.pos + 1);
  }

  lemma SlashIsNoName(b: seq<byte>, p: nat)
    requires NameCharAt(b, p, false)
    ensures ToInt(b, p).0 != SLASH
  {
    hide IsNameCh, ToInt;
    if ToInt(b, p).0 == SLASH {
      PunctuationIsNoName(SLASH);
    }
  }

  lemma EndTagToken(b: seq<byte>, x: Scanner)
    requires !x.inAttrib && At(b, x.pos) == LESS && At(b, x.pos + 1) == SLASH
    ensures NextToken(b, x) == Took((x.(pos := x.pos + 2, tagVal := false), ENDTAG))
  {
    hide IsNameCh, Token, AtMarkup;
    NoMarkup(b, x.pos);
    PlainTokenPair(b, x.pos);
  }

  lemma GreaterToken(b: seq<byte>, x: Scanner)
    requires !x.inAttrib && At(b, x.pos) == GREATER
    ensures NextToken(b, x) == Took((Scanner(x.pos + 1, true, Some(x.pos), false), GREATERTHAN))
  {
    hide IsNameCh, Token, AtMarkup;
    NoMarkup(b, x.pos);
    PlainToken(b, x.pos);
  }

  lemma CompleteToken(b: seq<byte>, x: Scanner)
    requires !x.inAttrib && At(b, x.pos) == SLASH && At(b, x.pos + 1) == GREATER
    ensures NextToken(b, x) == Took((x.(pos := x.pos + 2, tagVal := true), COMPLETETAG))
  {
    hide IsNameCh, Token, AtMarkup;
    NoMarkup(b, x.pos);
    PlainTokenPair(b, x.pos);
  }

  lemma SignToken(b: seq<byte>, x: Scanner)
    requires !x.inAttrib && !x.tagVal && (At(b, x.pos) == EQUAL || At(b, x.pos) == QUOTE)
    ensures NextToken(b, x) == Took((x.(pos := x.pos + 1), [At(b, x.pos)]))
  {
    hide IsNameCh, Token, AtMarkup;
    NoMarkup(b, x.pos);
    PlainToken(b, x.pos);
  }

  lemma EscapedByteBytes(c: byte)
    ensures forall k :: 0 <= k < |EscapedByte(c)| ==>
      var d := EscapedByte(c)[k]; d != LESS && d != GREATER && (d == c || (d != 0 && d != QUOTE && !IsWhite(d)))
  {
  }

  // Printed text has no angle bracket, and no quote or zero byte the string did not have.
  lemma {:induction false} EscapedBytes(v: seq<byte>, i: nat)
    requires i < |Escaped(v)|
    ensures Escaped(v)[i] != LESS && Escaped(v)[i] != GREATER
    ensures Escaped(v)[i] in v || (Escaped(v)[i] != 0 && Escaped(v)[i] != QUOTE && !IsWhite(Escaped(v)[i]))
  {
    var e := EscapedByte(v[0]);
    assert Escaped(v) == e + Escaped(v[1..]);
    EscapedByteBytes(v[0]);
    hide Escaped, EscapedByte;
    if i >= |e| {
      EscapedBytes(v[1..], i - |e|);
      assert Escaped(v)[i] == Escaped(v[1..])[i - |e|];
    } else {
      assert Escaped(v)[i] == e[i];
    }
  }

  // No zero byte is part of the encoding of XML characters.
  lemma {:induction false} EncodeNonZero(cs: seq<XmlChar>)
    ensures 0 !in Encode(cs)
  {
    if cs != [] {
      EncodeNonZero(cs[1..]);
      EncodedByteNonZero(cs[0]);
      hide ToUtf8;
    }
  }

  lemma EncodedByteNonZero(c: XmlChar)
    ensures 0 !in ToUtf8(c)
  {
    hide ToUtf8;
    OneByteEncoding(c);
    var s := ToUtf8(c);
    assert c > 0 by { assert IsXmlCh(c); }
    assert forall i :: 0 <= i < |s| ==> s[i] != 0;
  }

  // A name contains nothing that the printer would escape.
  lemma {:induction false} NameBytes(cs: seq<XmlChar>)
    requires forall i :: 0 <= i < |cs| ==> IsNameCh(cs[i], true)
    ensures Escaped(Encode(cs)) == Encode(cs)
  {
    hide ToUtf8, IsNameCh;
    if cs != [] {
      NameBytes(cs[1..]);
      NameCharBytes(cs[0]);
      EscapedConcat(ToUtf8(cs[0]), Encode(cs[1..]));
    }
  }

  lemma NameCharBytes(c: XmlChar)
    requires IsNameCh(c, true)
    ensures Escaped(ToUtf8(c)) == ToUtf8(c)
    ensures ToUtf8(c)[0] >= 0x2D && !Punctuation(ToUtf8(c)[0])
  {
    hide ToUtf8, IsNameCh;
    NameCharBounds(c);
    OneByteEncoding(c);
    if Punctuation(c) {
      PunctuationIsNoName(c);
    }
    if c <= 127 {
      EscapedSnoc([], c);
      assert [] + [c] == [c];
      if Punctuation(APOS) { }
    } else {
      HighBytesUnescaped(ToUtf8(c));
    }
  }

  // A name ends at the first byte that cannot continue it.
  lemma {:induction false} NameEndAt(b: seq<byte>, p: nat, cs: seq<XmlChar>)
    requires HasAt(b, p, Encode(cs)) && forall i :: 0 <= i < |cs| ==> IsNameCh(cs[i], true)
    requires Punctuation(At(b, p + |Encode(cs)|))
    ensures NameEnd(b, p) == p + |Encode(cs)|
    decreases |cs|
  {
    hide ToUtf8, IsNameCh, ToInt;
    if cs == [] {
      PunctuationAt(b, p);
    } else {
      HasAtSplit(b, p, ToUtf8(cs[0]), Encode(cs[1..]));
      ToIntInvertsToUtf8(cs[0], b, p);
      NameEndAt(b, p + |ToUtf8(cs[0])|, cs[1..]);
    }
  }

  // A printed name is one token.
  lemma NameToken(b: seq<byte>, x: Scanner, name: seq<byte>)
    requires !x.inAttrib && !x.tagVal && IsName(name)
    requires HasAt(b, x.pos, name) && Punctuation(At(b, x.pos + |name|))
    ensures NextToken(b, x) == Took((x.(pos := x.pos + |name|), name)) && name != []
    ensures NameCharAt(b, x.pos, false)
    ensures name != LESSTHAN && name != GREATERTHAN && name != ENDTAG && name != COMPLETETAG
    ensures !Punctuation(At(b, x.pos)) && !IsWhite(At(b, x.pos))
  {
    hide *;
    var cs := NameParts(name);
    var head, p := ToUtf8(cs[0]), x.pos;
    HasAtSplit(b, p, head, Encode(cs[1..]));
    ToIntInvertsToUtf8(cs[0], b, p);
    NameEndAt(b, p + |head|, cs[1..]);
    NameCharBytes(cs[0]);
    HasAtHead(b, p, head);
    NameBytes(cs);
    UnescapedEscaped(b, p, cs);
    TokenOfName(b, x, name, cs);
    NameIsNoSign(name, At(b, p));
  }

  lemma NameParts(name: seq<byte>) returns (cs: seq<XmlChar>)
    requires IsName(name)
    ensures cs != [] && name == Encode(cs) == ToUtf8(cs[0]) + Encode(cs[1..]) && IsNameCh(cs[0], false)
    ensures IsNameCh(cs[0], true) && forall i :: 0 <= i < |cs[1..]| ==> IsNameCh(cs[1..][i], true)
    ensures forall i :: 0 <= i < |cs| ==> IsNameCh(cs[i], true)
  {
    hide IsNameCh, ToUtf8;
    cs :| NameOf(name, cs);
  }

  lemma NameIsNoSign(name: seq<byte>, c: byte)
    requires name != [] && name[0] == c && !Punctuation(c)
    ensures name != LESSTHAN && name != GREATERTHAN && name != ENDTAG && name != COMPLETETAG && !IsWhite(c)
  {
  }

  lemma TokenOfName(b: seq<byte>, x: Scanner, name: seq<byte>, cs: seq<XmlChar>)
    requires !x.inAttrib && !x.tagVal && cs != [] && IsNameCh(cs[0], false) && !Punctuation(At(b, x.pos)) && name != []
    requires ToInt(b, x.pos) == (cs[0], |ToUtf8(cs[0])|) && NameEnd(b, x.pos + |ToUtf8(cs[0])|) == x.pos + |name|
    requires Unescaped(b, x.pos, x.pos + |name|) == Some(name)
    ensures NextToken(b, x) == Took((x.(pos := x.pos + |name|), name)) && NameCharAt(b, x.pos, false)
  {
    hide ToUtf8, IsNameCh, ToInt, AtMarkup, Unescaped, NameEnd, PickToken, SkipMarkup, ScanUntil;
    NoMarkup(b, x.pos);
    SkipNothing(b, x.pos, x.tagVal);
    NamePick(b, x.pos, x.save, |ToUtf8(cs[0])|, |name|);
  }

  lemma NamePick(b: seq<byte>, p: nat, save: Option<nat>, head: nat, len: nat)
    requires NameCharAt(b, p, false) && !Punctuation(At(b, p)) && ToInt(b, p).1 == head
    requires NameEnd(b, p + head) == p + len
    ensures PickToken(b, p, false, save) == Took(Pick(len, p, false, save))
  {
    hide IsNameCh, ToInt, NameEnd, ContentEnd;
  }

  // Text without the first byte of the key is passed over up to the key.
  lemma {:induction false} ScanPast(b: seq<byte>, p: nat, s: seq<byte>, key: byte)
    requires HasAt(b, p, s) && 0 !in s && key !in s && At(b, p + |s|) == key
    ensures ScanUntil(b, p, [key]) == p + |s|
    decreases |s|
  {
    if s == [] {
      assert StartsWith(b, p, [key]);
    } else {
      HasAtHead(b, p, s);
      assert At(b, p + 0) != [key][0];
      ScanPast(b, p + 1, s[1..], key);
    }
  }

  // A printed attribute value is one token, up to the closing quote.
  lemma ValueToken(b: seq<byte>, x: Scanner, v: seq<byte>)
    requires x.inAttrib && !x.tagVal && ReadableValue(v)
    requires HasAt(b, x.pos, Escaped(v)) && At(b, x.pos + |Escaped(v)|) == QUOTE
    ensures NextToken(b, x) == Took((x.(pos := x.pos + |Escaped(v)|), v))
  {
    hide Unescaped, AtMarkup, Escaped, Encode, XmlText, ScanUntil, PickToken, SkipMarkup;
    var s := Escaped(v);
    HasAtHead(b, x.pos, s);
    if v == [QUOTE] {
      assert s == [QUOTE] by { QuoteStays(); }
      NoMarkup(b, x.pos);
      SkipNothing(b, x.pos, x.tagVal);
      QuotePick(b, x.pos, x.save);
      PlainToken(b, x.pos);
    } else {
      EscapedIsClean(v);
      ScanPast(b, x.pos, s, QUOTE);
      EscapeRoundTrip(b, x.pos, v);
    }
  }

  lemma QuoteStays()
    ensures Escaped([QUOTE]) == [QUOTE]
  {
    EscapedSnoc([], QUOTE);
    assert [] + [QUOTE] == [QUOTE];
  }

  lemma QuotePick(b: seq<byte>, p: nat, save: Option<nat>)
    requires At(b, p) == QUOTE
    ensures PickToken(b, p, false, save) == Took(Pick(1, p, false, save))
  {
  }

  // Printed text of XML characters has no zero byte, no angle bracket, and no new quote.
  lemma EscapedIsClean(v: seq<byte>)
    requires XmlText(v)
    ensures 0 !in Escaped(v) && LESS !in Escaped(v) && GREATER !in Escaped(v)
    ensures QUOTE !in v ==> QUOTE !in Escaped(v)
  {
    hide Escaped, Encode;
    var s := Escaped(v);
    var cs: seq<XmlChar> :| v == Encode(cs);
    EncodeNonZero(cs);
    forall i | 0 <= i < |s| ensures s[i] != 0 && s[i] != LESS && s[i] != GREATER && (s[i] == QUOTE ==> QUOTE in v) {
      EscapedBytes(v, i);
    }
  }

  ghost predicate Whites(b: seq<byte>, p: nat, q: nat) {
    p <= q && forall i :: p <= i < q ==> IsWhite(At(b, i))
  }

  lemma {:induction false} SkipWhites(b: seq<byte>, p: nat, q: nat)
    requires Whites(b, p, q)
    ensures SkipWhite(b, p) == SkipWhite(b, q)
    ensures !IsWhite(At(b, q)) ==> SkipWhite(b, p) == q
    decreases q - p
  {
    if p < q {
      SkipWhites(b, p + 1, q);
    }
  }

  // Escaping keeps the first byte that is not white space away from the end.
  lemma {:induction false} SolidByte(v: seq<byte>) returns (k: nat)
    requires !Blank(v)
    ensures k < |Escaped(v)| && !IsWhite(Escaped(v)[k])
  {
    var e := EscapedByte(v[0]);
    assert Escaped(v) == e + Escaped(v[1..]);
    if IsWhite(v[0]) {
      assert v == [v[0]] + v[1..];
      var k' := SolidByte(v[1..]);
      k := |e| + k';
    } else {
      k := 0;
    }
  }

  lemma ContentEndAt(b: seq<byte>, p: nat, s: seq<byte>)
    requires HasAt(b, p, s) && 0 !in s && LESS !in s
    requires At(b, p + |s|) == LESS && !StartsWith(b, p + |s|, BEGIN_COMMENT)
    ensures ContentEnd(b, p) == p + |s|
  {
    ScanPast(b, p, s, LESS);
  }

  lemma NoComment(b: seq<byte>, p: nat)
    requires At(b, p + 1) != 33
    ensures !StartsWith(b, p, BEGIN_COMMENT)
  {
    assert At(b, p + 1) != BEGIN_COMMENT[1];
  }

  // A byte that content may have behind white space.
  predicate ContentByte(b: seq<byte>, p: nat) {
    At(b, p) != 0 && At(b, p) != LESS && At(b, p) != GREATER && !IsWhite(At(b, p))
    && !(At(b, p) == SLASH && At(b, p + 1) == GREATER)
  }

  // Where content may start, it is read from behind the last >, wherever that is.
  lemma ContentFromSave(b: seq<byte>, x: Scanner, v: seq<byte>)
    requires !x.inAttrib && x.tagVal && x.save.Some? && XmlText(v) && v != [] && ContentByte(b, x.pos)
    requires var q := x.save.value + 1;
             && HasAt(b, q, Escaped(v)) && At(b, q + |Escaped(v)|) == LESS
             && !StartsWith(b, q + |Escaped(v)|, BEGIN_COMMENT)
    ensures NextToken(b, x) == Took((x.(pos := x.save.value + 1 + |Escaped(v)|, tagVal := false), v))
  {
    hide Unescaped, AtMarkup, Escaped, Encode, XmlText, ScanUntil, SkipMarkup, IsNameCh, ContentEnd;
    EscapedIsClean(v);
    EscapedIsLong(v);
    NoMarkup(b, x.pos);
    SkipNothing(b, x.pos, x.tagVal);
    ContentEndAt(b, x.save.value + 1, Escaped(v));
    EscapeRoundTrip(b, x.save.value + 1, v);
  }

  lemma EscapedIsLong(v: seq<byte>)
    requires v != []
    ensures Escaped(v) != []
  {
  }

  // The first byte of a text behind white space.
  lemma TextByte(b: seq<byte>, q: nat, v: seq<byte>, p: nat)
    requires XmlText(v) && !Blank(v) && HasAt(b, q, Escaped(v)) && At(b, q + |Escaped(v)|) == LESS
    requires Whites(b, q, p) && !IsWhite(At(b, p))
    ensures ContentByte(b, p)
  {
    hide Escaped, Encode, XmlText;
    var s := Escaped(v);
    EscapedIsClean(v);
    HasAtIndex(b, q, s);
    var k := SolidByte(v);
    assert !IsWhite(At(b, q + k));
    assert p <= q + k;
    assert At(b, p) == At(b, q + (p - q)) == s[p - q];
    if p + 1 < q + |s| {
      assert At(b, p + 1) == At(b, q + (p + 1 - q)) == s[p + 1 - q];
    }
  }

  // Text after a start tag is one token, with the white space it starts with.
  lemma ContentToken(b: seq<byte>, x: Scanner, v: seq<byte>)
    requires !x.inAttrib && x.tagVal && x.save.Some? && XmlText(v) && !Blank(v)
    requires var q := x.save.value + 1;
             && HasAt(b, q, Escaped(v)) && Whites(b, q, x.pos) && !IsWhite(At(b, x.pos))
             && At(b, q + |Escaped(v)|) == LESS && At(b, q + |Escaped(v)| + 1) != 33
    ensures NextToken(b, x) == Took((x.(pos := x.save.value + 1 + |Escaped(v)|, tagVal := false), v))
    ensures v != []
  {
    hide NextToken, Escaped, XmlText;
    TextByte(b, x.save.value + 1, v, x.pos);
    NoComment(b, x.save.value + 1 + |Escaped(v)|);
    ContentFromSave(b, x, v);
  }

  lemma SkipNothing(b: seq<byte>, p: nat, tagVal: bool)
    requires !AtMarkup(b, p)
    ensures SkipMarkup(b, p, tagVal) == (p, tagVal)
  {
    hide AtMarkup;
  }
}
