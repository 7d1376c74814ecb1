// All the ways to write a character in an XML document, and what the parser makes of them
// (src/upnpdom/Parser.cpp:367-461).
module References {
  import opened Bytes
  import opened Utf8
  import opened Escape
  import opened Letters
  import opened Numbers
  import Tokens

  const QUOT_NAME: seq<byte> := [38, 113, 117, 111, 116, 59]
  const LT_NAME: seq<byte> := [38, 108, 116, 59]
  const GT_NAME: seq<byte> := [38, 103, 116, 59]
  const APOS_NAME: seq<byte> := [38, 97, 112, 111, 115, 59]
  const AMP_NAME: seq<byte> := [38, 97, 109, 112, 59]

  // The name that stands for a character, in any letter case.
  predicate Named(text: seq<byte>, c: int) {
    || (c == 34 && SameLetters(text, QUOT_NAME))
    || (c == 60 && SameLetters(text, LT_NAME))
    || (c == 62 && SameLetters(text, GT_NAME))
    || (c == 39 && SameLetters(text, APOS_NAME))
    || (c == 38 && SameLetters(text, AMP_NAME))
  }

  // The number of a character in a base, behind any number of zeros.
  function Numbered(prefix: seq<byte>, zeros: nat, n: nat, base: nat, upper: bool): seq<byte>
    requires 2 <= base <= 16
  {
    prefix + Zeros(zeros) + InBase(n, base, upper) + [59]
  }

  // The bytes of the character itself, its name, or its number in decimal or in hexadecimal.
  ghost predicate Spells(text: seq<byte>, c: XmlChar) {
    || (c != 38 && text == ToUtf8(c))
    || Named(text, c)
    || SpellsInDecimal(text, c)
    || SpellsInHex(text, c)
  }

  ghost predicate SpellsInDecimal(text: seq<byte>, c: XmlChar) {
    exists zeros: nat :: text == Numbered([38, 35], zeros, c, 10, false)
  }

  ghost predicate SpellsInHex(text: seq<byte>, c: XmlChar) {
    exists zeros: nat, upper: bool, x: byte :: IsX(x) && text == Numbered([38, 35, x], zeros, c, 16, upper)
  }

  predicate IsX(x: byte) {
    x == 120 || x == 88
  }

  // ---- names

  lemma Matches(b: seq<byte>, p: nat, text: seq<byte>, key: seq<byte>)
    requires HasAt(b, p, text) && SameLetters(text, key) && IsKey(key)
    ensures MatchNoCase(b, p, key)
  {
    HasAtIndex(b, p, text);
    forall i | 0 <= i < |key| ensures Lower(At(b, p + i)) == key[i] {
      assert text[i] == key[i] || Upper(text[i], key[i]);
    }
  }

  lemma Differs(b: seq<byte>, p: nat, key: seq<byte>, other: seq<byte>, i: nat)
    requires MatchNoCase(b, p, key) && i < |key| && i < |other| && key[i] != other[i]
    ensures !MatchNoCase(b, p, other)
  {
    assert Lower(At(b, p + i)) == key[i];
  }

  lemma NamedRead(b: seq<byte>, p: nat, text: seq<byte>, c: XmlChar)
    requires HasAt(b, p, text) && Named(text, c)
    ensures CharAt(b, p) == (c as int, |text|)
  {
    HasAtIndex(b, p, text);
    assert At(b, p + 0) == text[0];
    hide MatchNoCase, NumericRef, ToInt, HasAt;
    if c == 34 {
      Matches(b, p, text, QUOT_NAME);
    } else if c == 60 {
      Matches(b, p, text, LT_NAME);
      Differs(b, p, LT_NAME, QUOT_REF, 1);
    } else if c == 62 {
      Matches(b, p, text, GT_NAME);
      Differs(b, p, GT_NAME, QUOT_REF, 1);
      Differs(b, p, GT_NAME, LT_REF, 1);
    } else {
      ANameRead(b, p, text, c);
    }
  }

  lemma ANameRead(b: seq<byte>, p: nat, text: seq<byte>, c: XmlChar)
    requires HasAt(b, p, text) && Named(text, c) && (c == 38 || c == 39) && At(b, p) == 38
    ensures CharAt(b, p) == (c as int, |text|)
  {
    hide MatchNoCase, NumericRef, ToInt, HasAt;
    var name := if c == 39 then APOS_NAME else AMP_NAME;
    Matches(b, p, text, name);
    Differs(b, p, name, QUOT_REF, 1);
    Differs(b, p, name, LT_REF, 1);
    Differs(b, p, name, GT_REF, 1);
    if c == 38 {
      Differs(b, p, name, APOS_REF, 2);
    }
  }

  // ---- numbers

  // Only the low 32 bits of a sum count.
  lemma WrapTurn(sum: int, base: nat, d: nat)
    requires base == 10 || base == 16
    ensures Wrap32(Wrap32(sum) * base + d) == Wrap32(sum * base + d)
  {
    var k := (sum + 0x8000_0000) / 0x1_0000_0000;
    assert Wrap32(sum) == sum - k * 0x1_0000_0000;
    var y := sum * base + d;
    if base == 10 {
      SameWrap(y, 10 * k);
    } else {
      SameWrap(y, 16 * k);
    }
  }

  lemma SameWrap(y: int, k: int)
    ensures Wrap32(y - k * 0x1_0000_0000) == Wrap32(y)
  {
  }

  lemma DigitTurn(b: seq<byte>, p: nat, base: nat, sum: int, c: byte, d: nat)
    requires (base == 10 || base == 16) && HasAt(b, p, [c]) && DigitValue(c, base) == d
    ensures Numeral(b, p, base, Wrap32(sum)) == Numeral(b, p + 1, base, Wrap32(sum * base + d))
  {
    HasAtHead(b, p, [c]);
    WrapTurn(sum, base, d);
    hide Wrap32, HasAt;
  }

  lemma NoWrap(c: int)
    requires 0 <= c < 0x8000_0000
    ensures Wrap32(c) == c
  {
  }

  // Digits in front of which nothing but zeros has been read make their number, modulo 32 bits.
  lemma {:induction false} NumeralOver(b: seq<byte>, p: nat, n: nat, base: nat, upper: bool)
    requires (base == 10 || base == 16) && HasAt(b, p, InBase(n, base, upper))
    ensures Numeral(b, p, base, 0) == Numeral(b, p + |InBase(n, base, upper)|, base, Wrap32(n))
    decreases n
  {
    hide *;
    var d := n % base;
    DigitIsRead(d, base, upper);
    LastDigit(n, base, upper);
    NoWrap(0);
    if n < base {
      DigitTurn(b, p, base, 0, DigitByte(d, upper), d);
    } else {
      var front := InBase(n / base, base, upper);
      HasAtSplit(b, p, front, [DigitByte(d, upper)]);
      NumeralOver(b, p, n / base, base, upper);
      DigitTurn(b, p + |front|, base, n / base, DigitByte(d, upper), d);
    }
  }

  lemma LastDigit(n: nat, base: nat, upper: bool)
    requires base == 10 || base == 16
    ensures var last := [DigitByte(n % base, upper)];
      InBase(n, base, upper) == if n < base then last else InBase(n / base, base, upper) + last
    ensures n < base ==> n % base == n
    ensures n / base * base + n % base == n
  {
  }

  lemma {:induction false} ZerosOver(b: seq<byte>, p: nat, k: nat, base: nat)
    requires (base == 10 || base == 16) && HasAt(b, p, Zeros(k))
    ensures Numeral(b, p, base, 0) == Numeral(b, p + k, base, 0)
    decreases k
  {
    hide Numeral;
    if k > 0 {
      assert Zeros(k) == [48] + Zeros(k - 1);
      HasAtSplit(b, p, [48], Zeros(k - 1));
      NoWrap(0);
      DigitTurn(b, p, base, 0, 48, 0);
      ZerosOver(b, p + 1, k - 1, base);
    }
  }

  // What a reference to a number comes to: its low 32 bits, if they are an XML character.
  function Numbers32(n: nat, len: nat): (int, nat) {
    if IsXmlCh(Wrap32(n)) then (Wrap32(n), len) else (-1, 0)
  }

  lemma CharacterIsItself(c: XmlChar, len: nat)
    ensures Numbers32(c, len) == (c as int, len)
  {
    assert IsXmlCh(c);
    NoWrap(c);
  }

  // A number of any length is read up to the semicolon.
  lemma NumberRead(b: seq<byte>, p: nat, zeros: nat, n: nat, base: nat, upper: bool, skip: nat)
    requires (base == 10 || base == 16) && HasAt(b, p, Zeros(zeros) + InBase(n, base, upper) + [59])
    ensures NumericRef(b, p, base, skip) == Numbers32(n, skip + zeros + |InBase(n, base, upper)| + 1)
  {
    hide *;
    var digits := InBase(n, base, upper);
    HasAtSplit(b, p, Zeros(zeros) + digits, [59]);
    HasAtSplit(b, p, Zeros(zeros), digits);
    ZerosOver(b, p, zeros, base);
    NumeralOver(b, p + zeros, n, base, upper);
    NumberEnds(b, p, p + zeros + |digits|, base, n, skip);
  }

  lemma NumberEnds(b: seq<byte>, p: nat, end: nat, base: nat, n: nat, skip: nat)
    requires (base == 10 || base == 16) && p < end && HasAt(b, end, [59])
    requires Numeral(b, p, base, 0) == Numeral(b, end, base, Wrap32(n))
    ensures NumericRef(b, p, base, skip) == Numbers32(n, skip + (end - p) + 1)
  {
    HasAtHead(b, end, [59]);
    hide Wrap32;
  }

  // A decimal reference is read exactly when its number, modulo 32 bits, is an XML character.
  lemma DecimalRead(b: seq<byte>, p: nat, zeros: nat, n: nat)
    requires HasAt(b, p, Numbered([38, 35], zeros, n, 10, false))
    ensures CharAt(b, p) == Numbers32(n, |Numbered([38, 35], zeros, n, 10, false)|)
  {
    var digits := Zeros(zeros) + InBase(n, 10, false);
    assert Numbered([38, 35], zeros, n, 10, false) == [38, 35] + (digits + [59]);
    hide InBase, Numbered, Numbers32;
    HasAtSplit(b, p, [38, 35], digits + [59]);
    HasAtSplit(b, p + 2, digits, [59]);
    NumberRead(b, p + 2, zeros, n, 10, false, 2);
    AfterZeros(zeros, n, 10, false);
    HasAtIndex(b, p + 2, digits);
    assert At(b, p + 2 + 0) == digits[0];
    AtDecimal(b, p);
  }

  // A number begins with a digit, behind zeros or not.
  lemma AfterZeros(zeros: nat, n: nat, base: nat, upper: bool)
    requires base == 10 || base == 16
    ensures DigitValue((Zeros(zeros) + InBase(n, base, upper))[0], base) >= 0
  {
    AllDigits(n, base, upper, 0);
  }

  lemma AtDecimal(b: seq<byte>, p: nat)
    requires HasAt(b, p, [38, 35]) && DigitValue(At(b, p + 2), 10) >= 0
    ensures CharAt(b, p) == NumericRef(b, p + 2, 10, 2)
  {
    Hash(b, p, [38, 35]);
    assert !MatchNoCase(b, p, HEX_REF) by {
      assert Lower(At(b, p + 2)) != HEX_REF[2];
    }
    hide MatchNoCase, NumericRef;
  }

  lemma Hash(b: seq<byte>, p: nat, prefix: seq<byte>)
    requires HasAt(b, p, prefix) && (prefix == [38, 35] || prefix == [38, 35, 120] || prefix == [38, 35, 88])
    ensures At(b, p) == 38 && MatchNoCase(b, p, DEC_REF) && (|prefix| == 3 ==> MatchNoCase(b, p, HEX_REF))
    ensures !MatchNoCase(b, p, QUOT_REF) && !MatchNoCase(b, p, LT_REF) && !MatchNoCase(b, p, GT_REF)
    ensures !MatchNoCase(b, p, APOS_REF) && !MatchNoCase(b, p, AMP_REF)
  {
    HasAtIndex(b, p, prefix);
    assert At(b, p + 0) == prefix[0] && Lower(At(b, p + 1)) == DEC_REF[1];
    hide HasAt;
    assert MatchNoCase(b, p, DEC_REF);
    Differs(b, p, DEC_REF, QUOT_REF, 1);
    Differs(b, p, DEC_REF, LT_REF, 1);
    Differs(b, p, DEC_REF, GT_REF, 1);
    Differs(b, p, DEC_REF, APOS_REF, 1);
    Differs(b, p, DEC_REF, AMP_REF, 1);
  }

  // So is a hexadecimal one.
  lemma HexRead(b: seq<byte>, p: nat, zeros: nat, n: nat, upper: bool, x: byte)
    requires IsX(x) && HasAt(b, p, Numbered([38, 35, x], zeros, n, 16, upper))
    ensures CharAt(b, p) == Numbers32(n, |Numbered([38, 35, x], zeros, n, 16, upper)|)
  {
    hide *;
    var prefix: seq<byte> := [38, 35, if x == 120 then 120 else 88];
    var digits := Zeros(zeros) + InBase(n, 16, upper);
    XIsEither(x);
    NumberedParts(prefix, zeros, n, 16, upper);
    HasAtSplit(b, p, prefix, digits + [59]);
    NumberRead(b, p + 3, zeros, n, 16, upper, 3);
    AtHex(b, p, prefix);
  }

  lemma XIsEither(x: byte)
    requires IsX(x)
    ensures x == 120 || x == 88
  {
  }

  lemma NumberedParts(prefix: seq<byte>, zeros: nat, n: nat, base: nat, upper: bool)
    requires base == 10 || base == 16
    ensures Numbered(prefix, zeros, n, base, upper) == prefix + (Zeros(zeros) + InBase(n, base, upper) + [59])
  {
    hide InBase;
  }

  lemma AtHex(b: seq<byte>, p: nat, prefix: seq<byte>)
    requires (prefix == [38, 35, 120] || prefix == [38, 35, 88]) && HasAt(b, p, prefix)
    ensures CharAt(b, p) == NumericRef(b, p + 3, 16, 3)
  {
    Hash(b, p, prefix);
    hide MatchNoCase, NumericRef, HasAt;
  }

  // ---- any way to write a character

  lemma PlainRead(b: seq<byte>, p: nat, c: XmlChar)
    requires c != 38 && HasAt(b, p, ToUtf8(c))
    ensures CharAt(b, p) == (c as int, |ToUtf8(c)|)
  {
    hide ToUtf8, ToInt;
    var s := ToUtf8(c);
    HasAtIndex(b, p, s);
    assert At(b, p + 0) == s[0];
    if c > 127 {
      ToIntInvertsToUtf8(c, b, p);
    } else {
      OneByteEncoding(c);
      assert IsXmlCh(c);
    }
  }

  lemma SpelledRead(b: seq<byte>, p: nat, text: seq<byte>, c: XmlChar)
    requires HasAt(b, p, text) && Spells(text, c)
    ensures text != [] && CharAt(b, p) == (c as int, |text|)
  {
    hide CharAt, Numbered, ToUtf8, HasAt, Numbers32;
    CharacterIsItself(c, |text|);
    if c != 38 && text == ToUtf8(c) {
      PlainRead(b, p, c);
    } else if Named(text, c) {
      NamedRead(b, p, text, c);
    } else if SpellsInDecimal(text, c) {
      var zeros: nat :| text == Numbered([38, 35], zeros, c, 10, false);
      DecimalRead(b, p, zeros, c);
    } else {
      var zeros: nat, upper: bool, x: byte :| IsX(x) && text == Numbered([38, 35, x], zeros, c, 16, upper);
      HexRead(b, p, zeros, c, upper, x);
    }
  }

  function Joined(texts: seq<seq<byte>>): (s: seq<byte>) {
    if texts == [] then [] else texts[0] + Joined(texts[1..])
  }

  // One byte is a character written as itself.
  lemma OneByteSpelling(text: seq<byte>, c: XmlChar)
    requires Spells(text, c) && |text| == 1
    ensures ToUtf8(c) == [c]
  {
    hide InBase;
    if c <= 127 {
      OneByteEncoding(c);
    }
  }

  // However each character is written, a text is decoded to its characters, in shortest-form UTF-8.
  lemma {:induction false} TextRead(b: seq<byte>, p: nat, texts: seq<seq<byte>>, cs: seq<XmlChar>)
    requires |texts| == |cs| && HasAt(b, p, Joined(texts))
    requires forall i :: 0 <= i < |cs| ==> Spells(texts[i], cs[i])
    ensures Unescaped(b, p, p + |Joined(texts)|) == Some(Encode(cs))
    decreases |cs|
  {
    hide CharAt, Spells, ToUtf8, HasAt;
    if cs != [] {
      var text, c := texts[0], cs[0];
      HasAtSplit(b, p, text, Joined(texts[1..]));
      SpelledRead(b, p, text, c);
      TextRead(b, p + |text|, texts[1..], cs[1..]);
      if |text| == 1 {
        OneByteSpelling(text, c);
      }
    }
  }

  // No way to write a character has a zero byte.
  lemma SpelledNonZero(text: seq<byte>, c: XmlChar)
    requires Spells(text, c)
    ensures 0 !in text
  {
    hide ToUtf8, Numbered;
    if c != 38 && text == ToUtf8(c) {
      Tokens.EncodedByteNonZero(c);
    } else if Named(text, c) {
    } else if SpellsInDecimal(text, c) {
      var zeros: nat :| text == Numbered([38, 35], zeros, c, 10, false);
      NumberNonZero([38, 35], zeros, c, 10, false);
    } else {
      var zeros: nat, upper: bool, x: byte :| IsX(x) && text == Numbered([38, 35, x], zeros, c, 16, upper);
      NumberNonZero([38, 35, x], zeros, c, 16, upper);
    }
  }

  lemma NumberNonZero(prefix: seq<byte>, zeros: nat, n: nat, base: nat, upper: bool)
    requires (base == 10 || base == 16) && 0 !in prefix
    ensures 0 !in Numbered(prefix, zeros, n, base, upper)
  {
    hide InBase, DigitValue;
    var digits := InBase(n, base, upper);
    forall k | 0 <= k < |digits| ensures digits[k] != 0 {
      AllDigits(n, base, upper, k);
      ZeroIsNoDigit(base);
    }
  }

  lemma ZeroIsNoDigit(base: int)
    ensures DigitValue(0, base) < 0
  {
  }
}
