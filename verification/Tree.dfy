// Document trees and the text dump_doc prints for them (src/upnpdom/domCif.cpp:1466-1588).
module Tree {
  import opened Bytes
  import opened Utf8
  import opened CharTables
  import opened Escape
  import opened Lexer

  datatype Attribute = Attribute(name: seq<byte>, value: seq<byte>)
  datatype Node = Text(value: seq<byte>) | Element(name: seq<byte>, attrs: seq<Attribute>, children: seq<Node>)

  const ATTR_START: seq<byte> := [SPACE, SPACE]
  const ATTR_EQUALS: seq<byte> := [EQUAL, QUOTE]
  const ATTR_END: seq<byte> := [QUOTE]
  const TAG_END: seq<byte> := [GREATER, LF]
  const EMPTY_END: seq<byte> := [SLASH, GREATER, LF]

  function PrintedAttr(a: Attribute): (s: seq<byte>)
    ensures |s| > 0
  {
    ATTR_START + (a.name + (ATTR_EQUALS + (Escaped(a.value) + ATTR_END)))
  }

  function PrintedAttrs(attrs: seq<Attribute>): seq<byte> {
    if attrs == [] then [] else PrintedAttr(attrs[0]) + PrintedAttrs(attrs[1..])
  }

  // The start tag up to its > or />.
  function PrintedTag(name: seq<byte>, attrs: seq<Attribute>): (s: seq<byte>)
    ensures |s| > 0
  {
    LESSTHAN + (name + PrintedAttrs(attrs))
  }

  function TagClose(first: Node): seq<byte> {
    if first.Text? then GREATERTHAN else TAG_END
  }

  function PrintedEnd(name: seq<byte>): (s: seq<byte>)
    ensures |s| > 0
  {
    ENDTAG + (name + TAG_END)
  }

  function Printed(t: Node): (s: seq<byte>)
    decreases t
  {
    match t
    case Text(v) => Escaped(v)
    case Element(name, attrs, children) =>
      PrintedTag(name, attrs)
      + (if children == [] then EMPTY_END
         else TagClose(children[0]) + (PrintedAll(children) + PrintedEnd(name)))
  }

  function PrintedAll(ts: seq<Node>): seq<byte>
    decreases ts
  {
    if ts == [] then [] else Printed(ts[0]) + PrintedAll(ts[1..])
  }

  // A name: shortest-form UTF-8 of name characters.
  ghost predicate IsName(s: seq<byte>) {
    exists cs: seq<XmlChar> :: NameOf(s, cs)
  }

  ghost predicate NameOf(s: seq<byte>, cs: seq<XmlChar>) {
    && cs != [] && s == Encode(cs)
    && IsNameCh(cs[0], false) && forall i :: 0 <= i < |cs| ==> IsNameCh(cs[i], true)
  }

  // An attribute value that can be read back. The printer leaves the double quote as it is,
  // and the parser takes an empty value for a quote, so a quote comes back only alone.
  ghost predicate ReadableValue(v: seq<byte>) {
    v == [QUOTE] || (v != [] && XmlText(v) && QUOTE !in v)
  }

  predicate Blank(v: seq<byte>) {
    forall i :: 0 <= i < |v| ==> IsWhite(v[i])
  }

  // Text that can be read back: white space alone is skipped, and a text that equals a piece
  // of tag punctuation is taken for it.
  ghost predicate ReadableText(v: seq<byte>) {
    XmlText(v) && !Blank(v) && v != LESSTHAN && v != GREATERTHAN && v != ENDTAG && v != COMPLETETAG
  }

  // Where the name of an attribute may stand, the parser takes an equals sign or a quote for one too.
  ghost predicate AttrName(s: seq<byte>) {
    IsName(s) || s == [EQUAL] || s == [QUOTE]
  }

  ghost predicate ReadableAttrs(attrs: seq<Attribute>) {
    forall i :: 0 <= i < |attrs| ==> AttrName(attrs[i].name) && ReadableValue(attrs[i].value)
  }

  // Trees whose text comes back: text stands only before all elements of its parent.
  ghost predicate Readable(t: Node)
    decreases t
  {
    match t
    case Text(v) => ReadableText(v)
    case Element(name, attrs, children) =>
      && IsName(name) && ReadableAttrs(attrs)
      && (forall i :: 0 <= i < |children| ==> Readable(children[i]))
      && (forall i :: 0 < i < |children| ==> children[i].Element?)
  }

  ghost predicate NamedAttrs(attrs: seq<Attribute>) {
    forall i :: 0 <= i < |attrs| ==> AttrName(attrs[i].name)
  }

  // Trees with names where names are read and text where text is read; values and texts are any bytes.
  ghost predicate Shaped(t: Node)
    decreases t
  {
    match t
    case Text(_) => true
    case Element(name, attrs, children) =>
      && IsName(name) && NamedAttrs(attrs)
      && (forall i :: 0 <= i < |children| ==> Shaped(children[i]))
      && (forall i :: 0 < i < |children| ==> children[i].Element?)
  }

  // There are readable trees.
  lemma SomeTree()
    ensures Readable(Element([97], [Attribute([97], [97])], [Text([97])]))
  {
    hide IsName, XmlText;
    LetterIsName(97);
    LetterIsText(97);
    var text: seq<byte> := [97];
    assert text[0] == 97 && !IsWhite(text[0]);
    assert ReadableText(text) && ReadableValue(text);
    assert Readable(Text(text)) && ReadableAttrs([Attribute(text, text)]);
  }

  lemma LetterIsName(c: byte)
    requires 97 <= c <= 122
    ensures IsName([c])
  {
    hide N_TBL;
    LetterInTable(c);
    var cs: seq<XmlChar> := [c];
    EncodeOne(c);
    OneByteEncoding(c);
    assert NameOf([c], cs);
  }

  lemma LetterInTable(c: int)
    requires 97 <= c <= 122
    ensures InTable(c, N_TBL)
  {
    assert N_ROW_0[3] == R(0x0061, 0x007A);
    assert N_TBL[3] == N_ROW_0[3];
  }

  lemma LetterIsText(c: byte)
    requires 97 <= c <= 122
    ensures XmlText([c])
  {
    EncodeOne(c);
    OneByteEncoding(c);
  }

  // <a  b="c&lt;">d<e/> and </a>, with a line feed behind each tag that text does not follow.
  lemma PrintedExample()
    ensures Printed(Element([97], [Attribute([98], [99, 60])], [Text([100]), Element([101], [], [])])) ==
      [60, 97, 32, 32, 98, 61, 34, 99, 38, 108, 116, 59, 34, 62, 100, 60, 101, 47, 62, 10, 60, 47, 97, 62, 10]
  {
    hide *;
    var a, d, e := Attribute([98], [99, 60]), Text([100]), Element([101], [], []);
    AttrExample();
    EmptyExample();
    PrintedParts([97], a, d, e);
  }

  lemma AttrExample()
    ensures PrintedAttr(Attribute([98], [99, 60])) == [32, 32, 98, 61, 34, 99, 38, 108, 116, 59, 34]
    ensures Printed(Text([100])) == [100]
  {
    EscapedSnoc([99], 60);
    EscapedForms(99);
    EscapedForms(100);
    assert [99] + [60] == [99, 60];
    hide Escaped, EscapedByte;
    assert EscapedByte(60) == [38, 108, 116, 59] by { LessEscaped(); }
    assert Escaped([99, 60]) == [99, 38, 108, 116, 59];
    var a := Attribute([98], [99, 60]);
    assert PrintedAttr(a) == ATTR_START + (a.name + (ATTR_EQUALS + (Escaped(a.value) + ATTR_END)));
  }

  lemma LessEscaped()
    ensures EscapedByte(60) == [38, 108, 116, 59]
  {
  }

  lemma EmptyExample()
    ensures Printed(Element([101], [], [])) == [60, 101, 47, 62, 10]
  {
    assert PrintedAttrs([]) == [];
  }

  lemma PrintedParts(name: seq<byte>, a: Attribute, d: Node, e: Node)
    requires d.Text?
    ensures Printed(Element(name, [a], [d, e])) ==
      [60] + name + PrintedAttr(a) + [62] + (Printed(d) + Printed(e)) + [60, 47] + name + [62, 10]
  {
    TagParts(name, a);
    TwoParts(d, e);
    hide PrintedAttr, PrintedTag, PrintedAll;
    var tag, inside, end := PrintedTag(name, [a]), PrintedAll([d, e]), PrintedEnd(name);
    assert Printed(Element(name, [a], [d, e])) == tag + ([62] + (inside + end));
    assert end == [60, 47] + name + [62, 10];
    assert tag + ([62] + (inside + end)) == tag + [62] + inside + [60, 47] + name + [62, 10];
  }

  lemma TagParts(name: seq<byte>, a: Attribute)
    ensures PrintedTag(name, [a]) == [60] + name + PrintedAttr(a)
  {
    hide PrintedAttr;
    assert [a][1..] == [] && PrintedAttrs([a]) == PrintedAttr(a) + [];
  }

  lemma TwoParts(d: Node, e: Node)
    ensures PrintedAll([d, e]) == Printed(d) + Printed(e)
  {
    hide Printed;
    assert [d, e][1..] == [e] && [e][1..] == [];
    assert PrintedAll([e]) == Printed(e) + PrintedAll([]);
  }
}
