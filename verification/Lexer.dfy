// What one call of Parser::getNextToken returns and how it moves the scanner
// (src/upnpdom/Parser.cpp:463-719), as functions of the buffer and the scanner's fields.
module Lexer {
  import opened Bytes
  import opened Utf8
  import opened CharTables
  import opened Escape

  const BEGIN_COMMENT: seq<byte> := [LESS, 33, 45, 45]  // <!--
  const END_COMMENT: seq<byte> := [45, 45, GREATER]     // -->
  const BEGIN_PROCESSING: seq<byte> := [LESS, 63]       // <?
  const END_PROCESSING: seq<byte> := [63, GREATER]      // ?>
  const BEGIN_DOCTYPE: seq<byte> := [LESS, 33]          // <!
  const LESSTHAN: seq<byte> := [LESS]
  const GREATERTHAN: seq<byte> := [GREATER]
  const ENDTAG: seq<byte> := [LESS, SLASH]
  const COMPLETETAG: seq<byte> := [SLASH, GREATER]

  // CurrPtr, TagVal, SavePtr and inAttrib of the parser. No constructor sets SavePtr; it points
  // nowhere until a > is taken.
  datatype Scanner = Scanner(pos: nat, tagVal: bool, save: Option<nat>, inAttrib: bool)

  // What taking something from the buffer comes to: the error return, or a read through SavePtr
  // where it points nowhere, or outside the buffer.
  datatype Taken<+T> = Took(value: T) | Refused | Wild

  predicate IsWhite(c: byte) {
    c == LF || c == TAB || c == CR || c == FF || c == SPACE
  }

  predicate StartsWith(b: seq<byte>, p: nat, key: seq<byte>) {
    forall i :: 0 <= i < |key| ==> At(b, p + i) == key[i]
  }

  // The first index from p on where the key or the end of the buffer stands.
  function ScanUntil(b: seq<byte>, p: nat, key: seq<byte>): (q: nat)
    ensures p <= q && (p <= |b| ==> q <= |b|)
    ensures At(b, q) == 0 || StartsWith(b, q, key)
    decreases |b| - p
  {
    if At(b, p) == 0 || StartsWith(b, p, key) then p else ScanUntil(b, p + 1, key)
  }

  function SkipWhite(b: seq<byte>, p: nat): (q: nat)
    ensures p <= q && (p <= |b| ==> q <= |b|) && !IsWhite(At(b, q))
    ensures forall i :: p <= i < q ==> IsWhite(At(b, i))
    decreases |b| - p
  {
    if IsWhite(At(b, p)) then SkipWhite(b, p + 1) else p
  }

  // The end of an element's content: the next < that does not open a comment.
  function ContentEnd(b: seq<byte>, p: nat): (q: nat)
    ensures p <= q
    decreases |b| - p
  {
    var m := ScanUntil(b, p, LESSTHAN);
    if !StartsWith(b, m, BEGIN_COMMENT) then m
    else
      var e := ScanUntil(b, m, END_COMMENT) + |END_COMMENT|;
      if At(b, e) == 0 then e else ContentEnd(b, e)
  }

  predicate AtMarkup(b: seq<byte>, p: nat) {
    StartsWith(b, p, BEGIN_COMMENT) || StartsWith(b, p, BEGIN_PROCESSING) || StartsWith(b, p, BEGIN_DOCTYPE)
  }

  // The end of the comment, processing instruction or <! declaration at p.
  function MarkupEnd(b: seq<byte>, p: nat): (q: nat)
    ensures p < q
  {
    if StartsWith(b, p, BEGIN_COMMENT) then ScanUntil(b, p, END_COMMENT) + |END_COMMENT|
    else if StartsWith(b, p, BEGIN_PROCESSING) then ScanUntil(b, p, END_PROCESSING) + |END_PROCESSING|
    else ScanUntil(b, p, GREATERTHAN) + |GREATERTHAN|
  }

  lemma MarkupStartsWithLess(b: seq<byte>, p: nat)
    requires AtMarkup(b, p)
    ensures At(b, p) == LESS
  {
    if StartsWith(b, p, BEGIN_COMMENT) {
      assert At(b, p + 0) == BEGIN_COMMENT[0];
    } else if StartsWith(b, p, BEGIN_PROCESSING) {
      assert At(b, p + 0) == BEGIN_PROCESSING[0];
    } else {
      assert At(b, p + 0) == BEGIN_DOCTYPE[0];
    }
  }

  // Skips markup that is not part of the tree, with the white space after it; each piece
  // clears TagVal.
  function SkipMarkup(b: seq<byte>, p: nat, tagVal: bool): (r: (nat, bool))
    ensures p <= r.0
    decreases |b| - p
  {
    if !AtMarkup(b, p) then (p, tagVal)
    else
      MarkupStartsWithLess(b, p);
      SkipMarkup(b, SkipWhite(b, MarkupEnd(b, p)), false)
  }

  ghost predicate NameCharAt(b: seq<byte>, p: nat, second: bool) {
    IsNameCh(ToInt(b, p).0, second)
  }

  // The name tables hold neither zero nor a negative code.
  lemma NameCharBounds(c: int)
    requires IsNameCh(c, true)
    ensures 0x2D <= c <= 0xD7A3 && IsXmlCh(c)
  {
    NameTableAscending();
    NameCharTableAscending();
  }

  // The end of a name whose first character ends at p.
  ghost function NameEnd(b: seq<byte>, p: nat): (q: nat)
    ensures p <= q
    decreases |b| - p
  {
    if NameCharAt(b, p, true) then
      NameCharBounds(ToInt(b, p).0);
      NameEnd(b, p + ToInt(b, p).1)
    else p
  }

  // Length of the token, with the scanner as the checks leave it.
  datatype Pick = Pick(len: nat, pos: nat, tagVal: bool, save: Option<nat>)

  // Content is read from behind the last >, if there was one; a comment in it may not end.
  function ContentPick(b: seq<byte>, save: Option<nat>): Taken<Pick> {
    if save.None? then Wild
    else
      var q := save.value + 1;
      var e := ContentEnd(b, q);
      if e > |b| then Wild else Took(Pick(e - q, q, false, save))
  }

  ghost function PickToken(b: seq<byte>, p: nat, tagVal: bool, save: Option<nat>): (r: Taken<Pick>) {
    var c := At(b, p);
    if c == LESS then
      if ToInt(b, p + 1).0 == SLASH then Took(Pick(2, p, false, save))
      else if NameCharAt(b, p + 1, false) then Took(Pick(1, p, false, save))
      else Refused
    else if c == SLASH then
      if At(b, p + 1) == GREATER then Took(Pick(2, p, true, save))
      else if tagVal then ContentPick(b, save)
      else Took(Pick(0, p, false, save))
    else if c == GREATER then Took(Pick(1, p, true, Some(p)))
    else if tagVal then ContentPick(b, save)
    else if c == QUOTE || c == EQUAL then Took(Pick(1, p, false, save))
    else if NameCharAt(b, p, false) then
      Took(Pick(NameEnd(b, p + ToInt(b, p).1) - p, p, false, save))
    else Took(Pick(0, p, false, save))
  }

  // One call of getNextToken: the new scanner and the token. Markup that does not end is skipped
  // to behind the buffer.
  ghost function NextToken(b: seq<byte>, x: Scanner): (r: Taken<(Scanner, seq<byte>)>)
    ensures r.Took? ==> r.value.0.inAttrib == x.inAttrib
  {
    if At(b, x.pos) == 0 then Took((x, []))
    else if x.inAttrib && At(b, x.pos) != QUOTE then
      var q := ScanUntil(b, x.pos, [QUOTE]);
      var t := Token(b, x.pos, q - x.pos);
      if t.None? then Refused else Took((x.(pos := q), t.value))
    else if IsWhite(At(b, x.pos)) then Took((x.(pos := x.pos + 1), [SPACE]))
    else
      var (p, tagVal) := SkipMarkup(b, x.pos, x.tagVal);
      if p > |b| then Wild
      else
        match PickToken(b, p, tagVal, x.save)
        case Refused => Refused
        case Wild => Wild
        case Took(k) => TakePicked(b, k, x.inAttrib)
  }

  // Copies the token out of the buffer.
  function TakePicked(b: seq<byte>, k: Pick, inAttrib: bool): Taken<(Scanner, seq<byte>)> {
    var y := Scanner(k.pos, k.tagVal, k.save, inAttrib);
    if k.len == 0 then
      if At(b, k.pos) == 0 then Took((y, [])) else Refused
    else
      var t := Token(b, k.pos, k.len);
      if t.None? then Refused else Took((y.(pos := k.pos + k.len), t.value))
  }
}
