// What one call of Parser::getNextNode reports (src/upnpdom/Parser.cpp:680-936), as a
// function of the buffer, the parser's fields and the in-out parameters of the call.
module Reader {
  import opened Bytes
  import opened Escape
  import opened Lexer

  datatype NodeKind = InvalidNode | ElementNode | AttributeNode | TextNode

  // NodeType, NodeName, NodeValue and IsEnd.
  datatype Event = Event(kind: NodeKind, name: seq<byte>, value: Option<seq<byte>>, isEnd: bool)

  // The scanner with attrFound, atLeastOneAttrFound and lastElem.
  datatype ParserState = ParserState(scan: Scanner, attrFound: bool, oneAttr: bool, lastElem: seq<byte>)

  // A turn of the loop goes on or returns, with or without the error return; Fault is what C leaves
  // undefined: a wild read, or putting back more than the buffer has.
  datatype Outcome =
    Continue(ps: ParserState, ev: Event) | Return(ps: ParserState, ev: Event) | Error | Fault

  const TEXT_NAME: seq<byte> := [HASH, 116, 101, 120, 116]  // #text
  const NO_EVENT := Event(InvalidNode, [], None, false)

  // A token that is no punctuation of tags.
  predicate IsWord(tok: seq<byte>) {
    tok != [] && tok != LESSTHAN && tok != GREATERTHAN && tok != ENDTAG && tok != COMPLETETAG
  }

  // Returns with n bytes put back.
  function PutBack(ps: ParserState, ev: Event, x: Scanner, n: nat): (r: Outcome)
    ensures r.Return? || r.Fault?
    ensures r.Return? ==> r.ps.scan.inAttrib == x.inAttrib
  {
    if n <= x.pos then Return(ps.(scan := x.(pos := x.pos - n)), ev) else Fault
  }

  // How the call ends when a token is not taken.
  function NotTaken<T>(t: Taken<T>): (r: Outcome)
    ensures r.Error? || r.Fault?
  {
    if t.Wild? then Fault else Error
  }

  function IgnoreWhite(b: seq<byte>, x: Scanner): Scanner {
    x.(pos := SkipWhite(b, x.pos))
  }

  // Skips white space and takes one token.
  ghost function TokenAfterWhite(b: seq<byte>, x: Scanner): (r: Taken<(Scanner, seq<byte>)>)
    ensures r.Took? ==> r.value.0.inAttrib == x.inAttrib
  {
    NextToken(b, IgnoreWhite(b, x))
  }

  // An attribute after its name: the equals sign, the opening quote, the value, the closing quote.
  ghost function AttributeValue(b: seq<byte>, x: Scanner): (r: Taken<(Scanner, seq<byte>)>)
    ensures r.Took? ==> !r.value.0.inAttrib
  {
    var equals := TokenAfterWhite(b, x);
    if !equals.Took? then equals
    else
      var open := TokenAfterWhite(b, equals.value.0);
      if !open.Took? then open
      else
        var value := NextToken(b, open.value.0.(inAttrib := true));
        if !value.Took? then value
        else if value.value.1 == [] then Refused
        else
          var close := NextToken(b, value.value.0.(inAttrib := false));
          if !close.Took? then close else Took((close.value.0, value.value.1))
  }

  // A tag name after < or </.
  ghost function TagName(b: seq<byte>, x: Scanner): (r: Taken<(Scanner, seq<byte>)>)
    ensures r.Took? ==> r.value.0.inAttrib == x.inAttrib
  {
    var n := TokenAfterWhite(b, x);
    if n.Took? && n.value.1 == [] then Refused else n
  }

  // What the loop does with a token; x is the scanner after it.
  ghost function OnToken(b: seq<byte>, ps: ParserState, ev: Event, x: Scanner, tok: seq<byte>): (r: Outcome)
    requires !x.inAttrib
    ensures r.Continue? || r.Return? ==> !r.ps.scan.inAttrib
  {
    if tok == LESSTHAN then
      var n := TagName(b, x);
      if !n.Took? then NotTaken(n)
      else Continue(ParserState(n.value.0, true, false, n.value.1), Event(ElementNode, n.value.1, None, false))
    else if tok == GREATERTHAN then
      if ps.oneAttr then Continue(ParserState(x, false, false, ps.lastElem), ev)
      else Return(ParserState(x, false, false, ps.lastElem), ev)
    else if tok == ENDTAG then
      var n := TagName(b, x);
      if !n.Took? then NotTaken(n)
      else Continue(ps.(scan := n.value.0), Event(ElementNode, n.value.1, None, true))
    else if tok == COMPLETETAG then
      if ev.kind == ElementNode || ev.kind == AttributeNode then
        PutBack(ps, ev.(isEnd := false), x, |tok|)
      else
        Return(ParserState(x, true, false, ps.lastElem), Event(ElementNode, ps.lastElem, None, true))
    else if tok == [] then Continue(ps.(scan := x), ev.(isEnd := false))
    else if !ps.attrFound then Return(ps.(scan := x), Event(TextNode, TEXT_NAME, Some(tok), false))
    else if ev.kind == ElementNode then PutBack(ps, ev, x, |tok| + 1)
    else
      var a := AttributeValue(b, x);
      if !a.Took? then NotTaken(a)
      else Return(ps.(scan := a.value.0, oneAttr := true), Event(AttributeNode, tok, Some(a.value.1), false))
  }

  // One turn of the loop in getNextNode.
  ghost function NodeStep(b: seq<byte>, ps: ParserState, ev: Event): (r: Outcome)
    requires !ps.scan.inAttrib
    ensures r.Continue? || r.Return? ==> !r.ps.scan.inAttrib
  {
    var first := TokenAfterWhite(b, ps.scan);
    if !first.Took? then NotTaken(first) else OnToken(b, ps, ev, first.value.0, first.value.1)
  }

  // A whole call of getNextNode, cut off after fuel turns; Continue means it was cut off.
  ghost function NextNode(b: seq<byte>, ps: ParserState, ev: Event, fuel: nat): (r: Outcome)
    requires !ps.scan.inAttrib
    ensures r.Continue? || r.Return? ==> !r.ps.scan.inAttrib
    decreases fuel
  {
    if At(b, ps.scan.pos) == 0 then Return(ps, ev)
    else if fuel == 0 then Continue(ps, ev)
    else
      var r := NodeStep(b, ps, ev);
      if r.Continue? then NextNode(b, r.ps, r.ev, fuel - 1) else r
  }
}
