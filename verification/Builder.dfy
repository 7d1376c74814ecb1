// How Document::ReadDocumentFileOrBuffer turns the reported nodes into a tree
// (src/upnpdom/Document.cpp:167-245), on values: the open elements form a stack whose bottom
// is the document node and whose top is CurrentNodePtr.
module Builder {
  import opened Bytes
  import opened Escape
  import opened Lexer
  import opened Reader
  import opened Tree

  // An open element with what has been appended to it so far.
  datatype Frame = Frame(name: seq<byte>, attrs: seq<Attribute>, children: seq<Node>)

  const DOCUMENT_NAME: seq<byte> := [HASH, 100, 111, 99, 117, 109, 101, 110, 116]  // #document
  const EMPTY_DOCUMENT := [Frame(DOCUMENT_NAME, [], [])]

  function Top(stack: seq<Frame>): Frame
    requires stack != []
  {
    stack[|stack| - 1]
  }

  function AddChild(stack: seq<Frame>, t: Node): (r: seq<Frame>)
    requires stack != []
    ensures |r| == |stack|
  {
    stack[|stack| - 1 := Top(stack).(children := Top(stack).children + [t])]
  }

  function AddAttr(stack: seq<Frame>, a: Attribute): (r: seq<Frame>)
    requires stack != []
    ensures |r| == |stack|
  {
    stack[|stack| - 1 := Top(stack).(attrs := Top(stack).attrs + [a])]
  }

  function Closed(f: Frame): Node {
    Element(f.name, f.attrs, f.children)
  }

  // Leaves the top element; above it the document's parent is no node, an empty stack.
  function Pop(stack: seq<Frame>): (r: seq<Frame>)
    requires stack != []
    ensures |r| == |stack| - 1
  {
    var rest := stack[..|stack| - 1];
    if rest == [] then [] else AddChild(rest, Closed(Top(stack)))
  }

  function TextOf(v: Option<seq<byte>>): seq<byte> {
    if v.Some? then v.value else []
  }

  // One reported node; None for an end tag that does not name the innermost open element.
  function Apply(stack: seq<Frame>, ev: Event): (r: Option<seq<Frame>>)
    requires stack != []
  {
    if ev.isEnd then
      if ev.name == Top(stack).name then Some(Pop(stack)) else None
    else
      match ev.kind
      case ElementNode => Some(stack + [Frame(ev.name, [], [])])
      case TextNode => Some(AddChild(stack, Text(TextOf(ev.value))))
      case AttributeNode => Some(AddAttr(stack, Attribute(ev.name, TextOf(ev.value))))
      case InvalidNode => Some(stack)
  }

  // Failed is the fatal error, Lost a document node closed by an end tag, Cut a parse cut off after
  // its number of nodes or of turns, and Faulted one that C leaves undefined.
  datatype Parse = Done(stack: seq<Frame>) | Failed | Lost | Cut | Faulted

  // The loop of ReadDocumentFileOrBuffer, for at most nodes calls of getNextNode with at most
  // fuel turns each.
  ghost function Run(b: seq<byte>, ps: ParserState, ev: Event, stack: seq<Frame>, nodes: nat, fuel: nat): Parse
    requires !ps.scan.inAttrib && stack != []
    decreases nodes
  {
    if nodes == 0 then Cut
    else
      match NextNode(b, ps, ev, fuel)
      case Error => Failed
      case Fault => Faulted
      case Continue(_, _) => Cut
      case Return(ps', ev') =>
        var r := Apply(stack, ev');
        if r.None? then Failed
        else if ev'.kind == InvalidNode then Done(r.value)
        else if r.value == [] then Lost
        else Run(b, ps', NO_EVENT, r.value, nodes - 1, fuel)
  }

  const FIRST_STATE := ParserState(Scanner(0, false, None, false), true, false, [])

  // Parsing a buffer; ev is whatever the in-out parameters hold before the first call.
  ghost function ParseBuffer(b: seq<byte>, ev: Event, nodes: nat, fuel: nat): Parse {
    if b == [] then Failed else Run(b, FIRST_STATE, ev, EMPTY_DOCUMENT, nodes, fuel)
  }
}
