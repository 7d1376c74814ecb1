// Parsing a buffer into linked nodes and printing those nodes again.
module DocumentRoundTrip {
  import opened Bytes
  import opened Escape
  import opened Lexer
  import opened Reader
  import opened Tree
  import opened Builder
  import opened EndTags
  import opened RoundTrip
  import opened Dom
  import opened DocumentTree
  import opened Document
  import opened Printer

  // When all elements are closed, the document node stands for what was parsed.
  lemma DocumentStandsFor(d: DocumentNode, f: Frame)
    requires d.Valid([f])
    ensures Finished(d.g, d.h) && Current(d.g.nodes, d.h) && StandsFor(d.g, d.nact, Closed(f))
    ensures PrintedNode(d.nact, Closed(f)) == PrintedAll(f.children)
  {
    assert FrameMatches(d.g, 0, [f][0]);
    assert d.nact == d.g.path[0];
  }

  // A printed document begins with a tag.
  lemma PrintedBegins(doc: seq<Node>)
    requires doc != [] && doc[0].Element? && Readable(doc[0])
    ensures BeginsWithTag(PrintedAll(doc))
  {
    hide Printed, Readable, IsWhite;
    WholeBuffer(PrintedAll(doc));
    AllParts(PrintedAll(doc), 0, doc);
    ReadableStart(PrintedAll(doc), 0, doc[0]);
    assert !IsWhite(LESS) by { LessIsSolid(); }
  }

  lemma LessIsSolid()
    ensures !IsWhite(LESS)
  {
  }

  // A printed document, parsed into nodes and printed from them, gives the same text, whatever
  // the first parameters hold.
  method ReadAndPrint(xml: seq<byte>, first: Event, nodes: nat, fuel: nat, ghost doc: seq<Node>)
    returns (status: Status, text: seq<byte>)
    requires doc != [] && (forall i :: 0 <= i < |doc| ==> doc[i].Element? && Readable(doc[i]))
    requires xml == PrintedAll(doc) && nodes > |xml| && fuel >= 3
    ensures status == Ok && text == xml
  {
    hide *;
    PrintParse(doc, first, nodes, fuel);
    PrintedBegins(doc);
    var d := new DocumentNode();
    ghost var result, stack;
    status, result, stack := d.Read(xml, first, nodes, fuel);
    ghost var f := Frame(DOCUMENT_NAME, [], doc);
    DocumentStandsFor(d, f);
    var buf := new MemBuffer();
    DumpDoc(buf, d.nact, Closed(f), d.g, d.h);
    text := buf.contents;
    DoneIsOk(result);
  }

  lemma DoneIsOk(p: Parse)
    requires p.Done?
    ensures StatusOf(p) == Ok
  {
  }
}
