# A verified model of the UPnP SDK core

This project models the parts of the UPnP software development kit in which most of its logic
lives, and proves what they promise. Everything is Dafny; `dafny verify dfyconfig.toml` checks
all of it.

**XML parser, printer and document tree** (`src/upnpdom`)

- `Bytes`, `Utf8`, `CharTables`, `Escape` — C strings, the UTF-8 codec in the form of section 2 of
  RFC 2279, the name character tables with their binary search, character references, and the
  printer's escaping. `Numbers`, `Letters` — numbers in decimal and hexadecimal, and text in any letter
  case, described by bytes; `References` — all the ways to write a character.
- `Lexer`, `Reader` — what one call of `getNextToken` and of `getNextNode` does, as functions of
  the buffer and the parser's fields. `Parser` is the class itself: its methods move pointers and
  fill a token buffer, and each is proved to compute those functions.
- `Builder`, `Dom`, `DocumentTree`, `Document` — the loop of `ReadDocumentFileOrBuffer`: as a stack
  of open elements, and as linked nodes with parent, sibling, first and last pointers.
- `Tree`, `Tokens`, `RoundTrip`, `Exactness`, `WholeDocuments`, `EndTags` — the printed text of a tree,
  and what parsing makes of it. `Renderings`, `Prologs`, `Comments` — what it makes of documents written in
  other ways: white space, markup, references, empty-element tags. `Printer`, `DocumentRoundTrip` — `dump_doc` over the linked nodes.
- `Termination`, `Endless` — when parsing ends, and documents with which it does not. `Faults` — when
  it comes to what C leaves undefined.
- `Teardown`, `TeardownShape` — `deleteNodeAct`.

**Eventing of a device** (`src/gena/gena_server.c`, `src/genlib/service_table`)

- `EventKeys`, `GenaState` — event keys (section 4.2 of the UPnP Device Architecture 1.0) and the
  critical sections under the handle lock, as actions of a state machine; a transmission lies
  between `Pick` and `Finish`, outside the lock.
- `GenaInvariant`, `GenaSteps`, `GenaRuns`, `GenaProgress` — what every action keeps, what holds in
  every reachable state, and why requeued jobs do not go round for ever. `GenaEntries`, `GenaBodies` —
  what every action does with one subscription, and which property set each event carries.
- `ServiceTable`, `GenaServer` — the linked subscription list and the critical sections on it, each
  proved to do what its action says.

**Eventing of a control point** (`src/gena/gena_client.c`) — `GenaClient`: subscribing,
renewing and notified threads with their two locks. `GenaClientRuns`: which events are accepted, over
whole runs.

**URLs and responses** (`src/genlib/http_client/http_client.c`) — `UriParse`, `UriTexts`,
`DotSegments`, `DotLaws`, `RemoveDots`, `UrlResolve` (sections 2, 3 and 5.2 of RFC 2396); `HttpResponse`,
`HttpReader`, `StrToLong`, `HttpMessages` (sections 2.2 and 3.6.1 of RFC 2616).

**Requests** (`src/genlib/miniserver/miniserver.cpp`) — `MiniServer`: the buffered reader, and where
a request ends; `Requests`: the same by the bytes of request lines and headers.

**Discovery packets** (`src/ssdp`) — `SsdpEvents` says what a packet means, `SsdpParser` reads it in
place with a table of lines and an event to fill in; `SsdpSearch`, `SsdpNames`, `SsdpPackets` and
`SsdpRoundTrip` are string searches, the names in a packet, the packet writer, and what comes back;
`SsdpRequests` and `SsdpHeaders` the same for search requests, header names and names of the old form
(sections 1.1.2 and 1.2.3 of the UPnP Device Architecture 1.0). Texts are sequences of characters here.

## Assumptions

- Memory allocation succeeds, and scheduling a job succeeds. SIDs are fresh. The addresses that
  `malloc` returns are not in use, but may have been used before.
- Fewer event keys are outstanding for a subscription than there are keys (2147483647).
- `char` is signed, as `get_char` assumes, and `long` has 32 bits, so that `strtol` stops there.
- Bytes outside a buffer read as zero. The XML parser reads none behind the terminating zero: where
  the code would, the model has an outcome of its own, as it has where the code reads through
  `SavePtr` before that is set, or puts back more than it has read. This outcome is `Wild` for a
  token, `Fault` for a call, `Faulted` for a parse and `Undefined` for a document; `Faults` says when
  it occurs.
- What the parameters of the first call of `getNextNode` hold, which `ReadDocumentFileOrBuffer` leaves
  uninitialised, is an argument of the model (`EndTags.ParametersDoNotMatter`, `Faults.FaultsAtStart`).
- `sprintf(TempBuf, "%s:%d", TempBuf, Port)`, which C leaves undefined because it writes where it
  reads, appends the port.
- The clock, the network and the publisher are parameters or free choices of the steps.
- Where `AnalyzeCommand` would read a null pointer or write past an array, and where
  `read_http_response` would pass a negative count to `recv` or write past its allocation, the model
  has an outcome of its own (`Fault`), and it is proved when that occurs.
- In `getNextNode` and `ReadDocumentFileOrBuffer` a number of turns and of calls cuts off parses that
  would go on for ever. A cut-off parse is an outcome of its own (`Cut`). For printed documents of
  readable elements, and for every buffer without the two bytes `/>`, it does not occur from linear
  bounds on.
- The address lookup of `gethostbyname` is a function of the host name.

## Where the code differs from its descriptions

- The header of `resolve_rel_url` says that `..` is not resolved; the code resolves it, and so does the model.
- The header of `read_http_response` says that content comes back only with a content length; the
  code also reads chunked bodies and bodies up to the end of the stream, and so does the model.
- `SavePtr` has no value until a `>` is taken, but is used for content behind a row of empty
  elements. What the parser makes of `<a/>x` is undefined (`Faults.UnsetExample`,
  `Faults.EmptyTagFirst`, `Faults.TextBehind`).
- A comment, processing instruction or declaration that does not end makes the parser read on behind
  its buffer (`Faults.OpenMarkup`, `Faults.OpenMarkupExample`).
- Where the uninitialised parameters of the first call happen to hold a start tag, a first word is put
  back to before the buffer (`Faults.FaultsAtStart`, `Faults.PutBackExample`).
- The parser does not end on every text. Behind an empty element it reads content from the last `>`
  again, and where that content is `<` it comes back to the same place for ever. The printer writes
  such texts (`Endless.PrintedForEver`, `Endless.EndlessExample`, `Endless.OneCallExample`).
- A response with a content length of -1 is read as a chunked one, and a chunk size that is negative
  is passed to `recv` (`HttpMessages.MinusOneExample`, `HttpMessages.NegativeSizeExample`).
- A first event is refused, although its subscribe succeeded and nothing was removed, when a renewal
  was answered with another SID before (`GenaClient.RefusedAfterRenewal`).
- A comment in the text of an element becomes part of the text (`Comments.CommentedText`,
  `Comments.CommentedDocument`). Behind markup that stands right behind a start tag, text is not read as
  content but word by word (`Comments.LeadingComment`).
- A numeric character reference counts modulo 32 bits (`References.DecimalRead`, `References.HexRead`), and
  a port modulo 16 bits (`UriTexts.UrlRead`).
- The parser finds no error in a document whose elements are not all closed, and neither does the model.
- An attribute value that is empty, or contains a double quote, does not come back from the printed
  text, with one exception: a value that is a double quote alone does (`Exactness.ValueComesBack`,
  `Exactness.ValueExamples`).
- Text that is white space only, or equal to `<`, `>`, `</` or `/>`, does not come back
  (`Exactness.TextComesBack`, `Exactness.TextExample`).
- The sum kept by `getHeaders` falls short of its buffers when a folded line follows one that does
  not end in CRLF (`HttpResponse.SumOfBuffers`, `HttpMessages.BadlyFoldedExample`).
- `AnalyzeCommand` looks at the result of `CheckHdr` only for being zero, which it never is, so that a
  bad first line refuses no packet (`SsdpRoundTrip.AnalyzePacket`).
- A location comes back with the space before it, and one of fewer than seven bytes makes the reader
  refuse the packet (`SsdpRoundTrip.ShortLocation`, `SsdpRoundTrip.NowhereExample`).
- Names that hold certain texts do not come back from a packet (`SsdpNames.ComesBack`,
  `SsdpRoundTrip.ColonsExample`).
- The body of a request may come with up to two bytes of what follows it (`MiniServer.ReadBodyOf`).

## Model

| member | source | states |
|---|---|---|
| Utf8.ToIntInvertsToUtf8 | src/upnpdom/Parser.cpp:191-231 | `toint` undoes `toutf8` on every value from 0 to 0x7FFFFFFF, whatever bytes come after it |
| Utf8.ReencodingIsNoLonger | src/upnpdom/Parser.cpp:191-231 | a decoded character, even from an overlong form, encodes in no more bytes than it was read from |
| Utf8.KnownEncodings | src/upnpdom/Parser.cpp:191-231 | the encodings of U+00E9, U+20AC and U+1F600 in bytes |
| CharTables.InTbl | src/upnpdom/Parser.cpp:161-173 | the binary search finds a code exactly when some range of the ascending table holds it |
| CharTables.NameTableAscending | src/upnpdom/Parser.cpp:70-123 | the ranges of the name-start table ascend without overlap |
| CharTables.NameCharTableAscending | src/upnpdom/Parser.cpp:126-158 | the ranges of the name-continuation table ascend without overlap |
| CharTables.IsNameChar | src/upnpdom/Parser.cpp:181-187 | `isnamech` is membership in the first table, or for a later character in either |
| CharTables.AsciiNames | src/upnpdom/Parser.cpp:70-158 | of the ASCII characters a name may begin with exactly a letter, an underscore or a colon, and digits, hyphens and dots may follow |
| Escape.CopyWithEscape | src/upnpdom/domCif.cpp:1451-1462 | appends the escaped string to what the buffer holds |
| Escape.EscapedForms | src/upnpdom/domCif.cpp:1451-1462 | the four references that the printer writes, in bytes; every other byte is printed as it is |
| Escape.ReadNumeral | src/upnpdom/Parser.cpp:397-420 | reads the longest run of digits, with a sum that wraps around at 32 bits |
| Escape.GetChar | src/upnpdom/Parser.cpp:367-424 | decodes one plain, named or numeric character and says how many bytes it took; `References.SpelledRead` says which |
| Escape.UnescapedIsXmlText | src/upnpdom/Parser.cpp:426-461 | whatever `copy_token` produces is shortest-form UTF-8 of XML characters |
| Escape.EscapeRoundTrip | src/upnpdom/Parser.cpp:426-461 | decoding the escaped form of a string gives the string back exactly when it is non-empty shortest-form UTF-8 of XML characters |
| References.NamedRead | src/upnpdom/Parser.cpp:382-396 | the five names, in any letter case, are read as their characters |
| References.DecimalRead | src/upnpdom/Parser.cpp:412-421 | a decimal reference of any length is read up to its semicolon, as its number modulo 32 bits, and refused exactly when that is no XML character |
| References.HexRead | src/upnpdom/Parser.cpp:397-411 | the same for a hexadecimal one, with digits in either case |
| References.SpelledRead | src/upnpdom/Parser.cpp:367-424 | a character is read back from each way to write it: its bytes, its name, its number in decimal or hexadecimal behind any number of zeros |
| References.TextRead | src/upnpdom/Parser.cpp:426-461 | a text with each of its characters written in any of these ways is decoded to the text |
| Parser.XmlParser.CopyToken | src/upnpdom/Parser.cpp:426-461 | fills the token buffer with the decoded bytes of the range, or fails on a malformed or straddling character |
| Parser.XmlParser.GetNextToken | src/upnpdom/Parser.cpp:528-719 | moves the scanner and fills the token buffer as the token function says: comments skipped, saved position restored for content, and errors told from reads where no byte is; what that comes to for a text is stated by `Renderings.RenderedParse`, `Prologs.PrologParse` and `Comments.CommentedText` |
| Parser.XmlParser.GetAttributeValue | src/upnpdom/Parser.cpp:880-932 | equals sign, quote, value and quote are taken as four tokens; an empty value fails |
| Parser.XmlParser.HandleToken | src/upnpdom/Parser.cpp:736-933 | what each kind of token does to the parser's fields and to the node reported |
| Parser.XmlParser.GetNextNode | src/upnpdom/Parser.cpp:723-936 | a whole call, up to a number of turns, reports the node that the turns of the loop lead to, the error return, or what C leaves undefined |
| Tokens.NameToken | src/upnpdom/Parser.cpp:690-718 | a printed name is one token, and is no punctuation |
| Tokens.ValueToken | src/upnpdom/Parser.cpp:543-563 | a printed attribute value is one token and decodes to the value |
| Tokens.ContentToken | src/upnpdom/Parser.cpp:658-687 | printed text is one token with its leading and trailing white space |
| RoundTrip.ParseElement | src/upnpdom/Document.cpp:177-216 | from any state before it, a printed element is read as that element: names, attributes and values in order, children in order, text |
| RoundTrip.PrintParse | src/upnpdom/domCif.cpp:1466-1588 | printing any document of readable elements and parsing the text gives the same document, whatever the in-out parameters hold at first, within one call per byte and three turns per call |
| Tree.PrintedExample | src/upnpdom/domCif.cpp:1466-1588 | the printed text of one document in bytes |
| Renderings.RenderedParse | src/upnpdom/Document.cpp:167-245 | a document is parsed to its tree however it is written: any white space in tags and between them, any markup between them, empty-element tags or start and end tags, text in front of child elements, and each character of values and texts in any spelling; within one call per byte and three turns per call |
| Renderings.RenderedExample | src/upnpdom/Document.cpp:167-245 | the same for the bytes `<a b = "&#49;"/>` and a line feed |
| Renderings.WrongEnd | src/upnpdom/Document.cpp:205-216 | an end tag that does not name the open element is refused, however that element and what is in front of it are written, and whatever stands behind |
| Renderings.SpelledAttr | src/upnpdom/Parser.cpp:880-932 | white space around the equals sign and references in the value do not matter to an attribute |
| Prologs.MarkSkipped | src/upnpdom/Parser.cpp:574-588 | a comment, instruction or declaration is skipped up to its first end mark |
| Prologs.PrologParse | src/upnpdom/Parser.cpp:574-588 | with any comments, instructions (such as an XML declaration) and declarations in front of it and behind, and white space, a printed document is parsed to itself |
| Prologs.EpilogEnds | src/upnpdom/Parser.cpp:574-588 | such markup at the end of the buffer ends the parse |
| Comments.CommentedText | src/upnpdom/Parser.cpp:634-687 | text with comments in it is reported as one text, the comments as they stand |
| Comments.CommentedDocument | src/upnpdom/Document.cpp:177-216 | so a document with attributes, text and comments in it comes back with the comments in its text, behind any prolog |
| Comments.LeadingComment | src/upnpdom/Parser.cpp:574-588 | where markup stands right behind a start tag, the text behind it is read up to the end of its first word only |
| Termination.ParseEnds | src/upnpdom/Document.cpp:167-245 | every buffer without `/>` is parsed to its end or to an error: two calls more than it has bytes, with as many turns as bytes, are always enough |
| Termination.CallEnds | src/upnpdom/Parser.cpp:723-936 | in such a buffer a call of `getNextNode` returns, and has moved on |
| Termination.BoundsDoNotMatter | src/upnpdom/Document.cpp:167-245 | what becomes of a parse that is not cut off is the same for all larger numbers of calls and of turns |
| Faults.CallInside | src/upnpdom/Parser.cpp:723-936 | whatever the buffer holds, a call leaves the scanner inside it, and once a `>` has been taken there is always a place to read content from |
| Faults.RunCovered | src/upnpdom/Parser.cpp:656-661 | once a `>` has been taken, no parse of a buffer whose markup ends comes to what C leaves undefined, nor where there is no `/>` |
| Faults.FaultsAtStart | src/upnpdom/Parser.cpp:866-873 | a buffer without `/>` whose markup ends comes to it exactly when the parameters of the first call hold a start tag and a word stands at its first byte |
| Faults.ParsedOrRefused | src/upnpdom/Document.cpp:167-245 | otherwise such a buffer is parsed to its end, with the document node open, or to an error, from linear bounds on |
| Faults.StartTagFirst | src/upnpdom/Parser.cpp:656-661 | a buffer that begins with a start tag other than an empty one does not come to it, whatever follows, if its markup ends |
| Faults.PrintedIsSafe | src/upnpdom/domCif.cpp:1466-1588 | neither does a printed document of readable elements |
| Faults.TextBehind | src/upnpdom/Parser.cpp:620-667 | any text behind a printed document makes the parser read through the unset `SavePtr` exactly when all elements of the document are empty and the text begins, behind white space, with something that may be content |
| Faults.EmptyTagFirst | src/upnpdom/Parser.cpp:620-667 | so does such content behind one empty element, whatever follows it |
| Faults.UnsetExample | src/upnpdom/Parser.cpp:658-667 | the same for the bytes `<a/>x` |
| Faults.OpenMarkup | src/upnpdom/Parser.cpp:574-588 | a buffer that begins with markup that does not end is read beyond its end |
| Faults.OpenMarkupExample | src/upnpdom/Parser.cpp:574-588 | the same for the bytes `<!` |
| Faults.PutBackExample | src/upnpdom/Parser.cpp:866-873 | the byte `a` is put back to before the buffer when the parameters hold a start tag |
| Endless.PrintedForEver | src/upnpdom/Parser.cpp:620-667 | the text printed for an element with the text `<`, an empty element and another text is parsed for ever, whatever the names and that text are |
| Endless.EndlessExample | src/upnpdom/Parser.cpp:620-667 | the same for one such text in bytes |
| Endless.CallForEver | src/upnpdom/Parser.cpp:738-770 | where such content is followed by skipped markup and `/>`, a single call never returns |
| Endless.OneCallExample | src/upnpdom/Parser.cpp:738-770 | the same for one text in bytes |
| Exactness.ValueComesBack | src/upnpdom/Parser.cpp:543-563 | for every byte string: the printed attribute value comes back exactly when it is readable |
| Exactness.TextComesBack | src/upnpdom/Parser.cpp:738-863 | for every byte string: the printed text between a start tag and any tag behind it comes back exactly when it is readable |
| Exactness.AttributeComesBack | src/upnpdom/Parser.cpp:864-933 | for all byte strings: a printed attribute comes back exactly when its value is readable and its name is a name, an equals sign or a quote |
| WholeDocuments.DocumentComesBack | src/upnpdom/domCif.cpp:1466-1588 | for documents with names where names are read and text where text is read, and any bytes as values and texts: the printed document comes back exactly when every value and every text in it is readable |
| WholeDocuments.DocumentLost | src/upnpdom/Document.cpp:167-245 | otherwise it does not come back within any bounds, whatever the parameters hold at first |
| WholeDocuments.RunFits | src/upnpdom/Document.cpp:177-216 | in a parse that gives a document every node reported stands in that document where it was read |
| Exactness.ValueExamples | src/upnpdom/Parser.cpp:543-563 | an empty value and a value of two quotes do not come back |
| Exactness.TextExample | src/upnpdom/Parser.cpp:738-863 | the text `<` does not come back |
| EndTags.EndsOk | src/upnpdom/Parser.cpp:723-936 | whatever the buffer holds, a reported end tag is an element's, and its name does not begin with `#` |
| EndTags.DocumentStaysOpen | src/upnpdom/Document.cpp:205-216 | no buffer closes the document node, so each accepted end tag names the innermost open element and `CurrentNodePtr` is never null as long as the parse is defined, when the parameters before the first call report no end tag but an element's |
| EndTags.ParametersDoNotMatter | src/upnpdom/Document.cpp:167-176 | the result does not depend on those parameters, which the code leaves uninitialised, when the buffer begins with a tag |
| EndTags.TagTextStaysOpen | src/upnpdom/Document.cpp:205-216 | so for such a buffer the document node stays open whatever they are, as long as the parse is defined |
| Dom.NodeAct.FindNode | src/upnpdom/NodeAct.cpp:100-135 | finds a node exactly when it is among the children, or among the attributes of an element |
| Dom.NodeAct.FindNodeFromRef | src/upnpdom/NodeAct.cpp:139-152 | the static flag afterwards is its old value, or that the node occurs below; the search ends |
| Dom.LinkedLink | src/upnpdom/NodeAct.cpp:250-300 | appending a new node keeps every parent, sibling, first and last pointer consistent with the child lists |
| Dom.NodeAct.AppendChild | src/upnpdom/NodeAct.cpp:250-300 | the pointers afterwards are those of the lists with the new node last, and the flag stays clear |
| DocumentTree.OpenElement | src/upnpdom/Document.cpp:179-186 | appending an element makes it the end of the rightmost path and the innermost open element |
| DocumentTree.AddText | src/upnpdom/Document.cpp:187-191 | appended text is a finished last child of the innermost open element |
| DocumentTree.AddAttribute | src/upnpdom/Document.cpp:192-197 | an appended attribute is the last one of the innermost open element |
| DocumentTree.CloseElement | src/upnpdom/Document.cpp:206-209 | closing leaves the finished element as the last child of the element around it, which becomes innermost |
| Document.ParentIsOpen | src/upnpdom/Document.cpp:207-209 | the parent pointer of the current node is the open element around it, and null only for the document |
| Document.DocumentNode.Append | src/upnpdom/Document.cpp:177-200 | the linked tree stands for the stack of open elements with the new node appended |
| Document.DocumentNode.HandleNode | src/upnpdom/Document.cpp:177-216 | accepts exactly the nodes the stack machine accepts, and the links stand for the new stack |
| Document.DocumentNode.Read | src/upnpdom/Document.cpp:111-252 | from any first parameters that report no end tag of the document, or do not matter, parses into nodes whose links stand for the outcome of the stack machine, with the matching status, and on an error, a cut or a step C leaves undefined for the elements open then |
| Document.ReadDocument | src/upnpdom/Document.cpp:205-244 | from such parameters, after a fatal error everything below the document node is freed, once and in postorder |
| Printer.DumpDoc | src/upnpdom/domCif.cpp:1466-1578 | walking the pointers appends exactly the text of the tree that the node stands for |
| DocumentRoundTrip.DocumentStandsFor | src/upnpdom/Document.cpp:167-245 | when all elements are closed the document node stands for what was parsed |
| DocumentRoundTrip.ReadAndPrint | src/upnpdom/domCif.cpp:1583-1588 | a printed document parsed into nodes and printed from them gives the same text, whatever the first parameters hold |
| Teardown.LeafFirst | src/upnpdom/NodeAct.cpp:343-377 | freeing the leaf at the end of the first children, and then the rest, is freeing in postorder |
| Teardown.DeleteNodeTree | src/upnpdom/NodeAct.cpp:343-377 | frees that leaf with its attributes and unlinks it; the other nodes keep their shape, and no node is looked at that is freed |
| Teardown.DeleteNodeAct | src/upnpdom/NodeAct.cpp:337-341 | ends, and frees everything below the node in postorder, with the attributes of elements |
| Teardown.FreedAfterChildren | src/upnpdom/NodeAct.cpp:343-377 | every node is freed right after the trees of its children and its attributes |
| Teardown.FreedOnce | src/upnpdom/NodeAct.cpp:343-377 | no node is freed twice, and only nodes of the tree are |
| TeardownShape.RepsTree | src/upnpdom/NodeAct.cpp:250-300 | the pointers of any consistently linked tree are of the shape that the deletion needs |
| TeardownShape.DistinctTree | src/upnpdom/NodeAct.cpp:250-300 | in a consistently linked tree no node stands in two places |
| TeardownShape.Delete | src/upnpdom/NodeAct.cpp:337-341 | on any node of any consistently linked tree the deletion ends and frees each node below once, children first |
| EventKeys.KeysOnce | src/gena/gena_server.c:905-907 | within one round of keys no key occurs twice |
| EventKeys.FirstKeyIs | src/gena/gena_server.c:433-436 | the i-th key from 0 on is i, and after 2147483647 comes 1 |
| GenaSteps.SubscribeKeeps | src/gena/gena_server.c:1351-1429 | a new subscription keeps the invariant |
| GenaSteps.AcceptKeeps | src/gena/gena_server.c:498-611 | accepting a subscription and queueing its first event keeps the invariant |
| GenaSteps.NotifyAllKeeps | src/gena/gena_server.c:1018-1073 | queueing one job for each subscription found keeps the invariant |
| GenaSteps.PickKeeps | src/gena/gena_server.c:374-405 | dropping, requeueing or transmitting any queued job keeps the invariant |
| GenaSteps.FinishKeeps | src/gena/gena_server.c:414-446 | finishing any transmission keeps the invariant, also when the subscriber is removed |
| GenaSteps.RenewKeeps | src/gena/gena_server.c:1213-1259 | renewing keeps the invariant |
| GenaSteps.UnsubscribeKeeps | src/gena/gena_server.c:1118-1144 | unsubscribing keeps the invariant, whatever jobs are left behind |
| GenaSteps.NextKeeps | src/gena/gena_server.c:364-446 | every critical section keeps the invariant |
| GenaRuns.KeysAreConsecutive | src/gena/gena_server.c:396-436 | in every reachable state the queued and transmitted jobs of a live subscription hold exactly the keys from `ToSendEventKey` up to, not including, `eventKey`, each once |
| GenaRuns.SentInSequence | src/gena/gena_server.c:396-436 | over every interleaving the SEQ values transmitted to one subscriber are 0, 1, 2, ... without gap or repetition, wrapping to 1 |
| GenaRuns.OneAtATime | src/gena/gena_server.c:396-436 | a subscriber has at most one transmission in flight, even after its subscription is gone |
| GenaRuns.ZeroIsInitial | src/gena/gena_server.c:521-586 | the event with key 0 carries the state given when the subscription was accepted |
| GenaRuns.CountsAreJobs | src/gena/gena_server.c:249-261 | a reference count is allocated exactly while jobs share it, and is their number, so that the last release and no other frees the payload |
| GenaRuns.PayloadIsLive | src/gena/gena_server.c:249-261 | the payload of a queued or transmitted job is never freed before the job is released |
| GenaRuns.CappedRun | src/gena/gena_server.c:1351-1357 | the counter is the length of the list, and never passes a limit that it is within |
| GenaRuns.TraverseIs | src/genlib/service_table/service_table.c:123-171 | a full traversal visits exactly the active unexpired subscriptions in list order, and unlinks exactly the expired ones, each by the clock as it is when it is come to |
| GenaRuns.ReadingIs | src/gena/gena_server.c:1044-1066 | that clock is the reading after as many as there were jobs before |
| GenaEntries.NextEntry | src/gena/gena_server.c:364-1440 | every action does with the subscription of each SID what it is for, and nothing with the others: new ones are entered, accepted, counted on, renewed, removed or found expired |
| GenaBodies.BodiesAreThose | src/gena/gena_server.c:1018-1073 | over every run the i-th event transmitted to a SID carries the property set of its acceptance if i is 0, and otherwise that of the i-th notification of the run that came to it while it was accepted and not expired; its key is the i-th in order |
| GenaProgress.SomeEnabled | src/gena/gena_server.c:396-402 | with keys outstanding for a live subscription, the job whose turn it is is queued, or a transmission is in flight |
| GenaProgress.SpinWaits | src/gena/gena_server.c:396-402 | a worker that finds only jobs to requeue is waiting for a transmission in flight |
| GenaProgress.RankFalls | src/gena/gena_server.c:396-446 | with a first-in first-out pool every other worker step makes less work, or moves the first enabled job to the front |
| GenaProgress.SpinKeeps | src/gena/gena_server.c:396-402 | a requeue with no enabled job in the pool makes no more work and moves no enabled job back |
| GenaProgress.AllSchedules | src/gena/gena_server.c:364-446 | over every schedule of the workers, expiry and refusals included, the steps that are not such requeues are bounded by the work at the start |
| GenaProgress.NothingLeft | src/gena/gena_server.c:364-446 | no other step is possible exactly when the pool is empty and nothing is in flight |
| GenaProgress.AllDelivered | src/gena/gena_server.c:364-446 | where a run ends like that, every subscription that is left has been sent all its events |
| GenaProgress.Drain | src/gena/gena_server.c:364-446 | from every state in which no subscription is expired some run empties the pool and transmits every outstanding event |
| ServiceTable.ServiceInfo.GetSubscriptionSID | src/genlib/service_table/service_table.c:84-120 | finds the entry with the SID, or unlinks it when it has expired; list and counter stay consistent |
| ServiceTable.ServiceInfo.RemoveSubscriptionSID | src/genlib/service_table/service_table.c:57-81 | unlinks the first entry with the SID and counts it off |
| ServiceTable.ServiceInfo.GetNextSubscription | src/genlib/service_table/service_table.c:123-159 | returns the next active unexpired entry, having unlinked the expired ones before it and kept the others in order |
| ServiceTable.ServiceInfo.GetFirstSubscription | src/genlib/service_table/service_table.c:161-171 | the same from the head of the list |
| GenaServer.Device.FreeNotify | src/gena/gena_server.c:249-261 | releases one share of the reference count, and frees it at zero |
| GenaServer.Device.SubscriptionRequest | src/gena/gena_server.c:1343-1440 | does on the linked list what the Subscribe action does |
| GenaServer.Device.InitNotify | src/gena/gena_server.c:498-611 | does on the linked list what the Accept action does |
| GenaServer.Device.NotifyAll | src/gena/gena_server.c:1018-1073 | does on the linked list what the NotifyAll action does, for every sequence of clock readings; that every event carries the body given is `GenaBodies.BodiesAreThose` |
| GenaServer.Device.PickJob | src/gena/gena_server.c:364-405 | does on the linked list what the Pick action does |
| GenaServer.Device.FinishJob | src/gena/gena_server.c:414-446 | does on the linked list what the Finish action does |
| GenaServer.Device.UnsubscribeRequest | src/gena/gena_server.c:1118-1144 | does on the linked list what the Unsubscribe action does |
| GenaServer.Device.RenewRequest | src/gena/gena_server.c:1213-1259 | does on the linked list what the Renew action does |
| GenaClient.LocksKept | src/gena/gena_client.c:286-335 | a thread holds a lock exactly at the places between taking and releasing it, and no two threads hold the same |
| GenaClient.SecondLook | src/gena/gena_client.c:299-327 | a notifier that looks again finds every SID given out, or its subscription is lost |
| GenaClient.FirstEventIsNotRefused | src/gena/gena_client.c:286-349 | in every interleaving, renewals included, a SEQ 0 event for a SID given out is refused only if that subscribe fails, the subscription is removed, a renewal replaces its SID, or the client unregisters |
| GenaClientRuns.AcceptedIfListed | src/gena/gena_client.c:286-349 | the other half, for every SEQ: an event is looked up in the list, a first event that is not found once more under the subscribe lock, and it is accepted if and only if the client was registered then and its SID was the front part of one in the list |
| GenaClientRuns.ListedWasGiven | src/gena/gena_client.c:533-650 | whatever SID is in the list was given out in an answer to a subscriber or a renewer before |
| GenaClientRuns.AcceptedWasGiven | src/gena/gena_client.c:286-349 | so an event is accepted only with the front part of a SID that some publisher gave out and that stood in the list |
| GenaClientRuns.SubscribedIsListed | src/gena/gena_client.c:614-650 | a subscriber succeeds if and only if it got a SID in a good answer and the client is still registered; it has then put this SID in front of the list, and otherwise left the list as it was |
| GenaClient.NothingReplaced | src/gena/gena_client.c:796-810 | with publishers that keep the SID on renewal none is ever replaced |
| GenaClient.RefusedAfterRenewal | src/gena/gena_client.c:796-810 | with others there is a run in which such an event is refused although nothing failed or was removed |
| GenaClient.NoDeadlock | src/gena/gena_client.c:533-650 | while a thread is not done, some thread can go on |
| GenaClient.StepsRunOut | src/gena/gena_client.c:533-650 | every step of a thread brings its own end nearer and moves no other thread |
| DotSegments.FailsAtRoot | src/genlib/http_client/http_client.c:1119-1141 | the error means exactly that some `..` stands where only the root is left |
| DotSegments.ReducedOnce | src/genlib/http_client/http_client.c:1092-1166 | reducing a reduced path changes nothing |
| DotSegments.ReducedShape | src/genlib/http_client/http_client.c:1155-1163 | the text from `?` or `#` on is unchanged, and the result is no longer than the path |
| DotLaws.DotLaw | src/genlib/http_client/http_client.c:1092-1166 | a segment of one dot is dropped, wherever it stands |
| DotLaws.UpLaw | src/genlib/http_client/http_client.c:1092-1166 | a segment of two dots takes away the one in front of it, or is refused where that is the first or there is none |
| DotLaws.LastLaw | src/genlib/http_client/http_client.c:1119-1163 | behind the last slash dots count only at the end of the text, and a path without dot segments stays as it is |
| RemoveDots.RemoveDots | src/genlib/http_client/http_client.c:1092-1166 | the two-pointer edit in one buffer leaves what the stack of segments says with a terminating zero, fails exactly when it does, and writes nothing behind the terminator's place |
| UriParse.ParseHostport | src/genlib/http_client/http_client.c:956-1016 | finds host, port and address, and fails exactly on a colon without digits or a host without an address |
| UriParse.ParseUri | src/genlib/http_client/http_client.c:1354-1417 | computes scheme, host, path and fragment of any text |
| UriParse.Partition | src/genlib/http_client/http_client.c:1354-1417 | what is found stands in the text piece by piece, in its order, up to a byte that no URL has |
| UriParse.TakenApart | src/genlib/http_client/http_client.c:1354-1417 | the text of any scheme, host, path and fragment is taken apart into just those |
| UriParse.PathTakenApart | src/genlib/http_client/http_client.c:1354-1417 | so is a path by itself that begins like neither a scheme nor a host |
| UriTexts.UrlTextIs | src/genlib/http_client/http_client.c:887-898 | a path is taken as a whole exactly when it is made of the bytes that a URL may have and of escapes with two hexadecimal digits |
| UriTexts.SchemeExact | src/genlib/http_client/http_client.c:1038-1065 | a scheme of n bytes is found exactly when n bytes that are a scheme stand in front of a colon |
| UriTexts.UrlRead | src/genlib/http_client/http_client.c:1354-1417 | scheme, host, port in decimal, path and fragment are found in any URL put together from them; the port counts modulo 65536 and is 80 where none is given, and a host without an address is refused |
| UriTexts.UrlRefused | src/genlib/http_client/http_client.c:956-1016 | a colon behind the host that no digit follows is refused |
| UrlResolve.ResolveRelUrl | src/genlib/http_client/http_client.c:1193-1329 | for any two texts, each of which may be missing, the result is the resolved one, which the five rows below state for each kind of reference, and all that is written fits the allocation |
| UrlResolve.PathResolved | src/genlib/http_client/http_client.c:1253-1310 | for every base whose path is a directory up to its last slash, a last segment and a query, and every reference to a path: the result is the scheme and host of the base with that path, or with the directory (a slash, if the path is empty) and the reference without dot segments |
| UrlResolve.HostResolved | src/genlib/http_client/http_client.c:1257-1260 | a reference to a host is resolved to the scheme of the base and the reference |
| UrlResolve.EmptyResolved | src/genlib/http_client/http_client.c:1245-1248 | an empty reference is resolved to the base |
| UrlResolve.NoBase | src/genlib/http_client/http_client.c:1241-1243 | a reference to a path is refused where the base is not absolute, and comes back where there is none |
| UrlResolve.AbsoluteResolved | src/genlib/http_client/http_client.c:1233-1237 | an absolute reference comes back unchanged |
| UrlResolve.Merge | src/genlib/http_client/http_client.c:1278-1299 | the space holds the directory of the base path, and then the reference |
| UrlResolve.DirectoryIs | src/genlib/http_client/http_client.c:1285-1299 | that directory is the part up to the last slash in front of the query, and nothing of the last segment or the query |
| HttpResponse.SumOfBuffers | src/genlib/http_client/http_client.c:1539-1554 | the sum kept falls short of the buffers by two for every folded line behind a line without CRLF |
| HttpResponse.FillsExactly | src/genlib/http_client/http_client.c:1915-1917 | the buffers fill the allocation exactly if and only if there is no such line |
| HttpResponse.SumIsPositive | src/genlib/http_client/http_client.c:1539-1554 | the sum is never negative, whatever is folded |
| HttpResponse.ChunksFault | src/genlib/http_client/http_client.c:1818-1859 | a negative count is passed to `recv` exactly when a size that is read of the body is negative |
| HttpResponse.ResponseFault | src/genlib/http_client/http_client.c:1789-1922 | reading goes wrong exactly on badly folded headers and on negative chunk sizes |
| HttpReader.Socket.ReadLine | src/genlib/http_client/http_client.c:1744-1766 | returns the bytes up to a line feed, the buffer size or the end of the stream |
| HttpReader.GetHeaders | src/genlib/http_client/http_client.c:1505-1624 | the list of buffers, the sum and the length that the lines of the stream determine |
| HttpReader.ReadBody | src/genlib/http_client/http_client.c:1809-1904 | without a limit on what is read, and whatever parts the reads bring, the buffers hold the counted, chunked or open body, or the next count is negative |
| HttpReader.ReadHttpResponse | src/genlib/http_client/http_client.c:1789-1922 | for every stream and every fragmentation the result is the same function of the stream with its terminating zero, filling the allocation exactly, or the fault is that of the stream; what it is for the bytes of a response is stated by the rows of `HttpMessages` |
| StrToLong.NumberRead | src/genlib/http_client/http_client.c:1577-1596 | `strtol` undoes the printing of any number in decimal and hexadecimal, behind white space and a sign, whatever follows its digits, and saturates beyond 32 bits |
| HttpMessages.ResponseIs | src/genlib/http_client/http_client.c:1505-1624 | after any well-formed headers the result is the unfolded headers, the blank line and the body announced |
| HttpMessages.DecodesChunks | src/genlib/http_client/http_client.c:1818-1842 | decoding an encoded chunked body gives its data back |
| HttpMessages.ChunkedResponse | src/genlib/http_client/http_client.c:1789-1922 | with a chunked header among any others and size lines in hexadecimal, a response comes back as its unfolded headers and its data |
| HttpMessages.CountedResponse | src/genlib/http_client/http_client.c:1863-1886 | with a content length in decimal among other headers, in any letter case, a response comes back with exactly that many bytes of body, whatever follows |
| HttpMessages.OpenResponse | src/genlib/http_client/http_client.c:1855-1902 | with a content header but none that gives a length or says that the body is chunked, everything up to the end of the stream is the body |
| HttpMessages.EmptyResponse | src/genlib/http_client/http_client.c:1505-1624 | without any content header there is no body, whatever follows |
| HttpMessages.TwelveExample | src/genlib/http_client/http_client.c:1577-1596 | the header `Content-Length: 12` in bytes, with twelve bytes of body |
| HttpMessages.BadlyFoldedExample | src/genlib/http_client/http_client.c:1541-1554 | a folded line behind one without CRLF makes the code write past its allocation |
| HttpMessages.NegativeSize | src/genlib/http_client/http_client.c:1818-1859 | in a chunked response a size line with a minus sign and any number but zero in hexadecimal makes the next count negative |
| HttpMessages.NegativeSizeExample | src/genlib/http_client/http_client.c:1818-1859 | the same for one stream in bytes |
| HttpMessages.MinusOneIsChunked | src/genlib/http_client/http_client.c:1577-1596 | a content length of -1 announces a chunked body |
| HttpMessages.MinusOneExample | src/genlib/http_client/http_client.c:1577-1596 | and the body behind it is decoded |
| MiniServer.NetReader.GetChar | src/genlib/miniserver/miniserver.cpp:174-193 | hands out the next byte of the stream, refilling an empty buffer, or none at its end |
| MiniServer.NetReader.GetLine | src/genlib/miniserver/miniserver.cpp:195-247 | hands out the next line of the stream, and says whether it lacks its line feed or has a byte behind a carriage return |
| MiniServer.NetReader.ReadData | src/genlib/miniserver/miniserver.cpp:250-291 | hands out at most the bytes asked for, and none only at the end of the stream |
| MiniServer.HeadersRead | src/genlib/miniserver/miniserver.cpp:588-640 | proper header lines are read up to the first blank one, and refused exactly when a POST or M-POST has no length |
| MiniServer.HeadersSplit | src/genlib/miniserver/miniserver.cpp:588-640 | the other way round, accepted headers are proper lines, none of them blank, then a blank one, with the length found |
| MiniServer.ReadHeaders | src/genlib/miniserver/miniserver.cpp:588-640 | for every fragmentation the same lines are read and the same content length is found, or the same error |
| MiniServer.ReadBodyOf | src/genlib/miniserver/miniserver.cpp:642-677 | reads N to N+2 bytes for a content length N above zero, fewer only at the end of the stream |
| MiniServer.ReadRequest | src/genlib/miniserver/miniserver.cpp:544-680 | for every fragmentation the document is an exact prefix of the stream: request line, headers to the blank line, body; where it ends for the bytes of a request is stated by the rows of `Requests` |
| Requests.CommandExact | src/genlib/miniserver/miniserver.cpp:375-440 | a request line gives a command exactly when it begins with the name of its method, in any letter case |
| Requests.RequestLineExact | src/genlib/miniserver/miniserver.cpp:195-247 | a line is one that is handed out as a whole exactly when it is text, then carriage returns, then a line feed |
| Requests.LengthHeaderExact | src/genlib/miniserver/miniserver.cpp:464-535 | a content length in decimal is read as that, and refused exactly when something other than white space stands behind the number |
| Requests.RequestRead | src/genlib/miniserver/miniserver.cpp:544-680 | a request with any method, any headers and a content length in decimal is framed as written: the body is as many bytes as the first content length says |
| Requests.RequestWithoutLength | src/genlib/miniserver/miniserver.cpp:588-640 | without a content length there is no body, and POST and M-POST are refused |
| SsdpParser.Cursor.StrTok | src/ssdp/ssdpparser.c:46-64 | cuts the next token off in the buffer by a terminator, and leaves what is behind the separator |
| SsdpParser.Event.UniqueServiceName | src/ssdp/ssdpparser.c:263-337 | fills in the device name and types that the searches for `uuid`, `::` and `urn` find |
| SsdpParser.CommandList | src/ssdp/ssdpparser.c:617-624 | copies exactly the lines of the packet into the table, or stops where they do not fit it |
| SsdpParser.AnalyzeCommand | src/ssdp/ssdpparser.c:603-657 | fills the event as the packet's first line and headers say, each header by the function of its token |
| SsdpSearch.AtoiOfSigned | src/ssdp/ssdpparser.c:176-196 | `atoi` undoes `%d` for every int |
| SsdpNames.NamesExact | src/ssdp/ssdpparser.c:263-371 | the NT and USN headers together give back request type, device name and types exactly for the names that `ComesBack` describes, for each kind of packet |
| SsdpNames.UdnExact | src/ssdp/ssdpparser.c:296-306 | the device name in a service name comes back exactly when no double colon stands in it or is made where it ends |
| SsdpNames.TypeFound | src/ssdp/ssdpparser.c:311-329 | the type behind it comes back exactly when the device name has no `urn` |
| SsdpPackets.CreateServiceRequestPacket | src/ssdp/ssdplib.c:837-911 | the buffer is appended to, header by header, up to the packet of its sort |
| SsdpPackets.DevicePackets | src/ssdp/ssdplib.c:927-996 | a root device sends three packets, any other two, with their names |
| SsdpRoundTrip.PacketLines | src/ssdp/ssdpparser.c:617-624 | a written packet is cut into its first line, its headers and three empty lines |
| SsdpRoundTrip.AnalyzePacket | src/ssdp/ssdpparser.c:627-652 | the headers of a packet go one by one to their own functions, whatever the first line gave |
| SsdpRoundTrip.NamesDecide | src/ssdp/ssdpparser.c:603-657 | of all the headers together just what the two with names give decides what comes back |
| SsdpRoundTrip.ReadsBack | src/ssdp/ssdpparser.c:603-657 | an alive, byebye or reply packet is read back to its command, names, types, lifetime and location, within the table, exactly when its names come back and its location has seven bytes or more |
| SsdpRoundTrip.ShortLocation | src/ssdp/ssdpparser.c:209-227 | a packet with a shorter location is refused, whatever its names are |
| SsdpRoundTrip.ColonsExample | src/ssdp/ssdpparser.c:296-306 | a device name with a double colon does not come back |
| SsdpRoundTrip.NowhereExample | src/ssdp/ssdpparser.c:209-227 | a packet with an empty location is refused |
| SsdpRoundTrip.DeviceReadsBack | src/ssdp/ssdplib.c:927-996 | every packet that a device sends out gives its name and type back exactly then |
| SsdpRoundTrip.PacketFits | src/ssdp/ssdplib.c:837-911 | no header outgrows the buffer it is written to, and no packet its own |
| SsdpRequests.CreateClientRequestPacket | src/ssdp/ssdplib.c:590-623 | the buffer is appended to, header by header, up to the search request, with a delay and a target where they are given |
| SsdpRequests.SearchIsRead | src/ssdp/ssdpparser.c:603-657 | a search request is read as a search with its delay and host; the rest is up to the ST header |
| SsdpRequests.TargetRead | src/ssdp/ssdpparser.c:346-371 | everything, root devices, a device name or a type is read back from the ST header exactly when it is one that is found |
| SsdpRequests.SearchReadsBack | src/ssdp/ssdpparser.c:603-657 | so a search request of any delay is read back to a search with that delay for just that target, exactly then |
| SsdpHeaders.AnyCase | src/ssdp/ssdpparser.c:630-652 | a header goes to the function of its name, in whatever letters the name is written |
| SsdpHeaders.UnknownName | src/ssdp/ssdpparser.c:630-652 | a header of any other name changes nothing |
| SsdpHeaders.OldFormRead | src/ssdp/ssdpparser.c:267-292 | a name of the old form gives the device name and the type in it |

## Left out

- Termination.ParseEnds: one way only. Which buffers with `/>` are parsed to their end is not characterised: behind a `/>` content is read a second time, and whether that goes on depends on what that content is taken for, on the flags it meets and on the names of the elements open by then. Known are two families: all renderings of documents (`Renderings.RenderedParse`) end, and the texts of `Endless.PrintedForEver` do not.
- RoundTrip.PrintParse: one way only; `WholeDocuments.DocumentComesBack` is exact, but for documents whose elements and attributes have names that are read as such and whose texts come first in their elements. A text behind an empty element is read again from the last `>`, and behind a `/>` any content may become the name of an attribute, so that for other documents an exact condition would have to say where parsing ends, which is the half named above.
- Renderings.RenderedParse: one way only, for the reason of `RoundTrip.PrintParse`; it excludes text behind an element, comments in text (`Comments.CommentedText` has them), and what cannot stand for itself: `<` in a text and double quotes in a value.
- SsdpRequests.SearchReadsBack: names with a CRLF in them, and those that do not fit the fields of an event, are excluded.
- Faults.TextBehind: exact for what stands behind printed documents. For all buffers with `/>` it is not
  said when content is read through the unset `SavePtr`: before a first `>` any tokens may stand where a
  tag has its attributes, and a `/>` among them counts too.
- HttpReader.ReadBody: the limit `HTTP_READ_BYTES` (`http_client.c:1869-1874`) is not part of this model;
  by default it is -1, which means that there is none (`inc/tools/config.h:72`).
- Document.ReadDocument: that the document node itself is deleted after a fatal error is not modelled,
  only what is below it.
- HttpReader.ReadHttpResponse: says nothing of the result after a fault, which stands for what C leaves undefined.
- Teardown.DeleteNodeTree: freeing is an entry in a log; every access to a node asks that it is not there.
- UriParse.ParseUri: failed allocation in `parse_hostport` is not part of this model.
- SsdpRoundTrip.ReadsBack: names with a CRLF in them, and those that do not fit the fields of an event, are excluded.
- RemoveDots.RemoveDots: requires at least one byte, because the code writes to `Segments[0]` of an empty allocation otherwise.
- Dom.NodeAct.AppendChild: only nodes that are not in the tree; re-appending an attached node, `insertBefore`, `replaceChild` and attribute removal do not keep the links consistent in the code.
- GenaClient.FirstEventIsNotRefused: assumes that scheduling the renewal succeeds; when it fails the code frees a subscription that is still in its list.
- GenaServer.Device.InitNotify: the property set is one value; building its text is not part of this model.
- `genaUnregisterDevice` frees the services and the handle is released later; the model does both in one step.
- Failed allocations and failed scheduling, which strand event keys, are not part of this model.
- The list of client subscriptions is a sequence of entries; its links are handled like those of the service table.
- SsdpParser.AnalyzeCommand: says nothing of the event after a fault, which stands for what C leaves undefined.
- The sockets and threads of discovery.
- MiniServer.ReadRequest: a stream that fails or times out is not part of this model, only one that ends.
- The DOM's reference-counted handles and its C wrappers, `NodeList`, `NamedNodeMap`, and the unescaped printer.
- SOAP, the HTTP server beyond reading a request, the timer thread, the thread pool beyond being a queue, and the sample programs.
- Sockets, timeouts in seconds and read errors.
