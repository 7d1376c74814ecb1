// The packets that the device side writes (src/ssdp/ssdplib.c:837-911, 927-1340) are read back by
// AnalyzeCommand (src/ssdp/ssdpparser.c:603-657) to what they were made from.
module SsdpRoundTrip {
  import opened Bytes
  import opened SsdpEvents
  import opened SsdpSearch
  import opened SsdpNames
  import opened SsdpPackets

  // ---- lines and headers

  function FieldLines(fields: seq<Field>): seq<string> {
    if fields == [] then [] else [FieldLine(fields[0])] + FieldLines(fields[1..])
  }

  // A value that stays on its line, in a line that fits the table.
  predicate OnLine(f: Field) {
    !Contains(f.value, CRLF) && |FieldLine(f)| + |CRLF| < COMMAND_LEN
  }

  predicate AllOnLine(fields: seq<Field>) {
    forall k :: 0 <= k < |fields| ==> OnLine(fields[k])
  }

  lemma NamesPlain(token: TokenNumber)
    ensures ':' !in TOKEN_LIST[token] && '\r' !in TOKEN_LIST[token]
  {
  }

  lemma FieldOnLine(f: Field)
    requires !Contains(f.value, CRLF)
    ensures !Contains(FieldLine(f), CRLF)
  {
    hide FindFrom;
    if Contains(FieldLine(f), CRLF) {
      InValue(f, Find(FieldLine(f), CRLF).value);
    }
  }

  lemma InValue(f: Field, k: nat)
    requires OccursAt(FieldLine(f), CRLF, k)
    ensures Contains(f.value, CRLF)
  {
    hide FindFrom;
    var name := TOKEN_LIST[f.token];
    NamesPlain(f.token);
    OccursIndex(FieldLine(f), CRLF, k, 0);
    assert k > |name|;
    OccursShift(name + ":", f.value, CRLF, k - |name| - 1);
    Occurs(f.value, CRLF, k - |name| - 1);
  }

  lemma LinesStep(line: string, rest: string)
    requires !Contains(line, CRLF)
    ensures Lines(line + CRLF + rest) == [line] + Lines(rest)
  {
    hide TokenOf, Contains;
    LineToken(line, rest);
  }

  lemma {:induction false} TextLines(fields: seq<Field>, rest: string)
    requires AllOnLine(fields)
    ensures Lines(Text(fields) + rest) == FieldLines(fields) + Lines(rest)
  {
    hide FieldLine, Lines, Contains;
    if fields == [] {
      assert Text(fields) + rest == rest;
    } else {
      var line := FieldLine(fields[0]);
      FieldOnLine(fields[0]);
      assert Text(fields) + rest == line + CRLF + (Text(fields[1..]) + rest);
      LinesStep(line, Text(fields[1..]) + rest);
      TextLines(fields[1..], rest);
    }
  }

  const BLANKS := ["", "", ""]

  lemma BlankLines()
    ensures Lines(CRLF + CRLF) == BLANKS
  {
    hide Contains;
    assert !Contains("", CRLF) by { LacksChar("", CRLF, 0); }
    assert CRLF + CRLF == "" + CRLF + CRLF && CRLF == "" + CRLF + "";
    LinesStep("", CRLF);
    LinesStep("", "");
    assert TokenOf("", CRLF) == ("", None);
  }

  lemma PacketLines(first: string, fields: seq<Field>)
    requires !Contains(first, CRLF) && AllOnLine(fields)
    ensures Lines(Packet(first, fields)) == [first] + (FieldLines(fields) + BLANKS)
  {
    hide Lines, Contains, AllOnLine, Text;
    assert Packet(first, fields) == first + CRLF + (Text(fields) + (CRLF + CRLF));
    LinesStep(first, Text(fields) + (CRLF + CRLF));
    TextLines(fields, CRLF + CRLF);
    BlankLines();
  }

  lemma {:induction false} FieldLinesFit(fields: seq<Field>)
    requires AllOnLine(fields)
    ensures |FieldLines(fields)| == |fields|
    ensures forall k :: 0 <= k < |fields| ==> |FieldLines(fields)[k]| < COMMAND_LEN
  {
    hide FieldLine, Contains;
    if fields != [] {
      FieldLinesFit(fields[1..]);
    }
  }

  // The functions of the list, one after the other.
  function HandleAll(fields: seq<Field>, ret: int, e: EventData): Outcome {
    if fields == [] then Done(ret, e)
    else
      match Handle(fields[0].token, fields[0].value, e)
      case Fault => Fault
      case Done(r, after) => if r < 0 then Done(-1, after) else HandleAll(fields[1..], r, after)
  }

  // No two names in the token list are the same, so that a header goes to its own function.
  lemma OwnToken(token: TokenNumber)
    ensures TokenIndex(TOKEN_LIST[token], 0) == Some(token as nat)
  {
    OwnTokenFrom(token, 0);
  }

  lemma {:induction false} OwnTokenFrom(token: TokenNumber, idx: nat)
    requires idx <= token
    ensures TokenIndex(TOKEN_LIST[token], idx) == Some(token as nat)
    decreases token - idx
  {
    hide SameNoCase;
    if idx < token {
      NamesDiffer(idx, token);
      OwnTokenFrom(token, idx + 1);
    } else {
      SameName(TOKEN_LIST[token]);
    }
  }

  lemma SameName(s: string)
    ensures SameNoCase(s, s)
  {
  }

  lemma NamesDiffer(i: TokenNumber, j: TokenNumber)
    requires i < j
    ensures !SameNoCase(TOKEN_LIST[i], TOKEN_LIST[j])
  {
    var a, b := TOKEN_LIST[i], TOKEN_LIST[j];
    assert |a| != |b| || Upper(a[0]) != Upper(b[0]);
  }

  lemma FieldHeader(f: Field, ret: int, e: EventData)
    ensures Header(FieldLine(f), ret, e) == Handle(f.token, f.value, e)
  {
    hide TokenOf, TokenIndex, Handle;
    NamesPlain(f.token);
    TokenAtChar(TOKEN_LIST[f.token], ':', f.value);
    OwnToken(f.token);
  }

  lemma BlankHeader(ret: int, e: EventData)
    ensures Header("", ret, e) == Done(ret, e)
  {
    hide TokenIndex;
    NoToken("", ':');
    NoName("", 0);
  }

  lemma BlankStep(rest: seq<string>, ret: int, e: EventData)
    requires ret >= 0
    ensures Headers([""] + rest, ret, e) == Headers(rest, ret, e)
  {
    BlankHeader(ret, e);
    assert ([""] + rest)[1..] == rest;
  }

  lemma BlankHeaders(ret: int, e: EventData)
    requires ret >= 0
    ensures Headers(BLANKS, ret, e) == Done(ret, e)
  {
    assert BLANKS == [""] + ([""] + ([""] + []));
    BlankStep([""] + ([""] + []), ret, e);
    BlankStep([""] + [], ret, e);
    BlankStep([], ret, e);
  }

  lemma NameNotEmpty(token: TokenNumber)
    ensures |TOKEN_LIST[token]| > 1
  {
  }

  lemma {:induction false} NoName(name: string, idx: nat)
    requires |name| <= 1 && idx <= NUM_TOKEN
    ensures TokenIndex(name, idx).None?
    decreases NUM_TOKEN - idx
  {
    if idx < NUM_TOKEN {
      NameNotEmpty(idx);
      NoName(name, idx + 1);
    }
  }

  lemma {:induction false} FieldHeaders(fields: seq<Field>, ret: int, e: EventData)
    requires ret >= 0
    ensures Headers(FieldLines(fields) + BLANKS, ret, e) == HandleAll(fields, ret, e)
  {
    hide Header, Handle, FieldLine;
    if fields == [] {
      assert FieldLines(fields) + BLANKS == BLANKS;
      BlankHeaders(ret, e);
    } else {
      FieldHeader(fields[0], ret, e);
      var lines := FieldLines(fields) + BLANKS;
      assert lines[0] == FieldLine(fields[0]) && lines[1..] == FieldLines(fields[1..]) + BLANKS;
      var o := Handle(fields[0].token, fields[0].value, e);
      if o.Done? && o.ret >= 0 {
        FieldHeaders(fields[1..], o.ret, o.event);
      }
    }
  }

  // A packet is handled field by field, after its first line.
  lemma AnalyzePacket(first: string, fields: seq<Field>, before: EventData)
    requires !Contains(first, CRLF) && |first| < COMMAND_LEN && AllOnLine(fields) && |fields| + 4 <= NUM_TOKEN
    ensures var o := CheckHdr(first, EMPTY);
      Analyze(Packet(first, fields), before) == if o.Fault? then Fault else HandleAll(fields, 1, o.event)
  {
    hide Lines, Contains, AllOnLine, Text, Headers, HandleAll, SsdpEvents.CheckHdr, FieldLines;
    var lines := [first] + (FieldLines(fields) + BLANKS);
    PacketLines(first, fields);
    FieldLinesFit(fields);
    assert Packet(first, fields) != "" by { assert |CRLF| == 2; }
    assert FitTable(lines);
    assert lines[0] == first && lines[1..] == FieldLines(fields) + BLANKS;
    var o := CheckHdr(first, EMPTY);
    if o.Done? {
      FieldHeaders(fields, 1, o.event);
    }
  }

  // ---- the headers that hold no names

  lemma FirstLineRead(notf: Notf, e: EventData)
    ensures CheckHdr(FirstLine(notf), e) == Done(1, e.(cmd := if notf.Reply? then Ok else Notify))
    ensures !Contains(FirstLine(notf), CRLF) && |FirstLine(notf)| < COMMAND_LEN
  {
    hide TokenOf, Contains;
    if notf.Reply? {
      ReplyWords();
    } else {
      NotifyWords();
    }
    LacksChar(FirstLine(notf), CRLF, 0);
  }

  lemma ReplyWords()
    ensures TokenOf("HTTP/1.1 200 OK", " ") == ("HTTP/1.1", Some("200 OK"))
    ensures TokenOf("200 OK", " ") == ("200", Some("OK"))
    ensures TokenOf("OK", " ").0 == "OK" && Contains("OK", "OK") && Contains("200", "200")
    ensures !Contains("HTTP/1.1", "M-SEARCH") && !Contains("HTTP/1.1", "NOTIFY") && Contains("HTTP/1.1", "HTTP/1.1")
  {
    hide TokenOf, Contains;
    assert "HTTP/1.1 200 OK" == "HTTP/1.1" + [' '] + "200 OK" && "200 OK" == "200" + [' '] + "OK";
    TokenAtChar("HTTP/1.1", ' ', "200 OK");
    TokenAtChar("200", ' ', "OK");
    NoToken("OK", ' ');
    Self("OK");
    Self("200");
    Self("HTTP/1.1");
    LacksChar("HTTP/1.1", "M-SEARCH", 0);
    LacksChar("HTTP/1.1", "NOTIFY", 0);
  }

  lemma NotifyWords()
    ensures TokenOf("NOTIFY * HTTP/1.1", " ") == ("NOTIFY", Some("* HTTP/1.1"))
    ensures TokenOf("* HTTP/1.1", " ") == ("*", Some("HTTP/1.1")) && TokenOf("HTTP/1.1", " ").0 == "HTTP/1.1"
    ensures !Contains("NOTIFY", "M-SEARCH") && Contains("NOTIFY", "NOTIFY") && Contains("*", "*")
    ensures Contains("HTTP/1.1", "HTTP/1.1")
  {
    hide TokenOf, Contains;
    assert "NOTIFY * HTTP/1.1" == "NOTIFY" + [' '] + "* HTTP/1.1" && "* HTTP/1.1" == "*" + [' '] + "HTTP/1.1";
    TokenAtChar("NOTIFY", ' ', "* HTTP/1.1");
    TokenAtChar("*", ' ', "HTTP/1.1");
    NoToken("HTTP/1.1", ' ');
    Self("NOTIFY");
    Self("*");
    Self("HTTP/1.1");
    LacksChar("NOTIFY", "M-SEARCH", 0);
  }

  lemma Self(s: string)
    ensures Contains(s, s)
  {
    assert s[0..|s|] == s;
    Occurs(s, s, 0);
  }

  lemma AgeRead(n: int, e: EventData)
    requires -INT_MAX - 1 <= n <= INT_MAX
    ensures CacheControl(" max-age=" + Signed(n), e) == Done(1, e.(maxAge := n))
  {
    hide TokenOf, Atoi, Signed;
    AtoiOfSigned(n);
    assert " max-age=" + Signed(n) == " max-age" + ['='] + Signed(n);
    TokenAtChar(" max-age", '=', Signed(n));
    NoToken(Signed(n), '=');
  }

  lemma SubTypeRead(e: EventData)
    ensures SubType(" ssdp:alive", e) == Done(1, e.(cmd := Alive))
    ensures SubType(" ssdp:byebye", e) == Done(1, e.(cmd := Byebye))
  {
    hide TokenOf;
    assert " ssdp:alive" == " ssdp" + [':'] + "alive" && " ssdp:byebye" == " ssdp" + [':'] + "byebye";
    TokenAtChar(" ssdp", ':', "alive");
    TokenAtChar(" ssdp", ':', "byebye");
    NoToken("alive", ':');
    NoToken("byebye", ':');
    assert |"alive"| != |"byebye"|;
  }

  // ---- the round trip

  // Texts that stay on their lines and fit the fields of an event.
  predicate FitContent(c: Content) {
    && Fits(" " + c.location) && !Contains(c.location, CRLF)
    && -INT_MAX - 1 <= c.duration <= INT_MAX
    && Fits(" " + c.date) && !Contains(c.date, CRLF)
    && Fits(" " + (c.system + PRODUCT)) && !Contains(c.system + PRODUCT, CRLF)
  }

  // And a location of at least seven bytes, as the reader asks for.
  predicate ProperContent(c: Content) {
    FitContent(c) && 7 <= |c.location|
  }

  // The names of the packet, each on its line.
  predicate Names(udn: string, subject: Subject, c: Content) {
    && Formed(udn, subject) && c.nt == NtOf(udn, subject) && c.usn == UsnOf(udn, subject)
    && !Contains(c.nt, CRLF) && !Contains(c.usn, CRLF)
  }

  // What the reader reports.
  function Announced(notf: Notf, udn: string, subject: Subject, c: Content): EventData {
    EventData(
      cmd := if notf.Reply? then Ok else if notf.Advertise? then Alive else Byebye,
      request := RequestFor(subject),
      errCode := NO_ERROR_FOUND,
      maxAge := c.duration,
      mx := -1,
      udn := udn,
      deviceType := DeviceTypeIn(subject),
      serviceType := ServiceTypeIn(subject),
      location := " " + c.location,
      hostAddr := if notf.Reply? then "" else HOST_ADDRESS,
      os := if notf.Shutdown? then "" else " " + (c.system + PRODUCT),
      ext := "",
      date := if notf.Reply? then " " + c.date else "",
      man := "")
  }

  lemma HandleLast(f: Field, ret: int, e: EventData)
    ensures var o := Handle(f.token, f.value, e);
      HandleAll([f], ret, e) == if o.Fault? then Fault else if o.ret < 0 then Done(-1, o.event) else o
  {
    hide Handle;
    assert [f][1..] == [];
  }

  lemma HandleStep(f: Field, rest: seq<Field>, ret: int, e: EventData, after: EventData)
    requires Handle(f.token, f.value, e) == Done(1, after)
    ensures HandleAll([f] + rest, ret, e) == HandleAll(rest, 1, after)
  {
    hide Handle;
    assert ([f] + rest)[1..] == rest;
  }

  lemma PlainFields(c: Content, e: EventData)
    requires ProperContent(c)
    ensures Handle(0, Age(c).value, e) == Done(1, e.(maxAge := c.duration))
    ensures Handle(2, " " + c.location, e) == Done(1, e.(location := " " + c.location))
    ensures Handle(3, HOST_ADDRESS, e) == Done(1, e.(hostAddr := HOST_ADDRESS))
    ensures Handle(6, " ssdp:alive", e) == Done(1, e.(cmd := Alive))
    ensures Handle(6, " ssdp:byebye", e) == Done(1, e.(cmd := Byebye))
    ensures Handle(7, "", e) == Done(1, e)
    ensures Handle(8, Server(c).value, e) == Done(1, e.(os := Server(c).value))
    ensures Handle(11, " " + c.date, e) == Done(1, e.(date := " " + c.date))
  {
    hide Contains, CacheControl, SubType, Signed;
    AgeRead(c.duration, e);
    SubTypeRead(e);
  }

  // ---- the names among the other fields

  // What is handled from the NT or ST header on.
  function Tail(notf: Notf, c: Content): seq<Field> {
    var usn := [Field(4, " " + c.usn)];
    match notf
    case Reply => [Field(1, " " + c.nt)] + usn
    case Advertise => [Field(5, " " + c.nt)] + ([Field(6, " ssdp:alive")] + ([Server(c)] + usn))
    case Shutdown => [Field(5, " " + c.nt)] + ([Field(6, " ssdp:byebye")] + usn)
  }

  // The event before it.
  function Front(notf: Notf, c: Content): EventData {
    if notf.Reply? then
      EMPTY.(cmd := Ok, maxAge := c.duration, date := " " + c.date, location := " " + c.location, os := Server(c).value)
    else EMPTY.(cmd := Notify, hostAddr := HOST_ADDRESS, maxAge := c.duration, location := " " + c.location)
  }

  // The event behind everything but the names.
  function Others(notf: Notf, c: Content): EventData {
    match notf
    case Reply => Front(notf, c)
    case Advertise => Front(notf, c).(cmd := Alive, os := Server(c).value)
    case Shutdown => Front(notf, c).(cmd := Byebye)
  }

  function NtToken(notf: Notf): TokenNumber {
    if notf.Reply? then 1 else 5
  }

  lemma TailParts(notf: Notf, c: Content)
    ensures Tail(notf, c) == [Field(NtToken(notf), " " + c.nt)] + (
      match notf
      case Reply => [Field(4, " " + c.usn)]
      case Advertise => [Field(6, " ssdp:alive")] + ([Server(c)] + [Field(4, " " + c.usn)])
      case Shutdown => [Field(6, " ssdp:byebye")] + [Field(4, " " + c.usn)])
  {
  }

  lemma FieldsAre(notf: Notf, c: Content)
    ensures FieldsOf(notf, c) == (
      if notf.Reply? then
        [Age(c)] + ([Field(11, " " + c.date)] + ([Field(7, "")]
        + ([Field(2, " " + c.location)] + ([Server(c)] + Tail(notf, c)))))
      else [Field(3, HOST_ADDRESS)] + ([Age(c)] + ([Field(2, " " + c.location)] + Tail(notf, c))))
  {
  }

  lemma FrontHandled(notf: Notf, c: Content)
    requires ProperContent(c)
    ensures HandleAll(FieldsOf(notf, c), 1, EMPTY.(cmd := if notf.Reply? then Ok else Notify)) ==
      HandleAll(Tail(notf, c), 1, Front(notf, c))
  {
    var host, date, ext, place, server :=
      Field(3, HOST_ADDRESS), Field(11, " " + c.date), Field(7, ""), Field(2, " " + c.location), Server(c);
    var e0, rest := EMPTY.(cmd := if notf.Reply? then Ok else Notify), Tail(notf, c);
    var e1 := if notf.Reply? then e0 else e0.(hostAddr := HOST_ADDRESS);
    var e2 := e1.(maxAge := c.duration);
    var e3 := if notf.Reply? then e2.(date := date.value) else e2;
    var e4 := e3.(location := place.value);
    assert Front(notf, c) == if notf.Reply? then e4.(os := server.value) else e4;
    hide *;
    FieldsAre(notf, c);
    PlainFields(c, e0);
    PlainFields(c, e1);
    PlainFields(c, e2);
    PlainFields(c, e3);
    PlainFields(c, e4);
    if notf.Reply? {
      HandleStep(Age(c), [date] + ([ext] + ([place] + ([server] + rest))), 1, e0, e2);
      HandleStep(date, [ext] + ([place] + ([server] + rest)), 1, e2, e3);
      HandleStep(ext, [place] + ([server] + rest), 1, e3, e3);
      HandleStep(place, [server] + rest, 1, e3, e4);
      HandleStep(server, rest, 1, e4, e4.(os := server.value));
    } else {
      HandleStep(host, [Age(c)] + ([place] + rest), 1, e0, e1);
      HandleStep(Age(c), [place] + rest, 1, e1, e2);
      HandleStep(place, rest, 1, e3, e4);
    }
  }

  // The names that the NT or ST header leaves, in the event it is handled with.
  lemma NtHandled(notf: Notf, udn: string, subject: Subject, c: Content)
    requires Names(udn, subject, c)
    ensures var o, n := Handle(NtToken(notf), " " + c.nt, Front(notf, c)),
      RequestHeader(" " + NtOf(udn, subject), EMPTY);
      && o.Fault? == n.Fault?
      && (o.Done? ==> o.ret == n.ret && o.ret in {-1, 1})
      && (o.Done? && o.ret >= 0 ==> o.event == WithNames(Front(notf, c), n.event) && n.event == NamesOf(n.event))
  {
    var cmd, e := " " + c.nt, Front(notf, c);
    hide *;
    NamesAre(udn, subject, c);
    NtIs(notf, cmd, e);
    FrontNames(notf, c);
    RequestFrame(cmd, e);
    RequestFrame(cmd, EMPTY);
    NoErrorIn(notf, c, RequestHeader(cmd, EMPTY));
  }

  lemma NamesAre(udn: string, subject: Subject, c: Content)
    requires Names(udn, subject, c)
    ensures c.nt == NtOf(udn, subject) && c.usn == UsnOf(udn, subject)
  {
    hide Contains;
  }

  lemma NtIs(notf: Notf, cmd: string, e: EventData)
    ensures Handle(NtToken(notf), cmd, e) == RequestHeader(cmd, e)
  {
    hide RequestHeader;
  }

  lemma FrontNames(notf: Notf, c: Content)
    ensures NamesOf(Front(notf, c)) == EMPTY == NamesOf(EMPTY)
  {
  }

  lemma NoErrorIn(notf: Notf, c: Content, n: Outcome)
    requires n.Done? && n.ret >= 0 ==> n.event == WithNames(EMPTY, n.event).(errCode := NO_ERROR_FOUND)
    ensures n.Done? && n.ret >= 0 ==>
      && WithNames(Front(notf, c), n.event).(errCode := NO_ERROR_FOUND) == WithNames(Front(notf, c), n.event)
      && n.event == NamesOf(n.event)
  {
  }

  // And the USN header, behind it and whatever other fields are in between.
  lemma UsnHandled(udn: string, subject: Subject, c: Content, e: EventData, n: EventData)
    requires Names(udn, subject, c) && n == NamesOf(n)
    ensures var o, names := Handle(4, " " + c.usn, WithNames(e, n)), ServiceName(" " + UsnOf(udn, subject), n);
      o == if names.Fault? then Fault else Done(names.ret, WithNames(e, names.event))
  {
    hide ServiceName, Formed;
    ServiceFrame(" " + c.usn, WithNames(e, n));
  }

  lemma BetweenHandled(notf: Notf, c: Content, n: EventData)
    requires ProperContent(c)
    ensures var rest := Tail(notf, c)[1..];
      rest != [] && HandleAll(rest, 1, WithNames(Front(notf, c), n)) ==
        HandleAll([Field(4, " " + c.usn)], 1, WithNames(Others(notf, c), n))
  {
    var e0, e2, usn := WithNames(Front(notf, c), n), WithNames(Others(notf, c), n), Field(4, " " + c.usn);
    var e1 := if notf.Advertise? then e0.(cmd := Alive) else if notf.Shutdown? then e0.(cmd := Byebye) else e0;
    assert e2 == if notf.Advertise? then e1.(os := Server(c).value) else e1;
    assert [usn][0] == usn;
    hide *;
    TailParts(notf, c);
    PlainFields(c, e0);
    PlainFields(c, e1);
    match notf {
      case Reply =>
      case Advertise =>
        HandleStep(Field(6, " ssdp:alive"), [Server(c)] + [usn], 1, e0, e1);
        HandleStep(Server(c), [usn], 1, e1, e2);
      case Shutdown =>
        HandleStep(Field(6, " ssdp:byebye"), [usn], 1, e0, e1);
    }
  }

  // Of all the fields together just what the two headers make of the names matters.
  lemma NamesDecide(notf: Notf, udn: string, subject: Subject, c: Content)
    requires Names(udn, subject, c) && ProperContent(c)
    ensures var o := HandleAll(FieldsOf(notf, c), 1, EMPTY.(cmd := if notf.Reply? then Ok else Notify));
      o == Done(1, Announced(notf, udn, subject, c)) <==> Right(udn, subject, NamesRead(udn, subject))
  {
    var usn := Field(4, " " + c.usn);
    hide *;
    FrontHandled(notf, c);
    NtHandled(notf, udn, subject, c);
    TailParts(notf, c);
    var e := Front(notf, c);
    var n := RequestHeader(" " + NtOf(udn, subject), EMPTY);
    TailIs(notf, c);
    HandleFirst(Tail(notf, c), 1, e);
    if n.Done? && n.ret >= 0 {
      BetweenHandled(notf, c, n.event);
      UsnHandled(udn, subject, c, Others(notf, c), n.event);
      HandleLast(usn, 1, WithNames(Others(notf, c), n.event));
      ServiceRet(" " + UsnOf(udn, subject), n.event);
      var names := ServiceName(" " + UsnOf(udn, subject), n.event);
      NamesReadIs(udn, subject);
      if names.Done? {
        AnnouncedIs(notf, udn, subject, c, names);
      } else {
        NotRight(udn, subject);
      }
    } else {
      NamesReadIs(udn, subject);
      NotRight(udn, subject);
    }
  }

  lemma TailIs(notf: Notf, c: Content)
    ensures Tail(notf, c) != [] && Tail(notf, c)[0] == Field(NtToken(notf), " " + c.nt)
  {
  }

  lemma HandleFirst(fields: seq<Field>, ret: int, e: EventData)
    requires fields != []
    ensures var o := Handle(fields[0].token, fields[0].value, e);
      HandleAll(fields, ret, e) == if o.Fault? then Fault else if o.ret < 0 then Done(-1, o.event)
        else HandleAll(fields[1..], o.ret, o.event)
  {
    hide Handle;
  }

  lemma NamesReadIs(udn: string, subject: Subject)
    ensures var o := RequestHeader(" " + NtOf(udn, subject), EMPTY);
      NamesRead(udn, subject) == if o.Fault? || o.ret < 0 then o else ServiceName(" " + UsnOf(udn, subject), o.event)
  {
    hide RequestHeader, ServiceName;
  }

  lemma ServiceRet(cmd: string, e: EventData)
    ensures ServiceName(cmd, e).Done? ==> ServiceName(cmd, e).ret in {-1, 1}
  {
    hide Contains, FindFrom, UdnOf, TypeOf;
  }

  lemma NotRight(udn: string, subject: Subject)
    requires NamesRead(udn, subject).Fault? || NamesRead(udn, subject).ret < 0
    ensures !Right(udn, subject, NamesRead(udn, subject))
  {
    hide NamesRead;
  }

  lemma AnnouncedIs(notf: Notf, udn: string, subject: Subject, c: Content, names: Outcome)
    requires names.Done? && names.ret in {-1, 1}
    ensures var o := if names.ret < 0 then Done(-1, WithNames(Others(notf, c), names.event))
      else Done(names.ret, WithNames(Others(notf, c), names.event));
      o == Done(1, Announced(notf, udn, subject, c)) <==> Right(udn, subject, names)
  {
    hide Contains, RequestFor, DeviceTypeIn, ServiceTypeIn;
  }

  // ---- every field stays on its line

  function Pow10(k: nat): nat {
    if k == 0 then 1 else 10 * Pow10(k - 1)
  }

  lemma {:induction false} DecimalShort(n: nat, k: nat)
    requires n < Pow10(k) && k > 0
    ensures |Decimal(n)| <= k
  {
    if n >= 10 {
      assert k > 1 by { assert Pow10(0) == 1; }
      DecimalShort(n / 10, k - 1);
    }
  }

  lemma AgeOnLine(c: Content)
    requires FitContent(c)
    ensures OnLine(Age(c))
  {
    hide Contains;
    var n := c.duration;
    AtoiOfSigned(n);
    assert Pow10(10) == 10000000000;
    DecimalShort(if n < 0 then -n else n, 10);
    LacksChar(Age(c).value, CRLF, 0);
  }

  lemma SpacedOnLine(token: TokenNumber, value: string)
    requires Fits(" " + value) && !Contains(value, CRLF)
    ensures OnLine(Field(token, " " + value))
  {
    hide Contains;
    SpaceContains(value, CRLF);
    assert |TOKEN_LIST[token]| <= 13;
  }

  lemma NamesOnLine(udn: string, subject: Subject, c: Content)
    requires Names(udn, subject, c)
    ensures Fits(" " + c.nt) && Fits(" " + c.usn) && !Contains(c.nt, CRLF) && !Contains(c.usn, CRLF)
  {
    hide Contains;
  }

  lemma FixedOnLine()
    ensures OnLine(Field(3, HOST_ADDRESS)) && OnLine(Field(6, " ssdp:alive")) && OnLine(Field(6, " ssdp:byebye"))
    ensures OnLine(Field(7, ""))
  {
    hide Contains;
    LacksChar(HOST_ADDRESS, CRLF, 0);
    LacksChar(" ssdp:alive", CRLF, 0);
    LacksChar(" ssdp:byebye", CRLF, 0);
    LacksChar("", CRLF, 0);
  }

  lemma FieldsOnLine(notf: Notf, udn: string, subject: Subject, c: Content)
    requires Names(udn, subject, c) && FitContent(c)
    ensures AllOnLine(FieldsOf(notf, c)) && |FieldsOf(notf, c)| + 4 <= NUM_TOKEN
  {
    hide OnLine, Contains, Names, Age, Server, Fits;
    FixedOnLine();
    AgeOnLine(c);
    NamesOnLine(udn, subject, c);
    ContentOnLine(c);
    SpacedOnLine(1, c.nt);
    SpacedOnLine(5, c.nt);
    SpacedOnLine(4, c.usn);
  }

  lemma ContentOnLine(c: Content)
    requires FitContent(c)
    ensures OnLine(Field(2, " " + c.location)) && OnLine(Field(11, " " + c.date)) && OnLine(Server(c))
  {
    hide OnLine, Contains;
    SpacedOnLine(2, c.location);
    SpacedOnLine(11, c.date);
    SpacedOnLine(8, c.system + PRODUCT);
  }

  lemma ProperFits(c: Content)
    requires ProperContent(c)
    ensures FitContent(c)
  {
  }

  // The round trip: a packet of any of the three sorts is read back to exactly the names, the
  // lifetime and the location that it was written for, if and only if its names come back and its
  // location is long enough.
  lemma ReadsBack(notf: Notf, udn: string, subject: Subject, c: Content, before: EventData)
    requires Names(udn, subject, c) && FitContent(c)
    ensures Analyze(Packet(FirstLine(notf), FieldsOf(notf, c)), before) == Done(1, Announced(notf, udn, subject, c))
      <==> ComesBack(udn, subject) && 7 <= |c.location|
  {
    assert Formed(udn, subject) && (7 <= |c.location| ==> ProperContent(c));
    if |c.location| < 7 {
      ShortLocation(notf, udn, subject, c, before);
    }
    hide *;
    FieldsOnLine(notf, udn, subject, c);
    FirstLineRead(notf, EMPTY);
    AnalyzePacket(FirstLine(notf), FieldsOf(notf, c), before);
    if 7 <= |c.location| {
      NamesDecide(notf, udn, subject, c);
      NamesExact(udn, subject);
    }
  }

  // A shorter location makes the reader refuse the packet, whatever its names are.
  lemma ShortLocation(notf: Notf, udn: string, subject: Subject, c: Content, before: EventData)
    requires Names(udn, subject, c) && FitContent(c) && |c.location| < 7
    ensures var o := Analyze(Packet(FirstLine(notf), FieldsOf(notf, c)), before); o.Done? && o.ret == -1
  {
    var proper := c.(location := "http://");
    hide *;
    OtherPlace(c);
    FieldsOnLine(notf, udn, subject, c);
    FirstLineRead(notf, EMPTY);
    AnalyzePacket(FirstLine(notf), FieldsOf(notf, c), before);
    RefusedAtLocation(notf, c, proper);
  }

  lemma OtherPlace(c: Content)
    requires FitContent(c)
    ensures var proper := c.(location := "http://"); ProperContent(proper) && proper == c.(location := proper.location)
  {
    hide Contains;
    LacksChar("http://", CRLF, 0);
  }

  lemma HandleStop(f: Field, rest: seq<Field>, ret: int, e: EventData)
    requires Handle(f.token, f.value, e).Done? && Handle(f.token, f.value, e).ret < 0
    ensures var o := HandleAll([f] + rest, ret, e); o.Done? && o.ret == -1
  {
    hide Handle;
  }

  lemma ShortRefused(location: string, e: EventData)
    requires |location| < 7
    ensures Handle(2, " " + location, e).Done? && Handle(2, " " + location, e).ret < 0
  {
  }

  lemma RefusedAtLocation(notf: Notf, c: Content, proper: Content)
    requires |c.location| < 7 && proper == c.(location := proper.location) && ProperContent(proper)
    ensures var o := HandleAll(FieldsOf(notf, c), 1, EMPTY.(cmd := if notf.Reply? then Ok else Notify));
      o.Done? && o.ret == -1
  {
    var host, date, ext, place :=
      Field(3, HOST_ADDRESS), Field(11, " " + c.date), Field(7, ""), Field(2, " " + c.location);
    var fields := FieldsOf(notf, c);
    var e0 := EMPTY.(cmd := if notf.Reply? then Ok else Notify);
    var e1 := if notf.Reply? then e0 else e0.(hostAddr := HOST_ADDRESS);
    var e2 := e1.(maxAge := c.duration);
    var e3 := e2.(date := date.value);
    var e := if notf.Reply? then e3 else e2;
    assert Age(c) == Age(proper);
    if notf.Reply? {
      assert fields == [Age(c)] + ([date] + ([ext] + ([place] + fields[4..])));
    } else {
      assert fields == [host] + ([Age(c)] + ([place] + fields[3..]));
    }
    hide *;
    PlainFields(proper, e0);
    PlainFields(proper, e1);
    PlainFields(proper, e2);
    PlainFields(proper, e3);
    ShortRefused(c.location, e);
    if notf.Reply? {
      HandleStop(place, fields[4..], 1, e3);
      HandleStep(ext, [place] + fields[4..], 1, e3, e3);
      HandleStep(date, [ext] + ([place] + fields[4..]), 1, e2, e3);
      HandleStep(Age(c), [date] + ([ext] + ([place] + fields[4..])), 1, e0, e2);
    } else {
      HandleStop(place, fields[3..], 1, e2);
      HandleStep(Age(c), [place] + fields[3..], 1, e1, e2);
      HandleStep(host, [Age(c)] + ([place] + fields[3..]), 1, e0, e1);
    }
  }

  // ---- the callers

  // Whatever a device announces, the reader learns: every packet of it gives the device's name, and
  // the last one its type, if and only if the names come back.
  lemma DeviceReadsBack(notf: Notf, devType: string, rootDev: bool, udn: string, location: string, duration: int,
                        dates: seq<string>, system: string, k: nat, before: EventData)
    requires |dates| == 3 && k < |SubjectsOf(rootDev, devType)|
    requires var subject := SubjectsOf(rootDev, devType)[k];
      var c := ContentFor(udn, subject, location, duration, dates[k], system);
      Names(udn, subject, c) && FitContent(c)
    ensures var subject := SubjectsOf(rootDev, devType)[k];
      var c := ContentFor(udn, subject, location, duration, dates[k], system);
      Analyze(Packet(FirstLine(notf), FieldsOf(notf, c)), before) == Done(1, Announced(notf, udn, subject, c))
      <==> ComesBack(udn, subject) && 7 <= |location|
  {
    hide Analyze, FieldsOf, Announced, Packet, ComesBack, Names, FitContent;
    var subject := SubjectsOf(rootDev, devType)[k];
    ReadsBack(notf, udn, subject, ContentFor(udn, subject, location, duration, dates[k], system), before);
  }

  // Lines fit the buffer that a header is written to, and packets theirs.
  lemma PacketFits(notf: Notf, udn: string, subject: Subject, c: Content)
    requires Names(udn, subject, c) && FitContent(c)
    ensures |Packet(FirstLine(notf), FieldsOf(notf, c))| < BUFSIZE
    ensures forall k :: 0 <= k < |FieldsOf(notf, c)| ==> |FieldLine(FieldsOf(notf, c)[k]) + CRLF| < COMMAND_LEN
  {
    FieldsOnLine(notf, udn, subject, c);
    TextSize(FieldsOf(notf, c));
  }

  lemma {:induction false} TextSize(fields: seq<Field>)
    requires AllOnLine(fields)
    ensures |Text(fields)| <= (COMMAND_LEN + 1) * |fields|
  {
    hide FieldLine, Contains;
    if fields != [] {
      TextSize(fields[1..]);
    }
  }

  // ---- examples

  lemma ColonsInName()
    ensures Contains("uuid:a::b", "::") && Contains("uuid:a::b" + ":", "::")
  {
    hide FindFrom, Contains;
    var u := "uuid:a::b";
    assert u[6..8] == "::";
    Occurs(u, "::", 6);
    ContainsLonger(u, ":", "::");
  }

  // A device name with a double colon does not come back, in packets of any sort.
  lemma ColonsExample(notf: Notf, subject: Subject, c: Content, before: EventData)
    requires Names("uuid:a::b", subject, c) && FitContent(c)
    ensures !ComesBack("uuid:a::b", subject)
    ensures Analyze(Packet(FirstLine(notf), FieldsOf(notf, c)), before) !=
      Done(1, Announced(notf, "uuid:a::b", subject, c))
  {
    hide Contains, Analyze, FieldsOf, Announced, Packet, Names, FitContent, FindFrom;
    ColonsInName();
    ReadsBack(notf, "uuid:a::b", subject, c, before);
  }

  const NOWHERE := Content("uuid:1", "uuid:1", "", 1800, "", "")

  // An empty location makes the reader refuse a packet that is as it should be otherwise.
  lemma NowhereExample(notf: Notf, before: EventData)
    ensures ComesBack("uuid:1", Itself) && Names("uuid:1", Itself, NOWHERE) && FitContent(NOWHERE)
    ensures var o := Analyze(Packet(FirstLine(notf), FieldsOf(notf, NOWHERE)), before); o.Done? && o.ret == -1
  {
    SomeName();
    NowhereFits();
    hide *;
    ShortLocation(notf, "uuid:1", Itself, NOWHERE, before);
  }

  lemma NowhereFits()
    ensures Names("uuid:1", Itself, NOWHERE) && FitContent(NOWHERE) && |NOWHERE.location| < 7
  {
    hide Contains;
    LacksChar("uuid:1", CRLF, 0);
    LacksChar("", CRLF, 0);
    LacksChar("" + PRODUCT, CRLF, 0);
    assert "uuid:" == "uuid:1"[..5];
  }

  // There are names that come back, of every sort.
  lemma SomeName()
    ensures ComesBack("uuid:1", Root) && ComesBack("uuid:1", Itself) && ComesBack("uuid:1", Typed("urn:x:device:y"))
  {
    hide TypeComesBack, Contains;
    SomeUdn("uuid:1");
    SomeUdn("uuid:1:");
    assert "uuid:1" + ":" == "uuid:1:";
    SomeType();
  }

  lemma SomeUdn(udn: string)
    requires udn == "uuid:1" || udn == "uuid:1:"
    ensures !Contains(udn, "::") && !Contains(udn, "uuid:schemas") && !Contains(udn, "urn") && !Contains(udn, "urn:")
    ensures !Contains(udn, "ssdp:all") && !Contains(udn, ":rootdevice") && !Contains(udn, ":device:")
    ensures !Contains(udn, ":service:")
  {
    hide Contains;
    OneColonLacks(udn);
    LacksChar(udn, "uuid:schemas", 5);
    LacksChar(udn, "urn", 1);
    LacksChar(udn, "urn:", 1);
    LacksChar(udn, "ssdp:all", 0);
    LacksChar(udn, ":rootdevice", 1);
    LacksChar(udn, ":device:", 2);
    LacksChar(udn, ":service:", 1);
  }

  lemma SomeType()
    ensures TypeComesBack("urn:x:device:y")
  {
    hide Contains;
    var kind := "urn:x:device:y";
    NoU(kind, "uuid", 'u');
    LacksChar(kind, "ssdp:all", 0);
    LacksChar(kind, ":rootdevice", 2);
    LacksChar(kind, "uuid:schemas", 5);
    assert kind[5..13] == ":device:";
    Occurs(kind, ":device:", 5);
  }
}
