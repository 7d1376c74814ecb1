// The search request of a control point (CreateClientRequestPacket, src/ssdp/ssdplib.c:590-623) is
// read back by AnalyzeCommand (src/ssdp/ssdpparser.c:75-150, 355-371, 439-460, 603-657).
module SsdpRequests {
  import opened Bytes
  import opened SsdpEvents
  import opened SsdpSearch
  import opened SsdpNames
  import opened SsdpPackets
  import opened SsdpRoundTrip

  // What is searched for: everything, root devices, a device by its name, or by its or a service's type.
  datatype Target = Everything | RootDevices | Named(udn: string) | OfType(kind: string)

  function TargetName(target: Target): string {
    match target
    case Everything => "ssdp:all"
    case RootDevices => "upnp:rootdevice"
    case Named(udn) => udn
    case OfType(kind) => kind
  }

  const GROUP := "239.255.255.250:1900"
  const DISCOVER := "\"ssdp:discover\""
  const SEARCH_LINE := "M-SEARCH * HTTP/1.1"

  function DelayFields(mx: int): seq<Field> {
    if mx > 0 then [Field(10, Signed(mx))] else []
  }

  function TargetFields(name: Option<string>): seq<Field> {
    if name.Some? then [Field(1, name.value)] else []
  }

  function SearchFields(mx: int, name: Option<string>): seq<Field> {
    [Field(3, GROUP)] + [Field(9, DISCOVER)] + DelayFields(mx) + TargetFields(name)
  }

  function SearchPacket(mx: int, name: Option<string>): string {
    SEARCH_LINE + CRLF + Text(SearchFields(mx, name)) + CRLF
  }

  // ---- the writer

  lemma SearchLiterals()
    ensures "HOST:239.255.255.250:1900" + CRLF == FieldLine(Field(3, GROUP)) + CRLF
    ensures "MAN:\"ssdp:discover\"" + CRLF == FieldLine(Field(9, DISCOVER)) + CRLF
  {
    hide FieldLine, GROUP, DISCOVER;
    HostLiteral();
    ManLiteral();
  }

  lemma HostLiteral()
    ensures "HOST:239.255.255.250:1900" == FieldLine(Field(3, GROUP))
  {
    assert "HOST:239.255.255.250:1900" == "HOST" + ":" + GROUP;
  }

  lemma ManLiteral()
    ensures "MAN:\"ssdp:discover\"" == FieldLine(Field(9, DISCOVER))
  {
    assert "MAN:\"ssdp:discover\"" == "MAN" + ":" + DISCOVER;
  }

  lemma SearchLine(token: TokenNumber, name: string, value: string)
    requires name == TOKEN_LIST[token] + ":"
    ensures name + value + CRLF == FieldLine(Field(token, value)) + CRLF
  {
  }

  lemma NoText()
    ensures Text([]) == "" && SEARCH_LINE + CRLF + "" == SEARCH_LINE + CRLF
  {
  }

  lemma SearchFieldsAre(mx: int, name: Option<string>)
    ensures var two := [Field(3, GROUP)] + [Field(9, DISCOVER)];
      SearchFields(mx, name) == two + DelayFields(mx) + TargetFields(name)
    ensures SearchPacket(mx, name) == SEARCH_LINE + CRLF + Text(SearchFields(mx, name)) + CRLF
    ensures [] + [Field(3, GROUP)] == [Field(3, GROUP)]
  {
    hide Text;
  }

  method CreateClientRequestPacket(mx: int, searchTarget: Option<string>) returns (rqstBuf: string)
    ensures rqstBuf == SearchPacket(mx, searchTarget)
  {
    hide Text, FieldLine, SearchPacket, SearchFields;
    SearchLiterals();
    NoText();
    SearchFieldsAre(mx, searchTarget);
    ghost var fs: seq<Field> := [];
    rqstBuf := "M-SEARCH * HTTP/1.1" + CRLF;
    assert rqstBuf == SEARCH_LINE + CRLF + Text(fs);
    rqstBuf, fs := Strcat(rqstBuf, "HOST:239.255.255.250:1900" + CRLF, SEARCH_LINE, fs, Field(3, GROUP));
    rqstBuf, fs := Strcat(rqstBuf, "MAN:\"ssdp:discover\"" + CRLF, SEARCH_LINE, fs, Field(9, DISCOVER));
    if mx > 0 {
      SearchLine(10, "MX:", Signed(mx));
      rqstBuf, fs := Strcat(rqstBuf, "MX:" + Signed(mx) + CRLF, SEARCH_LINE, fs, Field(10, Signed(mx)));
    }
    if searchTarget.Some? {
      SearchLine(1, "ST:", searchTarget.value);
      rqstBuf, fs := Strcat(rqstBuf, "ST:" + searchTarget.value + CRLF, SEARCH_LINE, fs,
                            Field(1, searchTarget.value));
    }
    assert fs == SearchFields(mx, searchTarget);
    rqstBuf := rqstBuf + CRLF;
  }

  // ---- the lines

  const TWO_BLANKS := ["", ""]

  lemma TwoBlankLines()
    ensures Lines(CRLF) == TWO_BLANKS
  {
    hide Contains;
    assert !Contains("", CRLF) by { LacksChar("", CRLF, 0); }
    assert CRLF == "" + CRLF + "";
    LinesStep("", "");
    assert TokenOf("", CRLF) == ("", None);
  }

  lemma TwoBlankHeaders(ret: int, e: EventData)
    requires ret >= 0
    ensures Headers(TWO_BLANKS, ret, e) == Done(ret, e)
  {
    assert TWO_BLANKS == [""] + ([""] + []);
    BlankStep([""] + [], ret, e);
    BlankStep([], ret, e);
  }

  lemma {:induction false} SearchHeaders(fields: seq<Field>, ret: int, e: EventData)
    requires ret >= 0
    ensures Headers(FieldLines(fields) + TWO_BLANKS, ret, e) == HandleAll(fields, ret, e)
  {
    hide Header, Handle, FieldLine;
    if fields == [] {
      assert FieldLines(fields) + TWO_BLANKS == TWO_BLANKS;
      TwoBlankHeaders(ret, e);
    } else {
      FieldHeader(fields[0], ret, e);
      var lines := FieldLines(fields) + TWO_BLANKS;
      assert lines[0] == FieldLine(fields[0]) && lines[1..] == FieldLines(fields[1..]) + TWO_BLANKS;
      var o := Handle(fields[0].token, fields[0].value, e);
      if o.Done? && o.ret >= 0 {
        SearchHeaders(fields[1..], o.ret, o.event);
      }
    }
  }

  lemma SearchLines(first: string, fields: seq<Field>)
    requires !Contains(first, CRLF) && AllOnLine(fields)
    ensures Lines(first + CRLF + Text(fields) + CRLF) == [first] + (FieldLines(fields) + TWO_BLANKS)
  {
    hide Lines, Contains, AllOnLine, Text;
    assert first + CRLF + Text(fields) + CRLF == first + CRLF + (Text(fields) + CRLF);
    LinesStep(first, Text(fields) + CRLF);
    TextLines(fields, CRLF);
    TwoBlankLines();
  }

  lemma AnalyzeSearch(fields: seq<Field>, before: EventData)
    requires AllOnLine(fields) && |fields| + 3 <= NUM_TOKEN
    ensures Analyze(SEARCH_LINE + CRLF + Text(fields) + CRLF, before) == HandleAll(fields, 1, EMPTY.(cmd := Search))
  {
    SearchLineRead(EMPTY);
    hide Lines, Contains, AllOnLine, Text, Headers, HandleAll, SsdpEvents.CheckHdr, FieldLines, SEARCH_LINE;
    var lines := [SEARCH_LINE] + (FieldLines(fields) + TWO_BLANKS);
    SearchLines(SEARCH_LINE, fields);
    FieldLinesFit(fields);
    assert SEARCH_LINE + CRLF + Text(fields) + CRLF != "" by { assert |CRLF| == 2; }
    assert FitTable(lines);
    assert lines[0] == SEARCH_LINE && lines[1..] == FieldLines(fields) + TWO_BLANKS;
    SearchHeaders(fields, 1, EMPTY.(cmd := Search));
  }

  // ---- the headers

  lemma SearchLineRead(e: EventData)
    ensures CheckHdr(SEARCH_LINE, e) == Done(1, e.(cmd := Search))
    ensures !Contains(SEARCH_LINE, CRLF) && |SEARCH_LINE| < COMMAND_LEN
  {
    hide TokenOf, Contains;
    assert SEARCH_LINE == "M-SEARCH" + [' '] + "* HTTP/1.1" && "* HTTP/1.1" == "*" + [' '] + "HTTP/1.1";
    TokenAtChar("M-SEARCH", ' ', "* HTTP/1.1");
    TokenAtChar("*", ' ', "HTTP/1.1");
    NoToken("HTTP/1.1", ' ');
    Self("M-SEARCH");
    Self("*");
    Self("HTTP/1.1");
    LacksChar(SEARCH_LINE, CRLF, 0);
  }

  lemma DelayRead(mx: int, e: EventData)
    requires 0 < mx <= INT_MAX
    ensures MaxDelay(Signed(mx), e) == Done(1, e.(mx := mx))
  {
    hide TokenOf, Atoi;
    AtoiOfSigned(mx);
    NoToken(Signed(mx), ':');
    assert Signed(mx) != "";
    assert '.' !in Signed(mx);
  }

  lemma DelayOnLine(mx: int)
    requires 0 < mx <= INT_MAX
    ensures OnLine(Field(10, Signed(mx)))
  {
    hide Contains;
    AtoiOfSigned(mx);
    assert Pow10(10) == 10000000000;
    DecimalShort(mx, 10);
    LacksChar(Signed(mx), CRLF, 0);
  }

  lemma FixedRead(e: EventData)
    ensures Handle(3, GROUP, e) == Done(1, e.(hostAddr := GROUP)) && OnLine(Field(3, GROUP))
    ensures Handle(9, DISCOVER, e) == Done(1, e.(man := DISCOVER)) && OnLine(Field(9, DISCOVER))
  {
    hide Contains;
    LacksChar(GROUP, CRLF, 0);
    LacksChar(DISCOVER, CRLF, 0);
  }

  // The event without what is searched for.
  function Asking(mx: int): EventData {
    EMPTY.(cmd := Search, hostAddr := GROUP, man := DISCOVER, mx := if mx > 0 then mx else -1)
  }

  lemma DelayHandled(mx: int, rest: seq<Field>)
    requires mx <= INT_MAX
    ensures HandleAll(DelayFields(mx) + rest, 1, Asking(0)) == HandleAll(rest, 1, Asking(mx))
    ensures AllOnLine(DelayFields(mx)) && |DelayFields(mx)| <= 1
  {
    if mx > 0 {
      DelayRead(mx, Asking(0));
      DelayOnLine(mx);
      assert Handle(10, Signed(mx), Asking(0)) == Done(1, Asking(mx)) by { hide MaxDelay; }
      hide HandleAll, Handle, OnLine;
      HandleStep(Field(10, Signed(mx)), rest, 1, Asking(0), Asking(mx));
    } else {
      assert DelayFields(mx) + rest == rest;
    }
  }

  lemma SearchHandled(mx: int, name: Option<string>)
    requires mx <= INT_MAX
    ensures HandleAll(SearchFields(mx, name), 1, EMPTY.(cmd := Search)) == HandleAll(TargetFields(name), 1, Asking(mx))
  {
    var e0 := EMPTY.(cmd := Search);
    var e1 := e0.(hostAddr := GROUP);
    assert e1.(man := DISCOVER) == Asking(0);
    hide *;
    var rest := DelayFields(mx) + TargetFields(name);
    SearchFieldsAre(mx, name);
    assert SearchFields(mx, name) == [Field(3, GROUP)] + ([Field(9, DISCOVER)] + rest);
    FixedRead(e0);
    FixedRead(e1);
    HandleStep(Field(3, GROUP), [Field(9, DISCOVER)] + rest, 1, e0, e1);
    HandleStep(Field(9, DISCOVER), rest, 1, e1, Asking(0));
    DelayHandled(mx, TargetFields(name));
  }

  // A name that stays on its line.
  predicate FitName(name: string) {
    Fits(" " + name) && !Contains(name, CRLF)
  }

  lemma SearchOnLine(mx: int, name: Option<string>)
    requires mx <= INT_MAX && (name.Some? ==> FitName(name.value))
    ensures AllOnLine(SearchFields(mx, name)) && |SearchFields(mx, name)| + 3 <= NUM_TOKEN
  {
    FixedRead(EMPTY);
    DelayHandled(mx, []);
    NameOnLine(name);
    SearchFieldsAre(mx, name);
    hide OnLine, DelayFields, TargetFields, SearchFields, HandleAll, Handle;
  }

  lemma NameOnLine(name: Option<string>)
    requires name.Some? ==> FitName(name.value)
    ensures AllOnLine(TargetFields(name)) && |TargetFields(name)| <= 1
  {
    hide Contains;
  }

  // A search request is a search, with its delay and host; the rest is up to what is searched for.
  lemma SearchIsRead(mx: int, name: Option<string>, before: EventData)
    requires mx <= INT_MAX && (name.Some? ==> FitName(name.value))
    ensures Analyze(SearchPacket(mx, name), before) == HandleAll(TargetFields(name), 1, Asking(mx))
  {
    hide *;
    SearchFieldsAre(mx, name);
    SearchOnLine(mx, name);
    AnalyzeSearch(SearchFields(mx, name), before);
    SearchHandled(mx, name);
  }

  // ---- a leading space in a name does not matter

  lemma {:induction false} FromSpace(s: string, pat: string, from: nat)
    requires pat != "" && from <= |s|
    ensures FindFrom(" " + s, pat, from + 1) ==
      if FindFrom(s, pat, from).Some? then Some(FindFrom(s, pat, from).value + 1) else None
    decreases |s| - from
  {
    OccursShift(" ", s, pat, from);
    hide OccursAt;
    if !OccursAt(s, pat, from) && from < |s| {
      FromSpace(s, pat, from + 1);
    }
  }

  // Where the type ends in a name of the old form.
  function TypeEnd(cmd: string): (r: Option<nat>)
    ensures r.Some? ==> r.value < |cmd| && Contains(cmd, ":") && Find(cmd, ":").value <= r.value
  {
    var p1 := Find(cmd, ":device");
    if p1.None? then None
    else
      FirstFirst(cmd, p1.value);
      var p2 := FindFrom(cmd, ":", p1.value + 1);
      if p2.None? then None else FindFrom(cmd, ":", p2.value + 1)
  }

  function SchemasGives(udn: string, kind: string, e: EventData): Outcome {
    var name, deviceType := "uuid:" + udn, "urn" + kind;
    if Fits(name) && Fits(deviceType) then Done(1, e.(udn := name, deviceType := deviceType)) else Fault
  }

  lemma SchemasIs(cmd: string, e: EventData)
    ensures SchemasName(cmd, e) ==
      if TypeEnd(cmd).None? then Done(-1, e)
      else SchemasGives(cmd[TypeEnd(cmd).value + 1..], cmd[Find(cmd, ":").value..TypeEnd(cmd).value], e)
  {
    hide FindFrom;
  }

  lemma SpacedEnd(s: string)
    ensures TypeEnd(" " + s) == if TypeEnd(s).Some? then Some(TypeEnd(s).value + 1) else None
  {
    hide FindFrom, OccursAt;
    LeadingSpace(s, ":device");
    var p1 := Find(s, ":device");
    if p1.Some? {
      InText(s, ":device", p1.value);
      FromSpace(s, ":", p1.value + 1);
      var p2 := FindFrom(s, ":", p1.value + 1);
      if p2.Some? {
        InText(s, ":", p2.value);
        FromSpace(s, ":", p2.value + 1);
      }
    }
  }

  lemma SpacedSchemas(s: string, e: EventData)
    ensures SchemasName(" " + s, e) == SchemasName(s, e)
  {
    hide SchemasName, TypeEnd, SchemasGives, Find;
    SchemasIs(" " + s, e);
    SchemasIs(s, e);
    SpacedEnd(s);
    LeadingSpace(s, ":");
    if TypeEnd(s).Some? {
      SameSlices(s, Find(s, ":").value, TypeEnd(s).value);
    }
  }

  lemma InText(s: string, pat: string, k: nat)
    requires OccursAt(s, pat, k) && pat != ""
    ensures k < |s|
  {
  }

  lemma SameSlices(s: string, from: nat, to: nat)
    requires from <= to < |s|
    ensures (" " + s)[to + 2..] == s[to + 1..] && (" " + s)[from + 1..to + 1] == s[from..to]
  {
  }

  lemma FirstFirst(s: string, k: nat)
    requires OccursAt(s, ":device", k)
    ensures Contains(s, ":") && Find(s, ":").value <= k
  {
    OccursIndex(s, ":device", k, 0);
    assert OccursAt(s, ":", k) by { assert s[k] == ":device"[0]; }
    Occurs(s, ":", k);
  }

  lemma SpacedUdn(s: string)
    ensures UdnOf(" " + s) == UdnOf(s)
  {
    hide FindFrom;
    LeadingSpace(s, "uuid");
    LeadingSpace(s, "::");
    var start, end := Find(s, "uuid"), Find(s, "::");
    if start.Some? {
      assert (" " + s)[start.value + 1..] == s[start.value..];
      if end.Some? && start.value <= end.value {
        assert (" " + s)[start.value + 1..end.value + 1] == s[start.value..end.value];
      }
    }
  }

  lemma SpacedType(s: string)
    ensures TypeOf(" " + s) == TypeOf(s)
  {
    hide FindFrom;
    LeadingSpace(s, "urn");
    var urn := Find(s, "urn");
    if urn.Some? {
      assert (" " + s)[urn.value + 1..] == s[urn.value..];
    }
  }

  lemma SpacedHeader(s: string, e: EventData)
    ensures RequestHeader(" " + s, e) == RequestHeader(s, e)
  {
    hide Contains, UdnOf, TypeOf, SchemasName, FindFrom;
    SpaceFacts(s);
    SpacedUdn(s);
    SpacedType(s);
    SpacedSchemas(s, e);
  }

  // ---- what is searched for

  predicate FormedTarget(target: Target) {
    match target
    case Named(udn) => "uuid:" <= udn && FitName(udn)
    case OfType(kind) => "urn:" <= kind && FitName(kind)
    case _ => true
  }

  // A type that names a device or a service, and nothing the reader would sooner take it for.
  predicate TypeIsFound(kind: string) {
    && (Contains(kind, ":device:") || Contains(kind, ":service:"))
    && !Contains(kind, "ssdp:all") && !Contains(kind, ":rootdevice") && !Contains(kind, "uuid")
  }

  // Exactly the targets that the reader gives back.
  predicate IsFound(target: Target) {
    match target
    case Named(udn) => ComesBack(udn, Itself)
    case OfType(kind) => TypeIsFound(kind)
    case _ => true
  }

  // What is searched for, in an event.
  function Asked(target: Target): EventData {
    match target
    case Everything => EMPTY.(request := All)
    case RootDevices => EMPTY.(request := RootDevice)
    case Named(udn) => EMPTY.(request := Device, udn := udn)
    case OfType(kind) => EMPTY.(
      request := if Contains(kind, ":device:") then Device else Service,
      deviceType := if Contains(kind, ":device:") then kind else "",
      serviceType := if Contains(kind, ":service:") then kind else "")
  }

  lemma AllFound()
    ensures RequestHeader(" " + "ssdp:all", EMPTY) == Done(1, Asked(Everything))
  {
    hide Contains, FindFrom, UdnOf, TypeOf;
    SpaceFacts("ssdp:all");
    Self("ssdp:all");
    LacksChar("ssdp:all", "uuid:schemas", 0);
    LacksChar("ssdp:all", "uuid", 0);
    LacksChar("ssdp:all", "urn:", 0);
    NoUdn(" " + "ssdp:all");
  }

  lemma NamedFound(udn: string)
    requires "uuid:" <= udn && Fits(" " + udn)
    ensures RequestHeader(" " + udn, EMPTY) == Done(1, Asked(Named(udn))) <==> ComesBack(udn, Itself)
  {
    hide Contains, FindFrom, UdnOf, TypeOf, SchemasName;
    var cmd := " " + udn;
    UuidIn(udn);
    UdnItself(udn);
    SpaceFacts(udn);
    if Contains(cmd, "uuid:schemas") {
      assert udn + "" == udn;
      FirstColon(udn, "");
      SchemasIsLonger(cmd, EMPTY);
      SchemasRefused(cmd);
    } else {
      ServiceIs(cmd, EMPTY);
      if LooksTyped(cmd) {
        TypedNotEmpty(cmd);
      }
    }
  }

  // Where the old form is not found nothing is taken from the name.
  lemma SchemasRefused(cmd: string)
    ensures var o := SchemasName(cmd, EMPTY);
      o.Done? ==> (if o.ret < 0 then o.event == EMPTY else "uuid:" <= o.event.udn)
  {
    hide FindFrom;
  }

  lemma TypeHasUuid(kind: string)
    requires "urn:" <= kind && Fits(" " + kind) && Contains(kind, "uuid")
    ensures RequestHeader(" " + kind, EMPTY) != Done(1, Asked(OfType(kind)))
  {
    hide Contains, FindFrom, UdnOf, TypeOf, SchemasName;
    var cmd := " " + kind;
    SpaceFacts(kind);
    UrnInType(kind);
    TypeUdn(kind);
    UdnNotEmpty(cmd);
    SchemasRefused(cmd);
    if Contains(cmd, "uuid:schemas") {
      ContainsUuidColon(kind);
    }
  }

  lemma ContainsUuidColon(kind: string)
    requires Contains(kind, "uuid:schemas")
    ensures Contains(kind, "uuid:")
  {
    ContainsPrefix(kind, "uuid:schemas", "uuid:");
  }

  lemma UdnNotEmpty(cmd: string)
    requires Contains(cmd, "uuid")
    ensures UdnOf(cmd).Some? ==> UdnOf(cmd).value != ""
  {
    hide FindFrom;
    var k := Find(cmd, "uuid").value;
    OccursIndex(cmd, "uuid", k, 0);
    if Contains(cmd, "::") {
      OccursIndex(cmd, "::", Find(cmd, "::").value, 0);
    }
  }

  lemma TypeFoundExactly(kind: string)
    requires "urn:" <= kind && Fits(" " + kind) && !Contains(kind, "uuid")
    ensures RequestHeader(" " + kind, EMPTY) == Done(1, Asked(OfType(kind))) <==> TypeIsFound(kind)
  {
    hide Contains, FindFrom, UdnOf, TypeOf;
    var cmd := " " + kind;
    SpaceFacts(kind);
    UrnInType(kind);
    NoUdn(cmd);
    if Contains(kind, "uuid:schemas") {
      ContainsPrefix(kind, "uuid:schemas", "uuid");
    }
    if Contains(kind, "uuid:") {
      ContainsPrefix(kind, "uuid:", "uuid");
    }
  }

  lemma TargetRead(target: Target)
    requires FormedTarget(target)
    ensures RequestHeader(" " + TargetName(target), EMPTY) == Done(1, Asked(target)) <==> IsFound(target)
  {
    hide Contains, FindFrom, UdnOf, TypeOf, RequestHeader, ComesBack;
    match target {
      case Everything => AllFound();
      case RootDevices => RootHeader();
      case Named(udn) => NamedFound(udn);
      case OfType(kind) =>
        if Contains(kind, "uuid") {
          TypeHasUuid(kind);
        } else {
          TypeFoundExactly(kind);
        }
    }
  }

  lemma TargetFits(target: Target)
    requires FormedTarget(target)
    ensures FitName(TargetName(target))
  {
    hide Contains;
    LacksChar("ssdp:all", CRLF, 0);
    LacksChar("upnp:rootdevice", CRLF, 0);
  }

  // The names in the event that a search request is handled with.
  lemma TargetHandled(mx: int, name: string)
    ensures var o := RequestHeader(name, EMPTY);
      HandleAll([Field(1, name)], 1, Asking(mx)) ==
        if o.Fault? then Fault
        else
          var err := if o.ret < 0 then E_HTTP_SYNTEX else NO_ERROR_FOUND;
          Done(o.ret, WithNames(Asking(mx), o.event).(errCode := err))
  {
    hide RequestHeader;
    HandleLast(Field(1, name), 1, Asking(mx));
    assert NamesOf(Asking(mx)) == EMPTY;
    RequestFrame(name, Asking(mx));
  }

  // A search request of any delay is read back to a search with that delay and for just that target,
  // if and only if the target is one that is found; without a target it is a search for nothing.
  lemma SearchReadsBack(mx: int, target: Target, before: EventData)
    requires mx <= INT_MAX && FormedTarget(target)
    ensures Analyze(SearchPacket(mx, Some(TargetName(target))), before) ==
      Done(1, Asked(target).(cmd := Search, hostAddr := GROUP, man := DISCOVER, mx := if mx > 0 then mx else -1))
      <==> IsFound(target)
    ensures Analyze(SearchPacket(mx, None), before) ==
      Done(1, EMPTY.(cmd := Search, hostAddr := GROUP, man := DISCOVER, mx := if mx > 0 then mx else -1))
  {
    var name := TargetName(target);
    TargetFits(target);
    SearchIsRead(mx, None, before);
    SearchIsRead(mx, Some(name), before);
    TargetHandled(mx, name);
    SpacedHeader(name, EMPTY);
    TargetRead(target);
    HeaderNames(name);
    hide Analyze, SearchPacket, RequestHeader, IsFound, Contains, TargetName, FitName, FormedTarget;
  }

  // The header changes nothing but the names and the error.
  lemma HeaderNames(name: string)
    ensures var o := RequestHeader(name, EMPTY);
      o.Done? ==> o.event == NamesOf(o.event).(errCode := if o.ret < 0 then E_HTTP_SYNTEX else NO_ERROR_FOUND)
  {
    hide RequestHeader;
    RequestFrame(name, EMPTY);
  }
}
