// Reading a packet in place (src/ssdp/ssdpparser.c:46-64, 75-577, 603-657): a buffer that tokens are
// cut from by writing terminators into it, and the event that the headers fill in.
module SsdpParser {
  import opened Bytes
  import opened SsdpEvents

  // The string that starts at p.
  function StringAt(s: seq<char>, p: nat): (r: string)
    requires p <= |s|
    ensures p + |r| <= |s| && r == s[p..p + |r|] && '\0' !in r
    ensures p + |r| == |s| || s[p + |r|] == '\0'
    decreases |s| - p
  {
    if p == |s| || s[p] == '\0' then "" else [s[p]] + StringAt(s, p + 1)
  }

  lemma {:induction false} StringAtIs(s: seq<char>, p: nat, r: string)
    requires p + |r| < |s| && s[p..p + |r|] == r && '\0' !in r && s[p + |r|] == '\0'
    ensures StringAt(s, p) == r
    decreases |r|
  {
    if r != "" {
      assert s[p] == r[0];
      StringAtIs(s, p + 1, r[1..]);
    }
  }

  // A buffer and a pointer into it, which is null once the last token is taken.
  class Cursor {
    const buf: array<char>
    var src: Option<nat>

    constructor (capacity: nat)
      requires capacity > 0
      ensures Valid() && fresh(buf) && buf.Length == capacity
    {
      buf := new char[capacity](_ => '\0');
      src := None;
    }

    ghost predicate Valid()
      reads this, buf
    {
      src.Some? ==> src.value < buf.Length && src.value + |StringAt(buf[..], src.value)| < buf.Length
    }

    ghost function Rest(): Option<string>
      requires Valid()
      reads this, buf
    {
      if src.None? then None else Some(StringAt(buf[..], src.value))
    }

    // strcpy to the front of the buffer.
    method Load(s: string)
      requires |s| < buf.Length && '\0' !in s
      modifies this, buf
      ensures Valid() && Rest() == Some(s)
    {
      for i := 0 to |s|
        invariant buf[..i] == s[..i]
      {
        buf[i] := s[i];
      }
      buf[|s|] := '\0';
      src := Some(0);
      assert buf[..][0..|s|] == s;
      StringAtIs(buf[..], 0, s);
    }

    // StrTok: the token in front of the separator, which is cut off by a terminator.
    method StrTok(del: string) returns (token: Option<string>)
      requires Valid() && del != "" && '\0' !in del
      modifies this, buf
      ensures Valid()
      ensures old(Rest()).None? ==> token.None? && Rest().None?
      ensures old(Rest()).Some? ==> token.Some? && (token.value, Rest()) == TokenOf(old(Rest()).value, del)
    {
      hide Find, FindFrom, StringAt;
      if src.None? {
        return None;
      }
      ghost var was := buf[..];
      var p := src.value;
      var s := StringAt(buf[..], p);
      var found := Find(s, del);
      TokenParts(s, del);
      hide *;
      if found.None? {
        src := None;
        return Some(s);
      }
      Cut(p + found.value, |del|, was, p);
      return Some(StringAt(buf[..], p));
    }

    lemma TokenParts(s: string, del: string)
      ensures Find(s, del).None? ==> TokenOf(s, del) == (s, None)
      ensures Find(s, del).Some? ==>
        var k := Find(s, del).value;
        k + |del| <= |s| && TokenOf(s, del) == (s[..k], Some(s[k + |del|..]))
    {
    }

    // Ends the string at an index, and goes on behind it.
    method Cut(at: nat, skip: nat, ghost was: seq<char>, ghost p: nat)
      requires buf[..] == was && p < |was| && p + |StringAt(was, p)| < |was|
      requires skip > 0 && p <= at && at - p + skip <= |StringAt(was, p)|
      modifies this, buf
      ensures Valid() && StringAt(buf[..], p) == StringAt(was, p)[..at - p]
      ensures Rest() == Some(StringAt(was, p)[at - p + skip..])
    {
      hide StringAt;
      buf[at] := '\0';
      src := Some(at + skip);
      CutAt(was, buf[..], p, at - p, skip);
    }

    lemma CutAt(s: seq<char>, t: seq<char>, p: nat, k: nat, d: nat)
      requires p < |s| && p + |StringAt(s, p)| < |s| && d > 0 && k + d <= |StringAt(s, p)| && t == s[p + k := '\0']
      ensures StringAt(t, p) == StringAt(s, p)[..k] && StringAt(t, p + k + d) == StringAt(s, p)[k + d..]
    {
      hide StringAt;
      var r := StringAt(s, p);
      StringAtIs(t, p, r[..k]);
      assert t[p + k + d..p + |r|] == s[p..p + |r|][k + d..];
      StringAtIs(t, p + k + d, r[k + d..]);
    }
  }

  // The structure that the headers fill in.
  class Event {
    var data: EventData

    constructor ()
      ensures data == EMPTY
    {
      data := EMPTY;
    }

    // What a method returns, or a fault, is the outcome o.
    ghost predicate Is(o: Outcome, ret: int, fault: bool)
      reads this
    {
      if fault then o == Fault else o == Done(ret, data)
    }

    method CheckHdr(line: string) returns (ret: int, fault: bool)
      requires |line| < COMMAND_LEN && '\0' !in line
      modifies this
      ensures Is(SsdpEvents.CheckHdr(line, old(data)), ret, fault)
    {
      var tmp := new Cursor(COMMAND_LEN);
      tmp.Load(line);
      var token := tmp.StrTok(" ");
      var second, third, command := "*", "HTTP/1.1", Search;
      if Contains(token.value, "M-SEARCH") {
      } else if Contains(token.value, "NOTIFY") {
        command := Notify;
      } else if Contains(token.value, "HTTP/1.1") {
        second, third, command := "200", "OK", Ok;
      } else {
        data := data.(errCode := E_HTTP_SYNTEX);
        return -1, false;
      }
      token := tmp.StrTok(" ");
      if token.None? {
        return -1, true;
      }
      if !Contains(token.value, second) {
        data := data.(errCode := E_HTTP_SYNTEX);
        return -1, false;
      }
      token := tmp.StrTok(" ");
      if token.None? {
        return -1, true;
      }
      if !Contains(token.value, third) {
        data := data.(errCode := E_HTTP_SYNTEX);
        return -1, false;
      }
      data := data.(cmd := command);
      return 1, false;
    }

    method CacheControl(cmd: string) returns (ret: int, fault: bool)
      requires '\0' !in cmd
      modifies this
      ensures Is(SsdpEvents.CacheControl(cmd, old(data)), ret, fault)
    {
      hide Atoi;
      var line := new Cursor(|cmd| + 1);
      line.Load(cmd);
      var token := line.StrTok("=");
      token := line.StrTok("=");
      if token.None? {
        return -1, false;
      }
      data := data.(maxAge := Atoi(token.value));
      return 1, false;
    }

    method LocationHeader(cmd: string) returns (ret: int, fault: bool)
      modifies this
      ensures Is(SsdpEvents.LocationHeader(cmd, old(data)), ret, fault)
    {
      if |cmd| <= 7 {
        data := data.(errCode := E_HTTP_SYNTEX);
        return -1, false;
      }
      if !Fits(cmd) {
        return -1, true;
      }
      data := data.(location := cmd);
      return 1, false;
    }

    // Unique_Service_Name.
    method UniqueServiceName(cmd: string) returns (ret: int, fault: bool)
      modifies this
      ensures Is(ServiceName(cmd, old(data)), ret, fault)
    {
      hide Find, TypeOf, SchemasName;
      if Contains(cmd, "uuid:schemas") {
        ret, fault := OldName(cmd);
        return;
      }
      var commandFound := false;
      var start := Find(cmd, "uuid");
      if start.Some? {
        var end := Find(cmd, "::");
        if end.Some? && end.value < start.value {
          return -1, true;
        }
        var udn := if end.Some? then cmd[start.value..end.value] else cmd[start.value..];
        if !Fits(udn) {
          return -1, true;
        }
        data := data.(udn := udn);
        commandFound := true;
      }
      if Contains(cmd, "urn:") && Contains(cmd, ":service:") {
        if !Fits(TypeOf(cmd)) {
          return -1, true;
        }
        data := data.(serviceType := TypeOf(cmd));
        commandFound := true;
      }
      if Contains(cmd, "urn:") && Contains(cmd, ":device:") {
        if !Fits(TypeOf(cmd)) {
          return -1, true;
        }
        data := data.(deviceType := TypeOf(cmd));
        commandFound := true;
      }
      return if commandFound then 1 else -1, false;
    }

    // The branch for uuid:schemas.
    method OldName(cmd: string) returns (ret: int, fault: bool)
      modifies this
      ensures Is(SchemasName(cmd, old(data)), ret, fault)
    {
      hide Find, FindFrom;
      var p1 := Find(cmd, ":device");
      if p1.None? {
        return -1, false;
      }
      var p2 := FindFrom(cmd, ":", p1.value + 1);
      if p2.None? {
        return -1, false;
      }
      var p3 := FindFrom(cmd, ":", p2.value + 1);
      if p3.None? {
        return -1, false;
      }
      var udn := "uuid:" + cmd[p3.value + 1..];
      assert OccursAt(cmd, ":", p1.value) by { assert cmd[p1.value] == ":device"[0]; }
      var deviceType := "urn" + cmd[Find(cmd, ":").value..p3.value];
      if !Fits(udn) || !Fits(deviceType) {
        return -1, true;
      }
      data := data.(udn := udn, deviceType := deviceType);
      return 1, false;
    }

    // Request_Tpye.
    method RequestType(cmd: string) returns (ret: int, fault: bool)
      modifies this
      ensures Is(RequestHeader(cmd, old(data)), ret, fault)
    {
      hide Contains, ServiceName;
      ret, fault := UniqueServiceName(cmd);
      if fault {
        return;
      }
      data := data.(errCode := NO_ERROR_FOUND);
      if Contains(cmd, "ssdp:all") {
        data := data.(request := All);
      } else if Contains(cmd, ":rootdevice") {
        data := data.(request := RootDevice);
      } else if Contains(cmd, "uuid:") {
        data := data.(request := Device);
      } else if Contains(cmd, "urn:") && Contains(cmd, ":device:") {
        data := data.(request := Device);
      } else if Contains(cmd, "urn:") && Contains(cmd, ":service:") {
        data := data.(request := Service);
      } else {
        data := data.(errCode := E_HTTP_SYNTEX);
        return -1, false;
      }
      return 1, false;
    }

    // Notification_Sub_Type.
    method NotificationSubType(cmd: string) returns (ret: int, fault: bool)
      requires '\0' !in cmd
      modifies this
      ensures Is(SubType(cmd, old(data)), ret, fault)
    {
      hide SameNoCase;
      var line := new Cursor(|cmd| + 1);
      line.Load(cmd);
      var token := line.StrTok(":");
      token := line.StrTok(":");
      if token.None? {
        return -1, true;
      }
      if SameNoCase("alive", token.value) {
        data := data.(cmd := Alive);
      } else if SameNoCase("byebye", token.value) {
        data := data.(cmd := Byebye);
      } else {
        data := data.(errCode := E_HTTP_SYNTEX);
        return -1, false;
      }
      return 1, false;
    }

    method MaxDelay(cmd: string) returns (ret: int, fault: bool)
      requires '\0' !in cmd
      modifies this
      ensures Is(SsdpEvents.MaxDelay(cmd, old(data)), ret, fault)
    {
      hide Atoi;
      if cmd == "" {
        data := data.(errCode := E_HTTP_SYNTEX);
        return -1, false;
      }
      var line := new Cursor(|cmd| + 1);
      line.Load(cmd);
      var token := line.StrTok(":");
      if token.value == "" || Atoi(token.value) <= 0 || '.' in token.value {
        data := data.(errCode := E_HTTP_SYNTEX);
        return -1, false;
      }
      data := data.(mx := Atoi(token.value));
      return 1, false;
    }

    // Host, Os, Fun_MAN and Fun_Date keep the text, and Fun_Ext too, which takes an empty one.
    method Keep(idx: nat, cmd: string) returns (ret: int, fault: bool)
      requires idx in {3, 7, 8, 9, 11}
      modifies this
      ensures Is(Handle(idx, cmd, old(data)), ret, fault)
    {
      if cmd == "" {
        if idx == 7 {
          return 1, false;
        }
        data := data.(errCode := E_HTTP_SYNTEX);
        return -1, false;
      }
      if !Fits(cmd) {
        return -1, true;
      }
      match idx {
        case 3 => data := data.(hostAddr := cmd);
        case 7 => data := data.(ext := cmd);
        case 8 => data := data.(os := cmd);
        case 9 => data := data.(man := cmd);
        case _ => data := data.(date := cmd);
      }
      return 1, false;
    }

    // The call through FunList.
    method Call(idx: nat, cmd: string) returns (ret: int, fault: bool)
      requires idx < NUM_TOKEN && '\0' !in cmd
      modifies this
      ensures Is(Handle(idx, cmd, old(data)), ret, fault)
    {
      match idx {
        case 0 => ret, fault := CacheControl(cmd);
        case 1 => ret, fault := RequestType(cmd);
        case 2 => ret, fault := LocationHeader(cmd);
        case 4 => ret, fault := UniqueServiceName(cmd);
        case 5 => ret, fault := RequestType(cmd);
        case 6 => ret, fault := NotificationSubType(cmd);
        case 10 => ret, fault := MaxDelay(cmd);
        case _ => ret, fault := Keep(idx, cmd);
      }
    }
  }

  // The lines from a token on.
  ghost function From(token: Option<string>, rest: Option<string>): seq<string> {
    if token.None? then [] else [token.value] + (if rest.None? then [] else Lines(rest.value))
  }

  // The lines of the packet are those in the table, and those from the token on.
  ghost predicate Listing(packet: string, list: seq<string>, token: Option<string>, rest: Option<string>) {
    && '\0' !in packet && Lines(packet) == list + From(token, rest) && FitTable(list)
    && (forall k :: 0 <= k < |list| ==> |list[k]| <= |packet| && '\0' !in list[k])
    && (token.Some? ==> |token.value| <= |packet| && '\0' !in token.value)
    && (rest.Some? ==> token.Some? && |rest.value| <= |packet| && '\0' !in rest.value)
  }

  ghost function Left(token: Option<string>, rest: Option<string>): nat {
    (if token.None? then 0 else 1) + (if rest.None? then 0 else 1 + |rest.value|)
  }

  lemma TokenShorter(s: string)
    requires '\0' !in s
    ensures var (line, rest) := TokenOf(s, CRLF);
      |line| <= |s| && '\0' !in line && (rest.Some? ==> |rest.value| < |s| && '\0' !in rest.value)
    ensures var (line, rest) := TokenOf(s, CRLF); Lines(s) == From(Some(line), rest)
  {
  }

  lemma ListingStart(packet: string)
    requires '\0' !in packet
    ensures Listing(packet, [], Some(TokenOf(packet, CRLF).0), TokenOf(packet, CRLF).1)
  {
    hide Lines, TokenOf, From;
    TokenShorter(packet);
  }

  lemma ListingStep(packet: string, list: seq<string>, token: string, rest: Option<string>)
    requires Listing(packet, list, Some(token), rest) && |list| < NUM_TOKEN && |token| < COMMAND_LEN
    ensures rest.None? ==> Listing(packet, list + [token], None, None) && Left(None, None) < Left(Some(token), rest)
    ensures rest.Some? ==>
      var (line, more) := TokenOf(rest.value, CRLF);
      Listing(packet, list + [token], Some(line), more) && Left(Some(line), more) < Left(Some(token), rest)
  {
    hide Lines, TokenOf;
    if rest.None? {
      assert list + [token] == list + [token] + [];
    } else {
      TokenShorter(rest.value);
      assert list + ([token] + Lines(rest.value)) == list + [token] + Lines(rest.value);
      var (line, more) := TokenOf(rest.value, CRLF);
      assert more.Some? ==> |more.value| < |rest.value|;
    }
  }

  lemma ListingFull(packet: string, list: seq<string>, token: string, rest: Option<string>)
    requires Listing(packet, list, Some(token), rest) && (|list| >= NUM_TOKEN || |token| >= COMMAND_LEN)
    ensures !FitTable(Lines(packet))
  {
    assert Lines(packet)[|list|] == token;
  }

  lemma ListingEnd(packet: string, list: seq<string>, rest: Option<string>)
    requires Listing(packet, list, None, rest)
    ensures list == Lines(packet) && FitTable(list)
    ensures forall k :: 0 <= k < |list| ==> |list[k]| <= |packet| && '\0' !in list[k]
  {
  }

  // Copies the lines into the table, or stops where one does not fit.
  method CommandList(packet: string, tmp: Cursor) returns (list: seq<string>, fault: bool)
    requires '\0' !in packet && tmp.buf.Length == |packet| + 2
    modifies tmp, tmp.buf
    ensures if fault then !FitTable(Lines(packet)) else list == Lines(packet) && FitTable(list)
    ensures !fault ==> forall k :: 0 <= k < |list| ==> |list[k]| <= |packet| && '\0' !in list[k]
  {
    hide Lines, TokenOf, Listing, FitTable, Left, From, Cursor.Valid, Cursor.Rest;
    tmp.Load(packet);
    list := [];
    ListingStart(packet);
    var token := tmp.StrTok(CRLF);
    while token.Some?
      invariant tmp.Valid() && Listing(packet, list, token, tmp.Rest())
      decreases Left(token, tmp.Rest())
    {
      ghost var rest := tmp.Rest();
      if |list| >= NUM_TOKEN || |token.value| >= COMMAND_LEN {
        ListingFull(packet, list, token.value, rest);
        return list, true;
      }
      ListingStep(packet, list, token.value, rest);
      list := list + [token.value];
      token := tmp.StrTok(CRLF);
    }
    ListingEnd(packet, list, tmp.Rest());
    return list, false;
  }

  // One header line: its name is looked up in the token list.
  method HeaderLine(line: string, tmp: Cursor, evt: Event, before: int) returns (ret: int, fault: bool)
    requires '\0' !in line && |line| < tmp.buf.Length
    modifies tmp, tmp.buf, evt
    ensures evt.Is(Header(line, before, old(evt.data)), ret, fault)
  {
    hide Find, SameNoCase, Handle;
    tmp.Load(line);
    var colon := Find(line, ":");
    var token := tmp.StrTok(":");
    for idx := 0 to NUM_TOKEN
      invariant evt.data == old(evt.data)
      invariant TokenIndex(token.value, 0) == TokenIndex(token.value, idx)
    {
      if SameNoCase(TOKEN_LIST[idx], token.value) {
        if colon.None? {
          return -1, true;
        }
        ret, fault := evt.Call(idx, line[colon.value + 1..]);
        return;
      }
    }
    return before, false;
  }

  method AnalyzeCommand(packet: string, evt: Event) returns (ret: int, fault: bool)
    requires '\0' !in packet
    modifies evt
    ensures evt.Is(Analyze(packet, old(evt.data)), ret, fault)
  {
    hide SsdpEvents.CheckHdr, Header, Lines, FitTable;
    if packet == "" {
      return -1, false;
    }
    evt.data := EMPTY;
    var tmp := new Cursor(|packet| + 2);
    var list, tooLong := CommandList(packet, tmp);
    if tooLong {
      return -1, true;
    }
    assert |list[0]| < COMMAND_LEN by { FitsAt(list, 0); }
    ret, fault := evt.CheckHdr(list[0]);
    if fault {
      return;
    }
    ret := 1;
    ghost var e := evt.data;
    for i := 1 to |list|
      invariant Headers(list[1..], 1, e) == Headers(list[i..], ret, evt.data)
    {
      HeadersStep(list, i, ret, evt.data);
      ret, fault := HeaderLine(list[i], tmp, evt, ret);
      if fault {
        return;
      }
      if ret < 0 {
        return -1, false;
      }
    }
  }

  lemma FitsAt(lines: seq<string>, k: nat)
    requires FitTable(lines) && k < |lines|
    ensures |lines[k]| < COMMAND_LEN
  {
  }

  lemma HeadersStep(lines: seq<string>, i: nat, ret: int, e: EventData)
    requires i < |lines|
    ensures Headers(lines[i..], ret, e) ==
      match Header(lines[i], ret, e)
      case Fault => Fault
      case Done(r, after) => if r < 0 then Done(-1, after) else Headers(lines[i + 1..], r, after)
  {
    hide Header;
    assert lines[i..][0] == lines[i] && lines[i..][1..] == lines[i + 1..];
  }
}
