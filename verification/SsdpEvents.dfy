// What AnalyzeCommand makes of a packet (src/ssdp/ssdpparser.c:46-64, 75-577, 603-657), as
// functions of the packet's text. Text is a sequence of characters without the terminating NUL.
module SsdpEvents {
  import opened Bytes

  const NUM_TOKEN := 12
  const COMMAND_LEN := 300
  const LINE_SIZE := 180
  const CRLF := "\r\n"
  const NO_ERROR_FOUND := 0
  const E_HTTP_SYNTEX := -6

  // ---- searching, as strstr and StrTok do

  predicate OccursAt(s: string, pat: string, k: int) {
    0 <= k <= k + |pat| <= |s| && s[k..k + |pat|] == pat
  }

  // The first occurrence at or behind an index.
  function FindFrom(s: string, pat: string, from: nat): (r: Option<nat>)
    requires from <= |s|
    ensures r.Some? ==> from <= r.value && OccursAt(s, pat, r.value)
    ensures forall k :: from <= k < (if r.Some? then r.value else |s| + 1) ==> !OccursAt(s, pat, k)
    decreases |s| - from
  {
    if OccursAt(s, pat, from) then Some(from)
    else if from == |s| then None
    else FindFrom(s, pat, from + 1)
  }

  function Find(s: string, pat: string): (r: Option<nat>)
    ensures r.Some? ==> OccursAt(s, pat, r.value)
    ensures forall k :: 0 <= k < (if r.Some? then r.value else |s| + 1) ==> !OccursAt(s, pat, k)
  {
    FindFrom(s, pat, 0)
  }

  predicate Contains(s: string, pat: string) {
    Find(s, pat).Some?
  }

  // A token, and what is left behind the separator, if there is one.
  function TokenOf(s: string, del: string): (string, Option<string>) {
    match Find(s, del)
    case None => (s, None)
    case Some(k) => (s[..k], Some(s[k + |del|..]))
  }

  function Lines(s: string): (r: seq<string>)
    ensures r != []
    decreases |s|
  {
    var (line, rest) := TokenOf(s, CRLF);
    if rest.None? then [line] else [line] + Lines(rest.value)
  }

  function Upper(c: char): char {
    if 'a' <= c <= 'z' then c - ' ' else c
  }

  // strcasecmp.
  predicate SameNoCase(a: string, b: string) {
    |a| == |b| && forall i :: 0 <= i < |a| ==> Upper(a[i]) == Upper(b[i])
  }

  // ---- atoi

  function Spaces(s: string, p: nat): (q: nat)
    requires p <= |s|
    ensures p <= q <= |s|
    decreases |s| - p
  {
    if p < |s| && (s[p] == ' ' || '\t' <= s[p] <= '\r') then Spaces(s, p + 1) else p
  }

  function DigitsOf(s: string, p: nat, sum: nat): nat
    requires p <= |s|
    decreases |s| - p
  {
    if p < |s| && '0' <= s[p] <= '9' then DigitsOf(s, p + 1, 10 * sum + (s[p] as int - '0' as int)) else sum
  }

  const INT_MAX := 0x7FFF_FFFF

  // atoi; a number that is too large saturates.
  function Atoi(s: string): int {
    var p := Spaces(s, 0);
    var negative := p < |s| && s[p] == '-';
    var n: int := DigitsOf(s, if negative || (p < |s| && s[p] == '+') then p + 1 else p, 0);
    if negative then (if n > INT_MAX then -INT_MAX - 1 else -n)
    else if n > INT_MAX then INT_MAX
    else n
  }

  // ---- events

  datatype Cmd = NoCmd | Ok | Alive | Byebye | Search | Notify
  datatype Request = NoRequest | All | RootDevice | Device | Service

  datatype EventData = EventData(
    cmd: Cmd, request: Request, errCode: int, maxAge: int, mx: int, udn: string, deviceType: string,
    serviceType: string, location: string, hostAddr: string, os: string, ext: string, date: string, man: string)

  const EMPTY := EventData(NoCmd, NoRequest, 0, 0, -1, "", "", "", "", "", "", "", "", "")

  // What a function returns, with the event it leaves; or a fault where the code reads a null
  // pointer or writes past an array.
  datatype Outcome = Fault | Done(ret: int, event: EventData)

  function SyntaxError(e: EventData): Outcome {
    Done(-1, e.(errCode := E_HTTP_SYNTEX))
  }

  predicate Fits(s: string) {
    |s| < LINE_SIZE
  }

  // ---- the first line

  // The second and third words of the first line.
  function Words(rest: Option<string>, second: string, third: string, cmd: Cmd, e: EventData): Outcome {
    if rest.None? then Fault
    else
      var (word2, rest2) := TokenOf(rest.value, " ");
      if !Contains(word2, second) then SyntaxError(e)
      else if rest2.None? then Fault
      else if !Contains(TokenOf(rest2.value, " ").0, third) then SyntaxError(e)
      else Done(1, e.(cmd := cmd))
  }

  function CheckHdr(line: string, e: EventData): Outcome {
    var (word, rest) := TokenOf(line, " ");
    if Contains(word, "M-SEARCH") then Words(rest, "*", "HTTP/1.1", Search, e)
    else if Contains(word, "NOTIFY") then Words(rest, "*", "HTTP/1.1", Notify, e)
    else if Contains(word, "HTTP/1.1") then Words(rest, "200", "OK", Ok, e)
    else SyntaxError(e)
  }

  // ---- the headers

  function CacheControl(cmd: string, e: EventData): Outcome {
    var rest := TokenOf(cmd, "=").1;
    if rest.None? then Done(-1, e) else Done(1, e.(maxAge := Atoi(TokenOf(rest.value, "=").0)))
  }

  function LocationHeader(cmd: string, e: EventData): Outcome {
    if |cmd| <= 7 then SyntaxError(e)
    else if !Fits(cmd) then Fault
    else Done(1, e.(location := cmd))
  }

  // The old form of a name, uuid:schemas...:device:type:version:udn.
  function SchemasName(cmd: string, e: EventData): Outcome {
    var p1 := Find(cmd, ":device");
    if p1.None? then Done(-1, e)
    else
      var p2 := FindFrom(cmd, ":", p1.value + 1);
      if p2.None? then Done(-1, e)
      else
        var p3 := FindFrom(cmd, ":", p2.value + 1);
        if p3.None? then Done(-1, e)
        else
          var udn := "uuid:" + cmd[p3.value + 1..];
          assert OccursAt(cmd, ":", p1.value) by { assert cmd[p1.value] == ":device"[0]; }
          var deviceType := "urn" + cmd[Find(cmd, ":").value..p3.value];
          if Fits(udn) && Fits(deviceType) then Done(1, e.(udn := udn, deviceType := deviceType)) else Fault
  }

  // The name of the device: from uuid up to the first double colon.
  function UdnOf(cmd: string): Option<string> {
    var start := Find(cmd, "uuid");
    var end := Find(cmd, "::");
    if start.None? then Some("")
    else if end.None? then Some(cmd[start.value..])
    else if start.value <= end.value then Some(cmd[start.value..end.value])
    else None
  }

  predicate NamesService(cmd: string) {
    Contains(cmd, "urn:") && Contains(cmd, ":service:")
  }

  predicate NamesDevice(cmd: string) {
    Contains(cmd, "urn:") && Contains(cmd, ":device:")
  }

  function TypeOf(cmd: string): string {
    var urn := Find(cmd, "urn");
    if urn.Some? then cmd[urn.value..] else ""
  }

  function ServiceName(cmd: string, e: EventData): Outcome {
    if Contains(cmd, "uuid:schemas") then SchemasName(cmd, e)
    else
      var udn := UdnOf(cmd);
      if udn.None? || !Fits(udn.value) then Fault
      else if (NamesService(cmd) || NamesDevice(cmd)) && !Fits(TypeOf(cmd)) then Fault
      else if !Contains(cmd, "uuid") && !NamesService(cmd) && !NamesDevice(cmd) then Done(-1, e)
      else Done(1, e.(
        udn := if Contains(cmd, "uuid") then udn.value else e.udn,
        serviceType := if NamesService(cmd) then TypeOf(cmd) else e.serviceType,
        deviceType := if NamesDevice(cmd) then TypeOf(cmd) else e.deviceType))
  }

  function RequestOf(cmd: string): Request {
    if Contains(cmd, "ssdp:all") then All
    else if Contains(cmd, ":rootdevice") then RootDevice
    else if Contains(cmd, "uuid:") then Device
    else if NamesDevice(cmd) then Device
    else if NamesService(cmd) then Service
    else NoRequest
  }

  function RequestHeader(cmd: string, e: EventData): Outcome {
    match ServiceName(cmd, e)
    case Fault => Fault
    case Done(_, after) =>
      if RequestOf(cmd).NoRequest? then SyntaxError(after)
      else Done(1, after.(errCode := NO_ERROR_FOUND, request := RequestOf(cmd)))
  }

  function SubType(cmd: string, e: EventData): Outcome {
    var rest := TokenOf(cmd, ":").1;
    if rest.None? then Fault
    else
      var word := TokenOf(rest.value, ":").0;
      if SameNoCase("alive", word) then Done(1, e.(cmd := Alive))
      else if SameNoCase("byebye", word) then Done(1, e.(cmd := Byebye))
      else SyntaxError(e)
  }

  function MaxDelay(cmd: string, e: EventData): Outcome {
    if cmd == "" then SyntaxError(e)
    else
      var word := TokenOf(cmd, ":").0;
      if word == "" || Atoi(word) <= 0 || '.' in word then SyntaxError(e)
      else Done(1, e.(mx := Atoi(word)))
  }

  // The headers whose text is only kept. Os, Host, Fun_MAN and Fun_Date refuse an empty one.
  function Kept(cmd: string, e: EventData, after: EventData): Outcome {
    if cmd == "" then SyntaxError(e) else if !Fits(cmd) then Fault else Done(1, after)
  }

  function ExtHeader(cmd: string, e: EventData): Outcome {
    if cmd == "" then Done(1, e) else if !Fits(cmd) then Fault else Done(1, e.(ext := cmd))
  }

  const TOKEN_LIST := [
    "CACHE-CONTROL", "ST", "LOCATION", "HOST", "USN", "NT", "NTS", "EXT", "SERVER", "MAN", "MX", "DATE"]

  // The functions of InitParser's list.
  function Handle(idx: nat, cmd: string, e: EventData): Outcome
    requires idx < NUM_TOKEN
  {
    match idx
    case 0 => CacheControl(cmd, e)
    case 1 => RequestHeader(cmd, e)
    case 2 => LocationHeader(cmd, e)
    case 3 => Kept(cmd, e, e.(hostAddr := cmd))
    case 4 => ServiceName(cmd, e)
    case 5 => RequestHeader(cmd, e)
    case 6 => SubType(cmd, e)
    case 7 => ExtHeader(cmd, e)
    case 8 => Kept(cmd, e, e.(os := cmd))
    case 9 => Kept(cmd, e, e.(man := cmd))
    case 10 => MaxDelay(cmd, e)
    case _ => Kept(cmd, e, e.(date := cmd))
  }

  // The first entry from idx on that a name is.
  function TokenIndex(name: string, idx: nat): (r: Option<nat>)
    requires idx <= NUM_TOKEN
    ensures r.Some? ==> idx <= r.value < NUM_TOKEN && SameNoCase(TOKEN_LIST[r.value], name)
    decreases NUM_TOKEN - idx
  {
    if idx == NUM_TOKEN then None
    else if SameNoCase(TOKEN_LIST[idx], name) then Some(idx)
    else TokenIndex(name, idx + 1)
  }

  // One header line. A name that is not known is skipped, and the last result stays.
  function Header(line: string, ret: int, e: EventData): Outcome {
    var (name, value) := TokenOf(line, ":");
    match TokenIndex(name, 0)
    case None => Done(ret, e)
    case Some(idx) => if value.None? then Fault else Handle(idx, value.value, e)
  }

  function Headers(lines: seq<string>, ret: int, e: EventData): Outcome {
    if lines == [] then Done(ret, e)
    else
      match Header(lines[0], ret, e)
      case Fault => Fault
      case Done(r, after) => if r < 0 then Done(-1, after) else Headers(lines[1..], r, after)
  }

  // The table of lines.
  predicate FitTable(lines: seq<string>) {
    |lines| <= NUM_TOKEN && forall k :: 0 <= k < |lines| ==> |lines[k]| < COMMAND_LEN
  }

  // AnalyzeCommand. The result of CheckHdr is only looked at for being zero, which it never is.
  function Analyze(packet: string, before: EventData): Outcome {
    if packet == "" then Done(-1, before)
    else
      var lines := Lines(packet);
      if !FitTable(lines) then Fault
      else
        match CheckHdr(lines[0], EMPTY)
        case Fault => Fault
        case Done(_, e) => Headers(lines[1..], 1, e)
  }
}
