// The names in packets: how the writer puts them together (src/ssdp/ssdplib.c:942-959, 1019-1049,
// 1092-1109, 1165-1166), and what the reader takes from them (src/ssdp/ssdpparser.c:263-371).
module SsdpNames {
  import opened Bytes
  import opened SsdpEvents
  import opened SsdpSearch

  // What a packet is about: a root device, a device by its name, or a device or service by its type.
  datatype Subject = Root | Itself | Typed(kind: string)

  const ROOT_NAME := "upnp:rootdevice"

  // Mil_Nt and Mil_Usn.
  function NtOf(udn: string, subject: Subject): string {
    match subject
    case Root => ROOT_NAME
    case Itself => udn
    case Typed(kind) => kind
  }

  function UsnOf(udn: string, subject: Subject): string {
    if subject.Itself? then udn else udn + "::" + NtOf(udn, subject)
  }

  // ---- which names come back

  // The texts that make the reader take a name for that of a device type or a service type.
  predicate LooksTyped(s: string) {
    Contains(s, "urn:") && (Contains(s, ":device:") || Contains(s, ":service:"))
  }

  // A type in the form of a URN that names a device or a service, and nothing the reader would
  // sooner take it for.
  predicate TypeComesBack(kind: string) {
    && (Contains(kind, ":device:") || (Contains(kind, ":service:") && !Contains(kind, "uuid:")))
    && !Contains(kind, "ssdp:all") && !Contains(kind, ":rootdevice") && !Contains(kind, "uuid:schemas")
    && (Contains(kind, "uuid") && Contains(kind, "::") ==> Find(kind, "uuid").value <= Find(kind, "::").value)
  }

  // Exactly the names that the reader gives back, among names of devices and types of the right
  // beginning. In a service name the colon is the one that follows.
  predicate ComesBack(udn: string, subject: Subject) {
    match subject
    case Root => !Contains(udn + ":", "::") && !Contains(udn + ":", "uuid:schemas") && !LooksTyped(udn + ":")
    case Itself =>
      && !Contains(udn, "::") && !Contains(udn, "uuid:schemas") && !LooksTyped(udn)
      && !Contains(udn, "ssdp:all") && !Contains(udn, ":rootdevice")
    case Typed(kind) =>
      && !Contains(udn + ":", "::") && !Contains(udn + ":", "uuid:schemas") && !Contains(udn + ":", "urn")
      && (Contains(udn + ":", ":device:") ==> Contains(kind, ":device:"))
      && (Contains(udn + ":", ":service:") ==> Contains(kind, ":service:"))
      && TypeComesBack(kind)
  }

  predicate Formed(udn: string, subject: Subject) {
    && "uuid:" <= udn && (subject.Typed? ==> "urn:" <= subject.kind) && Fits(" " + UsnOf(udn, subject))
  }

  // ---- searches in a name

  lemma ContainsLonger(s: string, b: string, pat: string)
    ensures Contains(s, pat) ==> Contains(s + b, pat)
  {
    if Contains(s, pat) {
      OccursBefore(s, b, pat, Find(s, pat).value);
      Occurs(s + b, pat, Find(s, pat).value);
    }
  }

  lemma ContainsPrefix(s: string, pat: string, front: string)
    requires Contains(s, pat) && front <= pat
    ensures Contains(s, front)
  {
    var k := Find(s, pat).value;
    assert s[k..k + |front|] == s[k..k + |pat|][..|front|];
    Occurs(s, front, k);
  }

  predicate OneColon(pat: string) {
    forall i :: 0 <= i < |pat| - 1 ==> !(pat[i] == ':' && pat[i + 1] == ':')
  }

  lemma OneColonLacks(pat: string)
    requires OneColon(pat)
    ensures !Contains(pat, "::")
  {
    if Contains(pat, "::") {
      var k := Find(pat, "::").value;
      OccursIndex(pat, "::", k, 0);
      OccursIndex(pat, "::", k, 1);
    }
  }

  // A service name contains what the device's name with a colon does, or what is behind the
  // double colon.
  lemma UsnContains(udn: string, b: string, pat: string)
    requires pat != "" && pat[0] != ' ' && OneColon(pat) && (pat[0] == ':' ==> !(pat[1..] <= b))
    ensures Contains(" " + (udn + "::" + b), pat) <==> Contains(udn + ":", pat) || Contains(b, pat)
  {
    hide Contains, OneColon;
    OneColonLacks(pat);
    LeadingColon(b, pat);
    SpaceContains(udn + "::" + b, pat);
    if Contains(udn + ":", pat) {
      ContainsLonger(udn + ":", ":" + b, pat);
      assert udn + "::" + b == (udn + ":") + (":" + b);
    } else {
      JoinLacks(udn, b, pat);
    }
  }

  lemma SpaceContains(s: string, pat: string)
    requires pat != "" && pat[0] != ' '
    ensures Contains(" " + s, pat) <==> Contains(s, pat)
  {
    LeadingSpace(s, pat);
  }

  lemma PatternsFit()
    ensures OneColon("uuid:schemas") && OneColon("urn:") && OneColon(":device:") && OneColon(":service:")
    ensures OneColon("urn")
  {
  }

  // ---- what the reader finds

  // The name of the device in a service name.
  lemma UdnFound(udn: string, b: string)
    requires "uuid:" <= udn && !Contains(udn + ":", "::")
    ensures var cmd := " " + (udn + "::" + b); UdnOf(cmd) == Some(udn) && Contains(cmd, "uuid")
  {
    hide FindFrom;
    var cmd := " " + (udn + "::" + b);
    UuidFirst(udn, "::" + b);
    assert udn + ("::" + b) == udn + "::" + b;
    assert cmd[1 + |udn|..1 + |udn| + 2] == "::";
    forall j: nat | j < 1 + |udn| ensures !OccursAt(cmd, "::", j) {
      if OccursAt(cmd, "::", j) {
        EarlyColons(udn, b, j);
      }
    }
    FindIs(cmd, "::", 1 + |udn|);
    assert cmd[1..1 + |udn|] == udn;
  }

  lemma EarlyColons(udn: string, b: string, j: nat)
    requires OccursAt(" " + (udn + "::" + b), "::", j) && j < 1 + |udn|
    ensures Contains(udn + ":", "::")
  {
    var cmd := " " + (udn + "::" + b);
    OccursIndex(cmd, "::", j, 0);
    assert cmd == (" " + (udn + ":")) + (":" + b);
    OccursBefore(" " + (udn + ":"), ":" + b, "::", j);
    OccursShift(" ", udn + ":", "::", j - 1);
    Occurs(udn + ":", "::", j - 1);
  }

  lemma UuidFirst(udn: string, b: string)
    requires "uuid:" <= udn
    ensures Find(" " + (udn + b), "uuid") == Some(1)
  {
    var cmd := " " + (udn + b);
    assert cmd[1..5] == "uuid:"[..4];
    NotAtSpace(udn + b, "uuid");
    FindIs(cmd, "uuid", 1);
  }

  lemma UuidIn(udn: string)
    requires "uuid:" <= udn
    ensures Contains(" " + udn, "uuid") && Contains(" " + udn, "uuid:") && Find(" " + udn, "uuid") == Some(1)
  {
    UuidFirst(udn, "");
    assert udn + "" == udn && (" " + udn)[1..6] == udn[..5];
    Occurs(" " + udn, "uuid:", 1);
  }

  // The device's name by itself is found exactly when it has no double colon, and in a service
  // name exactly when none stands in it or is made where it ends.
  lemma UdnItself(udn: string)
    requires "uuid:" <= udn
    ensures UdnOf(" " + udn).Some? && |UdnOf(" " + udn).value| <= |udn|
    ensures UdnOf(" " + udn) == Some(udn) <==> !Contains(udn, "::")
  {
    hide FindFrom;
    var cmd := " " + udn;
    UuidIn(udn);
    LeadingSpace(udn, "::");
    assert cmd[1..] == udn;
  }

  lemma UdnExact(udn: string, b: string)
    requires "uuid:" <= udn
    ensures var cmd := " " + (udn + "::" + b);
      UdnOf(cmd).Some? && |UdnOf(cmd).value| <= |udn| && (UdnOf(cmd) == Some(udn) <==> !Contains(udn + ":", "::"))
  {
    hide FindFrom;
    var cmd := " " + (udn + "::" + b);
    UuidFirst(udn, "::" + b);
    NotAtSpace(udn + "::" + b, "::");
    assert udn + ("::" + b) == udn + "::" + b;
    assert cmd[1 + |udn|..1 + |udn| + 2] == "::";
    if Contains(udn + ":", "::") {
      var k := Find(udn + ":", "::").value;
      assert cmd == " " + ((udn + ":") + (":" + b));
      OccursBefore(udn + ":", ":" + b, "::", k);
      OccursShift(" ", (udn + ":") + (":" + b), "::", k);
    } else {
      UdnFound(udn, b);
    }
  }

  // The type behind it is found exactly when the device's name has no urn.
  lemma TypeFound(udn: string, kind: string)
    requires "uuid:" <= udn && "urn:" <= kind
    ensures TypeOf(" " + (udn + "::" + kind)) == kind <==> !Contains(udn + ":", "urn")
    ensures |TypeOf(" " + (udn + "::" + kind))| < |" " + (udn + "::" + kind)|
  {
    hide FindFrom;
    var cmd := " " + (udn + "::" + kind);
    var at := 1 + |udn| + 2;
    assert cmd[at..at + 3] == "urn:"[..3];
    assert cmd[at..] == kind;
    NotAtSpace(udn + "::" + kind, "urn");
    if Contains(udn + ":", "urn") {
      var k := Find(udn + ":", "urn").value;
      assert cmd == " " + ((udn + ":") + (":" + kind));
      OccursBefore(udn + ":", ":" + kind, "urn", k);
      OccursShift(" ", (udn + ":") + (":" + kind), "urn", k);
      var j := Find(cmd, "urn").value;
      assert 0 < j <= 1 + k < at;
      assert TypeOf(cmd) == cmd[j..];
    } else {
      forall j: nat | j < at ensures !OccursAt(cmd, "urn", j) {
        if OccursAt(cmd, "urn", j) {
          EarlyUrn(udn, kind, j);
        }
      }
      FindIs(cmd, "urn", at);
    }
  }

  lemma NotAtSpace(s: string, pat: string)
    requires pat != "" && pat[0] != ' '
    ensures !OccursAt(" " + s, pat, 0)
  {
    if OccursAt(" " + s, pat, 0) {
      SpaceFirst(s, pat);
    }
  }

  lemma SpaceFirst(s: string, pat: string)
    requires pat != "" && OccursAt(" " + s, pat, 0)
    ensures pat[0] == ' '
  {
    OccursIndex(" " + s, pat, 0, 0);
  }

  lemma EarlyUrn(udn: string, kind: string, j: nat)
    requires OccursAt(" " + (udn + "::" + kind), "urn", j) && j < 3 + |udn|
    ensures Contains(udn + ":", "urn")
  {
    var cmd := " " + (udn + "::" + kind);
    OccursIndex(cmd, "urn", j, 0);
    OccursIndex(cmd, "urn", j, 1);
    OccursIndex(cmd, "urn", j, 2);
    assert cmd[1 + |udn|] == ':' && cmd[2 + |udn|] == ':';
    assert cmd == (" " + (udn + ":")) + (":" + kind);
    OccursBefore(" " + (udn + ":"), ":" + kind, "urn", j);
    OccursShift(" ", udn + ":", "urn", j - 1);
    Occurs(udn + ":", "urn", j - 1);
  }

  lemma UrnInType(kind: string)
    requires "urn:" <= kind
    ensures Contains(" " + kind, "urn:") && TypeOf(" " + kind) == kind && Contains(kind, "urn:")
  {
    hide FindFrom;
    var cmd := " " + kind;
    assert cmd[1..4] == "urn:"[..3] && cmd[1..5] == "urn:" && kind[0..4] == "urn:";
    NotAtSpace(kind, "urn");
    FindIs(cmd, "urn", 1);
    Occurs(cmd, "urn:", 1);
    Occurs(kind, "urn:", 0);
  }

  lemma NoU(s: string, pat: string, c: char)
    requires |pat| > 1 && pat[0] == 'u' && pat[1] == c && forall k :: 0 <= k < |s| - 1 && s[k] == 'u' ==> s[k + 1] != c
    ensures !Contains(s, pat)
  {
    if Contains(s, pat) {
      var k := Find(s, pat).value;
      OccursIndex(s, pat, k, 0);
      OccursIndex(s, pat, k, 1);
    }
  }

  lemma NoUdn(cmd: string)
    requires !Contains(cmd, "uuid")
    ensures UdnOf(cmd) == Some("")
  {
  }

  // A name that looks like a type gives one that is not empty.
  lemma TypedNotEmpty(cmd: string)
    requires LooksTyped(cmd)
    ensures TypeOf(cmd) != "" && |TypeOf(cmd)| <= |cmd|
  {
    ContainsPrefix(cmd, "urn:", "urn");
  }

  // In the old form the reader never finds a name of the new one: what it puts together is longer.
  lemma SchemasIsLonger(cmd: string, e: EventData)
    requires Find(cmd, ":") == Some(5)
    ensures var o := SchemasName(cmd, e);
      o.Done? && o.ret >= 0 ==> |o.event.udn| + |o.event.deviceType| == |cmd| + 2
  {
    hide FindFrom;
  }

  lemma FirstColon(udn: string, b: string)
    requires "uuid:" <= udn
    ensures Find(" " + (udn + b), ":") == Some(5)
  {
    var cmd := " " + (udn + b);
    assert forall k :: 0 <= k < 5 ==> cmd[k] == " uuid:"[k];
    assert cmd[5] == "uuid:"[4];
    forall j | 0 <= j < 5 ensures !OccursAt(cmd, ":", j) {
      if OccursAt(cmd, ":", j) {
        OccursIndex(cmd, ":", j, 0);
      }
    }
    FindIs(cmd, ":", 5);
  }

  // ---- the headers that hold names

  function RequestFor(subject: Subject): Request {
    match subject
    case Root => RootDevice
    case Itself => Device
    case Typed(kind) => if Contains(kind, ":device:") then Device else Service
  }

  function DeviceTypeIn(subject: Subject): string {
    if subject.Typed? && Contains(subject.kind, ":device:") then subject.kind else ""
  }

  function ServiceTypeIn(subject: Subject): string {
    if subject.Typed? && Contains(subject.kind, ":service:") then subject.kind else ""
  }

  // An event with nothing but the names of another.
  function NamesOf(e: EventData): EventData {
    EMPTY.(request := e.request, udn := e.udn, deviceType := e.deviceType, serviceType := e.serviceType)
  }

  function WithNames(e: EventData, n: EventData): EventData {
    e.(request := n.request, udn := n.udn, deviceType := n.deviceType, serviceType := n.serviceType)
  }

  // The two headers look at no other field.
  lemma ServiceFrame(cmd: string, e: EventData)
    ensures var o := ServiceName(cmd, NamesOf(e));
      ServiceName(cmd, e) == if o.Fault? then Fault else Done(o.ret, WithNames(e, o.event))
    ensures ServiceName(cmd, NamesOf(e)).Done? ==> ServiceName(cmd, NamesOf(e)).event.request == e.request
  {
    hide FindFrom, Contains, UdnOf, TypeOf;
  }

  lemma RequestFrame(cmd: string, e: EventData)
    ensures var o := RequestHeader(cmd, NamesOf(e));
      RequestHeader(cmd, e) ==
        if o.Fault? then Fault
        else Done(o.ret, WithNames(e, o.event).(errCode := if o.ret < 0 then E_HTTP_SYNTEX else NO_ERROR_FOUND))
    ensures RequestHeader(cmd, NamesOf(e)).Done? ==> RequestHeader(cmd, NamesOf(e)).ret in {-1, 1}
  {
    hide FindFrom, Contains, UdnOf, TypeOf, ServiceName, RequestOf;
    ServiceFrame(cmd, e);
    ServiceFrame(cmd, NamesOf(e));
  }

  // What the NT or ST header and then the USN header make of an event without names.
  function NamesRead(udn: string, subject: Subject): Outcome {
    var o := RequestHeader(" " + NtOf(udn, subject), EMPTY);
    if o.Fault? || o.ret < 0 then o else ServiceName(" " + UsnOf(udn, subject), o.event)
  }

  predicate Right(udn: string, subject: Subject, o: Outcome) {
    o.Done? && o.ret >= 0 && o.event.request == RequestFor(subject) && o.event.udn == udn
    && o.event.deviceType == DeviceTypeIn(subject) && o.event.serviceType == ServiceTypeIn(subject)
  }

  // The branch for the old form never gives the right names.
  lemma NoSchemas(udn: string, subject: Subject, e: EventData)
    requires Formed(udn, subject) && Contains(" " + UsnOf(udn, subject), "uuid:schemas")
    ensures var o := ServiceName(" " + UsnOf(udn, subject), e); !Right(udn, subject, o)
  {
    hide Contains, FindFrom, SchemasName;
    var cmd, rest := " " + UsnOf(udn, subject), if subject.Itself? then "" else "::" + NtOf(udn, subject);
    assert udn + rest == UsnOf(udn, subject);
    FirstColon(udn, rest);
    SchemasIsLonger(cmd, e);
  }

  // What ServiceName gives, when that branch is not taken and the name of the device is there.
  lemma ServiceIs(cmd: string, e: EventData)
    requires !Contains(cmd, "uuid:schemas") && Contains(cmd, "uuid") && UdnOf(cmd).Some? && Fits(UdnOf(cmd).value)
    requires Fits(cmd)
    ensures ServiceName(cmd, e) == Done(1, e.(
      udn := UdnOf(cmd).value,
      serviceType := if NamesService(cmd) then TypeOf(cmd) else e.serviceType,
      deviceType := if NamesDevice(cmd) then TypeOf(cmd) else e.deviceType))
  {
    hide Contains, FindFrom, UdnOf, TypeOf;
    if NamesService(cmd) || NamesDevice(cmd) {
      TypedNotEmpty(cmd);
    }
  }

  lemma ItselfRead(udn: string)
    requires Formed(udn, Itself)
    ensures Right(udn, Itself, NamesRead(udn, Itself)) <==> ComesBack(udn, Itself)
  {
    hide Contains, FindFrom, UdnOf, TypeOf;
    var cmd := " " + udn;
    UuidIn(udn);
    UdnItself(udn);
    SpaceFacts(udn);
    if Contains(cmd, "uuid:schemas") {
      var o := RequestHeader(cmd, EMPTY);
      if o.Done? {
        NoSchemas(udn, Itself, o.event);
      }
    } else {
      ServiceIs(cmd, EMPTY);
      ServiceIs(cmd, RequestHeader(cmd, EMPTY).event);
      if LooksTyped(cmd) {
        TypedNotEmpty(cmd);
      }
    }
  }

  lemma SpaceFacts(s: string)
    ensures Contains(" " + s, "uuid:schemas") <==> Contains(s, "uuid:schemas")
    ensures Contains(" " + s, "urn:") <==> Contains(s, "urn:")
    ensures Contains(" " + s, ":device:") <==> Contains(s, ":device:")
    ensures Contains(" " + s, ":service:") <==> Contains(s, ":service:")
    ensures Contains(" " + s, "ssdp:all") <==> Contains(s, "ssdp:all")
    ensures Contains(" " + s, ":rootdevice") <==> Contains(s, ":rootdevice")
    ensures Contains(" " + s, "uuid") <==> Contains(s, "uuid")
    ensures Contains(" " + s, "uuid:") <==> Contains(s, "uuid:")
  {
    hide Contains;
    SpaceContains(s, "uuid:schemas");
    SpaceContains(s, "urn:");
    SpaceContains(s, ":device:");
    SpaceContains(s, ":service:");
    SpaceContains(s, "ssdp:all");
    SpaceContains(s, ":rootdevice");
    SpaceContains(s, "uuid");
    SpaceContains(s, "uuid:");
  }

  // What a service name contains, part by part.
  lemma UsnFacts(udn: string, b: string)
    requires "uuid:" <= udn && !("device:" <= b) && !("service:" <= b)
    ensures var cmd, w := " " + (udn + "::" + b), udn + ":";
      && (Contains(cmd, "uuid:schemas") <==> Contains(w, "uuid:schemas") || Contains(b, "uuid:schemas"))
      && (Contains(cmd, "urn:") <==> Contains(w, "urn:") || Contains(b, "urn:"))
      && (Contains(cmd, ":device:") <==> Contains(w, ":device:") || Contains(b, ":device:"))
      && (Contains(cmd, ":service:") <==> Contains(w, ":service:") || Contains(b, ":service:"))
      && Contains(cmd, "uuid")
  {
    hide Contains, FindFrom, OneColon;
    PatternsFit();
    UsnContains(udn, b, "uuid:schemas");
    UsnContains(udn, b, "urn:");
    assert ":device:"[1..] == "device:" && ":service:"[1..] == "service:";
    UsnContains(udn, b, ":device:");
    UsnContains(udn, b, ":service:");
    UuidFirst(udn, "::" + b);
    assert udn + ("::" + b) == udn + "::" + b;
    Occurs(" " + (udn + "::" + b), "uuid", 1);
  }

  lemma RootRead(udn: string)
    requires Formed(udn, Root)
    ensures Right(udn, Root, NamesRead(udn, Root)) <==> ComesBack(udn, Root)
  {
    hide Contains, FindFrom, UdnOf, TypeOf;
    var cmd := " " + (udn + "::" + ROOT_NAME);
    RootHeader();
    RootLacks();
    UsnFacts(udn, ROOT_NAME);
    UdnExact(udn, ROOT_NAME);
    var e := RequestHeader(" " + ROOT_NAME, EMPTY).event;
    if Contains(cmd, "uuid:schemas") {
      NoSchemas(udn, Root, e);
    } else {
      ServiceIs(cmd, e);
      assert NamesRead(udn, Root) == ServiceName(cmd, e);
      if LooksTyped(cmd) {
        TypedNotEmpty(cmd);
      }
    }
  }

  lemma RootHeader()
    ensures RequestHeader(" " + ROOT_NAME, EMPTY) == Done(1, EMPTY.(request := RootDevice))
  {
    hide Contains, FindFrom, UdnOf, TypeOf;
    var cmd := " " + ROOT_NAME;
    RootLacks();
    SpaceFacts(ROOT_NAME);
    assert cmd[5..16] == ":rootdevice";
    Occurs(cmd, ":rootdevice", 5);
    NoUdn(cmd);
  }

  lemma RootLacks()
    ensures !Contains(ROOT_NAME, "uuid:schemas") && !Contains(ROOT_NAME, "ssdp:all")
    ensures !Contains(ROOT_NAME, "uuid") && !Contains(ROOT_NAME, "urn:")
    ensures !("device:" <= ROOT_NAME) && !("service:" <= ROOT_NAME)
    ensures !Contains(ROOT_NAME, ":device:") && !Contains(ROOT_NAME, ":service:")
  {
    hide Contains;
    LacksChar(ROOT_NAME, ":service:", 1);
    TwoColons(ROOT_NAME, ":device:", 7);
    LacksChar(ROOT_NAME, "uuid:schemas", 5);
    LacksChar(ROOT_NAME, "ssdp:all", 0);
    NoU(ROOT_NAME, "uuid", 'u');
    NoU(ROOT_NAME, "urn:", 'r');
    assert ROOT_NAME[0] == 'u';
  }

  // What has two colons does not occur in a text with one.
  lemma TwoColons(s: string, pat: string, n: nat)
    requires 0 < n < |pat| && pat[0] == ':' && pat[n] == ':'
    requires forall i, j :: 0 <= i < j < |s| ==> s[i] != ':' || s[j] != ':'
    ensures !Contains(s, pat)
  {
    if Contains(s, pat) {
      var k := Find(s, pat).value;
      OccursIndex(s, pat, k, 0);
      OccursIndex(s, pat, k, n);
    }
  }

  // The NT header of a type: whether it is accepted, and what it gives.
  lemma TypeHeader(kind: string)
    requires "urn:" <= kind && Fits(" " + kind) && !Contains(kind, "uuid:schemas")
    ensures var o := RequestHeader(" " + kind, EMPTY);
      TypeComesBack(kind) <==> o.Done? && o.ret >= 0 && o.event.request == RequestFor(Typed(kind))
    ensures var o := RequestHeader(" " + kind, EMPTY);
      o.Done? && o.ret >= 0 ==>
        && o.event.deviceType == DeviceTypeIn(Typed(kind)) && o.event.serviceType == ServiceTypeIn(Typed(kind))
        && o.event.request == RequestOf(" " + kind)
  {
    hide Contains, FindFrom, UdnOf, TypeOf;
    var cmd := " " + kind;
    SpaceFacts(kind);
    UrnInType(kind);
    TypeUdn(kind);
    if Contains(kind, "uuid:") {
      ContainsPrefix(kind, "uuid:", "uuid");
    }
  }

  // Its UDN part does no harm, unless it ends before it begins.
  lemma TypeUdn(kind: string)
    ensures UdnOf(" " + kind).Some? ==> |UdnOf(" " + kind).value| <= |kind| + 1
    ensures UdnOf(" " + kind).None? <==>
      Contains(kind, "uuid") && Contains(kind, "::") && Find(kind, "uuid").value > Find(kind, "::").value
  {
    hide FindFrom;
    LeadingSpace(kind, "uuid");
    LeadingSpace(kind, "::");
  }

  lemma TypedRead(udn: string, kind: string)
    requires Formed(udn, Typed(kind))
    ensures Right(udn, Typed(kind), NamesRead(udn, Typed(kind))) <==> ComesBack(udn, Typed(kind))
  {
    hide Contains, FindFrom, UdnOf, TypeOf, TypeComesBack, RequestHeader, ServiceName;
    var cmd := " " + (udn + "::" + kind);
    assert kind[0] == 'u';
    UsnFacts(udn, kind);
    UdnExact(udn, kind);
    TypeFound(udn, kind);
    UrnInType(kind);
    var o := RequestHeader(" " + kind, EMPTY);
    if Contains(cmd, "uuid:schemas") {
      if o.Done? {
        NoSchemas(udn, Typed(kind), o.event);
      }
      NotBack(udn, kind);
    } else {
      TypeHeader(kind);
      NamesSomething(kind);
      if o.Done? && o.ret >= 0 {
        ServiceIs(cmd, o.event);
        assert cmd == " " + UsnOf(udn, Typed(kind));
        assert NamesRead(udn, Typed(kind)) == ServiceName(cmd, o.event);
      }
    }
  }

  lemma NotBack(udn: string, kind: string)
    requires Contains(udn + ":", "uuid:schemas") || Contains(kind, "uuid:schemas")
    ensures !ComesBack(udn, Typed(kind))
  {
    hide Contains, FindFrom;
  }

  lemma NamesSomething(kind: string)
    ensures TypeComesBack(kind) ==> Contains(kind, ":device:") || Contains(kind, ":service:")
    ensures RequestOf(" " + kind) == RequestFor(Typed(kind)) ==>
      Contains(kind, ":device:") || Contains(kind, ":service:")
  {
    hide Contains, FindFrom;
    SpaceFacts(kind);
  }

  // The reader gives back exactly the names that are said to come back.
  lemma NamesExact(udn: string, subject: Subject)
    requires Formed(udn, subject)
    ensures Right(udn, subject, NamesRead(udn, subject)) <==> ComesBack(udn, subject)
  {
    hide *;
    match subject {
      case Root => RootRead(udn);
      case Itself => ItselfRead(udn);
      case Typed(kind) => TypedRead(udn, kind);
    }
  }
}
