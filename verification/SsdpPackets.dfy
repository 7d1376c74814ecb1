// Writing packets (CreateServiceRequestPacket and its callers, src/ssdp/ssdplib.c:837-911, 927-1340)
// and reading them back with AnalyzeCommand (src/ssdp/ssdpparser.c:603-657).
module SsdpPackets {
  import opened Bytes
  import opened SsdpEvents
  import opened SsdpSearch
  import opened SsdpNames

  const BUFSIZE := 2500
  const HOST_ADDRESS := " 239.255.255.250:1900"
  const PRODUCT := " UPnP/1.0 Intel UPnP SDK/1.0"

  // The argument Notf: 0, 1 and 2.
  datatype Notf = Shutdown | Advertise | Reply

  type TokenNumber = i: nat | i < NUM_TOKEN

  datatype Field = Field(token: TokenNumber, value: string)

  function FieldLine(f: Field): string {
    TOKEN_LIST[f.token] + ":" + f.value
  }

  function Text(fields: seq<Field>): string {
    if fields == [] then "" else FieldLine(fields[0]) + CRLF + Text(fields[1..])
  }

  function FirstLine(notf: Notf): string {
    if notf.Reply? then "HTTP/1.1 200 OK" else "NOTIFY * HTTP/1.1"
  }

  // What a packet is made from: the names, the place and the lifetime of the description, the time
  // of day as currentTmToHttpDate writes it, and the name of the system.
  datatype Content = Content(nt: string, usn: string, location: string, duration: int, date: string, system: string)

  function Age(c: Content): Field {
    Field(0, " max-age=" + Signed(c.duration))
  }

  function Server(c: Content): Field {
    Field(8, " " + (c.system + PRODUCT))
  }

  function FieldsOf(notf: Notf, c: Content): seq<Field> {
    var location, nt, usn, host :=
      Field(2, " " + c.location), Field(5, " " + c.nt), Field(4, " " + c.usn), Field(3, HOST_ADDRESS);
    match notf
    case Reply => [Age(c), Field(11, " " + c.date), Field(7, ""), location, Server(c), Field(1, " " + c.nt), usn]
    case Advertise => [host, Age(c), location, nt, Field(6, " ssdp:alive"), Server(c), usn]
    case Shutdown => [host, Age(c), location, nt, Field(6, " ssdp:byebye"), usn]
  }

  function Packet(first: string, fields: seq<Field>): string {
    first + CRLF + Text(fields) + CRLF + CRLF
  }

  // ---- the writer

  lemma {:induction false} TextSnoc(fields: seq<Field>, f: Field)
    ensures Text(fields + [f]) == Text(fields) + (FieldLine(f) + CRLF)
  {
    if fields == [] {
      assert [f][1..] == [] && fields + [f] == [f];
    } else {
      TextSnoc(fields[1..], f);
      assert (fields + [f])[1..] == fields[1..] + [f];
    }
  }

  // One strcat of a header.
  method Strcat(rqstBuf: string, tempBuf: string, ghost first: string, ghost fields: seq<Field>, ghost f: Field)
    returns (buf: string, ghost after: seq<Field>)
    requires rqstBuf == first + CRLF + Text(fields) && tempBuf == FieldLine(f) + CRLF
    ensures after == fields + [f] && buf == first + CRLF + Text(after)
  {
    hide Text, FieldLine;
    buf, after := rqstBuf + tempBuf, fields + [f];
    TextSnoc(fields, f);
    assert first + CRLF + Text(fields) + tempBuf == first + CRLF + (Text(fields) + tempBuf);
  }

  lemma AgeLine(n: string)
    ensures "CACHE-CONTROL: max-age=" + n + CRLF == FieldLine(Field(0, " max-age=" + n)) + CRLF
  {
    assert "CACHE-CONTROL: max-age=" == "CACHE-CONTROL" + ":" + " max-age=";
  }

  lemma SpacedLine(token: TokenNumber, name: string, value: string)
    requires name == TOKEN_LIST[token] + ": "
    ensures name + value + CRLF == FieldLine(Field(token, " " + value)) + CRLF
  {
    assert name + value == TOKEN_LIST[token] + ":" + (" " + value);
  }

  method CreateServiceRequestPacket(notf: Notf, c: Content) returns (rqstBuf: string)
    ensures rqstBuf == Packet(FirstLine(notf), FieldsOf(notf, c))
  {
    hide Text, FieldLine;
    Literals(c);
    TextOfNone();
    ghost var first, fs: seq<Field> := FirstLine(notf), [];
    var server := "SERVER: " + (c.system + PRODUCT) + CRLF;
    if notf.Reply? {
      rqstBuf := "HTTP/1.1 200 OK" + CRLF;
      assert rqstBuf == first + CRLF + Text(fs);
      rqstBuf, fs := Strcat(rqstBuf, "CACHE-CONTROL: max-age=" + Signed(c.duration) + CRLF, first, fs, Age(c));
      rqstBuf, fs := Strcat(rqstBuf, "DATE: " + c.date + CRLF, first, fs, Field(11, " " + c.date));
      rqstBuf, fs := Strcat(rqstBuf, "EXT:" + CRLF, first, fs, Field(7, ""));
      rqstBuf, fs := Strcat(rqstBuf, "LOCATION: " + c.location + CRLF, first, fs, Field(2, " " + c.location));
      rqstBuf, fs := Strcat(rqstBuf, server, first, fs, Server(c));
      rqstBuf, fs := Strcat(rqstBuf, "ST: " + c.nt + CRLF, first, fs, Field(1, " " + c.nt));
    } else {
      rqstBuf := "NOTIFY * HTTP/1.1" + CRLF;
      assert rqstBuf == first + CRLF + Text(fs);
      rqstBuf, fs := Strcat(rqstBuf, "HOST: " + "239.255.255.250:1900" + CRLF, first, fs, Field(3, HOST_ADDRESS));
      rqstBuf, fs := Strcat(rqstBuf, "CACHE-CONTROL: max-age=" + Signed(c.duration) + CRLF, first, fs, Age(c));
      rqstBuf, fs := Strcat(rqstBuf, "LOCATION: " + c.location + CRLF, first, fs, Field(2, " " + c.location));
      rqstBuf, fs := Strcat(rqstBuf, "NT: " + c.nt + CRLF, first, fs, Field(5, " " + c.nt));
      if notf.Advertise? {
        rqstBuf, fs := Strcat(rqstBuf, "NTS: ssdp:alive" + CRLF, first, fs, Field(6, " ssdp:alive"));
        rqstBuf, fs := Strcat(rqstBuf, server, first, fs, Server(c));
      } else {
        rqstBuf, fs := Strcat(rqstBuf, "NTS: ssdp:byebye" + CRLF, first, fs, Field(6, " ssdp:byebye"));
      }
    }
    rqstBuf, fs := Strcat(rqstBuf, "USN: " + c.usn + CRLF, first, fs, Field(4, " " + c.usn));
    assert fs == FieldsOf(notf, c);
    rqstBuf := rqstBuf + CRLF + CRLF;
  }

  lemma TextOfNone()
    ensures Text([]) == ""
  {
  }

  // Each header is the name of its token, a colon and the value.
  lemma Literals(c: Content)
    ensures "CACHE-CONTROL: max-age=" + Signed(c.duration) + CRLF == FieldLine(Age(c)) + CRLF
    ensures "DATE: " + c.date + CRLF == FieldLine(Field(11, " " + c.date)) + CRLF
    ensures "EXT:" + CRLF == FieldLine(Field(7, "")) + CRLF
    ensures "LOCATION: " + c.location + CRLF == FieldLine(Field(2, " " + c.location)) + CRLF
    ensures "SERVER: " + (c.system + PRODUCT) + CRLF == FieldLine(Server(c)) + CRLF
    ensures "ST: " + c.nt + CRLF == FieldLine(Field(1, " " + c.nt)) + CRLF
    ensures "NT: " + c.nt + CRLF == FieldLine(Field(5, " " + c.nt)) + CRLF
    ensures "USN: " + c.usn + CRLF == FieldLine(Field(4, " " + c.usn)) + CRLF
    ensures "HOST: " + "239.255.255.250:1900" + CRLF == FieldLine(Field(3, HOST_ADDRESS)) + CRLF
    ensures "NTS: ssdp:alive" + CRLF == FieldLine(Field(6, " ssdp:alive")) + CRLF
    ensures "NTS: ssdp:byebye" + CRLF == FieldLine(Field(6, " ssdp:byebye")) + CRLF
  {
    hide FieldLine, PRODUCT, Signed, CRLF;
    AgeLine(Signed(c.duration));
    SpacedLine(11, "DATE: ", c.date);
    SpacedLine(2, "LOCATION: ", c.location);
    SpacedLine(8, "SERVER: ", c.system + PRODUCT);
    SpacedLine(1, "ST: ", c.nt);
    SpacedLine(5, "NT: ", c.nt);
    SpacedLine(4, "USN: ", c.usn);
    FixedLines();
  }

  lemma FixedLines()
    ensures "EXT:" == FieldLine(Field(7, "")) && "HOST: " + "239.255.255.250:1900" == FieldLine(Field(3, HOST_ADDRESS))
    ensures "NTS: ssdp:alive" == FieldLine(Field(6, " ssdp:alive"))
    ensures "NTS: ssdp:byebye" == FieldLine(Field(6, " ssdp:byebye"))
  {
    assert "HOST: " + "239.255.255.250:1900" == "HOST" + ":" + HOST_ADDRESS;
    assert "NTS: ssdp:alive" == "NTS" + ":" + " ssdp:alive";
    assert "NTS: ssdp:byebye" == "NTS" + ":" + " ssdp:byebye";
  }

  // ---- the callers

  // The names that a device announces: a root device three, any other device two.
  function SubjectsOf(rootDev: bool, devType: string): seq<Subject> {
    (if rootDev then [Root] else []) + [Itself, Typed(devType)]
  }

  function ContentFor(udn: string, subject: Subject, location: string, duration: int, date: string, system: string)
    : Content {
    Content(NtOf(udn, subject), UsnOf(udn, subject), location, duration, date, system)
  }

  // DeviceAdvertisement, DeviceReply and DeviceShutdown. The time of day may change from packet to packet.
  method DevicePackets(notf: Notf, devType: string, rootDev: bool, udn: string, location: string, duration: int,
                       dates: seq<string>, system: string) returns (szReq: seq<string>)
    requires |dates| == 3
    ensures var subjects := SubjectsOf(rootDev, devType);
      && |szReq| == |subjects|
      && forall k :: 0 <= k < |szReq| ==>
        szReq[k] == Packet(FirstLine(notf),
          FieldsOf(notf, ContentFor(udn, subjects[k], location, duration, dates[k], system)))
  {
    hide Packet, FieldsOf, FirstLine;
    szReq := [];
    if rootDev {
      assert udn + "::" + ROOT_NAME == udn + "::upnp:rootdevice";
      var packet := CreateServiceRequestPacket(notf,
        Content("upnp:rootdevice", udn + "::upnp:rootdevice", location, duration, dates[0], system));
      szReq := [packet];
    }
    var packet := CreateServiceRequestPacket(notf, Content(udn, udn, location, duration, dates[|szReq|], system));
    szReq := szReq + [packet];
    packet := CreateServiceRequestPacket(notf,
      Content(devType, udn + "::" + devType, location, duration, dates[|szReq|], system));
    szReq := szReq + [packet];
  }
}
