// Taking a URL apart (src/genlib/http_client/http_client.c:325-408, 866-1065, 1354-1417; sections 2
// and 3 of RFC 2396). The address lookup is a function given along.
module UriParse {
  import opened Bytes
  import opened DotSegments

  const COLON: byte := 58
  const DASH: byte := 45
  const PLUS_SIGN: byte := 43
  const PERCENT: byte := 37
  const MARK: seq<byte> := [45, 95, 46, 33, 126, 42, 39, 40, 41]              // -_.!~*'()
  const RESERVED: seq<byte> := [59, 47, 63, 58, 64, 38, 61, 43, 36, 44]       // ;/?:@&=+$,
  const DEFAULT_PORT := 80

  predicate IsDigit(c: byte) {
    48 <= c <= 57
  }

  predicate IsAlpha(c: byte) {
    65 <= c <= 90 || 97 <= c <= 122
  }

  predicate IsAlnum(c: byte) {
    IsAlpha(c) || IsDigit(c)
  }

  predicate IsHexDigit(c: byte) {
    IsDigit(c) || 65 <= c <= 70 || 97 <= c <= 102
  }

  predicate SchemeByte(c: byte) {
    IsAlnum(c) || c == PLUS_SIGN || c == DASH || c == DOT
  }

  predicate HostByte(c: byte) {
    IsAlnum(c) || c == DOT || c == DASH
  }

  predicate IsEscaped(s: seq<byte>, i: nat) {
    i + 2 < |s| && s[i] == PERCENT && IsHexDigit(s[i + 1]) && IsHexDigit(s[i + 2])
  }

  // A byte of a path, query or fragment; of an escape, its percent sign.
  predicate UricAt(s: seq<byte>, i: nat)
    requires i < |s|
  {
    IsAlnum(s[i]) || s[i] in MARK || s[i] in RESERVED || IsEscaped(s, i)
  }

  // ---- what is found

  // Where a run of such bytes ends.
  function UricEnd(s: seq<byte>, i: nat): (e: nat)
    requires i <= |s|
    ensures i <= e <= |s| && (forall k :: i <= k < e ==> UricAt(s, k)) && (e < |s| ==> !UricAt(s, e))
    decreases |s| - i
  {
    if i < |s| && UricAt(s, i) then UricEnd(s, i + 1) else i
  }

  function HostEnd(s: seq<byte>, i: nat): (e: nat)
    requires i <= |s|
    ensures i <= e <= |s| && (forall k :: i <= k < e ==> HostByte(s[k])) && (e < |s| ==> !HostByte(s[e]))
    decreases |s| - i
  {
    if i < |s| && HostByte(s[i]) then HostEnd(s, i + 1) else i
  }

  // Where the digits of a port end, and their value, which wraps around in 16 bits.
  function Port(s: seq<byte>, i: nat, sum: nat): (r: (nat, nat))
    requires i <= |s|
    ensures i <= r.0 <= |s| && (forall k :: i <= k < r.0 ==> IsDigit(s[k])) && (r.0 < |s| ==> !IsDigit(s[r.0]))
    decreases |s| - i
  {
    if i < |s| && IsDigit(s[i]) then Port(s, i + 1, (10 * sum + (s[i] - 48)) % 0x1_0000) else (i, sum)
  }

  // The length of the scheme in front of a colon, or zero.
  function SchemeEnd(s: seq<byte>, i: nat): (e: nat)
    requires 0 < i <= |s|
    ensures e == 0 || (i <= e < |s| && s[e] == COLON && forall k :: i <= k < e ==> SchemeByte(s[k]) && s[k] != COLON)
    decreases |s| - i
  {
    if i == |s| then 0
    else if s[i] == COLON then i
    else if SchemeByte(s[i]) then SchemeEnd(s, i + 1)
    else 0
  }

  function SchemeLength(s: seq<byte>): (n: nat)
    ensures n < |s| || n == 0
  {
    if s == [] || !IsAlpha(s[0]) then 0 else SchemeEnd(s, 1)
  }

  // Host and port: the text, the port and the address.
  datatype Hostport = Hostport(text: seq<byte>, port: nat, address: nat)

  const NO_HOST := Hostport([], 0, 0)

  // None when there is a colon without digits, or no address.
  function HostportAt(s: seq<byte>, i: nat, lookup: seq<byte> -> Option<nat>): (r: Option<Hostport>)
    requires i <= |s|
    ensures r.Some? ==> i + |r.value.text| <= |s| && r.value.text == s[i..i + |r.value.text|]
  {
    var h := HostEnd(s, i);
    var colon := h < |s| && s[h] == COLON;
    var (e, port) := if colon then Port(s, h + 1, 0) else (h, DEFAULT_PORT);
    if colon && e == h + 1 then None
    else if lookup(s[i..h]).None? then None
    else Some(Hostport(s[i..e], port, lookup(s[i..h]).value))
  }

  // The pieces of a URL; path is the path with the query.
  datatype Uri = Uri(absolute: bool, scheme: seq<byte>, host: Hostport, path: seq<byte>, fragment: seq<byte>)

  predicate SlashesAt(s: seq<byte>, i: nat) {
    i + 1 < |s| && s[i] == SLASH && s[i + 1] == SLASH
  }

  // Path, query and fragment from i on.
  function PathAt(s: seq<byte>, i: nat): (r: (seq<byte>, seq<byte>))
    requires i <= |s|
  {
    var e := UricEnd(s, i);
    (s[i..e], if e < |s| && s[e] == HASH then s[e + 1..UricEnd(s, e + 1)] else [])
  }

  function UriOf(s: seq<byte>, lookup: seq<byte> -> Option<nat>): Option<Uri> {
    var n := SchemeLength(s);
    var start := if n > 0 then n + 1 else 0;
    if SlashesAt(s, start) then
      var h := HostportAt(s, start + 2, lookup);
      if h.None? then None
      else
        var (path, fragment) := PathAt(s, start + 2 + |h.value.text|);
        Some(Uri(n > 0, s[..n], h.value, path, fragment))
    else
      var (path, fragment) := PathAt(s, start);
      Some(Uri(n > 0, s[..n], NO_HOST, path, fragment))
  }

  // ---- the functions themselves

  // parse_uric: the number of bytes.
  method ParseUric(s: seq<byte>, from: nat) returns (size: nat)
    requires from <= |s|
    ensures from + size == UricEnd(s, from)
  {
    var i := from;
    while i < |s| && UricAt(s, i)
      invariant from <= i <= |s| && UricEnd(s, from) == UricEnd(s, i)
    {
      i := i + 1;
    }
    size := i - from;
  }

  // parse_port.
  method ParsePort(s: seq<byte>, from: nat) returns (size: nat, port: nat)
    requires from <= |s|
    ensures (from + size, port) == Port(s, from, 0)
  {
    var finger := from;
    port := 0;
    while finger < |s| && IsDigit(s[finger])
      invariant from <= finger <= |s| && Port(s, from, 0) == Port(s, finger, port)
    {
      port := (10 * port + (s[finger] - 48)) % 0x1_0000;
      finger := finger + 1;
    }
    size := finger - from;
  }

  // parse_hostport.
  method ParseHostport(s: seq<byte>, from: nat, lookup: seq<byte> -> Option<nat>) returns (out: Option<Hostport>)
    requires from <= |s|
    ensures out == HostportAt(s, from, lookup)
  {
    hide Port;
    var i := from;
    while i < |s| && s[i] != COLON && s[i] != SLASH && HostByte(s[i])
      invariant from <= i <= |s| && HostEnd(s, from) == HostEnd(s, i)
    {
      i := i + 1;
    }
    var size, port := i - from, DEFAULT_PORT;
    if i < |s| && s[i] == COLON {
      var digits;
      digits, port := ParsePort(s, i + 1);
      if digits == 0 {
        return None;
      }
      size := size + 1 + digits;
    }
    var address := lookup(s[from..i]);
    if address.None? {
      return None;
    }
    out := Some(Hostport(s[from..from + size], port, address.value));
  }

  // parse_scheme.
  method ParseScheme(s: seq<byte>) returns (size: nat)
    ensures size == SchemeLength(s)
  {
    if s == [] || !IsAlpha(s[0]) {
      return 0;
    }
    var i := 1;
    while i < |s| && s[i] != COLON
      invariant 1 <= i <= |s| && SchemeEnd(s, 1) == SchemeEnd(s, i)
    {
      if !SchemeByte(s[i]) {
        return 0;
      }
      i := i + 1;
    }
    size := if i < |s| then i else 0;
  }

  // parse_uri.
  method ParseUri(s: seq<byte>, lookup: seq<byte> -> Option<nat>) returns (out: Option<Uri>)
    ensures out == UriOf(s, lookup)
  {
    hide HostportAt, PathAt, SchemeLength, SchemeEnd;
    var scheme := ParseScheme(s);
    var begin := if scheme > 0 then scheme + 1 else 0;
    var host := NO_HOST;
    if begin + 1 < |s| && s[begin] == SLASH && s[begin + 1] == SLASH {
      begin := begin + 2;
      var h := ParseHostport(s, begin, lookup);
      if h.None? {
        return None;
      }
      host := h.value;
      begin := begin + |host.text|;
    }
    var path, fragment := ParsePath(s, begin);
    out := Some(Uri(scheme > 0, s[..scheme], host, path, fragment));
  }

  // The part of parse_uri behind the host.
  method ParsePath(s: seq<byte>, begin: nat) returns (path: seq<byte>, fragment: seq<byte>)
    requires begin <= |s|
    ensures (path, fragment) == PathAt(s, begin)
  {
    hide UricEnd;
    var size := ParseUric(s, begin);
    var end := begin + size;
    path, fragment := s[begin..end], [];
    if end < |s| && s[end] == HASH {
      size := ParseUric(s, end + 1);
      fragment := s[end + 1..end + 1 + size];
    }
  }

  // ---- the pieces and the text

  // Scheme and host as they stand in a text.
  function Front(u: Uri, slashes: bool): seq<byte> {
    (if u.absolute then u.scheme + [COLON] else []) + if slashes then [SLASH, SLASH] + u.host.text else []
  }

  predicate IsScheme(s: seq<byte>) {
    s != [] && IsAlpha(s[0]) && forall k :: 0 <= k < |s| ==> SchemeByte(s[k])
  }

  predicate AllUric(s: seq<byte>) {
    UricEnd(s, 0) == |s|
  }

  // A text that is a host by itself, or a host with a port.
  predicate IsHost(text: seq<byte>, lookup: seq<byte> -> Option<nat>) {
    var h := HostportAt(text, 0, lookup);
    h.Some? && h.value.text == text
  }

  // What is found stands in the text, piece by piece, up to a byte that no URL has.
  lemma Partition(s: seq<byte>, lookup: seq<byte> -> Option<nat>) returns (slashes: bool, rest: seq<byte>)
    requires UriOf(s, lookup).Some?
    ensures var u := UriOf(s, lookup).value;
      && s == Front(u, slashes) + u.path + rest && (u.host.text != [] ==> slashes)
      && u.absolute == (u.scheme != []) && (u.absolute ==> IsScheme(u.scheme))
      && (rest == [] || rest[0] != HASH ==> u.fragment == [])
      && (rest != [] && rest[0] == HASH ==> [HASH] + u.fragment <= rest)
  {
    hide *;
    var begin;
    slashes, begin := FrontOf(s, lookup);
    rest := RestOf(s, begin);
  }

  lemma FrontOf(s: seq<byte>, lookup: seq<byte> -> Option<nat>) returns (slashes: bool, begin: nat)
    requires UriOf(s, lookup).Some?
    ensures var u := UriOf(s, lookup).value;
      && begin <= |s| && s[..begin] == Front(u, slashes) && (u.host.text != [] ==> slashes)
      && u.absolute == (u.scheme != []) && (u.absolute ==> IsScheme(u.scheme))
      && (u.path, u.fragment) == PathAt(s, begin)
  {
    hide HostportAt, PathAt, SchemeEnd, SchemeLength;
    var u, n := UriOf(s, lookup).value, SchemeLength(s);
    var start := if n > 0 then n + 1 else 0;
    SchemeFound(s);
    slashes := SlashesAt(s, start);
    begin := start;
    assert s[..start] == (if u.absolute then u.scheme + [COLON] else []);
    if slashes {
      begin := start + 2 + |u.host.text|;
      assert s[start..begin] == [SLASH, SLASH] + u.host.text;
      assert s[..begin] == s[..start] + s[start..begin];
    }
  }

  lemma SchemeFound(s: seq<byte>)
    ensures var n := SchemeLength(s); n > 0 ==> n < |s| && IsScheme(s[..n]) && s[n] == COLON
  {
    hide SchemeEnd;
  }

  lemma RestOf(s: seq<byte>, begin: nat) returns (rest: seq<byte>)
    requires begin <= |s|
    ensures var (path, fragment) := PathAt(s, begin);
      && s == s[..begin] + path + rest
      && (rest == [] || rest[0] != HASH ==> fragment == [])
      && (rest != [] && rest[0] == HASH ==> [HASH] + fragment <= rest)
  {
    hide UricEnd;
    var e := UricEnd(s, begin);
    rest := s[e..];
    assert s == s[..begin] + s[begin..e] + rest;
    if e < |s| && s[e] == HASH {
      var f := UricEnd(s, e + 1);
      assert rest[..f - e] == [HASH] + s[e + 1..f];
    }
  }

  // ---- a text put together from pieces

  lemma {:induction false} UricIn(s: seq<byte>, p: nat, b: seq<byte>, i: nat)
    requires HasAt(s, p, b) && i <= |b| && UricEnd(b, i) == |b| && (p + |b| == |s| || s[p + |b|] == HASH)
    ensures UricEnd(s, p + i) == p + |b|
    decreases |b| - i
  {
    hide UricAt, HasAt;
    if i < |b| {
      SameUric(s, p, b, i);
      UricIn(s, p, b, i + 1);
    } else {
      InBounds(s, p, b);
      if p + i < |s| {
        HashIsNoUric(s, p + i);
      }
    }
  }

  lemma InBounds(s: seq<byte>, p: nat, b: seq<byte>)
    requires HasAt(s, p, b)
    ensures p + |b| <= |s|
  {
  }

  lemma SameUric(s: seq<byte>, p: nat, b: seq<byte>, i: nat)
    requires HasAt(s, p, b) && i < |b|
    ensures p + i < |s| && (UricAt(b, i) ==> UricAt(s, p + i))
  {
    HasAtIndex(s, p, b);
    assert At(s, p + i) == b[i];
    if IsEscaped(b, i) {
      assert At(s, p + (i + 1)) == b[i + 1] && At(s, p + (i + 2)) == b[i + 2];
    }
  }

  lemma HashIsNoUric(s: seq<byte>, i: nat)
    requires i < |s| && s[i] == HASH
    ensures !UricAt(s, i)
  {
  }

  lemma {:induction false} HostIn(s: seq<byte>, p: nat, t: seq<byte>, i: nat)
    requires HasAt(s, p, t) && i <= |t|
    requires HostEnd(t, i) < |t| || p + |t| == |s| || !HostByte(s[p + |t|])
    ensures HostEnd(s, p + i) == p + HostEnd(t, i)
    decreases |t| - i
  {
    HasAtIndex(s, p, t);
    if i < |t| {
      assert At(s, p + i) == t[i];
      if HostByte(t[i]) {
        HostIn(s, p, t, i + 1);
      }
    }
  }

  lemma {:induction false} PortIn(s: seq<byte>, p: nat, t: seq<byte>, i: nat, sum: nat)
    requires HasAt(s, p, t) && i <= |t|
    requires Port(t, i, sum).0 < |t| || p + |t| == |s| || !IsDigit(s[p + |t|])
    ensures Port(s, p + i, sum) == (p + Port(t, i, sum).0, Port(t, i, sum).1)
    decreases |t| - i
  {
    HasAtIndex(s, p, t);
    if i < |t| {
      assert At(s, p + i) == t[i];
      if IsDigit(t[i]) {
        PortIn(s, p, t, i + 1, (10 * sum + (t[i] - 48)) % 0x1_0000);
      }
    }
  }

  // What may follow a host.
  predicate EndsHost(s: seq<byte>, p: nat) {
    p == |s| || (p < |s| && (s[p] == SLASH || s[p] == QUESTION || s[p] == HASH))
  }

  lemma HostportIn(s: seq<byte>, p: nat, t: seq<byte>, lookup: seq<byte> -> Option<nat>)
    requires HasAt(s, p, t) && IsHost(t, lookup) && EndsHost(s, p + |t|)
    ensures HostportAt(s, p, lookup) == HostportAt(t, 0, lookup)
  {
    hide HostEnd, Port;
    var h := HostEnd(t, 0);
    HostIn(s, p, t, 0);
    HasAtIndex(s, p, t);
    assert s[p..p + |t|] == t && t[0..|t|] == t;
    assert s[p..p + h] == t[0..h];
    if h < |t| {
      assert At(s, p + h) == t[h];
      if t[h] == COLON {
        PortIn(s, p, t, h + 1, 0);
      }
    }
  }

  lemma {:induction false} SchemeIn(s: seq<byte>, scheme: seq<byte>, i: nat)
    requires 0 < i <= |scheme| < |s| && s[..|scheme|] == scheme && s[|scheme|] == COLON
    requires forall k :: 0 <= k < |scheme| ==> SchemeByte(scheme[k])
    ensures SchemeEnd(s, i) == |scheme|
    decreases |scheme| - i
  {
    if i < |scheme| {
      assert s[i] == s[..|scheme|][i];
      assert SchemeByte(scheme[i]) && s[i] != COLON;
      SchemeIn(s, scheme, i + 1);
    }
  }

  // A fragment with its mark, or none.
  predicate IsTail(tail: seq<byte>) {
    tail == [] || (tail[0] == HASH && AllUric(tail[1..]))
  }

  // The text of an absolute URL with a host is taken apart into just what it was put together from.
  lemma TakenApart(scheme: seq<byte>, host: seq<byte>, path: seq<byte>, tail: seq<byte>,
                   lookup: seq<byte> -> Option<nat>)
    requires IsScheme(scheme) && IsHost(host, lookup) && AllUric(path) && IsTail(tail)
    requires path == [] || path[0] == SLASH || path[0] == QUESTION
    ensures UriOf(scheme + [COLON] + ([SLASH, SLASH] + (host + (path + tail))), lookup)
      == Some(Uri(true, scheme, HostportAt(host, 0, lookup).value, path, if tail == [] then [] else tail[1..]))
  {
    hide UricEnd, HostportAt, SchemeEnd, PathAt, IsHost;
    var s := scheme + [COLON] + ([SLASH, SLASH] + (host + (path + tail)));
    var start := |scheme| + 1;
    assert s[0] == scheme[0] && s[..|scheme|] == scheme && s[|scheme|] == COLON;
    SchemeIn(s, scheme, 1);
    assert SchemeLength(s) == |scheme|;
    assert s[start] == SLASH && s[start + 1] == SLASH;
    var p := start + 2;
    assert s[p..p + |host|] == host;
    assert EndsHost(s, p + |host|);
    HostportIn(s, p, host, lookup);
    HostText(host, lookup);
    PathIn(s, p + |host|, path, tail);
  }

  lemma HostText(host: seq<byte>, lookup: seq<byte> -> Option<nat>)
    requires IsHost(host, lookup)
    ensures HostportAt(host, 0, lookup).Some? && HostportAt(host, 0, lookup).value.text == host
  {
    hide HostportAt;
  }

  lemma PathIn(s: seq<byte>, p: nat, path: seq<byte>, tail: seq<byte>)
    requires p <= |s| && s[p..] == path + tail && AllUric(path) && IsTail(tail)
    ensures PathAt(s, p) == (path, if tail == [] then [] else tail[1..])
  {
    hide UricEnd;
    var e := p + |path|;
    assert s[p..e] == s[p..][..|path|] == path;
    assert s[e..] == s[p..][|path|..] == tail;
    UricIn(s, p, path, 0);
    if tail != [] {
      assert s[e] == s[e..][0];
      assert s[e + 1..] == tail[1..];
      assert s[e + 1..e + 1 + |tail[1..]|] == tail[1..];
      UricIn(s, e + 1, tail[1..], 0);
    }
  }

  // A path by itself, when its beginning looks like neither a scheme nor a host.
  lemma PathTakenApart(path: seq<byte>, tail: seq<byte>, lookup: seq<byte> -> Option<nat>)
    requires AllUric(path) && IsTail(tail) && SchemeLength(path + tail) == 0 && !SlashesAt(path + tail, 0)
    ensures UriOf(path + tail, lookup) == Some(Uri(false, [], NO_HOST, path, if tail == [] then [] else tail[1..]))
  {
    hide UricEnd, SchemeLength, PathAt;
    var s := path + tail;
    assert s[0..] == s;
    PathIn(s, 0, path, tail);
  }
}
