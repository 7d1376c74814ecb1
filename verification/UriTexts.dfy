// URLs as text: the bytes of each piece, the port in decimal, and what taking the URL apart finds
// (src/genlib/http_client/http_client.c:866-1065, 1354-1417).
module UriTexts {
  import opened Bytes
  import opened Escape
  import opened Numbers
  import U = UriParse

  predicate IsLetter(c: byte) {
    65 <= c <= 90 || 97 <= c <= 122
  }

  predicate IsLetterOrDigit(c: byte) {
    IsLetter(c) || 48 <= c <= 57
  }

  // A letter, and then letters, digits, +, - and dots.
  predicate IsSchemeText(s: seq<byte>) {
    s != [] && IsLetter(s[0]) && forall k :: 0 <= k < |s| ==> IsLetterOrDigit(s[k]) || s[k] in {43, 45, 46}
  }

  // Letters, digits, - and dots.
  predicate IsHostName(s: seq<byte>) {
    forall k :: 0 <= k < |s| ==> IsLetterOrDigit(s[k]) || s[k] in {45, 46}
  }

  // Letters, digits and !$&'()*+,-./:;=?@_~
  predicate IsPlain(c: byte) {
    IsLetterOrDigit(c) || c in {33, 36, 38, 39, 40, 41, 42, 43, 44, 45, 46, 47, 58, 59, 61, 63, 64, 95, 126}
  }

  predicate IsHex(c: byte) {
    48 <= c <= 57 || 65 <= c <= 70 || 97 <= c <= 102
  }

  // Plain bytes, and escapes of a percent sign and two hexadecimal digits.
  predicate IsUrlText(s: seq<byte>) {
    || s == []
    || (IsPlain(s[0]) && IsUrlText(s[1..]))
    || (|s| >= 3 && s[0] == 37 && IsHex(s[1]) && IsHex(s[2]) && IsUrlText(s[3..]))
  }

  // A number behind a colon, or nothing.
  function PortText(port: Option<nat>, zeros: nat): seq<byte> {
    if port.None? then [] else [58] + Zeros(zeros) + Decimal(port.value)
  }

  // A port has 16 bits; without one it is 80.
  function PortNumber(port: Option<nat>): nat {
    if port.None? then 80 else port.value % 65536
  }

  // ---- the bytes of a path

  lemma PlainAt(s: seq<byte>, i: nat)
    requires i < |s|
    ensures U.UricAt(s, i) <==> IsPlain(s[i]) || (i + 2 < |s| && s[i] == 37 && IsHex(s[i + 1]) && IsHex(s[i + 2]))
  {
    var c := s[i];
    assert c in U.MARK <==> c in {45, 95, 46, 33, 126, 42, 39, 40, 41};
    assert c in U.RESERVED <==> c in {59, 47, 63, 58, 64, 38, 61, 43, 36, 44};
  }

  lemma UricIsAll(s: seq<byte>)
    ensures U.AllUric(s) <==> forall k :: 0 <= k < |s| ==> U.UricAt(s, k)
  {
    hide U.UricAt;
  }

  // Taking a path apart finds all of a text exactly when it is made of such bytes and escapes.
  lemma {:induction false} UrlTextIs(s: seq<byte>)
    ensures U.AllUric(s) <==> IsUrlText(s)
    decreases |s|
  {
    UricIsAll(s);
    if s != [] {
      PlainAt(s, 0);
      RestUric(s);
      UrlTextIs(s[1..]);
      if |s| >= 3 && s[0] == 37 && IsHex(s[1]) && IsHex(s[2]) {
        assert s[1..][1..] == s[2..] && s[2..][1..] == s[3..];
        HexIsPlain(s);
        UrlTextIs(s[3..]);
      }
    }
  }

  lemma RestUric(s: seq<byte>)
    requires s != []
    ensures U.AllUric(s) <==> U.UricAt(s, 0) && U.AllUric(s[1..])
  {
    UricIsAll(s);
    UricIsAll(s[1..]);
    forall k | 0 <= k < |s[1..]| ensures U.UricAt(s[1..], k) <==> U.UricAt(s, k + 1) {
      PlainAt(s[1..], k);
      PlainAt(s, k + 1);
    }
    hide U.UricAt, U.AllUric;
    if U.UricAt(s, 0) && U.AllUric(s[1..]) {
      forall k | 0 <= k < |s| ensures U.UricAt(s, k) {
        assert k > 0 ==> U.UricAt(s[1..], k - 1);
      }
    }
    if U.AllUric(s) {
      assert U.UricAt(s, 0);
    }
  }

  lemma HexIsPlain(s: seq<byte>)
    requires |s| >= 3 && IsHex(s[1]) && IsHex(s[2])
    ensures IsUrlText(s[1..]) <==> IsUrlText(s[3..])
  {
    assert s[1..][1..] == s[2..] && s[2..][1..] == s[3..];
  }

  // ---- host and port

  lemma {:induction false} NameEnds(s: seq<byte>, p: nat, i: nat, name: seq<byte>)
    requires HasAt(s, p, name) && IsHostName(name) && i <= |name|
    requires p + |name| == |s| || !(IsLetterOrDigit(s[p + |name|]) || s[p + |name|] in {45, 46})
    ensures U.HostEnd(s, p + i) == p + |name|
    decreases |name| - i
  {
    HasAtIndex(s, p, name);
    if i < |name| {
      assert At(s, p + i) == name[i];
      NameEnds(s, p, i + 1, name);
    }
  }

  lemma DigitTurn(s: seq<byte>, p: nat, sum: nat, d: nat)
    requires d < 10 && HasAt(s, p, [DigitByte(d, false)])
    ensures p < |s| && U.Port(s, p, sum % 65536) == U.Port(s, p + 1, (sum * 10 + d) % 65536)
  {
    HasAtHead(s, p, [DigitByte(d, false)]);
    Sixteen(sum, d);
  }

  lemma Sixteen(sum: nat, d: nat)
    ensures (10 * (sum % 65536) + d) % 65536 == (sum * 10 + d) % 65536
  {
    var k := sum / 65536;
    assert 10 * (sum % 65536) + d == (sum * 10 + d) - 10 * k * 65536;
    SameLow(sum * 10 + d, 10 * k);
  }

  lemma SameLow(y: int, k: int)
    ensures (y - k * 65536) % 65536 == y % 65536
  {
  }

  lemma {:induction false} PortOver(s: seq<byte>, p: nat, n: nat)
    requires HasAt(s, p, InBase(n, 10, false))
    ensures p + |InBase(n, 10, false)| <= |s|
    ensures U.Port(s, p, 0) == U.Port(s, p + |InBase(n, 10, false)|, n % 65536)
    decreases n
  {
    hide U.Port, HasAt, DigitByte;
    var d := n % 10;
    if n < 10 {
      DigitTurn(s, p, 0, d);
    } else {
      var front := InBase(n / 10, 10, false);
      HasAtSplit(s, p, front, [DigitByte(d, false)]);
      PortOver(s, p, n / 10);
      DigitTurn(s, p + |front|, n / 10, d);
    }
  }

  lemma {:induction false} ZerosOver(s: seq<byte>, p: nat, k: nat)
    requires HasAt(s, p, Zeros(k))
    ensures p + k <= |s| && U.Port(s, p, 0) == U.Port(s, p + k, 0)
    decreases k
  {
    hide U.Port;
    if k > 0 {
      assert Zeros(k) == [48] + Zeros(k - 1);
      HasAtSplit(s, p, [48], Zeros(k - 1));
      DigitTurn(s, p, 0, 0);
      ZerosOver(s, p + 1, k - 1);
    }
  }

  lemma PortRead(s: seq<byte>, p: nat, zeros: nat, n: nat)
    requires HasAt(s, p, Zeros(zeros) + Decimal(n))
    requires var e := p + |Zeros(zeros) + Decimal(n)|; e < |s| ==> !(48 <= s[e] <= 57)
    ensures p <= |s| && U.Port(s, p, 0) == (p + |Zeros(zeros) + Decimal(n)|, n % 65536)
  {
    HasAtSplit(s, p, Zeros(zeros), Decimal(n));
    ZerosOver(s, p, zeros);
    PortOver(s, p + zeros, n);
  }

  // What may follow a host, and a port.
  predicate EndsHost(s: seq<byte>, p: nat) {
    p == |s| || (p < |s| && s[p] in {35, 47, 63})
  }

  lemma NoHostByte(s: seq<byte>, p: nat)
    requires EndsHost(s, p)
    ensures p <= |s|
    ensures p < |s| ==> !IsLetterOrDigit(s[p]) && s[p] !in {45, 46, 58} && !(48 <= s[p] <= 57) && s[p] != U.COLON
  {
  }

  function HostFound(name: seq<byte>, port: Option<nat>, zeros: nat, lookup: seq<byte> -> Option<nat>)
    : Option<U.Hostport> {
    if lookup(name).None? then None
    else Some(U.Hostport(name + PortText(port, zeros), PortNumber(port), lookup(name).value))
  }

  lemma HostRead(s: seq<byte>, p: nat, name: seq<byte>, port: Option<nat>, zeros: nat,
                 lookup: seq<byte> -> Option<nat>)
    requires IsHostName(name) && HasAt(s, p, name + PortText(port, zeros))
    requires EndsHost(s, p + |name + PortText(port, zeros)|)
    ensures p <= |s| && U.HostportAt(s, p, lookup) == HostFound(name, port, zeros, lookup)
  {
    hide *;
    var h, e := p + |name|, p + |name + PortText(port, zeros)|;
    HasAtSplit(s, p, name, PortText(port, zeros));
    NoHostByte(s, e);
    HostSlices(s, p, name, PortText(port, zeros));
    PortTextIs(port, zeros);
    if port.Some? {
      var digits := Zeros(zeros) + Decimal(port.value);
      HasAtSplit(s, h, [58], digits);
      HasAtHead(s, h, [58]);
      PortRead(s, h + 1, zeros, port.value);
      ColonIsNoName(s, h);
    }
    NameEnds(s, p, 0, name);
    HostJoined(s, p, name, port, zeros, lookup);
  }

  lemma HostSlices(s: seq<byte>, p: nat, name: seq<byte>, text: seq<byte>)
    requires HasAt(s, p, name + text)
    ensures p + |name + text| <= |s| && s[p..p + |name|] == name && s[p..p + |name + text|] == name + text
  {
    assert s[p..p + |name|] == s[p..p + |name + text|][..|name|];
  }

  lemma PortTextIs(port: Option<nat>, zeros: nat)
    ensures port.None? ==> PortText(port, zeros) == []
    ensures port.Some? ==> PortText(port, zeros) == [58] + (Zeros(zeros) + Decimal(port.value))
    ensures port.Some? ==> Decimal(port.value) != []
  {
    hide Decimal, Zeros;
  }

  lemma ColonIsNoName(s: seq<byte>, h: nat)
    requires h < |s| && At(s, h) == 58
    ensures s[h] == 58 && !IsLetterOrDigit(s[h])
  {
  }

  // Where host and port end decides what is found.
  lemma HostJoined(s: seq<byte>, p: nat, name: seq<byte>, port: Option<nat>, zeros: nat,
                   lookup: seq<byte> -> Option<nat>)
    requires var h, e := p + |name|, p + |name + PortText(port, zeros)|;
      && e <= |s| && s[p..h] == name && s[p..e] == name + PortText(port, zeros) && U.HostEnd(s, p) == h
      && (port.None? ==> e == h && (h < |s| ==> s[h] != 58))
      && (port.Some? ==> h + 1 < e && s[h] == 58 && U.Port(s, h + 1, 0) == (e, port.value % 65536))
    ensures U.HostportAt(s, p, lookup) == HostFound(name, port, zeros, lookup)
  {
    hide U.HostEnd, U.Port, PortText;
  }

  // A colon with no digit behind it is refused.
  lemma NoDigits(s: seq<byte>, p: nat, name: seq<byte>, lookup: seq<byte> -> Option<nat>)
    requires IsHostName(name) && HasAt(s, p, name + [58])
    requires var e := p + |name| + 1; e < |s| ==> !(48 <= s[e] <= 57)
    ensures p <= |s| && U.HostportAt(s, p, lookup) == None
  {
    HasAtSplit(s, p, name, [58]);
    HasAtHead(s, p + |name|, [58]);
    NameEnds(s, p, 0, name);
  }

  // ---- whole URLs

  lemma SchemeIs(s: seq<byte>)
    requires IsSchemeText(s)
    ensures U.IsScheme(s)
  {
  }

  // Behind a scheme and two slashes everything depends on the host.
  lemma HostDecides(scheme: seq<byte>, rest: seq<byte>, lookup: seq<byte> -> Option<nat>)
    requires IsSchemeText(scheme)
    ensures var s := scheme + [58, 47, 47] + rest;
      U.HostportAt(s, |scheme| + 3, lookup) == None ==> U.UriOf(s, lookup) == None
  {
    var s := scheme + [58, 47, 47] + rest;
    SchemeIs(scheme);
    assert s[..|scheme|] == scheme && s[|scheme|] == 58 && s[0] == scheme[0];
    U.SchemeIn(s, scheme, 1);
    assert U.SlashesAt(s, |scheme| + 1);
    hide U.HostportAt, U.SchemeEnd, U.PathAt;
  }

  // A fragment behind its mark, or nothing.
  predicate IsTail(tail: seq<byte>) {
    tail == [] || (tail[0] == 35 && IsUrlText(tail[1..]))
  }

  // An absolute URL with a host is taken apart into scheme, host, port, path with query, and fragment,
  // unless the host has no address.
  lemma UrlRead(scheme: seq<byte>, name: seq<byte>, port: Option<nat>, zeros: nat, path: seq<byte>,
                tail: seq<byte>, lookup: seq<byte> -> Option<nat>)
    requires IsSchemeText(scheme) && IsHostName(name) && IsUrlText(path) && IsTail(tail)
    requires path == [] || path[0] == 47 || path[0] == 63
    ensures var host := HostFound(name, port, zeros, lookup);
      U.UriOf(scheme + [58, 47, 47] + (name + PortText(port, zeros) + (path + tail)), lookup) ==
        if host.None? then None
        else Some(U.Uri(true, scheme, host.value, path, if tail == [] then [] else tail[1..]))
  {
    var text, found := name + PortText(port, zeros), HostFound(name, port, zeros, lookup);
    var s := scheme + [58, 47, 47] + (text + (path + tail));
    hide *;
    if found.None? {
      HostInPlace(scheme, text, path, tail);
      HostRead(s, |scheme| + 3, name, port, zeros, lookup);
      HostDecides(scheme, text + (path + tail), lookup);
    } else {
      HostAlone(text);
      HostRead(text, 0, name, port, zeros, lookup);
      HostIs(text, found, lookup);
      FoundText(name, port, zeros, lookup);
      SchemeIs(scheme);
      TextsAre(path, tail);
      U.TakenApart(scheme, text, path, tail, lookup);
      SameText(scheme, text + (path + tail));
    }
  }

  lemma FoundText(name: seq<byte>, port: Option<nat>, zeros: nat, lookup: seq<byte> -> Option<nat>)
    ensures var h := HostFound(name, port, zeros, lookup); h.Some? ==> h.value.text == name + PortText(port, zeros)
  {
  }

  lemma HostInPlace(scheme: seq<byte>, text: seq<byte>, path: seq<byte>, tail: seq<byte>)
    requires IsTail(tail) && (path == [] || path[0] == 47 || path[0] == 63)
    ensures var s := scheme + [58, 47, 47] + (text + (path + tail));
      HasAt(s, |scheme| + 3, text) && EndsHost(s, |scheme| + 3 + |text|)
  {
    var s := scheme + [58, 47, 47] + (text + (path + tail));
    assert s[|scheme| + 3..|scheme| + 3 + |text|] == text;
    hide IsUrlText;
  }

  lemma HostAlone(text: seq<byte>)
    ensures HasAt(text, 0, text) && EndsHost(text, |text|)
  {
    assert text[0..|text|] == text;
  }

  lemma HostIs(text: seq<byte>, found: Option<U.Hostport>, lookup: seq<byte> -> Option<nat>)
    requires U.HostportAt(text, 0, lookup) == found && found.Some? && found.value.text == text
    ensures U.IsHost(text, lookup)
  {
    hide U.HostportAt;
  }

  lemma TextsAre(path: seq<byte>, tail: seq<byte>)
    requires IsUrlText(path) && IsTail(tail)
    ensures U.AllUric(path) && U.IsTail(tail)
    ensures path != [] && (path[0] == 47 || path[0] == 63) ==> path[0] == SLASH || path[0] == U.DotSegments.QUESTION
  {
    UrlTextIs(path);
    if tail != [] {
      UrlTextIs(tail[1..]);
    }
    hide U.AllUric, IsUrlText;
  }

  lemma SameText(scheme: seq<byte>, rest: seq<byte>)
    ensures scheme + [58, 47, 47] + rest == scheme + [U.COLON] + ([SLASH, SLASH] + rest)
  {
  }

  // A colon in front of anything but a digit is refused.
  lemma UrlRefused(scheme: seq<byte>, name: seq<byte>, rest: seq<byte>, lookup: seq<byte> -> Option<nat>)
    requires IsSchemeText(scheme) && IsHostName(name) && (rest == [] || !(48 <= rest[0] <= 57))
    ensures U.UriOf(scheme + [58, 47, 47] + (name + [58] + rest), lookup) == None
  {
    var s, p := scheme + [58, 47, 47] + (name + [58] + rest), |scheme| + 3;
    assert s[p..p + |name| + 1] == name + [58];
    assert p + |name| + 1 < |s| ==> s[p + |name| + 1] == rest[0];
    hide U.UriOf, U.HostportAt, IsHostName, IsSchemeText;
    NoDigits(s, p, name, lookup);
    HostDecides(scheme, name + [58] + rest, lookup);
  }

  // ---- the scheme

  // A text begins with a scheme exactly when a colon stands behind such bytes.
  predicate SchemeAt(s: seq<byte>, n: nat) {
    n < |s| && IsSchemeText(s[..n]) && s[n] == 58
  }

  lemma SchemeExact(s: seq<byte>, n: nat)
    requires n > 0
    ensures U.SchemeLength(s) == n <==> SchemeAt(s, n)
  {
    if SchemeAt(s, n) {
      assert s[0] == s[..n][0];
      SchemeIs(s[..n]);
      U.SchemeIn(s, s[..n], 1);
    }
    if U.SchemeLength(s) == n {
      U.SchemeFound(s);
      SchemeIsText(s[..n]);
    }
    hide U.SchemeEnd, IsSchemeText;
  }

  lemma SchemeIsText(s: seq<byte>)
    requires U.IsScheme(s)
    ensures IsSchemeText(s)
  {
    forall k | 0 <= k < |s| ensures IsLetterOrDigit(s[k]) || s[k] in {43, 45, 46} {
      assert U.SchemeByte(s[k]);
    }
  }

  // A reference to a path has no such colon, and does not begin with two slashes.
  lemma NoScheme(s: seq<byte>)
    ensures U.SchemeLength(s) == 0 <==> forall n: nat :: n > 0 ==> !SchemeAt(s, n)
    ensures U.SlashesAt(s, 0) <==> |s| > 1 && s[0] == 47 && s[1] == 47
  {
    hide U.SchemeLength, SchemeAt;
    forall n: nat | n > 0 ensures U.SchemeLength(s) == n <==> SchemeAt(s, n) {
      SchemeExact(s, n);
    }
    var m := U.SchemeLength(s);
    if m > 0 {
      assert SchemeAt(s, m);
    }
  }
}
