// resolve_rel_url (src/genlib/http_client/http_client.c:1193-1329; section 5.2 of RFC 2396).
module UrlResolve {
  import opened Bytes
  import opened DotSegments
  import opened RemoveDots
  import opened UriParse

  const TWO_SLASHES: seq<byte> := [SLASH, SLASH]
  const ROOT: seq<byte> := [SLASH]

  predicate IsAbsPath(path: seq<byte>) {
    path != [] && path[0] == SLASH
  }

  // The path up to the query.
  function QueryAt(p: seq<byte>, i: nat): (n: nat)
    requires i <= |p|
    ensures i <= n <= |p| && (n < |p| ==> p[n] == QUESTION) && forall k :: i <= k < n ==> p[k] != QUESTION
    decreases |p| - i
  {
    if i == |p| || p[i] == QUESTION then i else QueryAt(p, i + 1)
  }

  // Behind the last slash of the first n bytes, or zero.
  function AfterSlash(p: seq<byte>, n: nat): (k: nat)
    requires n <= |p|
    ensures k <= n && (k > 0 ==> p[k - 1] == SLASH) && forall j :: k <= j < n ==> p[j] != SLASH
  {
    if n == 0 || p[n - 1] == SLASH then n else AfterSlash(p, n - 1)
  }

  // The directory of a base path; an empty path stands for the root.
  function Directory(path: seq<byte>): seq<byte> {
    var p := if path == [] then ROOT else path;
    p[..AfterSlash(p, QueryAt(p, 0))]
  }

  // A path in three parts: up to its last slash, behind that, and the query.
  predicate IsSplit(dir: seq<byte>, last: seq<byte>, query: seq<byte>) {
    && (dir == [] || dir[|dir| - 1] == SLASH) && QUESTION !in dir
    && SLASH !in last && QUESTION !in last
    && (query == [] || query[0] == QUESTION)
  }

  // Every path has these parts.
  lemma Splits(path: seq<byte>) returns (dir: seq<byte>, last: seq<byte>, query: seq<byte>)
    ensures path == dir + last + query && IsSplit(dir, last, query)
  {
    var q := QueryAt(path, 0);
    var k := AfterSlash(path, q);
    dir, last, query := path[..k], path[k..q], path[q..];
  }

  // The directory is the first of them, and no other byte of the path gets into it.
  lemma DirectoryIs(dir: seq<byte>, last: seq<byte>, query: seq<byte>)
    requires IsSplit(dir, last, query)
    ensures Directory(dir + last + query) == if dir + last + query == [] then [SLASH] else dir
  {
    var p := dir + last + query;
    if p != [] {
      var q, k := QueryAt(p, 0), AfterSlash(p, QueryAt(p, 0));
      assert forall i :: 0 <= i < |dir + last| ==> p[i] == (dir + last)[i] && p[i] in dir + last;
      assert QUESTION !in dir + last;
      assert query != [] ==> p[|dir + last|] == query[0];
      assert q == |dir + last|;
      assert forall i :: |dir| <= i < q ==> p[i] == last[i - |dir|];
      assert dir != [] ==> p[|dir| - 1] == SLASH;
      assert k == |dir|;
    }
  }

  // Scheme and host of the base.
  function Origin(base: Uri): seq<byte> {
    base.scheme + [COLON] + if base.host.text != [] then TWO_SLASHES + base.host.text else []
  }

  // The resolved URL, None for an error; either text may be missing.
  function Resolved(baseUrl: Option<seq<byte>>, relUrl: Option<seq<byte>>, lookup: seq<byte> -> Option<nat>)
    : Option<seq<byte>> {
    if relUrl.None? || baseUrl.None? then relUrl
    else
      var base, rel := UriOf(baseUrl.value, lookup), UriOf(relUrl.value, lookup);
      if rel.None? then None
      else if rel.value.absolute then relUrl
      else if base.None? || !base.value.absolute then None
      else if relUrl.value == [] then baseUrl
      else if rel.value.host.text != [] then Some(base.value.scheme + [COLON] + relUrl.value)
      else if IsAbsPath(rel.value.path) then Some(Origin(base.value) + relUrl.value)
      else
        var path := Reduced(Directory(base.value.path) + relUrl.value);
        if path.None? then None else Some(Origin(base.value) + path.value)
  }

  // The merge of the base path and the reference, in the space behind the origin.
  method Merge(path: seq<byte>, relUrl: seq<byte>, space: array<byte>) returns (size: nat)
    requires space.Length > |path| + |relUrl| + 1
    modifies space
    ensures size == |Directory(path)| + |relUrl| < space.Length && space[..size] == Directory(path) + relUrl
  {
    var p := if path == [] then ROOT else path;
    var lastSlash, i := 0, 0;
    while i < |p| && p[i] != QUESTION
      invariant 0 <= i <= |p| && QueryAt(p, 0) == QueryAt(p, i) && lastSlash == AfterSlash(p, i)
      invariant space[..i] == p[..i]
    {
      space[i] := p[i];
      assert p[..i + 1] == p[..i] + [p[i]];
      i := i + 1;
      if p[i - 1] == SLASH {
        lastSlash := i;
      }
    }
    assert space[..lastSlash] == Directory(path);
    Strcpy(space, lastSlash, relUrl);
    size := lastSlash + |relUrl|;
  }

  // strcpy, without the terminating zero.
  method Strcpy(space: array<byte>, at: nat, text: seq<byte>)
    requires at + |text| <= space.Length
    modifies space
    ensures space[..at + |text|] == old(space[..at]) + text
  {
    var k := 0;
    while k < |text|
      invariant 0 <= k <= |text| && space[..at] == old(space[..at]) && space[at..at + k] == text[..k]
    {
      space[at + k] := text[k];
      k := k + 1;
    }
    assert space[..at + |text|] == space[..at] + space[at..at + |text|];
  }

  // Whatever the two texts are, the result is that, and all that is written fits the allocation of
  // strlen(base) + strlen(rel) + 2 bytes: space is what is left of it behind the origin.
  method ResolveRelUrl(baseUrl: Option<seq<byte>>, relUrl: Option<seq<byte>>, lookup: seq<byte> -> Option<nat>)
    returns (out: Option<seq<byte>>)
    requires (baseUrl.Some? ==> 0 !in baseUrl.value) && (relUrl.Some? ==> 0 !in relUrl.value)
    ensures out == Resolved(baseUrl, relUrl, lookup)
    ensures out.Some? && baseUrl.Some? ==> |out.value| + 1 <= |baseUrl.value| + |relUrl.value| + 2
  {
    hide *;
    ResolvedIs(baseUrl, relUrl, lookup);
    if baseUrl.None? || relUrl.None? {
      return relUrl;
    }
    var rel := ParseUri(relUrl.value, lookup);
    if rel.None? {
      return None;
    }
    if rel.value.absolute {
      return relUrl;
    }
    var base := ParseUri(baseUrl.value, lookup);
    if base.None? || !base.value.absolute {
      return None;
    }
    if relUrl.value == [] {
      return baseUrl;
    }
    OriginFits(baseUrl.value, lookup);
    if rel.value.host.text != [] {
      return Some(base.value.scheme + [COLON] + relUrl.value);
    }
    var head := Origin(base.value);
    if IsAbsPath(rel.value.path) {
      return Some(head + relUrl.value);
    }
    out := ResolvePath(head, base.value.path, relUrl.value, |baseUrl.value| + |relUrl.value| + 2);
  }

  // A reference that is a relative path: in the space left behind the origin.
  method ResolvePath(head: seq<byte>, path: seq<byte>, relUrl: seq<byte>, room: nat) returns (out: Option<seq<byte>>)
    requires |head| + |path| + |relUrl| + 2 <= room && 0 !in path && 0 !in relUrl && relUrl != []
    ensures var p := Reduced(Directory(path) + relUrl); out == if p.None? then None else Some(head + p.value)
    ensures out.Some? ==> |out.value| + 1 <= room
  {
    hide Reduced, Directory;
    var space := new byte[room - |head|];
    var size := Merge(path, relUrl, space);
    ghost var merged := space[..size];
    MergedIsString(path, relUrl);
    var ok := RemoveDots.RemoveDots(space, size);
    if !ok {
      return None;
    }
    out := Some(head + ReadString(space, size, Reduced(merged).value));
  }

  lemma ResolvedIs(baseUrl: Option<seq<byte>>, relUrl: Option<seq<byte>>, lookup: seq<byte> -> Option<nat>)
    ensures Resolved(baseUrl, relUrl, lookup) ==
      if relUrl.None? || baseUrl.None? then relUrl
      else
        var base, rel := UriOf(baseUrl.value, lookup), UriOf(relUrl.value, lookup);
        if rel.None? then None
        else if rel.value.absolute then relUrl
        else if base.None? || !base.value.absolute then None
        else if relUrl.value == [] then baseUrl
        else if rel.value.host.text != [] then Some(base.value.scheme + [COLON] + relUrl.value)
        else if IsAbsPath(rel.value.path) then Some(Origin(base.value) + relUrl.value)
        else
          var path := Reduced(Directory(base.value.path) + relUrl.value);
          if path.None? then None else Some(Origin(base.value) + path.value)
  {
    hide UriOf, Reduced, Directory, Origin;
  }

  // The pieces of the base take no more room than its text, and hold no zero byte.
  lemma OriginFits(s: seq<byte>, lookup: seq<byte> -> Option<nat>)
    requires UriOf(s, lookup).Some? && UriOf(s, lookup).value.absolute
    ensures var u := UriOf(s, lookup).value;
      |u.scheme| + 1 <= |Origin(u)| && |Origin(u)| + |u.path| <= |s| && (0 !in s ==> 0 !in u.path)
  {
    hide UriOf;
    var u := UriOf(s, lookup).value;
    var slashes, rest := Partition(s, lookup);
    var front := Front(u, slashes);
    assert forall k :: 0 <= k < |u.path| ==> u.path[k] == s[|front| + k];
  }

  // No zero byte gets into the result.
  lemma MergedIsString(path: seq<byte>, relUrl: seq<byte>)
    requires 0 !in path && 0 !in relUrl
    ensures var r := Reduced(Directory(path) + relUrl); r.Some? ==> 0 !in r.value
  {
    DirectoryIsString(path);
    hide *;
    var s := Directory(path) + relUrl;
    NoByte(Directory(path), relUrl);
    if Reduced(s).Some? && 0 in Reduced(s).value {
      SlashIsNoZero();
      ReducedBytes(s, 0);
    }
  }

  lemma SlashIsNoZero()
    ensures SLASH != 0
  {
  }

  lemma NoByte(a: seq<byte>, b: seq<byte>)
    requires 0 !in a && 0 !in b
    ensures 0 !in a + b
  {
  }

  lemma DirectoryIsString(path: seq<byte>)
    requires 0 !in path
    ensures 0 !in Directory(path)
  {
  }

  // The string up to the terminating zero that remove_dots wrote.
  function ReadString(space: array<byte>, size: nat, ghost r: seq<byte>): (s: seq<byte>)
    requires size < space.Length && |r| <= size && space[..|r|] == r && space[|r|] == 0
    reads space
    ensures 0 !in r ==> s == r
  {
    space[..Zero(space[..], 0)]
  }

  function Zero(s: seq<byte>, i: nat): (n: nat)
    requires i <= |s|
    ensures i <= n <= |s| && (n < |s| ==> s[n] == 0) && forall k :: i <= k < n ==> s[k] != 0
    decreases |s| - i
  {
    if i == |s| || s[i] == 0 then i else Zero(s, i + 1)
  }

  // ---- references of each kind

  // The text of a base URL.
  function BaseText(scheme: seq<byte>, host: seq<byte>, path: seq<byte>, tail: seq<byte>): seq<byte> {
    scheme + [COLON] + (TWO_SLASHES + (host + (path + tail)))
  }

  predicate IsBase(scheme: seq<byte>, host: seq<byte>, path: seq<byte>, tail: seq<byte>,
                   lookup: seq<byte> -> Option<nat>) {
    && IsScheme(scheme) && host != [] && IsHost(host, lookup) && AllUric(path) && IsTail(tail)
    && (path == [] || path[0] == SLASH || path[0] == QUESTION)
  }

  // A reference to a path, that looks like neither a scheme nor a host.
  predicate IsPathReference(path: seq<byte>, tail: seq<byte>) {
    AllUric(path) && IsTail(tail) && SchemeLength(path + tail) == 0 && !SlashesAt(path + tail, 0) && path + tail != []
  }

  // For every base and every reference to a path, the result is the base's scheme and host with the
  // path itself, or with the base's path up to its last slash and the path in it, without its dot
  // segments. An empty base path stands for a slash.
  lemma PathResolved(scheme: seq<byte>, host: seq<byte>, dir: seq<byte>, last: seq<byte>, query: seq<byte>,
                     tail: seq<byte>, relPath: seq<byte>, relTail: seq<byte>, lookup: seq<byte> -> Option<nat>)
    requires IsSplit(dir, last, query) && IsBase(scheme, host, dir + last + query, tail, lookup)
    requires IsPathReference(relPath, relTail)
    ensures var path, origin, rel := dir + last + query, scheme + [COLON] + (TWO_SLASHES + host), relPath + relTail;
      Resolved(Some(BaseText(scheme, host, path, tail)), Some(rel), lookup) ==
      if relPath != [] && relPath[0] == SLASH then Some(origin + rel)
      else
        var p := Reduced((if path == [] then [SLASH] else dir) + rel);
        if p.None? then None else Some(origin + p.value)
  {
    hide UriOf, Reduced, Directory, AllUric, SchemeLength, IsHost, HostportAt;
    var path := dir + last + query;
    DirectoryIs(dir, last, query);
    TakenApart(scheme, host, path, tail, lookup);
    HostText(host, lookup);
    PathTakenApart(relPath, relTail, lookup);
    ResolvedIs(Some(BaseText(scheme, host, path, tail)), Some(relPath + relTail), lookup);
  }

  // A reference to a host is resolved to the base's scheme with the reference.
  lemma HostResolved(scheme: seq<byte>, host: seq<byte>, path: seq<byte>, tail: seq<byte>, relHost: seq<byte>,
                     relPath: seq<byte>, relTail: seq<byte>, lookup: seq<byte> -> Option<nat>)
    requires IsBase(scheme, host, path, tail, lookup) && relHost != [] && IsHost(relHost, lookup)
    requires AllUric(relPath) && IsTail(relTail)
    requires relPath == [] || relPath[0] == SLASH || relPath[0] == QUESTION
    ensures var rel := TWO_SLASHES + (relHost + (relPath + relTail));
      Resolved(Some(BaseText(scheme, host, path, tail)), Some(rel), lookup) == Some(scheme + [COLON] + rel)
  {
    hide UriOf, Reduced, Directory, AllUric, SchemeLength, IsHost, HostportAt;
    TakenApart(scheme, host, path, tail, lookup);
    HostText(host, lookup);
    HostTakenApart(relHost, relPath, relTail, lookup);
    ResolvedIs(Some(BaseText(scheme, host, path, tail)), Some(TWO_SLASHES + (relHost + (relPath + relTail))), lookup);
  }

  lemma HostTakenApart(host: seq<byte>, path: seq<byte>, tail: seq<byte>, lookup: seq<byte> -> Option<nat>)
    requires IsHost(host, lookup) && AllUric(path) && IsTail(tail)
    requires path == [] || path[0] == SLASH || path[0] == QUESTION
    ensures var u := UriOf(TWO_SLASHES + (host + (path + tail)), lookup);
      u.Some? && !u.value.absolute && u.value.host.text == host && u.value.path == path
  {
    hide UricEnd, HostportAt, SchemeEnd, PathAt, IsHost;
    var s := TWO_SLASHES + (host + (path + tail));
    assert SchemeLength(s) == 0 && SlashesAt(s, 0);
    assert s[2..2 + |host|] == host;
    assert EndsHost(s, 2 + |host|);
    HostportIn(s, 2, host, lookup);
    HostText(host, lookup);
    PathIn(s, 2 + |host|, path, tail);
  }

  // An empty reference is resolved to the base itself.
  lemma EmptyResolved(scheme: seq<byte>, host: seq<byte>, path: seq<byte>, tail: seq<byte>,
                      lookup: seq<byte> -> Option<nat>)
    requires IsBase(scheme, host, path, tail, lookup)
    ensures var base := Some(BaseText(scheme, host, path, tail)); Resolved(base, Some([]), lookup) == base
  {
    hide UriOf, Reduced, Directory, AllUric, SchemeLength, IsHost, HostportAt;
    TakenApart(scheme, host, path, tail, lookup);
    NothingTakenApart(lookup);
    ResolvedIs(Some(BaseText(scheme, host, path, tail)), Some([]), lookup);
  }

  lemma NothingTakenApart(lookup: seq<byte> -> Option<nat>)
    ensures UriOf([], lookup) == Some(Uri(false, [], NO_HOST, [], []))
  {
  }

  // Without an absolute base a reference to a path is refused, and without any base it comes back.
  lemma NoBase(baseUrl: seq<byte>, relPath: seq<byte>, relTail: seq<byte>, lookup: seq<byte> -> Option<nat>)
    requires SchemeLength(baseUrl) == 0 && IsPathReference(relPath, relTail)
    ensures Resolved(Some(baseUrl), Some(relPath + relTail), lookup) == None
    ensures Resolved(None, Some(relPath + relTail), lookup) == Some(relPath + relTail)
  {
    PathTakenApart(relPath, relTail, lookup);
    hide SchemeLength, HostportAt, PathAt;
  }

  // An absolute reference comes back unchanged, whatever the base is.
  lemma AbsoluteResolved(baseUrl: Option<seq<byte>>, relUrl: seq<byte>, lookup: seq<byte> -> Option<nat>)
    requires SchemeLength(relUrl) > 0 && UriOf(relUrl, lookup).Some?
    ensures Resolved(baseUrl, Some(relUrl), lookup) == Some(relUrl)
  {
    hide SchemeLength, HostportAt, PathAt;
  }
}
