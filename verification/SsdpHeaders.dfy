// Header lines of SSDP packets: names in any letter case, and names that are not known
// (src/ssdp/ssdpparser.c:46-64, 603-657).
module SsdpHeaders {
  import opened Bytes
  import opened SsdpEvents
  import opened SsdpSearch
  import opened SsdpPackets
  import opened SsdpRoundTrip
  import opened SsdpNames
  import SsdpRequests

  // A name in capital letters, with any of them in lower case.
  predicate InAnyCase(name: string, key: string) {
    |name| == |key| && forall i :: 0 <= i < |key| ==> name[i] == key[i] || IsSmall(name[i], key[i])
  }

  predicate IsSmall(c: char, capital: char) {
    'A' <= capital <= 'Z' && c as int == capital as int + 32
  }

  lemma CapitalLetters(token: TokenNumber)
    ensures var key := TOKEN_LIST[token]; forall k :: 0 <= k < |key| ==> 'A' <= key[k] <= 'Z' || key[k] == '-'
  {
  }

  lemma SameAsKey(name: string, token: TokenNumber)
    ensures SameNoCase(TOKEN_LIST[token], name) <==> InAnyCase(name, TOKEN_LIST[token])
    ensures InAnyCase(name, TOKEN_LIST[token]) ==> ':' !in name
  {
    CapitalLetters(token);
    var key := TOKEN_LIST[token];
    hide TOKEN_LIST;
    if |name| == |key| {
      forall i | 0 <= i < |key|
        ensures Upper(key[i]) == Upper(name[i]) <==> name[i] == key[i] || IsSmall(name[i], key[i])
      {
        OneLetter(name[i], key[i]);
      }
    }
  }

  lemma OneLetter(c: char, key: char)
    requires 'A' <= key <= 'Z' || key == '-'
    ensures Upper(key) == Upper(c) <==> c == key || IsSmall(c, key)
  {
  }

  lemma SameTwice(a: string, b: string, c: string)
    requires SameNoCase(b, c)
    ensures SameNoCase(a, b) <==> SameNoCase(a, c)
  {
  }

  lemma {:induction false} AnyCaseToken(name: string, token: TokenNumber, idx: nat)
    requires idx <= token && SameNoCase(TOKEN_LIST[token], name)
    ensures TokenIndex(name, idx) == Some(token as nat)
    decreases token - idx
  {
    hide SameNoCase;
    if idx < token {
      NamesDiffer(idx, token);
      SameTwice(TOKEN_LIST[idx], TOKEN_LIST[token], name);
      AnyCaseToken(name, token, idx + 1);
    }
  }

  lemma {:induction false} NoToken(name: string, idx: nat)
    requires idx <= NUM_TOKEN && forall token: TokenNumber :: !InAnyCase(name, TOKEN_LIST[token])
    ensures TokenIndex(name, idx) == None
    decreases NUM_TOKEN - idx
  {
    hide SameNoCase, TOKEN_LIST, InAnyCase;
    if idx < NUM_TOKEN {
      SameAsKey(name, idx);
      NoToken(name, idx + 1);
    }
  }

  // A header goes to the function of its name, in whatever letters it is written.
  lemma AnyCase(name: string, token: TokenNumber, value: string, ret: int, e: EventData)
    requires InAnyCase(name, TOKEN_LIST[token])
    ensures Header(name + ":" + value, ret, e) == Handle(token, value, e)
  {
    hide TokenOf, TokenIndex, Handle, InAnyCase, TOKEN_LIST, SameNoCase;
    SameAsKey(name, token);
    TokenAtChar(name, ':', value);
    AnyCaseToken(name, token, 0);
  }

  // A header of any other name changes nothing.
  lemma UnknownName(name: string, value: string, ret: int, e: EventData)
    requires ':' !in name && forall token: TokenNumber :: !InAnyCase(name, TOKEN_LIST[token])
    ensures Header(name + ":" + value, ret, e) == Done(ret, e)
  {
    hide TokenOf, TokenIndex, Handle, InAnyCase, TOKEN_LIST;
    TokenAtChar(name, ':', value);
    NoToken(name, 0);
  }

  // ---- the old form of a name

  function OldName(domain: string, kind: string, udn: string): string {
    "uuid:schemas" + domain + ":device:" + kind + ":" + udn
  }

  lemma FindFromIs(s: string, pat: string, from: nat, k: nat)
    requires from <= k && OccursAt(s, pat, k) && forall j :: from <= j < k ==> !OccursAt(s, pat, j)
    ensures from <= |s| && FindFrom(s, pat, from) == Some(k)
  {
  }

  lemma NotThere(s: string, pat: string, j: nat, i: nat)
    requires i < |pat| && j + i < |s| && s[j + i] != pat[i]
    ensures !OccursAt(s, pat, j)
  {
    if OccursAt(s, pat, j) {
      OccursIndex(s, pat, j, i);
    }
  }

  // The next colon behind text without one.
  lemma NextColon(front: string, s: string, rest: string)
    requires ':' !in s
    ensures var cmd := front + s + ":" + rest;
      |front| <= |cmd| && FindFrom(cmd, ":", |front|) == Some(|front| + |s|)
  {
    var cmd := front + s + ":" + rest;
    var k := |front| + |s|;
    assert cmd[k..k + 1] == ":";
    forall j | |front| <= j < k ensures !OccursAt(cmd, ":", j) {
      assert cmd[j] == s[j - |front|];
      NotThere(cmd, ":", j, 0);
    }
    FindFromIs(cmd, ":", |front|, k);
  }

  lemma DeviceFound(domain: string, rest: string)
    requires ':' !in domain
    ensures var cmd := "uuid:schemas" + domain + ":device" + rest; Find(cmd, ":device") == Some(12 + |domain|)
  {
    var cmd := "uuid:schemas" + domain + ":device" + rest;
    var k := 12 + |domain|;
    assert cmd[k..k + 7] == ":device";
    forall j | 0 <= j < k ensures !OccursAt(cmd, ":device", j) {
      if j < 12 {
        assert cmd[j] == "uuid:schemas"[j] && (j == 4 ==> cmd[5] == "uuid:schemas"[5]);
        NotThere(cmd, ":device", j, if j == 4 then 1 else 0);
      } else {
        assert cmd[j] == domain[j - 12];
        NotThere(cmd, ":device", j, 0);
      }
    }
    FindIs(cmd, ":device", k);
  }

  // A name of the old form, uuid:schemas...:device:type:name, gives the name, and the type as a URN.
  lemma OldFormRead(domain: string, kind: string, udn: string, e: EventData)
    requires ':' !in domain && ':' !in kind
    requires Fits("uuid:" + udn) && Fits("urn:schemas" + domain + ":device:" + kind)
    ensures ServiceName(" " + OldName(domain, kind, udn), e) ==
      Done(1, e.(udn := "uuid:" + udn, deviceType := "urn:schemas" + domain + ":device:" + kind))
  {
    var cmd := OldName(domain, kind, udn);
    assert cmd[0..12] == "uuid:schemas";
    Occurs(cmd, "uuid:schemas", 0);
    SpaceContains(cmd, "uuid:schemas");
    SsdpRequests.SpacedSchemas(cmd, e);
    OldFormGives(domain, kind, udn, e);
    hide SchemasName, FindFrom, Contains, OldName;
  }

  lemma OldFormGives(domain: string, kind: string, udn: string, e: EventData)
    requires ':' !in domain && ':' !in kind
    requires Fits("uuid:" + udn) && Fits("urn:schemas" + domain + ":device:" + kind)
    ensures SchemasName(OldName(domain, kind, udn), e) ==
      Done(1, e.(udn := "uuid:" + udn, deviceType := "urn:schemas" + domain + ":device:" + kind))
  {
    var cmd := OldName(domain, kind, udn);
    var p3 := 20 + |domain| + |kind|;
    OldPieces(domain, kind, udn);
    OldSlices(domain, kind, udn);
    hide OldName, FindFrom;
    DeviceFound(domain, ":" + kind + ":" + udn);
    NextColon("uuid:schemas" + domain + ":", "device", kind + ":" + udn);
    NextColon("uuid:schemas" + domain + ":device:", kind, udn);
    NextColon("", "uuid", "schemas" + domain + ":device:" + kind + ":" + udn);
    FoundThere(cmd, 12 + |domain|, 19 + |domain|, p3, 4, e);
  }

  lemma OldPieces(domain: string, kind: string, udn: string)
    ensures var cmd := OldName(domain, kind, udn);
      && cmd == "uuid:schemas" + domain + ":device" + (":" + kind + ":" + udn)
      && cmd == ("uuid:schemas" + domain + ":") + "device" + ":" + (kind + ":" + udn)
      && cmd == ("uuid:schemas" + domain + ":device:") + kind + ":" + udn
      && cmd == "" + "uuid" + ":" + ("schemas" + domain + ":device:" + kind + ":" + udn)
  {
  }

  lemma OldSlices(domain: string, kind: string, udn: string)
    ensures var cmd, p3 := OldName(domain, kind, udn), 20 + |domain| + |kind|;
      p3 < |cmd| && cmd[p3 + 1..] == udn && "urn" + cmd[4..p3] == "urn:schemas" + domain + ":device:" + kind
  {
    var front := "uuid:schemas" + domain + ":device:" + kind;
    assert OldName(domain, kind, udn) == front + ":" + udn && |front| == 20 + |domain| + |kind|;
    assert front[4..] == ":schemas" + domain + ":device:" + kind;
    assert OldName(domain, kind, udn)[4..|front|] == front[4..];
  }

  lemma FoundThere(cmd: string, p1: nat, p2: nat, p3: nat, c: nat, e: EventData)
    requires c < p1 < p2 < p3 < |cmd| && Find(cmd, ":device") == Some(p1) && Find(cmd, ":") == Some(c)
    requires FindFrom(cmd, ":", p1 + 1) == Some(p2) && FindFrom(cmd, ":", p2 + 1) == Some(p3)
    ensures var udn, kind := "uuid:" + cmd[p3 + 1..], "urn" + cmd[c..p3];
      Fits(udn) && Fits(kind) ==> SchemasName(cmd, e) == Done(1, e.(udn := udn, deviceType := kind))
  {
    hide FindFrom, OccursAt, Find, SchemasName, SsdpRequests.SchemasGives;
    SsdpRequests.SchemasIs(cmd, e);
    Gives(cmd[p3 + 1..], cmd[c..p3], e);
  }

  lemma Gives(udn: string, kind: string, e: EventData)
    ensures Fits("uuid:" + udn) && Fits("urn" + kind) ==>
      SsdpRequests.SchemasGives(udn, kind, e) == Done(1, e.(udn := "uuid:" + udn, deviceType := "urn" + kind))
  {
  }
}
