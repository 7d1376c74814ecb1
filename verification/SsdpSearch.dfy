// Facts about searching in text that is put together from parts, and about numbers in decimal.
module SsdpSearch {
  import opened Bytes
  import opened SsdpEvents

  lemma FindIs(s: string, pat: string, k: nat)
    requires OccursAt(s, pat, k) && forall j :: 0 <= j < k ==> !OccursAt(s, pat, j)
    ensures Find(s, pat) == Some(k)
  {
  }

  lemma Occurs(s: string, pat: string, k: nat)
    requires OccursAt(s, pat, k)
    ensures Contains(s, pat)
  {
  }

  // Behind something that it does not occur in or reach into, a text occurs where it did.
  lemma OccursShift(a: string, s: string, pat: string, k: nat)
    ensures OccursAt(s, pat, k) <==> OccursAt(a + s, pat, |a| + k)
  {
    if k + |pat| <= |s| {
      assert (a + s)[|a| + k..|a| + k + |pat|] == s[k..k + |pat|];
    }
  }

  lemma OccursBefore(s: string, b: string, pat: string, k: nat)
    requires k + |pat| <= |s|
    ensures OccursAt(s, pat, k) <==> OccursAt(s + b, pat, k)
  {
    assert (s + b)[k..k + |pat|] == s[k..k + |pat|];
  }

  lemma OccursIndex(s: string, pat: string, k: nat, i: nat)
    requires OccursAt(s, pat, k) && i < |pat|
    ensures s[k + i] == pat[i]
  {
    assert s[k..k + |pat|][i] == pat[i];
  }

  // A leading space, as the values of headers have one, does not matter.
  lemma LeadingSpace(s: string, pat: string)
    requires pat != "" && pat[0] != ' '
    ensures Find(" " + s, pat) == if Contains(s, pat) then Some(Find(s, pat).value + 1) else None
  {
    hide OccursAt, FindFrom;
    forall k: nat | OccursAt(" " + s, pat, k) ensures k > 0 && OccursAt(s, pat, k - 1) && Contains(s, pat) {
      OccursIndex(" " + s, pat, k, 0);
      OccursShift(" ", s, pat, k - 1);
      Occurs(s, pat, k - 1);
    }
    if Contains(" " + s, pat) {
      assert OccursAt(" " + s, pat, Find(" " + s, pat).value);
    }
    if Contains(s, pat) {
      OccursShift(" ", s, pat, Find(s, pat).value);
      FindIs(" " + s, pat, Find(s, pat).value + 1);
    }
  }

  // What occurs in a::b occurs in a: or in :b, unless it has a double colon itself.
  lemma AcrossColons(a: string, b: string, pat: string, k: nat)
    requires OccursAt(a + "::" + b, pat, k)
    ensures
      || (k + |pat| <= |a| + 1 && OccursAt(a + ":", pat, k))
      || (k > |a| && OccursAt(":" + b, pat, k - |a| - 1))
      || Contains(pat, "::")
  {
    var s := a + "::" + b;
    if k + |pat| <= |a| + 1 {
      assert s == (a + ":") + (":" + b);
      OccursBefore(a + ":", ":" + b, pat, k);
    } else if k > |a| {
      assert s == (a + ":") + (":" + b);
      OccursShift(a + ":", ":" + b, pat, k - |a| - 1);
    } else {
      OccursIndex(s, pat, k, |a| - k);
      OccursIndex(s, pat, k, |a| + 1 - k);
      assert OccursAt(pat, "::", |a| - k);
    }
  }

  lemma JoinLacks(a: string, b: string, pat: string)
    requires !Contains(pat, "::") && !Contains(a + ":", pat)
    ensures Contains(a + "::" + b, pat) <==> Contains(":" + b, pat)
  {
    hide OccursAt, FindFrom;
    forall k: nat | OccursAt(a + "::" + b, pat, k) ensures Contains(":" + b, pat) {
      AcrossColons(a, b, pat, k);
      if k > |a| && OccursAt(":" + b, pat, k - |a| - 1) {
        Occurs(":" + b, pat, k - |a| - 1);
      } else {
        Occurs(a + ":", pat, k);
      }
    }
    if Contains(":" + b, pat) {
      assert a + "::" + b == (a + ":") + (":" + b);
      OccursShift(a + ":", ":" + b, pat, Find(":" + b, pat).value);
      Occurs(a + "::" + b, pat, |a| + 1 + Find(":" + b, pat).value);
    }
  }

  lemma ColonOrBehind(s: string, pat: string, k: nat)
    requires pat != "" && OccursAt(":" + s, pat, k)
    ensures (pat[0] == ':' && pat[1..] <= s) || (k > 0 && OccursAt(s, pat, k - 1))
  {
    if k == 0 {
      OccursIndex(":" + s, pat, 0, 0);
      assert s[..|pat| - 1] == (":" + s)[0..|pat|][1..];
    } else {
      OccursShift(":", s, pat, k - 1);
    }
  }

  // One colon in front matters only to what begins with a colon.
  lemma LeadingColon(s: string, pat: string)
    requires pat != "" && (pat[0] == ':' ==> !(pat[1..] <= s))
    ensures Contains(":" + s, pat) <==> Contains(s, pat)
  {
    hide FindFrom;
    forall k: nat | OccursAt(":" + s, pat, k) ensures Contains(s, pat) {
      ColonOrBehind(s, pat, k);
    }
    if Contains(s, pat) {
      OccursShift(":", s, pat, Find(s, pat).value);
    }
  }

  // What is cut off in front of a separator, and what is left.
  lemma TokenIs(a: string, del: string, b: string)
    requires del != "" && forall k :: 0 <= k < |a| ==> !OccursAt(a + del + b, del, k)
    ensures TokenOf(a + del + b, del) == (a, Some(b))
  {
    var s := a + del + b;
    assert s[|a|..|a| + |del|] == del;
    FindIs(s, del, |a|);
    assert s[..|a|] == a && s[|a| + |del|..] == b;
  }

  lemma CharAt(a: string, c: char, b: string, k: nat)
    requires k < |a| && OccursAt(a + [c] + b, [c], k)
    ensures a[k] == c
  {
    OccursIndex(a + [c] + b, [c], k, 0);
  }

  lemma TokenAtChar(a: string, c: char, b: string)
    requires c !in a
    ensures TokenOf(a + [c] + b, [c]) == (a, Some(b))
  {
    var s := a + [c] + b;
    forall k | 0 <= k < |a| ensures !OccursAt(s, [c], k) {
      if OccursAt(s, [c], k) {
        CharAt(a, c, b, k);
      }
    }
    TokenIs(a, [c], b);
  }

  lemma NoToken(s: string, c: char)
    requires c !in s
    ensures TokenOf(s, [c]) == (s, None)
  {
    if Contains(s, [c]) {
      OccursIndex(s, [c], Find(s, [c]).value, 0);
    }
  }

  lemma LineToken(line: string, rest: string)
    requires !Contains(line, CRLF)
    ensures TokenOf(line + CRLF + rest, CRLF) == (line, Some(rest))
  {
    var s := line + CRLF + rest;
    forall k | 0 <= k < |line| ensures !OccursAt(s, CRLF, k) {
      if OccursAt(s, CRLF, k) {
        OccursIndex(s, CRLF, k, 1);
        assert s[|line|] == CRLF[0];
        assert s == line + (CRLF + rest);
        OccursBefore(line, CRLF + rest, CRLF, k);
      }
    }
    TokenIs(line, CRLF, rest);
  }

  // A text with a character that s does not have does not occur in s.
  lemma LacksChar(s: string, pat: string, i: nat)
    requires i < |pat| && pat[i] !in s
    ensures !Contains(s, pat)
  {
    if Contains(s, pat) {
      OccursIndex(s, pat, Find(s, pat).value, i);
    }
  }

  // ---- %d and atoi

  function Decimal(n: nat): (s: string)
    ensures s != "" && forall k :: 0 <= k < |s| ==> '0' <= s[k] <= '9'
  {
    var digit := ['0' + (n % 10) as char];
    if n < 10 then digit else Decimal(n / 10) + digit
  }

  function Signed(n: int): string {
    if n < 0 then "-" + Decimal(-n) else Decimal(n)
  }

  lemma {:induction false} DigitsSnoc(s: string, c: char, p: nat, sum: nat)
    requires p <= |s| && (forall k :: p <= k < |s| ==> '0' <= s[k] <= '9') && '0' <= c <= '9'
    ensures DigitsOf(s + [c], p, sum) == 10 * DigitsOf(s, p, sum) + (c as int - '0' as int)
    decreases |s| - p
  {
    if p < |s| {
      assert (s + [c])[p] == s[p];
      DigitsSnoc(s, c, p + 1, 10 * sum + (s[p] as int - '0' as int));
    } else {
      assert DigitsOf(s + [c], p + 1, 10 * sum + (c as int - '0' as int)) == 10 * sum + (c as int - '0' as int);
    }
  }

  lemma {:induction false} DigitsBehind(a: string, s: string, p: nat, sum: nat)
    requires p <= |s|
    ensures DigitsOf(a + s, |a| + p, sum) == DigitsOf(s, p, sum)
    decreases |s| - p
  {
    if p < |s| && '0' <= s[p] <= '9' {
      DigitsBehind(a, s, p + 1, 10 * sum + (s[p] as int - '0' as int));
    }
  }

  lemma {:induction false} DecimalDigits(n: nat)
    ensures DigitsOf(Decimal(n), 0, 0) == n
  {
    var c := '0' + (n % 10) as char;
    if n < 10 {
      DigitsSnoc("", c, 0, 0);
      assert "" + [c] == [c];
    } else {
      DecimalDigits(n / 10);
      DigitsSnoc(Decimal(n / 10), c, 0, 0);
    }
  }

  // atoi undoes %d for every int.
  lemma AtoiOfSigned(n: int)
    requires -INT_MAX - 1 <= n <= INT_MAX
    ensures Atoi(Signed(n)) == n
    ensures forall k :: 0 <= k < |Signed(n)| ==> Signed(n)[k] == '-' || '0' <= Signed(n)[k] <= '9'
  {
    if n < 0 {
      DecimalDigits(-n);
      DigitsBehind("-", Decimal(-n), 0, 0);
    } else {
      DecimalDigits(n);
    }
  }
}
