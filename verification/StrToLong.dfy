// strtol undoes the printing of numbers (src/genlib/http_client/http_client.c:1579, 1829,
// src/genlib/miniserver/miniserver.cpp:499).
module StrToLong {
  import opened Bytes
  import opened Escape
  import opened Numbers
  import opened HttpResponse

  // What a long holds of a number.
  function Clamped(n: int): int {
    if n > LONG_MAX then LONG_MAX else if n < -LONG_MAX - 1 then -LONG_MAX - 1 else n
  }

  function Signed(n: nat, sign: seq<byte>): int {
    if sign == [MINUS] then -(n as int) else n
  }

  function Capped(n: nat): nat {
    if n > LONG_MAX then LONG_MAX + 1 else n
  }

  lemma DigitTurn(s: seq<byte>, p: nat, base: int, sum: nat, c: byte, d: nat)
    requires base > 0 && HasAt(s, p, [c]) && DigitValue(c, base) == d
    ensures p < |s| && Digits(s, p, base, sum) == Digits(s, p + 1, base, Capped(sum * base + d))
  {
    HasAtHead(s, p, [c]);
  }

  lemma CappedTurn(n: nat, base: nat)
    requires base == 10 || base == 16
    ensures Capped(Capped(n / base) * base + n % base) == Capped(n)
  {
  }

  // The digits of n, wherever they stand, make n, up to what a long can hold.
  lemma {:induction false} DigitsOver(s: seq<byte>, p: nat, n: nat, base: nat, upper: bool)
    requires (base == 10 || base == 16) && HasAt(s, p, InBase(n, base, upper))
    ensures Digits(s, p, base, 0) == Digits(s, p + |InBase(n, base, upper)|, base, Capped(n))
    decreases n
  {
    hide *;
    var d := n % base;
    DigitIsRead(d, base, upper);
    CappedTurn(n, base);
    LastDigit(n, base, upper);
    if n < base {
      DigitTurn(s, p, base, 0, DigitByte(d, upper), d);
    } else {
      var front := InBase(n / base, base, upper);
      HasAtSplit(s, p, front, [DigitByte(d, upper)]);
      DigitsOver(s, p, n / base, base, upper);
      DigitTurn(s, p + |front|, base, Capped(n / base), DigitByte(d, upper), d);
    }
  }

  lemma LastDigit(n: nat, base: nat, upper: bool)
    requires base == 10 || base == 16
    ensures var last := [DigitByte(n % base, upper)];
      InBase(n, base, upper) == if n < base then last else InBase(n / base, base, upper) + last
    ensures n < base ==> Capped(0 * base + n % base) == Capped(n)
  {
  }

  predicate AllBlank(s: seq<byte>) {
    forall k :: 0 <= k < |s| ==> s[k] == SPACE || TAB <= s[k] <= CR
  }

  lemma {:induction false} BlanksOver(s: seq<byte>, p: nat, blanks: seq<byte>)
    requires HasAt(s, p, blanks) && AllBlank(blanks)
    requires p + |blanks| < |s| && s[p + |blanks|] != SPACE && !(TAB <= s[p + |blanks|] <= CR)
    ensures Blanks(s, p) == p + |blanks|
    decreases |blanks|
  {
    if blanks != [] {
      HasAtHead(s, p, blanks);
      BlanksOver(s, p + 1, blanks[1..]);
    }
  }

  // What may stand behind a number in a base: nothing, or a byte that is no digit; behind a zero in
  // base 16, no x, which would make the zero a part of a prefix.
  predicate EndsNumber(behind: seq<byte>, n: nat, base: nat) {
    behind == [] || (DigitValue(behind[0], base) < 0 && (n == 0 && base == 16 ==> Lower(behind[0]) != 120))
  }

  predicate IsSign(sign: seq<byte>) {
    sign == [] || sign == [PLUS] || sign == [MINUS]
  }

  // A printed number is read back, behind white space and a sign, whatever stands behind its digits; one
  // that is out of range saturates.
  lemma NumberRead(blanks: seq<byte>, sign: seq<byte>, n: nat, base: nat, upper: bool, behind: seq<byte>)
    requires (base == 10 || base == 16) && AllBlank(blanks) && IsSign(sign) && EndsNumber(behind, n, base)
    ensures StrToL(blanks + (sign + (InBase(n, base, upper) + behind)), base) ==
      Some(Clamped(Signed(n, sign)))
  {
    hide *;
    var digits := InBase(n, base, upper);
    var s := blanks + (sign + (digits + behind));
    var b := |blanks|;
    var p := b + |sign|;
    Placed(blanks, sign, digits, behind);
    AllDigits(n, base, upper, 0);
    FirstByte(s, b, p, sign, digits, base);
    BlanksOver(s, 0, blanks);
    PrefixIs(s, b, sign, n, base, upper, behind);
    DigitsOver(s, p, n, base, upper);
    DigitsStop(s, p + |digits|, base, Capped(n), behind, n);
    StrToLIs(s, b, p, base, Capped(n), n, sign);
  }

  lemma Placed(blanks: seq<byte>, sign: seq<byte>, digits: seq<byte>, behind: seq<byte>)
    ensures var s := blanks + (sign + (digits + behind));
      && HasAt(s, 0, blanks) && HasAt(s, |blanks|, sign) && HasAt(s, |blanks| + |sign|, digits)
      && HasAt(s, |blanks| + |sign| + |digits|, behind) && |s| == |blanks| + |sign| + |digits| + |behind|
  {
    var s := blanks + (sign + (digits + behind));
    assert s[0..|s|] == s;
    HasAtSplit(s, 0, blanks, sign + (digits + behind));
    HasAtSplit(s, |blanks|, sign, digits + behind);
    HasAtSplit(s, |blanks| + |sign|, digits, behind);
  }

  lemma FirstByte(s: seq<byte>, b: nat, p: nat, sign: seq<byte>, digits: seq<byte>, base: nat)
    requires HasAt(s, b, sign) && HasAt(s, p, digits) && p == b + |sign| && IsSign(sign) && digits != []
    requires (base == 10 || base == 16) && DigitValue(digits[0], base) >= 0
    ensures b < |s| && p < |s| && s[p] == digits[0] && s[b] != SPACE && !(TAB <= s[b] <= CR)
    ensures s[b] == PLUS || s[b] == MINUS <==> sign != []
    ensures s[b] == MINUS <==> sign == [MINUS]
  {
    HasAtHead(s, p, digits);
    if sign != [] {
      HasAtHead(s, b, sign);
    }
  }

  lemma PrefixIs(s: seq<byte>, b: nat, sign: seq<byte>, n: nat, base: nat, upper: bool, behind: seq<byte>)
    requires (base == 10 || base == 16) && b < |s| && IsSign(sign) && EndsNumber(behind, n, base)
    requires HasAt(s, b + |sign|, InBase(n, base, upper)) && HasAt(s, b + |sign| + |InBase(n, base, upper)|, behind)
    requires s[b] == PLUS || s[b] == MINUS <==> sign != []
    requires |s| == b + |sign| + |InBase(n, base, upper)| + |behind|
    ensures Prefix(s, b, base) == b + |sign|
  {
    hide InBase;
    var digits, q := InBase(n, base, upper), b + |sign|;
    AllDigits(n, base, upper, 0);
    HasAtHead(s, q, digits);
    if n == 0 && behind != [] {
      HasAtHead(s, q + 1, behind);
    }
  }

  lemma DigitsStop(s: seq<byte>, p: nat, base: nat, sum: nat, behind: seq<byte>, n: nat)
    requires base > 0 && HasAt(s, p, behind) && |s| == p + |behind| && EndsNumber(behind, n, base)
    ensures Digits(s, p, base, sum) == sum
  {
    if behind != [] {
      HasAtHead(s, p, behind);
    }
  }

  lemma StrToLIs(s: seq<byte>, b: nat, p: nat, base: nat, m: nat, n: nat, sign: seq<byte>)
    requires base > 0 && b < |s| && p < |s| && Blanks(s, 0) == b && Prefix(s, b, base) == p
    requires DigitValue(s[p], base) >= 0 && Digits(s, p, base, 0) == m == Capped(n)
    requires s[b] == MINUS <==> sign == [MINUS]
    ensures StrToL(s, base) ==
      Some(Clamped(Signed(n, sign)))
  {
    hide Blanks, Prefix, Digits, DigitValue;
  }
}
