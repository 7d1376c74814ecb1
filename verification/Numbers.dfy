// Numbers as text, and what the digit loops of the programs make of them.
module Numbers {
  import opened Bytes
  import opened Escape

  // A digit, in upper or lower case.
  function DigitByte(d: nat, upper: bool): (c: byte)
    requires d < 16
    ensures 48 <= c <= 57 || 65 <= c <= 70 || 97 <= c <= 102
  {
    if d < 10 then 48 + d else if upper then 55 + d else 87 + d
  }

  // A number in decimal, octal or hexadecimal.
  function InBase(n: nat, base: nat, upper: bool): (s: seq<byte>)
    requires 2 <= base <= 16
    ensures s != []
  {
    var last := [DigitByte(n % base, upper)];
    if n < base then last else InBase(n / base, base, upper) + last
  }

  function Zeros(k: nat): (s: seq<byte>)
    ensures |s| == k && forall i :: 0 <= i < k ==> s[i] == 48
  {
    seq(k, i => 48)
  }

  function Decimal(n: nat): (s: seq<byte>)
    ensures s != []
  {
    InBase(n, 10, false)
  }

  lemma DigitIsRead(d: nat, base: int, upper: bool)
    requires (base == 10 || base == 16) && d < base
    ensures DigitValue(DigitByte(d, upper), base) == d
  {
  }

  // All of it is digits, the first one zero for zero only.
  lemma {:induction false} AllDigits(n: nat, base: nat, upper: bool, k: nat)
    requires (base == 10 || base == 16) && k < |InBase(n, base, upper)|
    ensures DigitValue(InBase(n, base, upper)[k], base) >= 0
    ensures InBase(n, base, upper)[0] == 48 <==> n == 0
    ensures n == 0 ==> InBase(n, base, upper) == [48]
    decreases n
  {
    DigitIsRead(n % base, base, upper);
    if n >= base {
      AllDigits(n / base, base, upper, if k < |InBase(n / base, base, upper)| then k else 0);
    }
  }
}
