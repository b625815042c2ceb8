/** Decimal text of numbers, as string conversion writes it and `parseInt` reads it. */
module Decimal {

  predicate IsDigit(c: char) {
    '0' <= c <= '9'
  }

  function DigitChar(d: int): (c: char)
    requires 0 <= d < 10
    ensures IsDigit(c) && DigitValue(c) == d
  {
    '0' + d as char
  }

  function DigitValue(c: char): (d: int)
    requires IsDigit(c)
    ensures 0 <= d < 10
  {
    c as int - '0' as int
  }

  predicate AllDigits(s: string) {
    forall i :: 0 <= i < |s| ==> IsDigit(s[i])
  }

  function NatText(n: nat): (s: string)
    ensures AllDigits(s) && 1 <= |s|
  {
    if n < 10 then [DigitChar(n)] else NatText(n / 10) + [DigitChar(n % 10)]
  }

  function IntText(n: int): string {
    if n < 0 then "-" + NatText(-n) else NatText(n)
  }

  /** The number that a run of digits denotes. */
  function NatValue(s: string): (n: nat)
    requires AllDigits(s)
  {
    if s == [] then 0 else NatValue(s[..|s| - 1]) * 10 + DigitValue(s[|s| - 1])
  }

  function Zeros(k: nat): (s: string)
    ensures AllDigits(s) && |s| == k
  {
    if k == 0 then "" else "0" + Zeros(k - 1)
  }

  /** Zeros in front, up to a given length. */
  function PadLeft(s: string, len: nat): string {
    if |s| < len then Zeros(len - |s|) + s else s
  }

  function Pow10(k: nat): (p: nat)
    ensures 1 <= p
  {
    if k == 0 then 1 else 10 * Pow10(k - 1)
  }

  lemma {:induction false} NatValueOfText(n: nat)
    ensures NatValue(NatText(n)) == n
  {
    var s := NatText(n);
    if 10 <= n {
      NatValueOfText(n / 10);
      assert s[..|s| - 1] == NatText(n / 10);
    } else {
      assert s[..0] == [];
    }
  }

  lemma {:induction false} LeadingZeros(k: nat, s: string)
    requires AllDigits(s)
    ensures AllDigits(Zeros(k) + s) && NatValue(Zeros(k) + s) == NatValue(s)
    decreases |s|, k
  {
    var z := Zeros(k) + s;
    if s != [] {
      LeadingZeros(k, s[..|s| - 1]);
      assert z[..|z| - 1] == Zeros(k) + s[..|s| - 1];
    } else if k > 0 {
      ZerosEnd(k);
      LeadingZeros(k - 1, s);
      assert Zeros(k) + s == Zeros(k);
      assert Zeros(k - 1) + s == Zeros(k - 1);
      assert z[..|z| - 1] == Zeros(k - 1);
    }
  }

  lemma {:induction false} ZerosEnd(k: nat)
    requires 1 <= k
    ensures Zeros(k) == Zeros(k - 1) + "0"
  {
    if 1 < k {
      ZerosEnd(k - 1);
    }
  }

  lemma PadLeftValue(n: nat, len: nat)
    ensures AllDigits(PadLeft(NatText(n), len)) && NatValue(PadLeft(NatText(n), len)) == n
    ensures |PadLeft(NatText(n), len)| == if |NatText(n)| < len then len else |NatText(n)|
  {
    NatValueOfText(n);
    if |NatText(n)| < len {
      LeadingZeros(len - |NatText(n)|, NatText(n));
    }
  }

  /** A number has at most k digits iff it is below the k-th power of ten. */
  lemma {:induction false} TextLength(n: nat, k: nat)
    requires 1 <= k
    ensures |NatText(n)| <= k <==> n < Pow10(k)
    decreases k
  {
    if k == 1 {
      assert Pow10(1) == 10 * Pow10(0);
    } else if 10 <= n {
      TextLength(n / 10, k - 1);
      assert n / 10 < Pow10(k - 1) <==> n < 10 * Pow10(k - 1);
    }
  }

  /** How many digits stand at position pos, counting up to max of them. */
  function DigitRun(s: string, pos: nat, max: nat): (k: nat)
    requires pos <= |s|
    ensures k <= max && pos + k <= |s| && forall i :: pos <= i < pos + k ==> IsDigit(s[i])
    ensures k == max || pos + k == |s| || !IsDigit(s[pos + k])
    decreases max
  {
    if max == 0 || pos == |s| || !IsDigit(s[pos]) then 0
    else 1 + DigitRun(s, pos + 1, max - 1)
  }

  /** The run is determined by what it stops at. */
  lemma DigitRunIs(s: string, pos: nat, max: nat, k: nat)
    requires pos + k <= |s| && k <= max && forall i :: pos <= i < pos + k ==> IsDigit(s[i])
    requires k == max || pos + k == |s| || !IsDigit(s[pos + k])
    ensures DigitRun(s, pos, max) == k
  {
  }
}
