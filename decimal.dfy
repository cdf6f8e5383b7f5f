/** Decimal rendering of non-negative integers, as Python's f"{n}" and
    f"{n:0Wd}" produce them, together with the value a digit string denotes. */
module Decimal {

  predicate IsDigit(c: char) {
    '0' <= c <= '9'
  }

  predicate AllDigits(s: string) {
    forall i :: 0 <= i < |s| ==> IsDigit(s[i])
  }

  function DigitChar(d: nat): (c: char)
    requires d < 10
    ensures IsDigit(c) && c as int - '0' as int == d
  {
    ('0' as int + d) as char
  }

  function DigitValue(c: char): (d: nat)
    requires IsDigit(c)
    ensures d < 10
  {
    c as int - '0' as int
  }

  /** The number a string of decimal digits denotes, most significant digit first. */
  function Value(s: string): nat
    requires AllDigits(s)
  {
    if s == [] then 0 else Value(s[..|s| - 1]) * 10 + DigitValue(s[|s| - 1])
  }

  function Pow10(k: nat): (p: nat)
    ensures p >= 1
  {
    if k == 0 then 1 else 10 * Pow10(k - 1)
  }

  /** f"{n}": the shortest decimal form, with no leading zero except for 0 itself. */
  function Show(n: nat): (s: string)
    ensures AllDigits(s) && |s| >= 1
    ensures s[0] == '0' ==> n == 0
  {
    if n < 10 then [DigitChar(n)] else Show(n / 10) + [DigitChar(n % 10)]
  }

  /** A run of k zero characters. */
  function Zeros(k: nat): (z: string)
    ensures |z| == k && AllDigits(z)
    ensures forall i :: 0 <= i < k ==> z[i] == '0'
  {
    seq(k, _ => '0')
  }

  /** f"{n:0{width}d}": the decimal form, left-padded with zeros to at least width characters. */
  function ZeroPad(n: nat, width: nat): (s: string)
    ensures AllDigits(s)
    ensures |s| == if width <= |Show(n)| then |Show(n)| else width
    ensures Value(s) == n
  {
    var d := Show(n);
    var z := if width <= |d| then [] else Zeros(width - |d|);
    ValueLeadingZeros(z, d);
    ShowValue(n);
    z + d
  }

  /** Reading back the decimal form gives the number. */
  lemma {:induction false} ShowValue(n: nat)
    ensures Value(Show(n)) == n
  {
    if n >= 10 {
      var s := Show(n);
      ShowValue(n / 10);
      assert s[..|s| - 1] == Show(n / 10);
    }
  }

  /** Leading zeros do not change the value of a digit string. */
  lemma {:induction false} ValueLeadingZeros(z: string, d: string)
    requires AllDigits(z) && AllDigits(d)
    requires forall i :: 0 <= i < |z| ==> z[i] == '0'
    ensures AllDigits(z + d) && Value(z + d) == Value(d)
  {
    if d == [] {
      assert z + d == z;
      ValueOfZeros(z);
    } else {
      var d' := d[..|d| - 1];
      ValueLeadingZeros(z, d');
      assert (z + d)[..|z + d| - 1] == z + d';
    }
  }

  lemma {:induction false} ValueOfZeros(z: string)
    requires AllDigits(z)
    requires forall i :: 0 <= i < |z| ==> z[i] == '0'
    ensures Value(z) == 0
  {
    if z != [] {
      ValueOfZeros(z[..|z| - 1]);
    }
  }

  /** A number below 10^k takes at most k digits. */
  lemma {:induction false} ShowLength(n: nat, k: nat)
    requires k >= 1 && n < Pow10(k)
    ensures |Show(n)| <= k
  {
    if n >= 10 {
      ShowLength(n / 10, k - 1);
    }
  }

  /** A digit string holds no character other than digits. */
  lemma DigitsExclude(s: string, c: char)
    requires AllDigits(s) && !IsDigit(c)
    ensures c !in s
  {
  }
}
