/**
 * Digit strings in bases up to 16: the value of a digit string (Python's
 * int(s, base) once the prefix is gone) and the digits of a number
 * (Python's "%x", "%X" and "%d" conversions).
 */
module Numerals {

  /** Value of a digit character in bases up to 16, either letter case; 16 for any other character. */
  function DigitVal(c: char): nat
  {
    if '0' <= c <= '9' then c as int - '0' as int
    else if 'a' <= c <= 'f' then c as int - 'a' as int + 10
    else if 'A' <= c <= 'F' then c as int - 'A' as int + 10
    else 16
  }

  predicate IsDigitOf(c: char, base: nat)
  {
    DigitVal(c) < base
  }

  predicate AllDigits(s: string, base: nat)
  {
    forall i :: 0 <= i < |s| ==> IsDigitOf(s[i], base)
  }

  predicate NoLowerHex(s: string)
  {
    forall i :: 0 <= i < |s| ==> !('a' <= s[i] <= 'f')
  }

  predicate NoUpperHex(s: string)
  {
    forall i :: 0 <= i < |s| ==> !('A' <= s[i] <= 'F')
  }

  /** The number a digit string denotes, most significant digit first. */
  function Value(s: string, base: nat): nat
    requires AllDigits(s, base)
  {
    if s == [] then 0 else Value(s[..|s| - 1], base) * base + DigitVal(s[|s| - 1])
  }

  function DigitChar(d: nat, upper: bool): (c: char)
    requires d < 16
    ensures DigitVal(c) == d
    ensures upper ==> !('a' <= c <= 'f')
    ensures !upper ==> !('A' <= c <= 'F')
  {
    if d < 10 then ('0' as int + d) as char
    else if upper then ('A' as int + d - 10) as char
    else ('a' as int + d - 10) as char
  }

  /** The digits of n, most significant first. */
  function ToDigits(n: nat, base: nat, upper: bool): string
    requires base == 10 || base == 16
    decreases n
  {
    if n < base then [DigitChar(n, upper)]
    else ToDigits(n / base, base, upper) + [DigitChar(n % base, upper)]
  }

  /** The digits denote n, have no leading zero, and are of the requested letter case. */
  lemma ToDigitsSpec(n: nat, base: nat, upper: bool)
    requires base == 10 || base == 16
    ensures var s := ToDigits(n, base, upper);
            && s != [] && AllDigits(s, base)
            && Value(s, base) == n
            && (s[0] == '0' ==> s == "0")
            && (upper ==> NoLowerHex(s))
            && (!upper ==> NoUpperHex(s))
  {
    ToDigitsAreDigits(n, base, upper);
    ToDigitsValue(n, base, upper);
    ToDigitsLeading(n, base, upper);
  }

  lemma {:induction false} ToDigitsAreDigits(n: nat, base: nat, upper: bool)
    requires base == 10 || base == 16
    ensures var s := ToDigits(n, base, upper);
            && AllDigits(s, base)
            && (upper ==> NoLowerHex(s))
            && (!upper ==> NoUpperHex(s))
    decreases n
  {
    if n >= base {
      ToDigitsAreDigits(n / base, base, upper);
      AppendDigit(ToDigits(n / base, base, upper), DigitChar(n % base, upper), base);
    }
  }

  lemma AppendDigit(s: string, c: char, base: nat)
    requires AllDigits(s, base) && IsDigitOf(c, base)
    ensures AllDigits(s + [c], base)
    ensures NoLowerHex(s) && !('a' <= c <= 'f') ==> NoLowerHex(s + [c])
    ensures NoUpperHex(s) && !('A' <= c <= 'F') ==> NoUpperHex(s + [c])
  {
    var t := s + [c];
    assert forall i :: 0 <= i < |s| ==> t[i] == s[i];
    assert t[|s|] == c;
  }

  lemma {:induction false} ToDigitsValue(n: nat, base: nat, upper: bool)
    requires base == 10 || base == 16
    ensures AllDigits(ToDigits(n, base, upper), base)
    ensures Value(ToDigits(n, base, upper), base) == n
    decreases n
  {
    ToDigitsAreDigits(n, base, upper);
    if n >= base {
      var q, d := n / base, n % base;
      assert n == q * base + d;
      ToDigitsValue(q, base, upper);
      var hi := ToDigits(q, base, upper);
      var s := ToDigits(n, base, upper);
      assert s[..|hi|] == hi;
    }
  }

  lemma {:induction false} ToDigitsLeading(n: nat, base: nat, upper: bool)
    requires base == 10 || base == 16
    ensures var s := ToDigits(n, base, upper); s != [] && (s[0] == '0' ==> s == "0")
    decreases n
  {
    if n >= base {
      ToDigitsLeading(n / base, base, upper);
      var hi := ToDigits(n / base, base, upper);
      assert ToDigits(n, base, upper)[0] == hi[0];
    }
  }

  function Zeros(k: nat): (z: string)
    ensures |z| == k && forall i :: 0 <= i < k ==> z[i] == '0'
  {
    if k == 0 then [] else Zeros(k - 1) + "0"
  }

  /** Python's zero padding to a minimum width ("%08x"): never truncates. */
  function ZeroPad(s: string, width: nat): string
  {
    if |s| >= width then s else Zeros(width - |s|) + s
  }

  lemma {:induction false} ZerosValue(k: nat, base: nat)
    requires base >= 2
    ensures AllDigits(Zeros(k), base) && Value(Zeros(k), base) == 0
  {
    if k > 0 {
      ZerosValue(k - 1, base);
      assert Zeros(k)[..k - 1] == Zeros(k - 1);
    }
  }

  /** Leading zeros do not change the value of a digit string. */
  lemma {:induction false} LeadingZerosValue(k: nat, s: string, base: nat)
    requires base >= 2 && AllDigits(s, base)
    ensures AllDigits(Zeros(k) + s, base)
    ensures Value(Zeros(k) + s, base) == Value(s, base)
    decreases |s|
  {
    ZerosValue(k, base);
    if s == [] {
      assert Zeros(k) + s == Zeros(k);
    } else {
      var init := s[..|s| - 1];
      LeadingZerosValue(k, init, base);
      assert (Zeros(k) + s)[..|Zeros(k) + s| - 1] == Zeros(k) + init;
    }
  }
}
