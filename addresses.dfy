/**
 * Address arithmetic and formatting of the profile symbolicator:
 * int(s, 0) on "0x" strings, the "0x%08x" keys of a library's symbols,
 * formatAddress ("0x{:X}"), fixupAddress and the floored variant used on the
 * addr2line path, and bisect.bisect over the sorted library start addresses.
 */
module Addresses {
  import opened Wrappers
  import Numerals
  import PyStr

  // ---------------------------------------------------------------------------
  // Parsing and formatting

  predicate IsHexLiteral(t: string)
  {
    |t| >= 3 && t[0] == '0' && (t[1] == 'x' || t[1] == 'X') && Numerals.AllDigits(t[2..], 16)
  }

  /**
   * int(s, 0) for the hexadecimal form: surrounding whitespace, "0x" or "0X",
   * then at least one hex digit of either case; anything else is a ValueError.
   */
  function ParseAddress(s: string): (r: Result<int>)
    ensures r.Success? <==> IsHexLiteral(PyStr.Strip(s))
    ensures r.Success? ==> r.value >= 0
  {
    var t := PyStr.Strip(s);
    if IsHexLiteral(t) then Success(Numerals.Value(t[2..], 16)) else Failure(ValueError(s))
  }

  /** "0x%08x" % address: lower-case hex digits padded with zeros to at least eight. */
  function KeyFor(address: nat): string
  {
    "0x" + Numerals.ZeroPad(Numerals.ToDigits(address, 16, false), 8)
  }

  /** A key is "0x" and at least eight lower-case hex digits, exactly eight below 16^8. */
  lemma KeyForShape(address: nat)
    ensures var key := KeyFor(address);
            && |key| >= 10 && key[..2] == "0x"
            && Numerals.AllDigits(key[2..], 16) && Numerals.NoUpperHex(key[2..])
            && (address < 0x1_0000_0000 ==> |key| == 10)
  {
    var digits := Numerals.ToDigits(address, 16, false);
    Numerals.ToDigitsSpec(address, 16, false);
    var padded := Numerals.ZeroPad(digits, 8);
    ShortDigits(address, digits);
    ZeroPadLowerHex(digits, 8);
    var key := "0x" + padded;
    assert key[2..] == padded;
  }

  /** Below 16^8 the digits fit in the eight-digit field. */
  lemma ShortDigits(address: nat, digits: string)
    requires digits == Numerals.ToDigits(address, 16, false)
    ensures address < 0x1_0000_0000 ==> |digits| <= 8
  {
    Numerals.ToDigitsSpec(address, 16, false);
    if address < 0x1_0000_0000 && |digits| > 8 {
      HexDigitsBound(digits);
    }
  }

  lemma ZeroPadLowerHex(digits: string, width: nat)
    requires Numerals.AllDigits(digits, 16) && Numerals.NoUpperHex(digits)
    ensures Numerals.AllDigits(Numerals.ZeroPad(digits, width), 16)
    ensures Numerals.NoUpperHex(Numerals.ZeroPad(digits, width))
  {
    var padded := Numerals.ZeroPad(digits, width);
    forall i | 0 <= i < |padded|
      ensures Numerals.IsDigitOf(padded[i], 16) && !('A' <= padded[i] <= 'F')
    {
      var z := |padded| - |digits|;
      if i >= z {
        assert padded[i] == digits[i - z];
      } else {
        assert padded[i] == '0';
      }
    }
  }

  /** A hex digit string of more than eight digits without a leading zero denotes at least 16^8. */
  lemma HexDigitsBound(d: string)
    requires |d| > 8 && Numerals.AllDigits(d, 16) && d[0] != '0'
    ensures Numerals.Value(d, 16) >= 0x1_0000_0000
  {
    HexValueAtLeast(d);
    assert Power16(|d| - 1) >= Power16(8) by { Power16Monotone(8, |d| - 1); }
  }

  function Power16(k: nat): nat
  {
    if k == 0 then 1 else 16 * Power16(k - 1)
  }

  lemma {:induction false} Power16Monotone(a: nat, b: nat)
    requires a <= b
    ensures Power16(a) <= Power16(b)
    decreases b - a
  {
    if a < b {
      Power16Monotone(a, b - 1);
    }
  }

  lemma {:induction false} HexValueAtLeast(d: string)
    requires |d| >= 1 && Numerals.AllDigits(d, 16) && d[0] != '0'
    ensures Numerals.Value(d, 16) >= Power16(|d| - 1)
  {
    if |d| > 1 {
      var init := d[..|d| - 1];
      assert init[0] == d[0];
      HexValueAtLeast(init);
    } else {
      assert Numerals.DigitVal(d[0]) != 0;
    }
  }

  lemma ParseHexLiteral(t: string)
    requires IsHexLiteral(t) && PyStr.NoSpace(t)
    ensures ParseAddress(t) == Success(Numerals.Value(t[2..], 16) as int)
  {
    PyStr.StripNoSpace(t);
  }

  lemma KeyHasNoSpace(key: string)
    requires |key| >= 2 && key[..2] == "0x" && Numerals.AllDigits(key[2..], 16)
    ensures PyStr.NoSpace(key)
  {
    forall i | 0 <= i < |key| ensures !PyStr.IsSpace(key[i]) {
      if i >= 2 {
        assert key[i] == key[2..][i - 2];
        assert Numerals.IsDigitOf(key[2..][i - 2], 16);
      } else {
        assert key[i] == "0x"[i];
      }
    }
  }

  /** The keys read back to the addresses they were made from. */
  lemma KeyForRoundTrip(address: nat)
    ensures ParseAddress(KeyFor(address)) == Success(address as int)
  {
    var key := KeyFor(address);
    var digits := Numerals.ToDigits(address, 16, false);
    Numerals.ToDigitsSpec(address, 16, false);
    KeyForShape(address);
    var padded := Numerals.ZeroPad(digits, 8);
    assert key == "0x" + padded;
    assert key[2..] == padded;
    Numerals.LeadingZerosValue(|padded| - |digits|, digits, 16);
    KeyHasNoSpace(key);
    ParseHexLiteral(key);
  }

  /** Two addresses never share a key. */
  lemma KeyForInjective(a: nat, b: nat)
    requires KeyFor(a) == KeyFor(b)
    ensures a == b
  {
    KeyForRoundTrip(a);
    KeyForRoundTrip(b);
  }

  /**
   * formatAddress: "0x{:X}".format(address), upper-case digits without
   * padding; a negative address keeps its minus sign after the "0x".
   */
  function FormatAddress(address: int): string
  {
    var digits := Numerals.ToDigits(if address < 0 then -address else address, 16, true);
    if address < 0 then "0x-" + digits else "0x" + digits
  }

  /** The text after "0x" is the address in upper-case hex without leading zeros, or a minus sign and its magnitude. */
  lemma FormatAddressSpec(address: int)
    ensures var s := FormatAddress(address);
            && |s| >= 3 && s[..2] == "0x"
            && (address >= 0 ==>
                  && Numerals.AllDigits(s[2..], 16) && Numerals.NoLowerHex(s[2..])
                  && Numerals.Value(s[2..], 16) == address
                  && (s[2] == '0' ==> s == "0x0"))
            && (address < 0 ==>
                  && s[2] == '-' && Numerals.AllDigits(s[3..], 16)
                  && Numerals.Value(s[3..], 16) == -address)
  {
    var digits := Numerals.ToDigits(if address < 0 then -address else address, 16, true);
    Numerals.ToDigitsSpec(if address < 0 then -address else address, 16, true);
    var s := FormatAddress(address);
    assert address < 0 ==> s[3..] == digits;
    assert address >= 0 ==> s[2..] == digits;
  }

  // ---------------------------------------------------------------------------
  // Normalisation of return addresses

  /** x & ~1 on Python's unbounded two's-complement integers: the greatest even number not above x. */
  function ClearLowBit(x: int): (r: int)
    ensures r % 2 == 0 && x - 1 <= r <= x
  {
    x - x % 2
  }

  /**
   * fixupAddress: the offset of the instruction before a return address,
   * ((address - start + offset) & ~1) - 1; not floored, so it can be negative.
   */
  function FixupOffset(address: int, start: int, offset: int): (r: int)
    ensures r % 2 == 1
    ensures address - start + offset - 2 <= r <= address - start + offset - 1
  {
    ClearLowBit(address - start + offset) - 1
  }

  /** fixupAddress on an address key: int(address, 0) first, so a malformed key is a ValueError. */
  function FixupAddress(key: string, start: int, offset: int): (r: Result<int>)
    ensures r.Success? <==> ParseAddress(key).Success?
    ensures r.Success? ==> r.value == FixupOffset(ParseAddress(key).value, start, offset)
  {
    var address :- ParseAddress(key);
    Success(FixupOffset(address, start, offset))
  }

  /** The addr2line path's max(0, (lib_address & ~1) - 1): fixupAddress floored at zero. */
  function AdjustedOffset(address: int, start: int, offset: int): (r: nat)
    ensures r >= FixupOffset(address, start, offset)
    ensures r == 0 || r == FixupOffset(address, start, offset)
  {
    var f := FixupOffset(address, start, offset);
    if f < 0 then 0 else f
  }

  /** The normalised offset of a key is the offset of the address the key was made from. */
  lemma FixupOfKey(address: nat, start: int, offset: int)
    ensures FixupAddress(KeyFor(address), start, offset) == Success(FixupOffset(address, start, offset))
  {
    KeyForRoundTrip(address);
  }

  // ---------------------------------------------------------------------------
  // bisect.bisect (bisect_right) over integers

  predicate Sorted(a: seq<int>)
  {
    forall i, j :: 0 <= i < j < |a| ==> a[i] <= a[j]
  }

  /** The loop of bisect_right, with lo and hi as parameters. */
  function BisectRange(a: seq<int>, x: int, lo: nat, hi: nat): (i: nat)
    requires lo <= hi <= |a|
    ensures lo <= i <= hi
    ensures Sorted(a) && (forall j :: 0 <= j < lo ==> a[j] <= x) && (forall j :: hi <= j < |a| ==> x < a[j])
            ==> (forall j :: 0 <= j < i ==> a[j] <= x) && (forall j :: i <= j < |a| ==> x < a[j])
    decreases hi - lo
  {
    if lo < hi then
      var mid := (lo + hi) / 2;
      if x < a[mid] then BisectRange(a, x, lo, mid) else BisectRange(a, x, mid + 1, hi)
    else lo
  }

  /** bisect.bisect(a, x): on a sorted list, the number of elements that are <= x. */
  function BisectRight(a: seq<int>, x: int): (i: nat)
    ensures i <= |a|
    ensures Sorted(a) ==> (forall j :: 0 <= j < i ==> a[j] <= x) && (forall j :: i <= j < |a| ==> x < a[j])
  {
    BisectRange(a, x, 0, |a|)
  }
}
