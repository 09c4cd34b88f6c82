/** Digit strings as PHP prints integers: `dechex` (lower-case, no
    leading zeros) and decimal interpolation into a message. */
module Numerals {

  /** The lower-case digit for d, as `dechex` prints it. */
  function DigitChar(d: nat): char
    requires d < 16
  {
    if d < 10 then ('0' as int + d) as char else ('a' as int + d - 10) as char
  }

  /** The digit a character stands for, or 16 for a non-digit. */
  function DigitValue(ch: char): (d: nat)
    ensures d <= 16
  {
    if '0' <= ch <= '9' then ch as int - '0' as int
    else if 'a' <= ch <= 'f' then ch as int - 'a' as int + 10
    else 16
  }

  lemma DigitCharValue(d: nat)
    requires d < 16
    ensures DigitValue(DigitChar(d)) == d
  {
  }

  predicate IsDigitString(s: string, base: nat) {
    forall k :: 0 <= k < |s| ==> DigitValue(s[k]) < base
  }

  lemma DivMod(v: nat, base: nat)
    requires 2 <= base
    ensures v == (v / base) * base + v % base
    ensures 0 <= v % base < base
    ensures v >= base ==> 1 <= v / base < v
  {
  }

  /** The digits of v in the given base, most significant first, without
      leading zeros (so 0 is "0"). */
  function Digits(v: nat, base: nat): (s: string)
    requires 2 <= base <= 16
    ensures 1 <= |s|
    ensures IsDigitString(s, base)
    ensures v > 0 ==> s[0] != '0'
    decreases v
  {
    DivMod(v, base);
    if v < base then
      DigitCharValue(v);
      [DigitChar(v)]
    else
      DigitCharValue(v % base);
      Digits(v / base, base) + [DigitChar(v % base)]
  }

  /** The number a digit string denotes in the given base. */
  function ValueOf(s: string, base: nat): nat
    requires 2 <= base <= 16
    requires IsDigitString(s, base)
    decreases |s|
  {
    if |s| == 0 then 0 else ValueOf(s[..|s| - 1], base) * base + DigitValue(s[|s| - 1])
  }

  /** Printing and reading back are inverse. */
  lemma {:induction false} DigitsRoundTrip(v: nat, base: nat)
    requires 2 <= base <= 16
    ensures ValueOf(Digits(v, base), base) == v
    decreases v
  {
    var s := Digits(v, base);
    DivMod(v, base);
    if v < base {
      assert s[..0] == [];
      DigitCharValue(v);
    } else {
      DigitsRoundTrip(v / base, base);
      assert s[..|s| - 1] == Digits(v / base, base);
      DigitCharValue(v % base);
    }
  }

  lemma {:induction false} ZerosValue(n: nat, base: nat)
    requires 2 <= base <= 16
    ensures IsDigitString(seq(n, _ => '0'), base)
    ensures ValueOf(seq(n, _ => '0'), base) == 0
  {
    if n > 0 {
      ZerosValue(n - 1, base);
      assert seq(n, _ => '0')[..n - 1] == seq(n - 1, _ => '0');
    }
  }

  /** Leading zeros do not change the value. */
  lemma {:induction false} LeadingZeros(n: nat, s: string, base: nat)
    requires 2 <= base <= 16
    requires IsDigitString(s, base)
    ensures IsDigitString(seq(n, _ => '0') + s, base)
    ensures ValueOf(seq(n, _ => '0') + s, base) == ValueOf(s, base)
    decreases |s|
  {
    var z := seq(n, _ => '0');
    ZerosValue(n, base);
    if |s| == 0 {
      assert z + s == z;
    } else {
      LeadingZeros(n, s[..|s| - 1], base);
      assert (z + s)[..|z + s| - 1] == z + s[..|s| - 1];
    }
  }

  function Power(b: nat, k: nat): nat {
    if k == 0 then 1 else b * Power(b, k - 1)
  }

  /** A value below base^k needs at most k digits (and one digit for 0). */
  lemma {:induction false} DigitsLength(v: nat, base: nat, k: nat)
    requires 2 <= base <= 16
    requires 1 <= k
    requires v < Power(base, k)
    ensures |Digits(v, base)| <= k
    decreases k
  {
    DivMod(v, base);
    if v >= base && k > 1 {
      DivBound(v, base, Power(base, k - 1));
      DigitsLength(v / base, base, k - 1);
    }
  }

  lemma DivBound(v: nat, base: nat, p: nat)
    requires 2 <= base
    requires v < base * p
    ensures v / base < p
  {
    DivMod(v, base);
  }

  /** `str_pad(s, width, pad, STR_PAD_LEFT)`. */
  function PadLeft(s: string, width: nat, pad: char): (r: string)
    ensures |r| == if |s| >= width then |s| else width
    ensures r[|r| - |s|..] == s
    ensures forall k :: 0 <= k < |r| - |s| ==> r[k] == pad
  {
    if |s| >= width then s else seq(width - |s|, _ => pad) + s
  }
}
