/** The two public helpers that turn values into the forms a caller
    writes (LangjiACController.php, lines 337-347): a register number as
    a "0x" string and a switch state as the word the on/off register
    expects. */
module Converters {
  import opened Bytes
  import opened Numerals

  const HexPrefix := "0x"

  /** `'0x' . str_pad(dechex(v), 4, '0', STR_PAD_LEFT)`: lower-case hex
      digits, padded to at least four. The digits read back as v, and the
      only leading zeros are the padding. */
  function ConvertIntToHex(v: nat): (r: string)
    ensures HexPrefix <= r && 6 <= |r|
    ensures IsDigitString(r[2..], 16) && ValueOf(r[2..], 16) == v
    ensures v < 0x1_0000 ==> |r| == 6
    ensures |r| > 6 ==> r[2] != '0'
  {
    var digits := Digits(v, 16);
    var padded := PadLeft(digits, 4, '0');
    var zeros := seq(|padded| - |digits|, _ => '0');
    assert padded == zeros + digits;
    LeadingZeros(|padded| - |digits|, digits, 16);
    DigitsRoundTrip(v, 16);
    FourDigitsSuffice(v);
    var r := HexPrefix + padded;
    assert r[2..] == padded;
    r
  }

  /** Every value of a 16-bit register fits in four hex digits. */
  lemma FourDigitsSuffice(v: nat)
    ensures v < 0x1_0000 ==> |Digits(v, 16)| <= 4
  {
    if v < 0x1_0000 {
      assert Power(16, 4) == 0x1_0000;
      DigitsLength(v, 16, 4);
    }
  }

  /** Two numbers print the same only if they are equal. */
  lemma ConvertIntToHexInjective(u: nat, v: nat)
    ensures u != v ==> ConvertIntToHex(u) != ConvertIntToHex(v)
  {
    var s, t := ConvertIntToHex(u), ConvertIntToHex(v);
    assert ValueOf(s[2..], 16) == u && ValueOf(t[2..], 16) == v;
  }

  /** 255 prints as "0x00ff" and 0x12345 as "0x12345". */
  lemma ConvertIntToHexExamples()
    ensures ConvertIntToHex(255) == "0x00ff"
    ensures ConvertIntToHex(0x12345) == "0x12345"
  {
    assert Digits(15, 16) == "f";
    assert Digits(255, 16) == "ff";
    assert Digits(1, 16) == "1";
    assert Digits(0x12, 16) == "12";
    assert Digits(0x123, 16) == "123";
    assert Digits(0x1234, 16) == "1234";
    assert Digits(0x12345, 16) == "12345";
  }

  /** The on/off word: 0xFF00 for on, 0x0000 for off. */
  function ConvertBoolToHex(on: bool): (w: word)
    ensures on <==> w == 0xFF00
    ensures !on <==> w == 0
  {
    if on then 0xFF00 else 0x0000
  }
}
