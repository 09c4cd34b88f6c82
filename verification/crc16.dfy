/** CRC-16/Modbus as `calculateCRC` computes it (LangjiACController.php,
    lines 94-112): the register starts at 0xFFFF, each byte is XORed into
    it, and eight reflected shift steps with polynomial 0xA001 follow.
    Section 2.5.1.2 of "Modbus over Serial Line" v1.02 defines the same
    checksum. The register is a `bv16`, so the bound 0..65535 holds by
    construction. */
module Crc16 {
  import opened Bytes

  const Init: bv16 := 0xFFFF
  const Poly: bv16 := 0xA001

  /** One pass of the inner loop: shift right, and XOR in the polynomial
      when the bit shifted out was set. */
  function Step(c: bv16): bv16 {
    if c & 1 == 1 then (c >> 1) ^ Poly else c >> 1
  }

  /** The register after n passes of the inner loop. */
  function Shifts(c: bv16, n: nat): bv16 {
    if n == 0 then c else Step(Shifts(c, n - 1))
  }

  /** One iteration of the outer loop: XOR the byte in, then eight steps. */
  function Update(c: bv16, b: byte): bv16 {
    Shifts(c ^ (b as bv16), 8)
  }

  /** The register after feeding `s` to a register that started at `init`. */
  function CrcFrom(init: bv16, s: seq<byte>): bv16
    decreases |s|
  {
    if |s| == 0 then init else Update(CrcFrom(init, s[..|s| - 1]), s[|s| - 1])
  }

  /** The checksum of `s`. */
  function Crc(s: seq<byte>): bv16 {
    CrcFrom(Init, s)
  }

  /** The inner loop of `calculateCRC`: eight shift steps. */
  method ShiftOutByte(c: bv16) returns (crc: bv16)
    ensures crc == Shifts(c, 8)
  {
    crc := c;
    var j := 0;
    while j < 8
      invariant 0 <= j <= 8
      invariant crc == Shifts(c, j)
    {
      if crc & 1 == 1 {
        crc := crc >> 1;
        crc := crc ^ Poly;
      } else {
        crc := crc >> 1;
      }
      j := j + 1;
    }
  }

  /** `calculateCRC`: the outer loop over the bytes of the message. */
  method CalculateCrc(data: seq<byte>) returns (crc: bv16)
    ensures crc == Crc(data)
  {
    crc := Init;
    var i := 0;
    while i < |data|
      invariant 0 <= i <= |data|
      invariant crc == CrcFrom(Init, data[..i])
    {
      crc := crc ^ (data[i] as bv16);
      crc := ShiftOutByte(crc);
      assert data[..i + 1][..i] == data[..i];
      i := i + 1;
    }
    assert data[..|data|] == data;
  }

  /** The checksum of the empty string is the initial register. */
  lemma CrcOfEmpty()
    ensures Crc([]) == 0xFFFF
  {
  }

  /** Feeding a concatenation is feeding its parts one after the other. */
  lemma {:induction false} CrcFromAppend(init: bv16, a: seq<byte>, b: seq<byte>)
    ensures CrcFrom(init, a + b) == CrcFrom(CrcFrom(init, a), b)
    decreases |b|
  {
    if |b| == 0 {
      assert a + b == a;
    } else {
      var b' := b[..|b| - 1];
      assert (a + b)[..|a + b| - 1] == a + b';
      CrcFromAppend(init, a, b');
    }
  }

  /** Step in branch-free form: the polynomial is masked in by the bit
      shifted out. Only a proof device; the model uses `Step`. */
  function MaskedStep(c: bv16): bv16 {
    (c >> 1) ^ (Poly & -(c & 1))
  }

  /** Eight masked steps, written out so that the solver can reason about
      them bit by bit. */
  function MaskedShift8(c: bv16): bv16 {
    MaskedStep(MaskedStep(MaskedStep(MaskedStep(
      MaskedStep(MaskedStep(MaskedStep(MaskedStep(c))))))))
  }

  lemma StepIsMaskedStep(c: bv16)
    ensures Step(c) == MaskedStep(c)
  {
    if c & 1 == 1 {
      assert -(c & 1) == 0xFFFF;
    } else {
      assert c & 1 == 0;
    }
  }

  /** The inner loop agrees with its branch-free unrolling. */
  lemma ShiftsEight(c: bv16)
    ensures Shifts(c, 8) == MaskedShift8(c)
  {
    var s0 := c;
    var s1 := MaskedStep(s0);
    var s2 := MaskedStep(s1);
    var s3 := MaskedStep(s2);
    var s4 := MaskedStep(s3);
    var s5 := MaskedStep(s4);
    var s6 := MaskedStep(s5);
    var s7 := MaskedStep(s6);
    StepIsMaskedStep(s0);
    StepIsMaskedStep(s1);
    StepIsMaskedStep(s2);
    StepIsMaskedStep(s3);
    StepIsMaskedStep(s4);
    StepIsMaskedStep(s5);
    StepIsMaskedStep(s6);
    StepIsMaskedStep(s7);
    assert Shifts(c, 1) == s1;
    assert Shifts(c, 2) == s2;
    assert Shifts(c, 3) == s3;
    assert Shifts(c, 4) == s4;
    assert Shifts(c, 5) == s5;
    assert Shifts(c, 6) == s6;
    assert Shifts(c, 7) == s7;
  }

  /** The byte update in branch-free form. */
  lemma UpdateIsMasked(c: bv16, b: byte)
    ensures Update(c, b) == MaskedShift8(c ^ (b as bv16))
  {
    ShiftsEight(c ^ (b as bv16));
  }

  /** Eight steps lose no information. */
  lemma MaskedShift8Injective(u: bv16, v: bv16)
    ensures MaskedShift8(u) == MaskedShift8(v) ==> u == v
  {
  }

  lemma MaskedTrailer(c: bv16, lo: byte, hi: byte)
    ensures MaskedShift8(MaskedShift8(c ^ (lo as bv16)) ^ (hi as bv16)) == 0 <==> Join(hi, lo) == c
  {
  }

  /** Distinct registers stay distinct under the same byte, and distinct
      bytes give distinct registers from the same register. */
  lemma UpdateInjective(c1: bv16, b1: byte, c2: bv16, b2: byte)
    requires c1 == c2 || b1 == b2
    requires Update(c1, b1) == Update(c2, b2)
    ensures c1 == c2 && b1 == b2
  {
    UpdateIsMasked(c1, b1);
    UpdateIsMasked(c2, b2);
    MaskedShift8Injective(c1 ^ (b1 as bv16), c2 ^ (b2 as bv16));
  }

  /** Two trailing bytes zero the register exactly when they are the
      register's own low and high byte. */
  lemma UpdateTrailer(c: bv16, lo: byte, hi: byte)
    ensures Update(Update(c, lo), hi) == 0 <==> Join(hi, lo) == c
  {
    UpdateIsMasked(c, lo);
    UpdateIsMasked(Update(c, lo), hi);
    MaskedTrailer(c, lo, hi);
  }

  /** The checksum of a message followed by a two-byte trailer is zero
      exactly when the trailer, read high byte last, is the message's
      checksum: appending the CRC low byte first makes a whole frame check
      to zero. */
  lemma ResidueIff(m: seq<byte>, lo: byte, hi: byte)
    ensures Crc(m + [lo, hi]) == 0 <==> Join(hi, lo) == Crc(m)
  {
    CrcFromAppend(Init, m, [lo, hi]);
    assert [lo, hi][..1] == [lo];
    assert CrcFrom(Crc(m), [lo]) == Update(Crc(m), lo);
    UpdateTrailer(Crc(m), lo, hi);
  }

  /** Registers that differ before a string still differ after it. */
  lemma {:induction false} CrcFromDistinct(r1: bv16, r2: bv16, s: seq<byte>)
    requires r1 != r2
    ensures CrcFrom(r1, s) != CrcFrom(r2, s)
    decreases |s|
  {
    if |s| > 0 {
      var n := |s| - 1;
      CrcFromDistinct(r1, r2, s[..n]);
      if Update(CrcFrom(r1, s[..n]), s[n]) == Update(CrcFrom(r2, s[..n]), s[n]) {
        UpdateInjective(CrcFrom(r1, s[..n]), s[n], CrcFrom(r2, s[..n]), s[n]);
      }
    }
  }

  /** Changing any one byte of a string changes its checksum. For a whole
      frame, whose checksum is zero, every error confined to one byte (in
      particular every single flipped bit) is therefore detected. */
  lemma CrcDetectsByteError(f: seq<byte>, k: nat, v: byte)
    requires k < |f|
    requires v != f[k]
    ensures Crc(f[k := v]) != Crc(f)
  {
    var g := f[k := v];
    var prefix, suffix := f[..k], f[k + 1..];
    assert f == prefix + [f[k]] + suffix;
    assert g == prefix + [v] + suffix;
    CrcFromAppend(Init, prefix + [f[k]], suffix);
    CrcFromAppend(Init, prefix + [v], suffix);
    CrcFromAppend(Init, prefix, [f[k]]);
    CrcFromAppend(Init, prefix, [v]);
    var c := Crc(prefix);
    assert CrcFrom(c, [f[k]]) == Update(c, f[k]);
    assert CrcFrom(c, [v]) == Update(c, v);
    if Update(c, f[k]) == Update(c, v) {
      UpdateInjective(c, f[k], c, v);
    }
    CrcFromDistinct(Update(c, f[k]), Update(c, v), suffix);
  }

  /** The test vector of a read of ten holding registers from unit 1:
      01 03 00 00 00 0A has checksum 0xCDC5, sent as C5 CD. */
  lemma GoldenVector()
    ensures Crc([0x01, 0x03, 0x00, 0x00, 0x00, 0x0A]) == 0xCDC5
  {
    var s: seq<byte> := [0x01, 0x03, 0x00, 0x00, 0x00, 0x0A];
    ShiftsEight(0xFFFF ^ 0x01);
    ShiftsEight(0x807E ^ 0x03);
    ShiftsEight(0x2140 ^ 0x00);
    ShiftsEight(0xF020 ^ 0x00);
    ShiftsEight(0xD8F1 ^ 0x00);
    ShiftsEight(0x8419 ^ 0x0A);
    assert s[..1][..0] == [];
    assert CrcFrom(Init, s[..1]) == 0x807E;
    assert s[..2][..1] == s[..1];
    assert CrcFrom(Init, s[..2]) == 0x2140;
    assert s[..3][..2] == s[..2];
    assert CrcFrom(Init, s[..3]) == 0xF020;
    assert s[..4][..3] == s[..3];
    assert CrcFrom(Init, s[..4]) == 0xD8F1;
    assert s[..5][..4] == s[..4];
    assert CrcFrom(Init, s[..5]) == 0x8419;
    assert s[..6] == s;
  }
}
