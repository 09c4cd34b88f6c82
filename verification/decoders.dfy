/** The two decoding loops of the read operations: packed coil and input
    bits (`extracted`, LangjiACController.php, lines 322-335) and scaled
    holding-register words (`readSensors`, lines 153-171, and
    `readConfiguration`, lines 185-221). Both read the byte count at
    offset 2 of the validated response and the data bytes after it. */
module Decoders {
  import opened Bytes
  import opened Registers

  /** `substr($response, 3, ord($response[2]))`: the data bytes the byte
      count announces, or fewer when the response is shorter. */
  function DataArea(response: seq<byte>): seq<byte>
    requires 3 <= |response|
  {
    Substr(response, 3, response[2] as int)
  }

  /** The register addresses a read of `quantity` items from `start` covers. */
  function AddressRange(start: int, quantity: nat): set<int> {
    set a | start <= a < start + quantity && InRange(a, start, quantity)
  }

  /** Membership in `AddressRange`, as a term the verifier can hang its
      quantifier instantiation on. */
  predicate InRange(a: int, start: int, quantity: nat) {
    start <= a < start + quantity
  }

  /** Bit i of a packed bit field: bit i % 8 (least significant first) of
      byte i / 8, picked out with a mask. */
  function BitAt(area: seq<byte>, i: nat): int
    requires i / 8 < |area|
  {
    if area[i / 8] & (1 << (i % 8)) != 0 then 1 else 0
  }

  /** `m` maps exactly the addresses start .. start + quantity - 1, address
      start + i to bit i of the field. */
  ghost predicate BitsDecoded(m: map<int, int>, area: seq<byte>, start: int, quantity: nat) {
    && m.Keys == AddressRange(start, quantity)
    && quantity <= 8 * |area|
    && forall a :: a in m ==> m[a] == BitAt(area, a - start)
  }

  /** `m` maps exactly the addresses start .. start + quantity - 1, address
      start + i to word i of the area scaled by the table's rule for that
      address. */
  ghost predicate RegistersDecoded(m: map<int, Value>, area: seq<byte>, start: int, quantity: nat,
                                   scaling: int -> Scaling) {
    && m.Keys == AddressRange(start, quantity)
    && 2 * quantity <= |area|
    && forall a {:trigger m[a]} :: a in m ==> m[a] == Scale(scaling(a), WordAt(area, a - start) as int)
  }

  /** The shift-and-mask of the source agrees with the mask test. */
  lemma ShiftAndMask(b: byte, k: nat)
    requires k < 8
    ensures ((b >> k) & 1) as int == if b & (1 << k) != 0 then 1 else 0
  {
    var t := (b >> k) & 1;
    assert t == 0 || t == 1;
    assert t == 1 <==> b & (1 << k) != 0;
  }

  /** `extracted`: one entry per requested bit. */
  method ExtractBits(response: seq<byte>, quantity: nat, startAddress: int) returns (bits: map<int, int>)
    requires 3 <= |response|
    requires quantity <= 8 * |DataArea(response)|
    ensures BitsDecoded(bits, DataArea(response), startAddress, quantity)
    ensures forall a :: a in bits ==> bits[a] == 0 || bits[a] == 1
  {
    var alarmBytes := DataArea(response);
    bits := map[];
    var i := 0;
    while i < quantity
      invariant 0 <= i <= quantity
      invariant bits.Keys == AddressRange(startAddress, i)
      invariant forall a :: a in bits ==> bits[a] == BitAt(alarmBytes, a - startAddress)
    {
      var byteIndex := i / 8;
      var bitIndex := i % 8;
      ShiftAndMask(alarmBytes[byteIndex], bitIndex);
      bits := bits[startAddress + i := ((alarmBytes[byteIndex] >> bitIndex) & 1) as int];
      i := i + 1;
    }
  }

  /** The loop of `readSensors` and `readConfiguration`, with the scaling
      table as a parameter. */
  method DecodeRegisters(response: seq<byte>, quantity: nat, startAddress: int, scaling: int -> Scaling)
    returns (values: map<int, Value>)
    requires 3 <= |response|
    requires 2 * quantity <= |DataArea(response)|
    ensures RegistersDecoded(values, DataArea(response), startAddress, quantity, scaling)
  {
    var data := DataArea(response);
    values := map[];
    var i := 0;
    while i < quantity
      invariant 0 <= i <= quantity
      invariant values.Keys == AddressRange(startAddress, i)
      invariant forall a :: a in values ==> values[a] == Scale(scaling(a), WordAt(data, a - startAddress) as int)
    {
      var value := WordAt(data, i) as int;
      values := values[startAddress + i := Scale(scaling(startAddress + i), value)];
      i := i + 1;
    }
  }

  /** The worked example: a bit field of one byte 0b00000101 read from
      address 0 gives 1, 0, 1, 0, 0, 0, 0, 0 at addresses 0 to 7. */
  lemma BitsExample(m: map<int, int>)
    requires BitsDecoded(m, [0x05], 0, 8)
    ensures m[0] == 1 && m[1] == 0 && m[2] == 1 && m[3] == 0
    ensures m[4] == 0 && m[5] == 0 && m[6] == 0 && m[7] == 0
  {
    assert forall a :: 0 <= a < 8 ==> InRange(a, 0, 8);
  }

  /** What a decoded map holds at the i-th address. */
  lemma RegisterAt(m: map<int, Value>, area: seq<byte>, start: int, quantity: nat,
                   scaling: int -> Scaling, i: nat)
    requires RegistersDecoded(m, area, start, quantity, scaling)
    requires i < quantity
    ensures 2 * i + 2 <= |area|
    ensures start + i in m && m[start + i] == Scale(scaling(start + i), WordAt(area, i) as int)
  {
    assert InRange(start + i, start, quantity);
    assert (start + i) - start == i;
  }

  /** Registers decoded from the bytes a multiple-register write sends
      carry the written words, scaled. */
  lemma DecodeWrittenWords(m: map<int, Value>, vs: seq<word>, start: int, scaling: int -> Scaling, i: nat)
    requires RegistersDecoded(m, Words(vs), start, |vs|, scaling)
    requires i < |vs|
    ensures start + i in m && m[start + i] == Scale(scaling(start + i), vs[i] as int)
  {
    var area := Words(vs);
    RegisterAt(m, area, start, |vs|, scaling, i);
    var w := WordAt(area, i);
    assert w == vs[i] by {
      WordsRoundTrip(vs, i);
    }
  }
}
