/** Byte strings as the controller handles them: PHP binary strings become
    sequences of bytes, `pack('n', …)` and `unpack('n', …)` become
    conversions between a 16-bit word and two bytes (most significant
    first), and `substr` and a capped read become total slicing functions. */
module Bytes {

  type byte = bv8

  /** An unsigned 16-bit quantity: every value `pack('n', …)` encodes
      without truncation and every value `unpack('n', …)` can produce. */
  type word = bv16

  function Min(a: int, b: int): int {
    if a <= b then a else b
  }

  /** The word whose high byte is `hi` and low byte is `lo`
      (`hi << 8 | lo` in the source). */
  function Join(hi: byte, lo: byte): (w: word)
    ensures (w >> 8) as byte == hi && (w & 0xFF) as byte == lo
  {
    ((hi as word) << 8) | (lo as word)
  }

  function HighByte(w: word): byte {
    (w >> 8) as byte
  }

  function LowByte(w: word): byte {
    (w & 0xFF) as byte
  }

  /** `pack('n', w)`: the word as two bytes, most significant first. */
  function Be16(w: word): (r: seq<byte>)
    ensures |r| == 2
    ensures Join(r[0], r[1]) == w
  {
    [HighByte(w), LowByte(w)]
  }

  /** The low 16 bits of an integer, which is what `pack('n', v)` keeps
      (negative values in two's complement). */
  function Truncate16(v: int): word {
    (v % 0x1_0000) as word
  }

  /** `chr(n)`: the low 8 bits of an integer. */
  function ByteOf(n: int): byte {
    (n % 0x100) as byte
  }

  /** `pack('n', v)` of an arbitrary integer. */
  function Pack(v: int): (r: seq<byte>)
    ensures |r| == 2
  {
    Be16(Truncate16(v))
  }

  /** `unpack('n', substr(data, 2 * i, 2))[1]`: the i-th big-endian word. */
  function WordAt(data: seq<byte>, i: nat): (w: word)
    requires 2 * i + 2 <= |data|
    ensures Be16(w) == data[2 * i .. 2 * i + 2]
  {
    Join(data[2 * i], data[2 * i + 1])
  }

  /** The concatenation of `pack('n', v)` over a list of words, as the
      multiple-register write builds its payload: bytes 2i and 2i + 1 are
      the high and low byte of word i. */
  function Words(vs: seq<word>): (r: seq<byte>)
    ensures |r| == 2 * |vs|
  {
    seq(2 * |vs|, k requires 0 <= k < 2 * |vs| =>
      if k % 2 == 0 then HighByte(vs[k / 2]) else LowByte(vs[k / 2]))
  }

  /** Word i of a packed word list is `pack('n', vs[i])`. */
  lemma WordsSlice(vs: seq<word>, i: nat)
    requires i < |vs|
    ensures Words(vs)[2 * i .. 2 * i + 2] == Be16(vs[i])
  {
    var r := Words(vs);
    assert r[2 * i] == HighByte(vs[i]);
    assert r[2 * i + 1] == LowByte(vs[i]);
  }

  /** Reading word i of a packed word list gives back the i-th word. */
  lemma WordsRoundTrip(vs: seq<word>, i: nat)
    requires i < |vs|
    ensures WordAt(Words(vs), i) == vs[i]
  {
    WordsSlice(vs, i);
    var r := Words(vs);
    assert r[2 * i] == Be16(vs[i])[0] && r[2 * i + 1] == Be16(vs[i])[1];
  }

  /** PHP `substr(s, start, length)` for non-negative arguments: an empty
      string at or past the end, and at most the remaining bytes otherwise. */
  function Substr(s: seq<byte>, start: nat, length: nat): (r: seq<byte>)
    ensures |r| == if start >= |s| then 0 else Min(length, |s| - start)
    ensures |r| == 0 || start + |r| <= |s|
    ensures forall k :: 0 <= k < |r| ==> r[k] == s[start + k]
  {
    if start >= |s| then [] else s[start .. Min(|s|, start + length)]
  }

  /** The first at most n bytes, as one `fread(socket, n)` delivers them. */
  function Take(s: seq<byte>, n: nat): (r: seq<byte>)
    ensures |r| == Min(|s|, n)
    ensures r <= s
  {
    s[..Min(|s|, n)]
  }
}
