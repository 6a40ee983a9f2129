/** Bytes and their little-endian 16- and 32-bit groups. */
module Bytes {

  type Byte = x: int | 0 <= x < 256

  type Word = x: int | 0 <= x < 0x1_0000_0000

  const TWO_32: int := 0x1_0000_0000

  function Le16(d: seq<Byte>, i: nat): int
    requires i + 2 <= |d|
  {
    (d[i] as int) + 0x100 * (d[i + 1] as int)
  }

  function Le32(d: seq<Byte>, i: nat): Word
    requires i + 4 <= |d|
  {
    Compose(d[i], d[i + 1], d[i + 2], d[i + 3])
  }

  /** The word with the given bytes, least significant first. */
  function Compose(b0: int, b1: int, b2: int, b3: int): (x: int)
    ensures 0 <= b0 < 256 && 0 <= b1 < 256 && 0 <= b2 < 256 && 0 <= b3 < 256 ==> 0 <= x < TWO_32
  {
    b0 + 0x100 * (b1 + 0x100 * (b2 + 0x100 * b3))
  }

  /** Byte n of a word, least significant first. */
  function WordByte(x: Word, n: nat): Byte
    requires n < 4
  {
    if n == 0 then x % 0x100
    else if n == 1 then x / 0x100 % 0x100
    else if n == 2 then x / 0x100 / 0x100 % 0x100
    else x / 0x100 / 0x100 / 0x100
  }

  function WordBytes(x: Word): (b: seq<Byte>)
    ensures |b| == 4
  {
    [WordByte(x, 0), WordByte(x, 1), WordByte(x, 2), WordByte(x, 3)]
  }

  /** Byte i of a group counts 256^i: the least significant byte comes first. */
  lemma LittleEndian(d: seq<Byte>, i: nat)
    requires i + 4 <= |d|
    ensures Le16(d, i) == (d[i] as int) + (d[i + 1] as int) * 0x100
    ensures Le32(d, i) ==
      (d[i] as int) + (d[i + 1] as int) * 0x100 + (d[i + 2] as int) * 0x1_0000 + (d[i + 3] as int) * 0x100_0000
  {
  }

  lemma WordRoundTrip(x: Word)
    ensures Compose(WordByte(x, 0), WordByte(x, 1), WordByte(x, 2), WordByte(x, 3)) == x
  {
    var q := x / 0x100;
    assert x == 0x100 * q + x % 0x100;
    assert q == 0x100 * (q / 0x100) + q % 0x100;
  }
}
