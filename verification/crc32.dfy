/** CRC-32 as `hash/crc32` computes it: the algorithm of section 8 of RFC 1952. */
module Crc32 {
  // The polynomial is the reflected IEEE one, with one table lookup per byte. Words are
  // integers below 2^32: a right shift is a division and the complement a subtraction.

  type Byte = x: int | 0 <= x < 256
  type Word = x: int | 0 <= x <= ALL_ONES

  const ALL_ONES := 0xFFFF_FFFF
  const IEEE: Word := 0xEDB8_8320

  /** Exclusive or, bit by bit, of the bits below the power of two `limit`. */
  function Xor(a: nat, b: nat, limit: nat): (r: nat)
    requires limit > 0
    ensures r < limit
    decreases limit
  {
    if limit == 1 then 0 else (a + b) % 2 + 2 * Xor(a / 2, b / 2, limit / 2)
  }

  function XorWord(a: Word, b: Word): Word {
    Xor(a, b, ALL_ONES + 1)
  }

  function Complement(a: Word): Word {
    ALL_ONES - a
  }

  /** `rounds` steps of the shift register on one table index. */
  function Shift(c: Word, rounds: nat): Word
    decreases rounds
  {
    if rounds == 0 then c
    else Shift(if c % 2 == 1 then XorWord(IEEE, c / 2) else c / 2, rounds - 1)
  }

  function TableEntry(index: Byte): Word {
    Shift(index, 8)
  }

  function StepByte(c: Word, b: Byte): Word {
    XorWord(TableEntry(XorWord(c, b) % 256), c / 256)
  }

  /** The register after feeding every byte of `p`, without pre- or post-conditioning. */
  function Register(c: Word, p: seq<Byte>): Word
    decreases |p|
  {
    if p == [] then c else Register(StepByte(c, p[0]), p[1..])
  }

  /** `crc32.Update`: complements the running value on the way in and on the way out. */
  function Update(crc: Word, p: seq<Byte>): Word {
    Complement(Register(Complement(crc), p))
  }

  /** `crc32.ChecksumIEEE`. */
  function Checksum(p: seq<Byte>): Word {
    Update(0, p)
  }

  lemma {:induction false} RegisterConcat(c: Word, p: seq<Byte>, q: seq<Byte>)
    ensures Register(c, p + q) == Register(Register(c, p), q)
    decreases |p|
  {
    if p == [] {
      assert p + q == q;
    } else {
      assert (p + q)[1..] == p[1..] + q;
      RegisterConcat(StepByte(c, p[0]), p[1..], q);
    }
  }

  /** A checksum may be taken in two pieces: the writer hashes header and payload in one
      go, the readers continue the header's checksum over the payload. */
  lemma UpdateInPieces(crc: Word, p: seq<Byte>, q: seq<Byte>)
    ensures Update(Update(crc, p), q) == Update(crc, p + q)
  {
    RegisterConcat(Complement(crc), p, q);
  }
}
