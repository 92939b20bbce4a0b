/** Network (big-endian) byte order for the 16- and 32-bit fields of a TCP
    header and of its options. */
module ByteOrder {

  type byte = bv8

  /** The two bytes of `x`, most significant first. */
  function Be16(x: bv16): (r: seq<byte>)
    ensures |r| == 2
  {
    [(x >> 8) as byte, (x & 0xFF) as byte]
  }

  /** The 16-bit word whose big-endian bytes are `w`. */
  function FromBe16(w: seq<byte>): bv16
    requires |w| == 2
  {
    (w[0] as bv16 << 8) | w[1] as bv16
  }

  /** The four bytes of `x`, most significant first. */
  function Be32(x: bv32): (r: seq<byte>)
    ensures |r| == 4
  {
    [(x >> 24) as byte, ((x >> 16) & 0xFF) as byte, ((x >> 8) & 0xFF) as byte, (x & 0xFF) as byte]
  }

  /** The 32-bit word whose big-endian bytes are `w`. */
  function FromBe32(w: seq<byte>): bv32
    requires |w| == 4
  {
    (w[0] as bv32 << 24) | (w[1] as bv32 << 16) | (w[2] as bv32 << 8) | w[3] as bv32
  }

  /** Encoding a 16-bit word and decoding it again gives back the word. */
  lemma FromBe16OfBe16(x: bv16)
    ensures FromBe16(Be16(x)) == x
  {
  }

  /** Encoding a 32-bit word and decoding it again gives back the word. */
  lemma FromBe32OfBe32(x: bv32)
    ensures FromBe32(Be32(x)) == x
  {
  }

  /** Decoding two bytes and encoding the word again gives back the same bytes. */
  lemma Be16OfFromBe16(w: seq<byte>)
    requires |w| == 2
    ensures Be16(FromBe16(w)) == w
  {
  }

  /** Decoding four bytes and encoding the word again gives back the same bytes. */
  lemma Be32OfFromBe32(w: seq<byte>)
    requires |w| == 4
    ensures Be32(FromBe32(w)) == w
  {
  }
}
