/** 32-bit words of four bytes, big-endian. */
module CfWords {
  import opened CfBytes

  /** read32_be. */
  function Word(b0: byte, b1: byte, b2: byte, b3: byte): bv32 {
    ((b0 as bv32) << 24) | ((b1 as bv32) << 16) | ((b2 as bv32) << 8) | (b3 as bv32)
  }

  /** Byte `k` of a word, the leftmost being number 0. */
  function ByteOf(w: bv32, k: nat): byte
    requires k < 4
  {
    if k == 0 then ((w >> 24) & 0xFF) as bv8
    else if k == 1 then ((w >> 16) & 0xFF) as bv8
    else if k == 2 then ((w >> 8) & 0xFF) as bv8
    else (w & 0xFF) as bv8
  }

  /** write32_be. */
  function WordBytes(w: bv32): (r: Bytes)
    ensures |r| == 4
  {
    [ByteOf(w, 0), ByteOf(w, 1), ByteOf(w, 2), ByteOf(w, 3)]
  }

  lemma WordRoundTrip(b0: byte, b1: byte, b2: byte, b3: byte)
    ensures WordBytes(Word(b0, b1, b2, b3)) == [b0, b1, b2, b3]
  {}

  lemma BytesRoundTrip(w: bv32)
    ensures Word(ByteOf(w, 0), ByteOf(w, 1), ByteOf(w, 2), ByteOf(w, 3)) == w
  {}
}
