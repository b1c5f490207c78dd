/** Byte strings of the cifra modes. */
module CfBytes {
  type byte = bv8
  type Bytes = seq<byte>

  function XorByte(x: byte, y: byte): byte {
    x ^ y
  }

  /** xor_bb. */
  function Xor(x: Bytes, y: Bytes): (r: Bytes)
    requires |x| == |y|
    ensures |r| == |x|
  {
    seq(|x|, i requires 0 <= i < |x| => XorByte(x[i], y[i]))
  }

  lemma XorTwice(x: Bytes, k: Bytes)
    requires |x| == |k|
    ensures Xor(Xor(x, k), k) == x
  {
    hide XorByte;
    forall i | 0 <= i < |x| ensures Xor(Xor(x, k), k)[i] == x[i] { XorByteTwice(x[i], k[i]); }
  }

  lemma XorByteTwice(a: byte, b: byte)
    ensures XorByte(XorByte(a, b), b) == a
  {}

  function Repeat(b: byte, n: nat): (r: Bytes)
    ensures |r| == n
  {
    seq(n, _ => b)
  }

  /** All chunks one after the other. */
  function Joined(chunks: seq<Bytes>): Bytes {
    if chunks == [] then [] else Joined(chunks[..|chunks| - 1]) + chunks[|chunks| - 1]
  }

  lemma RepeatSplit(b: byte, m: nat, n: nat)
    ensures Repeat(b, m) + Repeat(b, n) == Repeat(b, m + n)
  {}
}
