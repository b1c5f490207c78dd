/** gf128.c: doubling in the field of the CMAC subkeys. */
module CfGf128 {
  import opened CfBytes
  import opened CfWords
  import opened CfBitops
  import opened CfModes

  // ---------------------------------------------------------------- doubling

  /** Section 2.3 of RFC 4493: shift the bit string left by one, and fold a lost leading one in with
      the constant 0x87. */
  function Double(b: Block): (r: Block)
  {
    seq(16, i requires 0 <= i < 16 => DoubleByte(b, i))
  }

  function DoubleByte(b: Block, i: nat): byte
    requires i < 16
  {
    if i < 15 then ShiftByte(b[i], b[i + 1]) else Fold(b[15], b[0])
  }

  function ShiftByte(b: byte, next: byte): byte {
    (b << 1) | (next >> 7)
  }

  function Fold(last: byte, first: byte): byte {
    (last << 1) ^ (if first >> 7 == 1 then 0x87 else 0)
  }

  function ShiftWord(w: bv32, borrow: bv32): bv32 {
    (w << 1) | borrow
  }

  function TopBit(w: bv32): bv32 {
    w >> 31
  }

  /** The entry of the table that is xored in. */
  function Reduction(borrow: bv32): byte
    requires borrow < 2
  {
    if borrow == 1 then 0x87 else 0
  }

  function XorLow(w: bv32, t: byte): bv32 {
    w ^ (t as bv32)
  }

  /** A word doubled with the top bit of the next byte coming in. */
  lemma DoubleWord(b0: byte, b1: byte, b2: byte, b3: byte, n0: byte, n1: byte, n2: byte, n3: byte)
    ensures WordBytes(ShiftWord(Word(b0, b1, b2, b3), TopBit(Word(n0, n1, n2, n3)))) ==
      [ShiftByte(b0, b1), ShiftByte(b1, b2), ShiftByte(b2, b3), ShiftByte(b3, n0)]
  {}

  lemma LastWord(b0: byte, b1: byte, b2: byte, b3: byte, f0: byte, f1: byte, f2: byte, f3: byte)
    ensures TopBit(Word(f0, f1, f2, f3)) < 2
    ensures WordBytes(XorLow(ShiftWord(Word(b0, b1, b2, b3), 0), Reduction(TopBit(Word(f0, f1, f2, f3))))) ==
      [ShiftByte(b0, b1), ShiftByte(b1, b2), ShiftByte(b2, b3), Fold(b3, f0)]
  {}

  lemma TableEntry(borrow: bv32)
    requires borrow < 2
    ensures LowByte(borrow) as int < 2
    ensures Reduction(borrow) == [0x00, 0x87][LowByte(borrow) as int]
  {
    if borrow == 0 { assert LowByte(borrow) == 0; } else { assert LowByte(borrow) == 1; }
    NextByte(0);
    assert (1 as bv8) as int == 1;
  }

  lemma TopBitSmall(w: bv32)
    ensures TopBit(w) < 2
  {}

  function DoubledWords(w: seq<bv32>): (r: seq<bv32>)
    requires |w| == 4
    ensures |r| == 4
  {
    TopBitSmall(w[0]);
    [ShiftWord(w[0], TopBit(w[1])), ShiftWord(w[1], TopBit(w[2])), ShiftWord(w[2], TopBit(w[3])),
     XorLow(ShiftWord(w[3], 0), Reduction(TopBit(w[0])))]
  }

  /** The lookup of the reduction. */
  method SelectReduction(borrow: bv32) returns (t: byte)
    requires borrow < 2
    ensures t == Reduction(borrow)
  {
    hide Reduction, LowByte;
    TableEntry(borrow);
    t := SelectU8(borrow, [0x00, 0x87]);
  }

  /** cf_gf128_double: words are shifted from the last to the first; both arrays may be the same. */
  method DoubleWords(gf: array<bv32>, out: array<bv32>)
    requires gf.Length == 4 && out.Length == 4
    modifies out
    ensures out[..] == DoubledWords(old(gf[..]))
  {
    hide ShiftWord, TopBit, Reduction, XorLow;
    ghost var w := gf[..];
    var borrow: bv32 := 0;
    var inword := gf[3];
    out[3] := ShiftWord(inword, borrow);
    borrow := TopBit(inword);
    inword := gf[2];
    assert inword == w[2];
    out[2] := ShiftWord(inword, borrow);
    borrow := TopBit(inword);
    inword := gf[1];
    assert inword == w[1];
    out[1] := ShiftWord(inword, borrow);
    borrow := TopBit(inword);
    inword := gf[0];
    assert inword == w[0];
    out[0] := ShiftWord(inword, borrow);
    borrow := TopBit(inword);
    TopBitSmall(inword);
    var t := SelectReduction(borrow);
    out[3] := XorLow(out[3], t);
  }

  /** cf_gf128_frombytes_be. */
  function BlockWords(b: Block): (r: seq<bv32>)
    ensures |r| == 4
  {
    [Word(b[0], b[1], b[2], b[3]), Word(b[4], b[5], b[6], b[7]),
     Word(b[8], b[9], b[10], b[11]), Word(b[12], b[13], b[14], b[15])]
  }

  /** cf_gf128_tobytes_be. */
  function WordsBlock(w: seq<bv32>): (r: Block)
    requires |w| == 4
  {
    WordBytes(w[0]) + WordBytes(w[1]) + WordBytes(w[2]) + WordBytes(w[3])
  }

  function Quarter(b: Block, q: nat): (r: Bytes)
    requires q < 4
  {
    [DoubleByte(b, 4 * q), DoubleByte(b, 4 * q + 1), DoubleByte(b, 4 * q + 2), DoubleByte(b, 4 * q + 3)]
  }

  lemma Quarters(b: Block)
    ensures Double(b) == Quarter(b, 0) + Quarter(b, 1) + Quarter(b, 2) + Quarter(b, 3)
  {
    hide DoubleByte;
  }

  lemma QuarterWords(b: Block)
    ensures var d := DoubledWords(BlockWords(b));
      && Quarter(b, 0) == WordBytes(d[0]) && Quarter(b, 1) == WordBytes(d[1])
      && Quarter(b, 2) == WordBytes(d[2]) && Quarter(b, 3) == WordBytes(d[3])
  {
    hide Word, WordBytes, ShiftByte, Fold, ShiftWord, TopBit, Reduction, XorLow;
    TopBitSmall(BlockWords(b)[0]);
    DoubleWord(b[0], b[1], b[2], b[3], b[4], b[5], b[6], b[7]);
    DoubleWord(b[4], b[5], b[6], b[7], b[8], b[9], b[10], b[11]);
    DoubleWord(b[8], b[9], b[10], b[11], b[12], b[13], b[14], b[15]);
    LastWord(b[12], b[13], b[14], b[15], b[0], b[1], b[2], b[3]);
  }

  /** The word arithmetic is the doubling of bit strings. */
  lemma DoubledBlock(b: Block)
    ensures WordsBlock(DoubledWords(BlockWords(b))) == Double(b)
  {
    hide Double, Quarter, WordBytes, DoubledWords, BlockWords;
    Quarters(b);
    QuarterWords(b);
  }

  /** The words of a block, doubled and written back. */
  method DoubleBlock(b: Block) returns (r: Block)
    ensures r == Double(b)
  {
    hide BlockWords, WordsBlock, DoubledWords;
    DoubledBlock(b);
    var words := BlockWords(b);
    var gf := new bv32[4](i requires 0 <= i < 4 => words[i]);
    assert gf[..] == words;
    DoubleWords(gf, gf);
    r := WordsBlock(gf[..]);
  }
}
