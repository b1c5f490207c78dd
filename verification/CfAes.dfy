/** cifra_eax_aes.c: the AES block functions and the key schedule of FIPS 197. */
module CfAes {
  import opened CfBytes
  import opened CfWords
  import opened CfBitops

  // ---------------------------------------------------------------- S-boxes

  /** One row of sixteen entries, chosen by the low four bits. */
  function Row(x: byte, a0: byte, a1: byte, a2: byte, a3: byte, a4: byte, a5: byte, a6: byte, a7: byte,
               a8: byte, a9: byte, a10: byte, a11: byte, a12: byte, a13: byte, a14: byte, a15: byte): byte {
    if x & 8 == 0 then
      if x & 4 == 0 then
        if x & 2 == 0 then if x & 1 == 0 then a0 else a1 else if x & 1 == 0 then a2 else a3
      else
        if x & 2 == 0 then if x & 1 == 0 then a4 else a5 else if x & 1 == 0 then a6 else a7
    else
      if x & 4 == 0 then
        if x & 2 == 0 then if x & 1 == 0 then a8 else a9 else if x & 1 == 0 then a10 else a11
      else
        if x & 2 == 0 then if x & 1 == 0 then a12 else a13 else if x & 1 == 0 then a14 else a15
  }

  /** The table S. */
  function S(x: byte): byte {
    if x < 0x80 then
      if x < 0x40 then
        if x < 0x20 then
          if x < 0x10 then
            Row(x, 0x63, 0x7c, 0x77, 0x7b, 0xf2, 0x6b, 0x6f, 0xc5, 0x30, 0x01, 0x67, 0x2b, 0xfe, 0xd7, 0xab, 0x76)
          else
            Row(x, 0xca, 0x82, 0xc9, 0x7d, 0xfa, 0x59, 0x47, 0xf0, 0xad, 0xd4, 0xa2, 0xaf, 0x9c, 0xa4, 0x72, 0xc0)
        else
          if x < 0x30 then
            Row(x, 0xb7, 0xfd, 0x93, 0x26, 0x36, 0x3f, 0xf7, 0xcc, 0x34, 0xa5, 0xe5, 0xf1, 0x71, 0xd8, 0x31, 0x15)
          else
            Row(x, 0x04, 0xc7, 0x23, 0xc3, 0x18, 0x96, 0x05, 0x9a, 0x07, 0x12, 0x80, 0xe2, 0xeb, 0x27, 0xb2, 0x75)
      else
        if x < 0x60 then
          if x < 0x50 then
            Row(x, 0x09, 0x83, 0x2c, 0x1a, 0x1b, 0x6e, 0x5a, 0xa0, 0x52, 0x3b, 0xd6, 0xb3, 0x29, 0xe3, 0x2f, 0x84)
          else
            Row(x, 0x53, 0xd1, 0x00, 0xed, 0x20, 0xfc, 0xb1, 0x5b, 0x6a, 0xcb, 0xbe, 0x39, 0x4a, 0x4c, 0x58, 0xcf)
        else
          if x < 0x70 then
            Row(x, 0xd0, 0xef, 0xaa, 0xfb, 0x43, 0x4d, 0x33, 0x85, 0x45, 0xf9, 0x02, 0x7f, 0x50, 0x3c, 0x9f, 0xa8)
          else
            Row(x, 0x51, 0xa3, 0x40, 0x8f, 0x92, 0x9d, 0x38, 0xf5, 0xbc, 0xb6, 0xda, 0x21, 0x10, 0xff, 0xf3, 0xd2)
    else
      if x < 0xc0 then
        if x < 0xa0 then
          if x < 0x90 then
            Row(x, 0xcd, 0x0c, 0x13, 0xec, 0x5f, 0x97, 0x44, 0x17, 0xc4, 0xa7, 0x7e, 0x3d, 0x64, 0x5d, 0x19, 0x73)
          else
            Row(x, 0x60, 0x81, 0x4f, 0xdc, 0x22, 0x2a, 0x90, 0x88, 0x46, 0xee, 0xb8, 0x14, 0xde, 0x5e, 0x0b, 0xdb)
        else
          if x < 0xb0 then
            Row(x, 0xe0, 0x32, 0x3a, 0x0a, 0x49, 0x06, 0x24, 0x5c, 0xc2, 0xd3, 0xac, 0x62, 0x91, 0x95, 0xe4, 0x79)
          else
            Row(x, 0xe7, 0xc8, 0x37, 0x6d, 0x8d, 0xd5, 0x4e, 0xa9, 0x6c, 0x56, 0xf4, 0xea, 0x65, 0x7a, 0xae, 0x08)
      else
        if x < 0xe0 then
          if x < 0xd0 then
            Row(x, 0xba, 0x78, 0x25, 0x2e, 0x1c, 0xa6, 0xb4, 0xc6, 0xe8, 0xdd, 0x74, 0x1f, 0x4b, 0xbd, 0x8b, 0x8a)
          else
            Row(x, 0x70, 0x3e, 0xb5, 0x66, 0x48, 0x03, 0xf6, 0x0e, 0x61, 0x35, 0x57, 0xb9, 0x86, 0xc1, 0x1d, 0x9e)
        else
          if x < 0xf0 then
            Row(x, 0xe1, 0xf8, 0x98, 0x11, 0x69, 0xd9, 0x8e, 0x94, 0x9b, 0x1e, 0x87, 0xe9, 0xce, 0x55, 0x28, 0xdf)
          else
            Row(x, 0x8c, 0xa1, 0x89, 0x0d, 0xbf, 0xe6, 0x42, 0x68, 0x41, 0x99, 0x2d, 0x0f, 0xb0, 0x54, 0xbb, 0x16)
  }

  /** The table S_inv. */
  function InvS(x: byte): byte {
    if x < 0x80 then
      if x < 0x40 then
        if x < 0x20 then
          if x < 0x10 then
            Row(x, 0x52, 0x09, 0x6a, 0xd5, 0x30, 0x36, 0xa5, 0x38, 0xbf, 0x40, 0xa3, 0x9e, 0x81, 0xf3, 0xd7, 0xfb)
          else
            Row(x, 0x7c, 0xe3, 0x39, 0x82, 0x9b, 0x2f, 0xff, 0x87, 0x34, 0x8e, 0x43, 0x44, 0xc4, 0xde, 0xe9, 0xcb)
        else
          if x < 0x30 then
            Row(x, 0x54, 0x7b, 0x94, 0x32, 0xa6, 0xc2, 0x23, 0x3d, 0xee, 0x4c, 0x95, 0x0b, 0x42, 0xfa, 0xc3, 0x4e)
          else
            Row(x, 0x08, 0x2e, 0xa1, 0x66, 0x28, 0xd9, 0x24, 0xb2, 0x76, 0x5b, 0xa2, 0x49, 0x6d, 0x8b, 0xd1, 0x25)
      else
        if x < 0x60 then
          if x < 0x50 then
            Row(x, 0x72, 0xf8, 0xf6, 0x64, 0x86, 0x68, 0x98, 0x16, 0xd4, 0xa4, 0x5c, 0xcc, 0x5d, 0x65, 0xb6, 0x92)
          else
            Row(x, 0x6c, 0x70, 0x48, 0x50, 0xfd, 0xed, 0xb9, 0xda, 0x5e, 0x15, 0x46, 0x57, 0xa7, 0x8d, 0x9d, 0x84)
        else
          if x < 0x70 then
            Row(x, 0x90, 0xd8, 0xab, 0x00, 0x8c, 0xbc, 0xd3, 0x0a, 0xf7, 0xe4, 0x58, 0x05, 0xb8, 0xb3, 0x45, 0x06)
          else
            Row(x, 0xd0, 0x2c, 0x1e, 0x8f, 0xca, 0x3f, 0x0f, 0x02, 0xc1, 0xaf, 0xbd, 0x03, 0x01, 0x13, 0x8a, 0x6b)
    else
      if x < 0xc0 then
        if x < 0xa0 then
          if x < 0x90 then
            Row(x, 0x3a, 0x91, 0x11, 0x41, 0x4f, 0x67, 0xdc, 0xea, 0x97, 0xf2, 0xcf, 0xce, 0xf0, 0xb4, 0xe6, 0x73)
          else
            Row(x, 0x96, 0xac, 0x74, 0x22, 0xe7, 0xad, 0x35, 0x85, 0xe2, 0xf9, 0x37, 0xe8, 0x1c, 0x75, 0xdf, 0x6e)
        else
          if x < 0xb0 then
            Row(x, 0x47, 0xf1, 0x1a, 0x71, 0x1d, 0x29, 0xc5, 0x89, 0x6f, 0xb7, 0x62, 0x0e, 0xaa, 0x18, 0xbe, 0x1b)
          else
            Row(x, 0xfc, 0x56, 0x3e, 0x4b, 0xc6, 0xd2, 0x79, 0x20, 0x9a, 0xdb, 0xc0, 0xfe, 0x78, 0xcd, 0x5a, 0xf4)
      else
        if x < 0xe0 then
          if x < 0xd0 then
            Row(x, 0x1f, 0xdd, 0xa8, 0x33, 0x88, 0x07, 0xc7, 0x31, 0xb1, 0x12, 0x10, 0x59, 0x27, 0x80, 0xec, 0x5f)
          else
            Row(x, 0x60, 0x51, 0x7f, 0xa9, 0x19, 0xb5, 0x4a, 0x0d, 0x2d, 0xe5, 0x7a, 0x9f, 0x93, 0xc9, 0x9c, 0xef)
        else
          if x < 0xf0 then
            Row(x, 0xa0, 0xe0, 0x3b, 0x4d, 0xae, 0x2a, 0xf5, 0xb0, 0xc8, 0xeb, 0xbb, 0x3c, 0x83, 0x53, 0x99, 0x61)
          else
            Row(x, 0x17, 0x2b, 0x04, 0x7e, 0xba, 0x77, 0xd6, 0x26, 0xe1, 0x69, 0x14, 0x63, 0x55, 0x21, 0x0c, 0x7d)
  }

  // The tables are compared a quarter at a time: one proof over all 256 entries is slow.

  lemma InverseFirst(x: byte)
    requires x < 0x40
    ensures InvS(S(x)) == x
  {}

  lemma InverseSecond(x: byte)
    requires 0x40 <= x < 0x80
    ensures InvS(S(x)) == x
  {}

  lemma InverseThird(x: byte)
    requires 0x80 <= x < 0xc0
    ensures InvS(S(x)) == x
  {}

  lemma InverseFourth(x: byte)
    requires 0xc0 <= x
    ensures InvS(S(x)) == x
  {}

  lemma BackFirst(x: byte)
    requires x < 0x40
    ensures S(InvS(x)) == x
  {}

  lemma BackSecond(x: byte)
    requires 0x40 <= x < 0x80
    ensures S(InvS(x)) == x
  {}

  lemma BackThird(x: byte)
    requires 0x80 <= x < 0xc0
    ensures S(InvS(x)) == x
  {}

  lemma BackFourth(x: byte)
    requires 0xc0 <= x
    ensures S(InvS(x)) == x
  {}

  /** The two tables are inverse permutations. */
  lemma SboxInverse(x: byte)
    ensures InvS(S(x)) == x
  {
    hide S, InvS;
    if x < 0x40 { InverseFirst(x); } else if x < 0x80 { InverseSecond(x); } else if x < 0xc0 { InverseThird(x); } else { InverseFourth(x); }
  }

  lemma SboxInverseBack(x: byte)
    ensures S(InvS(x)) == x
  {
    hide S, InvS;
    if x < 0x40 { BackFirst(x); } else if x < 0x80 { BackSecond(x); } else if x < 0xc0 { BackThird(x); } else { BackFourth(x); }
  }

  /** The byte with number `i`. */
  function ByteAt(i: nat): byte {
    if i == 0 then 0 else ByteAt(i - 1) + 1
  }

  lemma {:induction false} ByteAtIs(i: nat)
    requires i < 256
    ensures ByteAt(i) as int == i
  {
    NextByte(if i == 0 then 0 else ByteAt(i - 1));
    if i > 0 { ByteAtIs(i - 1); }
  }

  /** A box as the array of 256 bytes that is scanned. */
  function Table(box: byte -> byte): (r: Bytes)
    ensures |r| == 256
  {
    seq(256, i requires 0 <= i < 256 => box(ByteAt(i)))
  }

  lemma TableAt(box: byte -> byte, x: byte)
    ensures (x as int) < 256 && Table(box)[x as int] == box(x)
  {
    ByteAtIs(x as int);
    SameByte(ByteAt(x as int), x);
  }

  // ---------------------------------------------------------------- words

  /** sub_word by table lookup. */
  function SubWith(box: byte -> byte, w: bv32): bv32 {
    Word(box(ByteOf(w, 0)), box(ByteOf(w, 1)), box(ByteOf(w, 2)), box(ByteOf(w, 3)))
  }

  /** sub_word as written: one masked scan of the table for all four bytes. */
  method SubWord(w: bv32, box: byte -> byte) returns (r: bv32)
    ensures r == SubWith(box, w)
  {
    hide Word, ByteOf, Table;
    var a, b, c, d := ByteOf(w, 0), ByteOf(w, 1), ByteOf(w, 2), ByteOf(w, 3);
    TableAt(box, a); TableAt(box, b); TableAt(box, c); TableAt(box, d);
    a, b, c, d := SelectU8x4(a, b, c, d, Table(box));
    r := Word(a, b, c, d);
  }

  lemma WordOfBytes(w: bv32, b0: byte, b1: byte, b2: byte, b3: byte)
    requires w == Word(b0, b1, b2, b3)
    ensures ByteOf(w, 0) == b0 && ByteOf(w, 1) == b1 && ByteOf(w, 2) == b2 && ByteOf(w, 3) == b3
  {}

  lemma SubWithInverse(w: bv32)
    ensures SubWith(InvS, SubWith(S, w)) == w
  {
    hide Word, ByteOf, S, InvS;
    var b0, b1, b2, b3 := ByteOf(w, 0), ByteOf(w, 1), ByteOf(w, 2), ByteOf(w, 3);
    WordOfBytes(SubWith(S, w), S(b0), S(b1), S(b2), S(b3));
    SboxInverse(b0); SboxInverse(b1); SboxInverse(b2); SboxInverse(b3);
    BytesRoundTrip(w);
  }

  /** gf_poly_mul2: four field elements doubled at once. */
  function Mul2(x: bv32): bv32 {
    ((x & 0x7f7f7f7f) << 1) ^ (((x & 0x80808080) >> 7) * 0x1b)
  }

  /** mix_column, given the word and its double. The three terms in parentheses are rotations to the
      right by 24, 16 and 8 bits. */
  function MixForm(x: bv32, x2: bv32): bv32 {
    x2 ^ (((x ^ x2) >> 24) | ((x ^ x2) << 8)) ^ ((x >> 16) | (x << 16)) ^ ((x >> 8) | (x << 24))
  }

  function MixColumn(x: bv32): bv32 {
    MixForm(x, Mul2(x))
  }

  /** inv_mix_column, given the word, its double, its fourfold and its eightfold. */
  function InvForm(x: bv32, x2: bv32, x4: bv32, x8: bv32): bv32 {
    var x9 := x ^ x8;
    var x11 := x2 ^ x9;
    var x13 := x4 ^ x9;
    x ^ x2 ^ x13 ^ ((x11 >> 24) | (x11 << 8)) ^ ((x13 >> 16) | (x13 << 16)) ^ ((x9 >> 8) | (x9 << 24))
  }

  function InvMixColumn(x: bv32): bv32 {
    InvForm(x, Mul2(x), Mul2(Mul2(x)), Mul2(Mul2(Mul2(x))))
  }

  // ---------------------------------------------------------------- the inverse column
  // Lemmas named ...Raw spell a function's argument out in bit operations; the lemma after each puts
  // the name back.

  /** With independent doubles the matrix product is the identity: all other terms cancel. */
  lemma InvMixRaw(x: bv32, a: bv32, b: bv32, c: bv32, d: bv32)
    ensures InvForm(
      a ^ (((x ^ a) >> 24) | ((x ^ a) << 8)) ^ ((x >> 16) | (x << 16)) ^ ((x >> 8) | (x << 24)),
      b ^ (((a ^ b) >> 24) | ((a ^ b) << 8)) ^ ((a >> 16) | (a << 16)) ^ ((a >> 8) | (a << 24)),
      c ^ (((b ^ c) >> 24) | ((b ^ c) << 8)) ^ ((b >> 16) | (b << 16)) ^ ((b >> 8) | (b << 24)),
      d ^ (((c ^ d) >> 24) | ((c ^ d) << 8)) ^ ((c >> 16) | (c << 16)) ^ ((c >> 8) | (c << 24))) == x
  {}

  lemma InvMix(x: bv32, a: bv32, b: bv32, c: bv32, d: bv32)
    ensures InvForm(MixForm(x, a), MixForm(a, b), MixForm(b, c), MixForm(c, d)) == x
  {
    InvMixRaw(x, a, b, c, d);
    hide InvForm;
  }

  /** Doubling without the multiplication: the four factors of 0x1b do not meet. */
  function Mul2Shifts(x: bv32): bv32 {
    ((x & 0x7f7f7f7f) << 1) ^ ((x & 0x80808080) >> 7) ^ (((x & 0x80808080) >> 7) << 1) ^ (((x & 0x80808080) >> 7) << 3) ^ (((x & 0x80808080) >> 7) << 4)
  }

  lemma Mul2IsShifts(x: bv32)
    ensures Mul2(x) == Mul2Shifts(x)
  {}

  lemma ShiftsMixRaw(x: bv32, d: bv32)
    ensures Mul2Shifts(d ^ (((x ^ d) >> 24) | ((x ^ d) << 8)) ^ ((x >> 16) | (x << 16)) ^ ((x >> 8) | (x << 24))) == MixForm(
      ((x & 0x7f7f7f7f) << 1) ^ ((x & 0x80808080) >> 7) ^ (((x & 0x80808080) >> 7) << 1) ^ (((x & 0x80808080) >> 7) << 3) ^ (((x & 0x80808080) >> 7) << 4),
      ((d & 0x7f7f7f7f) << 1) ^ ((d & 0x80808080) >> 7) ^ (((d & 0x80808080) >> 7) << 1) ^ (((d & 0x80808080) >> 7) << 3) ^ (((d & 0x80808080) >> 7) << 4))
  {}

  lemma ShiftsMixLeft(x: bv32, d: bv32)
    ensures Mul2Shifts(MixForm(x, d)) == MixForm(
      ((x & 0x7f7f7f7f) << 1) ^ ((x & 0x80808080) >> 7) ^ (((x & 0x80808080) >> 7) << 1) ^ (((x & 0x80808080) >> 7) << 3) ^ (((x & 0x80808080) >> 7) << 4),
      ((d & 0x7f7f7f7f) << 1) ^ ((d & 0x80808080) >> 7) ^ (((d & 0x80808080) >> 7) << 1) ^ (((d & 0x80808080) >> 7) << 3) ^ (((d & 0x80808080) >> 7) << 4))
  {
    ShiftsMixRaw(x, d);
    hide Mul2Shifts;
  }

  lemma ShiftsMix(x: bv32, d: bv32)
    ensures Mul2Shifts(MixForm(x, d)) == MixForm(Mul2Shifts(x), Mul2Shifts(d))
  {
    ShiftsMixLeft(x, d);
    hide MixForm;
  }

  /** Doubling goes through the mixing. */
  lemma Mul2Mix(x: bv32, d: bv32)
    ensures Mul2(MixForm(x, d)) == MixForm(Mul2(x), Mul2(d))
  {
    hide Mul2, Mul2Shifts, MixForm;
    ShiftsMix(x, d);
    Mul2IsShifts(x); Mul2IsShifts(d); Mul2IsShifts(MixForm(x, d));
  }

  /** inv_mix_column undoes mix_column. */
  lemma MixInverse(x: bv32)
    ensures InvMixColumn(MixColumn(x)) == x
  {
    hide Mul2, MixForm, InvForm;
    var a := Mul2(x);
    var b := Mul2(a);
    var c := Mul2(b);
    Mul2Mix(x, a); Mul2Mix(a, b); Mul2Mix(b, c);
    InvMix(x, a, b, c, Mul2(c));
  }

  // ---------------------------------------------------------------- columns as FIPS 197 has them

  /** xtime of section 4.2.1 of FIPS 197. */
  function Xtime(b: byte): byte {
    if b & 0x80 == 0 then b << 1 else (b << 1) ^ 0x1b
  }

  /** The product in GF(2^8) of section 4.2 of FIPS 197: a sum of doubles, written out because nested
      calls on words are slow to unfold. */
  function FieldMul(a: byte, b: byte): byte {
    var a1 := (a << 1) ^ (if a & 0x80 == 0 then 0 else 0x1b);
    var a2 := (a1 << 1) ^ (if a1 & 0x80 == 0 then 0 else 0x1b);
    var a3 := (a2 << 1) ^ (if a2 & 0x80 == 0 then 0 else 0x1b);
    var a4 := (a3 << 1) ^ (if a3 & 0x80 == 0 then 0 else 0x1b);
    var a5 := (a4 << 1) ^ (if a4 & 0x80 == 0 then 0 else 0x1b);
    var a6 := (a5 << 1) ^ (if a5 & 0x80 == 0 then 0 else 0x1b);
    var a7 := (a6 << 1) ^ (if a6 & 0x80 == 0 then 0 else 0x1b);
    (if b & 1 == 0 then 0 else a) ^ (if b & 2 == 0 then 0 else a1) ^ (if b & 4 == 0 then 0 else a2)
    ^ (if b & 8 == 0 then 0 else a3) ^ (if b & 16 == 0 then 0 else a4) ^ (if b & 32 == 0 then 0 else a5)
    ^ (if b & 64 == 0 then 0 else a6) ^ (if b & 128 == 0 then 0 else a7)
  }

  /** Multiplication by {02} is xtime. */
  lemma XtimeIsTwo(a: byte)
    ensures FieldMul(a, 2) == Xtime(a)
  {}

  /** The affine map of section 5.1.1 of FIPS 197, a sum of rotations, and the map back. */
  function Affine(b: byte): byte {
    b ^ ((b << 1) | (b >> 7)) ^ ((b << 2) | (b >> 6)) ^ ((b << 3) | (b >> 5)) ^ ((b << 4) | (b >> 4)) ^ 0x63
  }

  function AffineBack(y: byte): byte {
    ((y << 1) | (y >> 7)) ^ ((y << 3) | (y >> 5)) ^ ((y << 6) | (y >> 2)) ^ 0x05
  }

  lemma AffineTwice(y: byte)
    ensures Affine(AffineBack(y)) == y
  {}

  lemma InvertsFirst(x: byte)
    requires x < 0x40
    ensures x != 0 ==> FieldMul(x, AffineBack(S(x))) == 1
  {
    if x < 0x10 {} else if x < 0x20 {} else if x < 0x30 {}
  }

  lemma InvertsSecond(x: byte)
    requires 0x40 <= x < 0x80
    ensures x != 0 ==> FieldMul(x, AffineBack(S(x))) == 1
  {
    if x < 0x50 {} else if x < 0x60 {} else if x < 0x70 {}
  }

  lemma InvertsThird(x: byte)
    requires 0x80 <= x < 0xc0
    ensures x != 0 ==> FieldMul(x, AffineBack(S(x))) == 1
  {
    if x < 0x90 {} else if x < 0xa0 {} else if x < 0xb0 {}
  }

  lemma InvertsFourth(x: byte)
    requires 0xc0 <= x
    ensures x != 0 ==> FieldMul(x, AffineBack(S(x))) == 1
  {
    if x < 0xd0 {} else if x < 0xe0 {} else if x < 0xf0 {}
  }

  lemma SboxInverts(x: byte)
    ensures x != 0 ==> FieldMul(x, AffineBack(S(x))) == 1
  {
    hide S, FieldMul, AffineBack;
    if x < 0x40 { InvertsFirst(x); } else if x < 0x80 { InvertsSecond(x); } else if x < 0xc0 { InvertsThird(x); } else { InvertsFourth(x); }
  }

  /** Section 5.1.1 of FIPS 197: every entry of the table is the affine image of the inverse in the
      field, zero being taken for its own inverse. */
  lemma SboxIsFips(x: byte) returns (b: byte)
    ensures S(x) == Affine(b)
    ensures if x == 0 then b == 0 else FieldMul(x, b) == 1
  {
    b := AffineBack(S(x));
    AffineTwice(S(x));
    SboxInverts(x);
    if x == 0 { assert S(0) == 0x63; }
  }

  lemma MixBytesRaw(b0: byte, b1: byte, b2: byte, b3: byte, d0: byte, d1: byte, d2: byte, d3: byte)
    ensures MixForm(
      ((b0 as bv32) << 24) | ((b1 as bv32) << 16) | ((b2 as bv32) << 8) | (b3 as bv32),
      ((d0 as bv32) << 24) | ((d1 as bv32) << 16) | ((d2 as bv32) << 8) | (d3 as bv32))
      == Word(d0 ^ b1 ^ d1 ^ b2 ^ b3, d1 ^ b2 ^ d2 ^ b3 ^ b0, d2 ^ b3 ^ d3 ^ b0 ^ b1, d3 ^ b0 ^ d0 ^ b1 ^ b2)
  {}

  lemma MixBytes(b0: byte, b1: byte, b2: byte, b3: byte, d0: byte, d1: byte, d2: byte, d3: byte)
    ensures MixForm(Word(b0, b1, b2, b3), Word(d0, d1, d2, d3))
      == Word(d0 ^ b1 ^ d1 ^ b2 ^ b3, d1 ^ b2 ^ d2 ^ b3 ^ b0, d2 ^ b3 ^ d3 ^ b0 ^ b1, d3 ^ b0 ^ d0 ^ b1 ^ b2)
  {
    MixBytesRaw(b0, b1, b2, b3, d0, d1, d2, d3);
    hide MixForm;
  }

  lemma Mul2Bytes(b0: byte, b1: byte, b2: byte, b3: byte)
    ensures Mul2(Word(b0, b1, b2, b3)) == Word(Xtime(b0), Xtime(b1), Xtime(b2), Xtime(b3))
  {}

  /** {02} b0 + {03} b1 + b2 + b3, given the doubles d0 and d1. */
  function MixedByte(d0: byte, d1: byte, b1: byte, b2: byte, b3: byte): byte {
    d0 ^ b1 ^ d1 ^ b2 ^ b3
  }

  lemma MixNamed(b0: byte, b1: byte, b2: byte, b3: byte, d0: byte, d1: byte, d2: byte, d3: byte)
    ensures MixForm(Word(b0, b1, b2, b3), Word(d0, d1, d2, d3))
      == Word(MixedByte(d0, d1, b1, b2, b3), MixedByte(d1, d2, b2, b3, b0),
              MixedByte(d2, d3, b3, b0, b1), MixedByte(d3, d0, b0, b1, b2))
  {
    MixBytes(b0, b1, b2, b3, d0, d1, d2, d3);
    hide MixForm, Word;
  }

  /** Section 5.1.3 of FIPS 197: each byte of the new column is {02} times the byte in its place plus
      {03} times the next one plus the other two. */
  lemma MixColumnIsFips(b0: byte, b1: byte, b2: byte, b3: byte)
    ensures var d0, d1, d2, d3 := Xtime(b0), Xtime(b1), Xtime(b2), Xtime(b3);
      MixColumn(Word(b0, b1, b2, b3))
      == Word(MixedByte(d0, d1, b1, b2, b3), MixedByte(d1, d2, b2, b3, b0),
              MixedByte(d2, d3, b3, b0, b1), MixedByte(d3, d0, b0, b1, b2))
  {
    hide MixForm, Mul2, Word, Xtime, MixedByte;
    Mul2Bytes(b0, b1, b2, b3);
    MixNamed(b0, b1, b2, b3, Xtime(b0), Xtime(b1), Xtime(b2), Xtime(b3));
  }

  // ---------------------------------------------------------------- the state

  /** The four columns of the state. */
  datatype State = State(c0: bv32, c1: bv32, c2: bv32, c3: bv32)

  function Plus(x: bv32, y: bv32): bv32 { x ^ y }

  lemma PlusTwice(x: bv32, y: bv32)
    ensures Plus(Plus(x, y), y) == x
  {}

  function AddKey(s: State, k: State): State {
    State(Plus(s.c0, k.c0), Plus(s.c1, k.c1), Plus(s.c2, k.c2), Plus(s.c3, k.c3))
  }

  function SubBlock(s: State): State {
    State(SubWith(S, s.c0), SubWith(S, s.c1), SubWith(S, s.c2), SubWith(S, s.c3))
  }

  function InvSubBlock(s: State): State {
    State(SubWith(InvS, s.c0), SubWith(InvS, s.c1), SubWith(InvS, s.c2), SubWith(InvS, s.c3))
  }

  /** Row r of the state moves r columns to the left. */
  function ShiftRows(s: State): State {
    State(
      Word(ByteOf(s.c0, 0), ByteOf(s.c1, 1), ByteOf(s.c2, 2), ByteOf(s.c3, 3)),
      Word(ByteOf(s.c1, 0), ByteOf(s.c2, 1), ByteOf(s.c3, 2), ByteOf(s.c0, 3)),
      Word(ByteOf(s.c2, 0), ByteOf(s.c3, 1), ByteOf(s.c0, 2), ByteOf(s.c1, 3)),
      Word(ByteOf(s.c3, 0), ByteOf(s.c0, 1), ByteOf(s.c1, 2), ByteOf(s.c2, 3)))
  }

  function InvShiftRows(s: State): State {
    State(
      Word(ByteOf(s.c0, 0), ByteOf(s.c3, 1), ByteOf(s.c2, 2), ByteOf(s.c1, 3)),
      Word(ByteOf(s.c1, 0), ByteOf(s.c0, 1), ByteOf(s.c3, 2), ByteOf(s.c2, 3)),
      Word(ByteOf(s.c2, 0), ByteOf(s.c1, 1), ByteOf(s.c0, 2), ByteOf(s.c3, 3)),
      Word(ByteOf(s.c3, 0), ByteOf(s.c2, 1), ByteOf(s.c1, 2), ByteOf(s.c0, 3)))
  }

  function MixColumns(s: State): State {
    State(MixColumn(s.c0), MixColumn(s.c1), MixColumn(s.c2), MixColumn(s.c3))
  }

  function InvMixColumns(s: State): State {
    State(InvMixColumn(s.c0), InvMixColumn(s.c1), InvMixColumn(s.c2), InvMixColumn(s.c3))
  }

  // ---------------------------------------------------------------- every step has an inverse

  lemma AddKeyTwice(s: State, k: State)
    ensures AddKey(AddKey(s, k), k) == s
  {
    hide Plus;
    PlusTwice(s.c0, k.c0); PlusTwice(s.c1, k.c1); PlusTwice(s.c2, k.c2); PlusTwice(s.c3, k.c3);
  }

  lemma SubBlockInverse(s: State)
    ensures InvSubBlock(SubBlock(s)) == s
  {
    hide SubWith;
    SubWithInverse(s.c0); SubWithInverse(s.c1); SubWithInverse(s.c2); SubWithInverse(s.c3);
  }

  lemma WordIs(b0: byte, b1: byte, b2: byte, b3: byte)
    ensures var w := Word(b0, b1, b2, b3);
      ByteOf(w, 0) == b0 && ByteOf(w, 1) == b1 && ByteOf(w, 2) == b2 && ByteOf(w, 3) == b3
  {}

  lemma ShiftRowsInverse(s: State)
    ensures InvShiftRows(ShiftRows(s)) == s
  {
    hide Word, ByteOf;
    WordIs(ByteOf(s.c0, 0), ByteOf(s.c1, 1), ByteOf(s.c2, 2), ByteOf(s.c3, 3));
    WordIs(ByteOf(s.c1, 0), ByteOf(s.c2, 1), ByteOf(s.c3, 2), ByteOf(s.c0, 3));
    WordIs(ByteOf(s.c2, 0), ByteOf(s.c3, 1), ByteOf(s.c0, 2), ByteOf(s.c1, 3));
    WordIs(ByteOf(s.c3, 0), ByteOf(s.c0, 1), ByteOf(s.c1, 2), ByteOf(s.c2, 3));
    BytesRoundTrip(s.c0); BytesRoundTrip(s.c1); BytesRoundTrip(s.c2); BytesRoundTrip(s.c3);
  }

  lemma MixColumnsInverse(s: State)
    ensures InvMixColumns(MixColumns(s)) == s
  {
    hide MixColumn, InvMixColumn;
    MixInverse(s.c0); MixInverse(s.c1); MixInverse(s.c2); MixInverse(s.c3);
  }

  // ---------------------------------------------------------------- rounds

  /** Four words of the key array. */
  function KeyAt(ks: seq<bv32>, round: nat): State
    requires 4 * round + 4 <= |ks|
  {
    State(ks[4 * round], ks[4 * round + 1], ks[4 * round + 2], ks[4 * round + 3])
  }

  /** The state after `round` full rounds. */
  function Forward(ks: seq<bv32>, s: State, round: nat): State
    requires 4 * round + 4 <= |ks|
    decreases round
  {
    if round == 0 then AddKey(s, KeyAt(ks, 0))
    else AddKey(MixColumns(ShiftRows(SubBlock(Forward(ks, s, round - 1)))), KeyAt(ks, round))
  }

  /** Section 5.1 of FIPS 197. */
  function Cipher(ks: seq<bv32>, s: State, rounds: nat): State
    requires rounds >= 1 && 4 * rounds + 4 <= |ks|
  {
    AddKey(ShiftRows(SubBlock(Forward(ks, s, rounds - 1))), KeyAt(ks, rounds))
  }

  /** Decryption rounds from `round` down to 1. */
  function Backward(ks: seq<bv32>, s: State, round: nat): State
    requires 4 * round + 4 <= |ks|
    decreases round
  {
    if round == 0 then s
    else Backward(ks, InvMixColumns(AddKey(InvSubBlock(InvShiftRows(s)), KeyAt(ks, round))), round - 1)
  }

  /** Section 5.3 of FIPS 197. */
  function InvCipher(ks: seq<bv32>, s: State, rounds: nat): State
    requires rounds >= 1 && 4 * rounds + 4 <= |ks|
  {
    var t := Backward(ks, AddKey(s, KeyAt(ks, rounds)), rounds - 1);
    AddKey(InvSubBlock(InvShiftRows(t)), KeyAt(ks, 0))
  }

  /** One decryption round undoes the encryption round with the same key. */
  lemma RoundBack(ks: seq<bv32>, s: State, round: nat)
    requires round >= 1 && 4 * round + 4 <= |ks|
    ensures InvMixColumns(AddKey(InvSubBlock(InvShiftRows(ShiftRows(SubBlock(Forward(ks, s, round))))), KeyAt(ks, round)))
         == ShiftRows(SubBlock(Forward(ks, s, round - 1)))
  {
    hide AddKey, SubBlock, InvSubBlock, ShiftRows, InvShiftRows, MixColumns, InvMixColumns, KeyAt;
    var f := Forward(ks, s, round);
    var t := ShiftRows(SubBlock(Forward(ks, s, round - 1)));
    ShiftRowsInverse(SubBlock(f));
    SubBlockInverse(f);
    AddKeyTwice(MixColumns(t), KeyAt(ks, round));
    MixColumnsInverse(t);
  }

  lemma {:induction false} RoundsBack(ks: seq<bv32>, s: State, round: nat)
    requires 4 * round + 4 <= |ks|
    ensures Backward(ks, ShiftRows(SubBlock(Forward(ks, s, round))), round) == ShiftRows(SubBlock(Forward(ks, s, 0)))
  {
    hide AddKey, SubBlock, InvSubBlock, ShiftRows, InvShiftRows, MixColumns, InvMixColumns, KeyAt, Forward;
    if round > 0 {
      RoundBack(ks, s, round);
      RoundsBack(ks, s, round - 1);
    }
  }

  /** Decryption inverts encryption on every block, for every array of round keys and any number of
      rounds. */
  lemma CipherInverse(ks: seq<bv32>, s: State, rounds: nat)
    requires rounds >= 1 && 4 * rounds + 4 <= |ks|
    ensures InvCipher(ks, Cipher(ks, s, rounds), rounds) == s
  {
    hide AddKey, SubBlock, InvSubBlock, ShiftRows, InvShiftRows, KeyAt, Backward, MixColumns;
    var t := ShiftRows(SubBlock(Forward(ks, s, rounds - 1)));
    AddKeyTwice(t, KeyAt(ks, rounds));
    RoundsBack(ks, s, rounds - 1);
    var f := AddKey(s, KeyAt(ks, 0));
    ShiftRowsInverse(SubBlock(f));
    SubBlockInverse(f);
    AddKeyTwice(s, KeyAt(ks, 0));
  }
}
