/** AES byte by byte, as FIPS 197 has it: what the key schedule and the rounds do to bytes, said without
    the functions on words. */
module CfAesLaws {
  import opened Division
  import opened CfBytes
  import opened CfWords
  import opened CfModes
  import opened CfAes
  import opened CfAesContext

  // ---------------------------------------------------------------- bytes of words

  lemma RotatedByte(w: bv32, k: nat)
    requires k < 4
    ensures ByteOf(RotWord(w), k) == ByteOf(w, (k + 1) % 4)
  {
    if k == 0 {} else if k == 1 {} else if k == 2 {} else {}
  }

  lemma SubByte(box: byte -> byte, w: bv32, k: nat)
    requires k < 4
    ensures ByteOf(SubWith(box, w), k) == box(ByteOf(w, k))
  {
    var b0, b1, b2, b3 := box(ByteOf(w, 0)), box(ByteOf(w, 1)), box(ByteOf(w, 2)), box(ByteOf(w, 3));
    hide Word, ByteOf;
    WordIs(b0, b1, b2, b3);
  }

  lemma PlusByte(x: bv32, y: bv32, k: nat)
    requires k < 4
    ensures ByteOf(Plus(x, y), k) == ByteOf(x, k) ^ ByteOf(y, k)
  {
    if k == 0 {} else if k == 1 {} else if k == 2 {} else {}
  }

  lemma ConstantByte(b: byte, k: nat)
    requires k < 4
    ensures ByteOf(RoundConstant(b), k) == if k == 0 then b else 0
  {
    if k == 0 {} else if k == 1 {} else if k == 2 {} else {}
  }

  lemma WordByte(b0: byte, b1: byte, b2: byte, b3: byte, k: nat)
    requires k < 4
    ensures ByteOf(Word(b0, b1, b2, b3), k) == [b0, b1, b2, b3][k]
  {
    WordIs(b0, b1, b2, b3);
    hide Word, ByteOf;
  }

  // ---------------------------------------------------------------- key expansion

  /** The first words are the key. */
  lemma ExpansionStarts(key: Bytes, i: nat, k: nat)
    requires |key| % 4 == 0 && i < |key| / 4 && k < 4
    ensures ByteOf(Expanded(KeyWords(key), i), k) == key[4 * i + k]
  {
    hide Word, ByteOf;
    ExpandedStart(KeyWords(key), i);
    WordByte(key[4 * i], key[4 * i + 1], key[4 * i + 2], key[4 * i + 3], k);
  }

  lemma TurnedByte(back: bv32, last: bv32, c: byte, k: nat)
    requires k < 4
    ensures ByteOf(Plus(back, Plus(SubWith(S, RotWord(last)), RoundConstant(c))), k)
      == ByteOf(back, k) ^ (S(ByteOf(last, (k + 1) % 4)) ^ (if k == 0 then c else 0))
  {
    hide ByteOf, S, SubWith, RotWord, RoundConstant, Plus;
    RotatedByte(last, k);
    SubByte(S, RotWord(last), k);
    ConstantByte(c, k);
    PlusByte(SubWith(S, RotWord(last)), RoundConstant(c), k);
    PlusByte(back, Plus(SubWith(S, RotWord(last)), RoundConstant(c)), k);
  }

  /** A word whose number is a multiple of the key length: bytes rotated, substituted, and the round
      constant in the first one. */
  lemma ExpansionTurns(key: seq<bv32>, nk: nat, q: nat, i: nat, k: nat)
    requires nk == |key| > 0 && i >= nk && i == q * nk && k < 4
    ensures ByteOf(Expanded(key, i), k) == ByteOf(Expanded(key, i - nk), k)
      ^ (S(ByteOf(Expanded(key, i - 1), (k + 1) % 4)) ^ (if k == 0 then RoundPower(q) else 0))
  {
    hide Expanded, ByteOf, S, SubWith, RotWord, RoundConstant, RoundPower, Plus;
    DivUnique(i, nk, q, 0);
    ExpandedNext(key, i);
    TurnedByte(Expanded(key, i - nk), Expanded(key, i - 1), RoundPower(q), k);
  }

  /** With keys of eight words, the word halfway: substituted only. */
  lemma ExpansionHalfway(key: seq<bv32>, i: nat, k: nat)
    requires |key| > 6 && i >= |key| && i % |key| == 4 && k < 4
    ensures ByteOf(Expanded(key, i), k) == ByteOf(Expanded(key, i - |key|), k) ^ S(ByteOf(Expanded(key, i - 1), k))
  {
    hide Expanded, ByteOf, S, SubWith, RotWord, RoundConstant, RoundPower, Plus;
    var last, back := Expanded(key, i - 1), Expanded(key, i - |key|);
    ExpandedNext(key, i);
    SubByte(S, last, k);
    PlusByte(back, SubWith(S, last), k);
  }

  /** Every other word. */
  lemma ExpansionPlain(key: seq<bv32>, i: nat, k: nat)
    requires |key| > 0 && i >= |key| && i % |key| != 0 && (|key| <= 6 || i % |key| != 4) && k < 4
    ensures ByteOf(Expanded(key, i), k) == ByteOf(Expanded(key, i - |key|), k) ^ ByteOf(Expanded(key, i - 1), k)
  {
    hide Expanded, ByteOf, S, SubWith, RotWord, RoundConstant, RoundPower, Plus;
    ExpandedNext(key, i);
    PlusByte(Expanded(key, i - |key|), Expanded(key, i - 1), k);
  }

  /** The round constants. */
  lemma RoundPowersAre()
    ensures RoundPower(1) == 0x01 && RoundPower(2) == 0x02 && RoundPower(3) == 0x04 && RoundPower(4) == 0x08
    ensures RoundPower(5) == 0x10 && RoundPower(6) == 0x20 && RoundPower(7) == 0x40 && RoundPower(8) == 0x80
    ensures RoundPower(9) == 0x1b && RoundPower(10) == 0x36
  {
    RconIsPower(1); RconIsPower(2); RconIsPower(3); RconIsPower(4); RconIsPower(5);
    RconIsPower(6); RconIsPower(7); RconIsPower(8); RconIsPower(9); RconIsPower(10);
    hide RoundPower;
  }

  /** The first word computed from each of the three keys of appendix A of FIPS 197. */
  lemma FirstExpandedWords()
    ensures Expanded([0x2b7e1516, 0x28aed2a6, 0xabf71588, 0x09cf4f3c], 4) == 0xa0fafe17
    ensures Expanded([0x8e73b0f7, 0xda0e6452, 0xc810f32b, 0x809079e5, 0x62f8ead2, 0x522c6b7b], 6) == 0xfe0c91f7
    ensures Expanded([0x603deb10, 0x15ca71be, 0x2b73aef0, 0x857d7781, 0x1f352c07, 0x3b6108d7, 0x2d9810a3, 0x0914dff4], 8)
      == 0x9ba35411
  {
    var a := [0x2b7e1516, 0x28aed2a6, 0xabf71588, 0x09cf4f3c];
    var b := [0x8e73b0f7, 0xda0e6452, 0xc810f32b, 0x809079e5, 0x62f8ead2, 0x522c6b7b];
    var c := [0x603deb10, 0x15ca71be, 0x2b73aef0, 0x857d7781, 0x1f352c07, 0x3b6108d7, 0x2d9810a3, 0x0914dff4];
    FirstWord(a); FirstWord(b); FirstWord(c);
    hide Expanded;
    StepOfA(); StepOfB(); StepOfC();
  }

  function Turned(back: bv32, last: bv32): bv32 {
    Plus(back, Plus(SubWith(S, RotWord(last)), RoundConstant(0x01)))
  }

  lemma FirstWord(key: seq<bv32>)
    requires |key| > 0
    ensures Expanded(key, |key|) == Turned(key[0], key[|key| - 1])
  {
    ExpandedNext(key, |key|);
    assert RoundPower(1) == 1;
    hide SubWith, Plus, RotWord, RoundConstant;
    assert |key| / |key| == 1 && |key| % |key| == 0;
  }

  lemma StepOfA()
    ensures Turned(0x2b7e1516, 0x09cf4f3c) == 0xa0fafe17
  {}

  lemma StepOfB()
    ensures Turned(0x8e73b0f7, 0x522c6b7b) == 0xfe0c91f7
  {}

  lemma StepOfC()
    ensures Turned(0x603deb10, 0x0914dff4) == 0x9ba35411
  {}

  // ---------------------------------------------------------------- rounds

  // Byte `r` of column `c` of the state is byte 4c + r of the block.

  function Column(s: State, c: nat): bv32
    requires c < 4
  {
    if c == 0 then s.c0 else if c == 1 then s.c1 else if c == 2 then s.c2 else s.c3
  }

  lemma JoinedAt(b0: Bytes, b1: Bytes, b2: Bytes, b3: Bytes, c: nat, r: nat)
    requires |b0| == |b1| == |b2| == |b3| == 4 && c < 4 && r < 4
    ensures (b0 + b1 + b2 + b3)[4 * c + r] == (if c == 0 then b0 else if c == 1 then b1 else if c == 2 then b2 else b3)[r]
  {}

  lemma BlockByte(s: State, c: nat, r: nat)
    requires c < 4 && r < 4
    ensures StateBlock(s)[4 * c + r] == ByteOf(Column(s, c), r)
  {
    hide ByteOf, WordBytes;
    JoinedAt(WordBytes(s.c0), WordBytes(s.c1), WordBytes(s.c2), WordBytes(s.c3), c, r);
    WordBytesAt(Column(s, c), r);
  }

  lemma WordBytesAt(w: bv32, r: nat)
    requires r < 4
    ensures WordBytes(w)[r] == ByteOf(w, r)
  {
    hide ByteOf;
    if r == 0 {} else if r == 1 {} else if r == 2 {} else {}
  }

  lemma StateByte(b: Block, c: nat, r: nat)
    requires c < 4 && r < 4
    ensures ByteOf(Column(BlockState(b), c), r) == b[4 * c + r]
  {
    hide ByteOf, BlockState, StateBlock, Column;
    BlockRoundTrip(b);
    BlockByte(BlockState(b), c, r);
  }

  lemma ColumnsAre(s: State)
    ensures Column(s, 0) == s.c0 && Column(s, 1) == s.c1 && Column(s, 2) == s.c2 && Column(s, 3) == s.c3
  {}

  lemma AddedColumn(s: State, k: State, c: nat)
    requires c < 4
    ensures Column(AddKey(s, k), c) == Plus(Column(s, c), Column(k, c))
  {
    hide Plus, Column;
    ColumnsAre(s); ColumnsAre(k); ColumnsAre(AddKey(s, k));
    if c == 0 {} else if c == 1 {} else if c == 2 {} else {}
  }

  lemma SubColumn(s: State, c: nat)
    requires c < 4
    ensures Column(SubBlock(s), c) == SubWith(S, Column(s, c))
  {
    hide SubWith, Column;
    ColumnsAre(s); ColumnsAre(SubBlock(s));
    if c == 0 {} else if c == 1 {} else if c == 2 {} else {}
  }

  lemma MixedColumn(s: State, c: nat)
    requires c < 4
    ensures Column(MixColumns(s), c) == MixColumn(Column(s, c))
  {
    hide MixColumn, Column;
    ColumnsAre(s); ColumnsAre(MixColumns(s));
    if c == 0 {} else if c == 1 {} else if c == 2 {} else {}
  }

  /** Section 5.1.4 of FIPS 197. */
  lemma AddKeyByte(b: Block, k: State, c: nat, r: nat)
    requires c < 4 && r < 4
    ensures StateBlock(AddKey(BlockState(b), k))[4 * c + r] == b[4 * c + r] ^ ByteOf(Column(k, c), r)
  {
    hide ByteOf, Plus, BlockState, StateBlock, AddKey, Column;
    var s := BlockState(b);
    BlockByte(AddKey(s, k), c, r);
    AddedColumn(s, k, c);
    PlusByte(Column(s, c), Column(k, c), r);
    StateByte(b, c, r);
  }

  /** Section 5.1.1. */
  lemma SubBlockByte(b: Block, c: nat, r: nat)
    requires c < 4 && r < 4
    ensures StateBlock(SubBlock(BlockState(b)))[4 * c + r] == S(b[4 * c + r])
  {
    hide ByteOf, S, SubWith, BlockState, StateBlock, SubBlock, Column;
    var s := BlockState(b);
    BlockByte(SubBlock(s), c, r);
    SubColumn(s, c);
    SubByte(S, Column(s, c), r);
    StateByte(b, c, r);
  }

  /** A column taken from four, along the diagonal. */
  function Diagonal(c0: bv32, c1: bv32, c2: bv32, c3: bv32): bv32 {
    Word(ByteOf(c0, 0), ByteOf(c1, 1), ByteOf(c2, 2), ByteOf(c3, 3))
  }

  lemma ShiftRowsIs(s: State)
    ensures ShiftRows(s) == State(Diagonal(s.c0, s.c1, s.c2, s.c3), Diagonal(s.c1, s.c2, s.c3, s.c0),
                                  Diagonal(s.c2, s.c3, s.c0, s.c1), Diagonal(s.c3, s.c0, s.c1, s.c2))
  {
    hide ByteOf, Word;
  }

  lemma ShiftedColumn(s: State, c: nat)
    requires c < 4
    ensures Column(ShiftRows(s), c)
      == Diagonal(Column(s, c), Column(s, (c + 1) % 4), Column(s, (c + 2) % 4), Column(s, (c + 3) % 4))
  {
    hide Diagonal, Column, ShiftRows;
    ShiftRowsIs(s);
    ColumnsAre(s); ColumnsAre(ShiftRows(s));
    if c == 0 {} else if c == 1 {} else if c == 2 {} else {}
  }

  lemma DiagonalByte(c0: bv32, c1: bv32, c2: bv32, c3: bv32, r: nat)
    requires r < 4
    ensures ByteOf(Diagonal(c0, c1, c2, c3), r) == ByteOf(if r == 0 then c0 else if r == 1 then c1 else if r == 2 then c2 else c3, r)
  {
    hide ByteOf, Word;
    WordIs(ByteOf(c0, 0), ByteOf(c1, 1), ByteOf(c2, 2), ByteOf(c3, 3));
  }

  lemma ShiftedByte(s: State, c: nat, r: nat)
    requires c < 4 && r < 4
    ensures ByteOf(Column(ShiftRows(s), c), r) == ByteOf(Column(s, (c + r) % 4), r)
  {
    hide ByteOf, Diagonal, ShiftRows, Column;
    ShiftedColumn(s, c);
    DiagonalByte(Column(s, c), Column(s, (c + 1) % 4), Column(s, (c + 2) % 4), Column(s, (c + 3) % 4), r);
    if r == 0 {} else if r == 1 {} else if r == 2 {} else {}
  }

  /** Section 5.1.2: row r moves r columns to the left. */
  lemma ShiftRowsByte(b: Block, c: nat, r: nat)
    requires c < 4 && r < 4
    ensures StateBlock(ShiftRows(BlockState(b)))[4 * c + r] == b[4 * ((c + r) % 4) + r]
  {
    hide ByteOf, ShiftRows, BlockState, StateBlock, Column;
    var s := BlockState(b);
    BlockByte(ShiftRows(s), c, r);
    ShiftedByte(s, c, r);
    StateByte(b, (c + r) % 4, r);
  }

  /** {02} b0 + {03} b1 + b2 + b3. */
  function Product(b0: byte, b1: byte, b2: byte, b3: byte): byte {
    FieldMul(b0, 2) ^ FieldMul(b1, 3) ^ b2 ^ b3
  }

  /** {03} b is {02} b + b. */
  lemma TripleIs(b: byte)
    ensures FieldMul(b, 3) == Xtime(b) ^ b
  {}

  lemma MixedSum(d0: byte, d1: byte, b1: byte, b2: byte, b3: byte)
    ensures MixedByte(d0, d1, b1, b2, b3) == d0 ^ (d1 ^ b1) ^ b2 ^ b3
  {}

  lemma MixedIsProduct(b0: byte, b1: byte, b2: byte, b3: byte)
    ensures MixedByte(Xtime(b0), Xtime(b1), b1, b2, b3) == Product(b0, b1, b2, b3)
  {
    hide FieldMul, Xtime, MixedByte;
    XtimeIsTwo(b0);
    TripleIs(b1);
    MixedSum(Xtime(b0), Xtime(b1), b1, b2, b3);
  }

  lemma MixedIsProducts(b0: byte, b1: byte, b2: byte, b3: byte)
    ensures MixColumn(Word(b0, b1, b2, b3))
      == Word(Product(b0, b1, b2, b3), Product(b1, b2, b3, b0), Product(b2, b3, b0, b1), Product(b3, b0, b1, b2))
  {
    hide Word, Product, MixedByte, Xtime, MixColumn;
    MixColumnIsFips(b0, b1, b2, b3);
    MixedIsProduct(b0, b1, b2, b3); MixedIsProduct(b1, b2, b3, b0);
    MixedIsProduct(b2, b3, b0, b1); MixedIsProduct(b3, b0, b1, b2);
  }

  lemma MixedBlockByte(b: Block, c: nat, r: nat)
    requires c < 4 && r < 4
    ensures StateBlock(MixColumns(BlockState(b)))[4 * c + r]
      == Product(b[4 * c + r], b[4 * c + (r + 1) % 4], b[4 * c + (r + 2) % 4], b[4 * c + (r + 3) % 4])
  {
    hide ByteOf, Word, Product, MixColumn, MixColumns, BlockState, StateBlock, Column;
    var s := BlockState(b);
    var b0, b1, b2, b3 := b[4 * c], b[4 * c + 1], b[4 * c + 2], b[4 * c + 3];
    BlockByte(MixColumns(s), c, r);
    MixedColumn(s, c);
    ColumnBytes(b, c);
    MixedIsProducts(b0, b1, b2, b3);
    WordIs(Product(b0, b1, b2, b3), Product(b1, b2, b3, b0), Product(b2, b3, b0, b1), Product(b3, b0, b1, b2));
    if r == 0 {} else if r == 1 {} else if r == 2 {} else {}
  }

  /** Section 5.1.3: {02} times a byte, {03} times the next one below, and the other two. */
  lemma MixColumnsByte(b: Block, c: nat, r: nat)
    requires c < 4 && r < 4
    ensures StateBlock(MixColumns(BlockState(b)))[4 * c + r]
      == FieldMul(b[4 * c + r], 2) ^ FieldMul(b[4 * c + (r + 1) % 4], 3) ^ b[4 * c + (r + 2) % 4] ^ b[4 * c + (r + 3) % 4]
  {
    hide FieldMul, MixColumns, BlockState, StateBlock;
    MixedBlockByte(b, c, r);
  }

  lemma ColumnBytes(b: Block, c: nat)
    requires c < 4
    ensures Column(BlockState(b), c) == Word(b[4 * c], b[4 * c + 1], b[4 * c + 2], b[4 * c + 3])
  {
    hide Word, Column;
    ColumnsAre(BlockState(b));
    if c == 0 {} else if c == 1 {} else if c == 2 {} else {}
  }

  // ---------------------------------------------------------------- the order of the steps

  /** One round: the first key, bytes, rows, the second key. */
  lemma OneRound(ks: seq<bv32>, s: State)
    requires |ks| >= 8
    ensures Cipher(ks, s, 1) ==
      AddKey(ShiftRows(SubBlock(AddKey(s, State(ks[0], ks[1], ks[2], ks[3])))), State(ks[4], ks[5], ks[6], ks[7]))
  {
    hide AddKey, ShiftRows, SubBlock, MixColumns;
  }

  /** The four steps of a round. */
  function Turn(s: State, k: State): State {
    MixColumns(ShiftRows(SubBlock(AddKey(s, k))))
  }

  lemma {:induction false} ForwardFirst(ks: seq<bv32>, s: State, round: nat)
    requires round >= 1 && 4 * round + 4 <= |ks|
    ensures Forward(ks, s, round) == Forward(ks[4..], Turn(s, KeyAt(ks, 0)), round - 1)
    decreases round
  {
    hide AddKey, ShiftRows, SubBlock, MixColumns;
    assert KeyAt(ks[4..], round - 1) == KeyAt(ks, round);
    if round == 1 {
      assert Forward(ks, s, 0) == AddKey(s, KeyAt(ks, 0));
    } else {
      ForwardFirst(ks, s, round - 1);
    }
  }

  /** More rounds: the first key, bytes, rows, columns, and the rest with the keys that follow. */
  lemma MoreRounds(ks: seq<bv32>, s: State, rounds: nat)
    requires rounds >= 2 && 4 * rounds + 4 <= |ks|
    ensures Cipher(ks, s, rounds) ==
      Cipher(ks[4..], MixColumns(ShiftRows(SubBlock(AddKey(s, State(ks[0], ks[1], ks[2], ks[3]))))), rounds - 1)
  {
    hide AddKey, ShiftRows, SubBlock, MixColumns, Forward;
    ForwardFirst(ks, s, rounds - 1);
    assert KeyAt(ks[4..], rounds - 1) == KeyAt(ks, rounds);
  }
}
