/** cifra_eax_aes.c: cf_aes_context, its key schedule, and the block functions in place. */
module CfAesContext {
  import opened Division
  import opened CfBytes
  import opened CfWords
  import opened CfModes
  import opened CfAes

  // ---------------------------------------------------------------- key expansion

  const RCON: Bytes := [0x8d, 0x01, 0x02, 0x04, 0x08, 0x10, 0x20, 0x40, 0x80, 0x1b, 0x36]

  /** x to the power i - 1 in the field. */
  function RoundPower(i: nat): byte {
    if i <= 1 then 1 else Xtime(RoundPower(i - 1))
  }

  lemma RconIsPower(i: nat)
    requires 1 <= i <= 10
    ensures RCON[i] == RoundPower(i)
  {
    assert RoundPower(1) == 0x01 && RoundPower(2) == 0x02 && RoundPower(3) == 0x04;
    assert RoundPower(4) == 0x08 && RoundPower(5) == 0x10 && RoundPower(6) == 0x20;
    assert RoundPower(7) == 0x40 && RoundPower(8) == 0x80 && RoundPower(9) == 0x1b && RoundPower(10) == 0x36;
  }

  function RoundConstant(b: byte): bv32 { (b as bv32) << 24 }

  function RotWord(w: bv32): bv32 { (w << 8) | (w >> 24) }

  /** Section 5.2 of FIPS 197: word `i` of the expanded key. */
  function Expanded(key: seq<bv32>, i: nat): bv32
    requires |key| > 0
    decreases i
  {
    var nk := |key|;
    if i < nk then key[i]
    else
      var temp := Expanded(key, i - 1);
      Plus(Expanded(key, i - nk),
        if i % nk == 0 then Plus(SubWith(S, RotWord(temp)), RoundConstant(RoundPower(i / nk)))
        else if nk > 6 && i % nk == 4 then SubWith(S, temp)
        else temp)
  }

  function KeyWords(key: Bytes): (r: seq<bv32>)
    requires |key| % 4 == 0
    ensures |r| == |key| / 4
  {
    seq(|key| / 4, i requires 0 <= i < |key| / 4 => Word(key[4 * i], key[4 * i + 1], key[4 * i + 2], key[4 * i + 3]))
  }

  // ---------------------------------------------------------------- blocks and states

  function BlockState(b: Block): State {
    State(Word(b[0], b[1], b[2], b[3]), Word(b[4], b[5], b[6], b[7]),
          Word(b[8], b[9], b[10], b[11]), Word(b[12], b[13], b[14], b[15]))
  }

  function StateBlock(s: State): (r: Block) {
    WordBytes(s.c0) + WordBytes(s.c1) + WordBytes(s.c2) + WordBytes(s.c3)
  }

  lemma StateRoundTrip(s: State)
    ensures BlockState(StateBlock(s)) == s
  {
    hide Word, ByteOf;
    BytesRoundTrip(s.c0); BytesRoundTrip(s.c1); BytesRoundTrip(s.c2); BytesRoundTrip(s.c3);
  }

  lemma BlockRoundTrip(b: Block)
    ensures StateBlock(BlockState(b)) == b
  {
    hide Word, WordBytes;
    WordRoundTrip(b[0], b[1], b[2], b[3]);
    WordRoundTrip(b[4], b[5], b[6], b[7]);
    WordRoundTrip(b[8], b[9], b[10], b[11]);
    WordRoundTrip(b[12], b[13], b[14], b[15]);
    assert b == [b[0], b[1], b[2], b[3]] + [b[4], b[5], b[6], b[7]] + [b[8], b[9], b[10], b[11]] + [b[12], b[13], b[14], b[15]];
  }

  /** cf_aes as a block cipher for the modes. */
  function AesPrp(ks: seq<bv32>, rounds: nat): Prp
    requires rounds >= 1 && 4 * rounds + 4 <= |ks|
  {
    Prp((b: Block) => StateBlock(Cipher(ks, BlockState(b), rounds)),
        (b: Block) => StateBlock(InvCipher(ks, BlockState(b), rounds)))
  }

  /** On blocks of bytes decryption inverts encryption, so CBC over AES decrypts what it encrypts. */
  lemma AesInverse(ks: seq<bv32>, rounds: nat)
    requires rounds >= 1 && 4 * rounds + 4 <= |ks|
    ensures Inverse(AesPrp(ks, rounds))
  {
    hide Cipher, InvCipher, BlockState, StateBlock;
    var prp := AesPrp(ks, rounds);
    forall b: Block ensures prp.decrypt(prp.encrypt(b)) == b {
      StateRoundTrip(Cipher(ks, BlockState(b), rounds));
      CipherInverse(ks, BlockState(b), rounds);
      BlockRoundTrip(b);
    }
  }

  // ---------------------------------------------------------------- steps in place

  function StateOf(a: array<bv32>): State
    requires a.Length == 4
    reads a
  {
    State(a[0], a[1], a[2], a[3])
  }

  /** add_round_key. */
  method AddRoundKey(state: array<bv32>, ks: array<bv32>, at: nat)
    requires state.Length == 4 && 4 * at + 4 <= ks.Length && state != ks
    modifies state
    ensures StateOf(state) == AddKey(old(StateOf(state)), KeyAt(ks[..], at))
  {
    hide Plus;
    state[0] := Plus(state[0], ks[4 * at]);
    state[1] := Plus(state[1], ks[4 * at + 1]);
    state[2] := Plus(state[2], ks[4 * at + 2]);
    state[3] := Plus(state[3], ks[4 * at + 3]);
  }

  /** sub_block. */
  method SubBlockInPlace(state: array<bv32>)
    requires state.Length == 4
    modifies state
    ensures StateOf(state) == SubBlock(old(StateOf(state)))
  {
    hide SubWith;
    state[0] := SubWord(state[0], S);
    state[1] := SubWord(state[1], S);
    state[2] := SubWord(state[2], S);
    state[3] := SubWord(state[3], S);
  }

  /** inv_sub_block. */
  method InvSubBlockInPlace(state: array<bv32>)
    requires state.Length == 4
    modifies state
    ensures StateOf(state) == InvSubBlock(old(StateOf(state)))
  {
    hide SubWith;
    state[0] := SubWord(state[0], InvS);
    state[1] := SubWord(state[1], InvS);
    state[2] := SubWord(state[2], InvS);
    state[3] := SubWord(state[3], InvS);
  }

  /** shift_rows. */
  method ShiftRowsInPlace(state: array<bv32>)
    requires state.Length == 4
    modifies state
    ensures StateOf(state) == ShiftRows(old(StateOf(state)))
  {
    hide Word, ByteOf;
    var u := Word(ByteOf(state[0], 0), ByteOf(state[1], 1), ByteOf(state[2], 2), ByteOf(state[3], 3));
    var v := Word(ByteOf(state[1], 0), ByteOf(state[2], 1), ByteOf(state[3], 2), ByteOf(state[0], 3));
    var x := Word(ByteOf(state[2], 0), ByteOf(state[3], 1), ByteOf(state[0], 2), ByteOf(state[1], 3));
    var y := Word(ByteOf(state[3], 0), ByteOf(state[0], 1), ByteOf(state[1], 2), ByteOf(state[2], 3));
    state[0], state[1], state[2], state[3] := u, v, x, y;
  }

  /** inv_shift_rows. */
  method InvShiftRowsInPlace(state: array<bv32>)
    requires state.Length == 4
    modifies state
    ensures StateOf(state) == InvShiftRows(old(StateOf(state)))
  {
    hide Word, ByteOf;
    var u := Word(ByteOf(state[0], 0), ByteOf(state[3], 1), ByteOf(state[2], 2), ByteOf(state[1], 3));
    var v := Word(ByteOf(state[1], 0), ByteOf(state[0], 1), ByteOf(state[3], 2), ByteOf(state[2], 3));
    var x := Word(ByteOf(state[2], 0), ByteOf(state[1], 1), ByteOf(state[0], 2), ByteOf(state[3], 3));
    var y := Word(ByteOf(state[3], 0), ByteOf(state[2], 1), ByteOf(state[1], 2), ByteOf(state[0], 3));
    state[0], state[1], state[2], state[3] := u, v, x, y;
  }

  /** mix_columns. */
  method MixColumnsInPlace(state: array<bv32>)
    requires state.Length == 4
    modifies state
    ensures StateOf(state) == MixColumns(old(StateOf(state)))
  {
    hide MixColumn;
    state[0] := MixColumn(state[0]);
    state[1] := MixColumn(state[1]);
    state[2] := MixColumn(state[2]);
    state[3] := MixColumn(state[3]);
  }

  /** inv_mix_columns. */
  method InvMixColumnsInPlace(state: array<bv32>)
    requires state.Length == 4
    modifies state
    ensures StateOf(state) == InvMixColumns(old(StateOf(state)))
  {
    hide InvMixColumn;
    state[0] := InvMixColumn(state[0]);
    state[1] := InvMixColumn(state[1]);
    state[2] := InvMixColumn(state[2]);
    state[3] := InvMixColumn(state[3]);
  }

  // ---------------------------------------------------------------- the context

  class AesContext {
    var rounds: nat
    const ks: array<bv32>

    ghost predicate Valid()
      reads this
    {
      ks.Length == 60 && (rounds == 10 || rounds == 12 || rounds == 14)
    }

    /** cf_aes_init, for the three key lengths it does not abort on. */
    constructor (key: Bytes)
      requires |key| == 16 || |key| == 24 || |key| == 32
      ensures Valid() && fresh(ks) && rounds == |key| / 4 + 6
      ensures forall i :: 0 <= i < 4 * (rounds + 1) ==> ks[i] == Expanded(KeyWords(key), i)
    {
      rounds := if |key| == 16 then 10 else if |key| == 24 then 12 else 14;
      ks := new bv32[60](_ => 0);
      new;
      Schedule(key);
    }

    /** aes_schedule: the running counters are the quotient and the remainder of the word index by the
        key length, so the words are those of FIPS 197. */
    method Schedule(key: Bytes)
      requires Valid() && (|key| == 16 || |key| == 24 || |key| == 32) && rounds == |key| / 4 + 6
      modifies ks
      ensures forall i :: 0 <= i < 4 * (rounds + 1) ==> ks[i] == Expanded(KeyWords(key), i)
    {
      hide Expanded, KeyWords;
      var nk, n := |key| / 4, 4 * (rounds + 1);
      ghost var words := KeyWords(key);
      LoadKey(key);
      var i, iDivNk, iModNk := nk, 1, 0;
      while i < n
        invariant nk <= i <= n && forall j :: 0 <= j < i ==> ks[j] == Expanded(words, j)
        invariant 1 <= iDivNk <= 10 && 0 <= iModNk <= nk && i == iDivNk * nk + iModNk
      {
        var temp := ks[i - 1];
        if iModNk == nk {
          iDivNk := iDivNk + 1;
          iModNk := 0;
        }
        ConstantsSuffice(nk, rounds, i, iDivNk, iModNk);
        ks[i] := NextWord(words, i, nk, iDivNk, iModNk, temp, ks[i - nk]);
        i := i + 1;
        iModNk := iModNk + 1;
      }
    }

    /** The first words are the key. */
    method LoadKey(key: Bytes)
      requires Valid() && (|key| == 16 || |key| == 24 || |key| == 32)
      modifies ks
      ensures forall j :: 0 <= j < |key| / 4 ==> ks[j] == Expanded(KeyWords(key), j)
    {
      hide Expanded, Word;
      var i := 0;
      while i < |key| / 4
        invariant i <= |key| / 4 && forall j :: 0 <= j < i ==> ks[j] == Expanded(KeyWords(key), j)
      {
        ExpandedStart(KeyWords(key), i);
        ks[i] := Word(key[4 * i], key[4 * i + 1], key[4 * i + 2], key[4 * i + 3]);
        i := i + 1;
      }
    }

    /** cf_aes_encrypt; input and output may be the same array. */
    method Encrypt(input: array<byte>, output: array<byte>)
      requires Valid() && input.Length == 16 && output.Length == 16
      modifies output
      ensures output[..] == StateBlock(Cipher(ks[..], BlockState(old(input[..])), rounds))
    {
      hide Cipher, StateBlock;
      var state := LoadState(input);
      EncryptState(state);
      WriteState(state, output);
    }

    method EncryptState(state: array<bv32>)
      requires Valid() && state.Length == 4 && state != ks
      modifies state
      ensures StateOf(state) == Cipher(ks[..], old(StateOf(state)), rounds)
    {
      hide AddKey, SubBlock, ShiftRows, MixColumns, KeyAt;
      ghost var s, words := StateOf(state), ks[..];
      AddRoundKey(state, ks, 0);
      var round := 1;
      while round < rounds
        invariant 1 <= round <= rounds && StateOf(state) == Forward(words, s, round - 1)
      {
        SubBlockInPlace(state);
        ShiftRowsInPlace(state);
        MixColumnsInPlace(state);
        AddRoundKey(state, ks, round);
        round := round + 1;
      }
      SubBlockInPlace(state);
      ShiftRowsInPlace(state);
      AddRoundKey(state, ks, rounds);
    }

    /** cf_aes_decrypt; input and output may be the same array. */
    method Decrypt(input: array<byte>, output: array<byte>)
      requires Valid() && input.Length == 16 && output.Length == 16
      modifies output
      ensures output[..] == StateBlock(InvCipher(ks[..], BlockState(old(input[..])), rounds))
    {
      hide InvCipher, StateBlock;
      var state := LoadState(input);
      DecryptState(state);
      WriteState(state, output);
    }

    method DecryptState(state: array<bv32>)
      requires Valid() && state.Length == 4 && state != ks
      modifies state
      ensures StateOf(state) == InvCipher(ks[..], old(StateOf(state)), rounds)
    {
      hide AddKey, InvSubBlock, InvShiftRows, InvMixColumns, KeyAt;
      ghost var words := ks[..];
      AddRoundKey(state, ks, rounds);
      ghost var t := StateOf(state);
      var round := rounds - 1;
      while round != 0
        invariant 0 <= round < rounds
        invariant Backward(words, StateOf(state), round) == Backward(words, t, rounds - 1)
        decreases round
      {
        InvShiftRowsInPlace(state);
        InvSubBlockInPlace(state);
        AddRoundKey(state, ks, round);
        InvMixColumnsInPlace(state);
        round := round - 1;
      }
      InvShiftRowsInPlace(state);
      InvSubBlockInPlace(state);
      AddRoundKey(state, ks, 0);
    }
  }

  /** One word of aes_schedule, from the counters. */
  method NextWord(ghost words: seq<bv32>, ghost i: nat, nk: nat, iDivNk: nat, iModNk: nat, last: bv32, back: bv32)
    returns (w: bv32)
    requires |words| == nk > 0 && i >= nk && i == iDivNk * nk + iModNk && iModNk < nk && 1 <= iDivNk <= 10
    requires last == Expanded(words, i - 1) && back == Expanded(words, i - nk)
    ensures iModNk == i % nk && iDivNk == i / nk
    ensures w == Expanded(words, i)
  {
    hide Expanded, SubWith, Plus, RotWord, RoundConstant, RoundPower;
    DivUnique(i, nk, iDivNk, iModNk);
    ExpandedNext(words, i);
    var temp := last;
    if iModNk == 0 {
      RconIsPower(iDivNk);
      temp := SubWord(RotWord(temp), S);
      temp := Plus(temp, RoundConstant(RCON[iDivNk]));
    } else if nk > 6 && iModNk == 4 {
      temp := SubWord(temp, S);
    }
    w := Plus(back, temp);
  }

  /** The four read32_be calls. */
  method LoadState(input: array<byte>) returns (state: array<bv32>)
    requires input.Length == 16
    ensures fresh(state) && state.Length == 4 && StateOf(state) == BlockState(input[..])
  {
    hide Word;
    state := new bv32[4];
    state[0] := Word(input[0], input[1], input[2], input[3]);
    state[1] := Word(input[4], input[5], input[6], input[7]);
    state[2] := Word(input[8], input[9], input[10], input[11]);
    state[3] := Word(input[12], input[13], input[14], input[15]);
  }

  /** The four write32_be calls. */
  method WriteState(state: array<bv32>, output: array<byte>)
    requires state.Length == 4 && output.Length == 16
    modifies output
    ensures output[..] == StateBlock(StateOf(state))
  {
    hide WordBytes;
    WriteWord(state[0], output, 0);
    WriteWord(state[1], output, 4);
    WriteWord(state[2], output, 8);
    WriteWord(state[3], output, 12);
  }

  /** write32_be. */
  method WriteWord(w: bv32, output: array<byte>, at: nat)
    requires at + 4 <= output.Length
    modifies output
    ensures output[..] == old(output[..])[..at] + WordBytes(w) + old(output[..])[at + 4..]
  {
    hide ByteOf;
    output[at] := ByteOf(w, 0);
    output[at + 1] := ByteOf(w, 1);
    output[at + 2] := ByteOf(w, 2);
    output[at + 3] := ByteOf(w, 3);
  }

  lemma ExpandedStart(key: seq<bv32>, i: nat)
    requires i < |key|
    ensures Expanded(key, i) == key[i]
  {}

  lemma ExpandedNext(key: seq<bv32>, i: nat)
    requires |key| > 0 && i >= |key|
    ensures var nk, temp := |key|, Expanded(key, i - 1);
      Expanded(key, i) == Plus(Expanded(key, i - nk),
        if i % nk == 0 then Plus(SubWith(S, RotWord(temp)), RoundConstant(RoundPower(i / nk)))
        else if nk > 6 && i % nk == 4 then SubWith(S, temp)
        else temp)
  {
    hide SubWith, Plus, RotWord, RoundConstant, RoundPower;
  }

  /** Ten round constants are enough for all three key lengths. */
  lemma ConstantsSuffice(nk: nat, rounds: nat, i: nat, q: nat, r: nat)
    requires (nk == 4 || nk == 6 || nk == 8) && rounds == nk + 6 && i < 4 * (rounds + 1) && i == q * nk + r
    ensures q <= 10
  {}
}
