/** modes.c: CBC and CTR over an arbitrary block cipher. */
module CfModes {
  import opened Division
  import opened CfBytes
  import opened CfBlockwise
  import opened CfBitops

  const BLOCK: nat := 16

  type Block = b: Bytes | |b| == 16 witness [0, 0, 0, 0, 0, 0, 0, 0, 0, 0, 0, 0, 0, 0, 0, 0]

  /** cf_prp: two functions on blocks. Nothing else is known of them. */
  datatype Prp = Prp(encrypt: Block -> Block, decrypt: Block -> Block)

  ghost predicate Inverse(prp: Prp) {
    forall b: Block :: prp.decrypt(prp.encrypt(b)) == b
  }

  // ---------------------------------------------------------------- CBC

  function CbcBlock(encrypt: Block -> Block, chain: Block, input: Block): Block {
    encrypt(Xor(input, chain))
  }

  /** The chaining block after `blocks` blocks of input. */
  function CbcChain(encrypt: Block -> Block, chain: Block, input: Bytes, blocks: nat): (r: Block)
    requires 16 * blocks <= |input|
    decreases blocks
  {
    if blocks == 0 then chain
    else CbcBlock(encrypt, CbcChain(encrypt, chain, input, blocks - 1), input[16 * (blocks - 1)..16 * blocks])
  }

  /** All chaining blocks: the ciphertext. */
  function CbcOutput(encrypt: Block -> Block, chain: Block, input: Bytes, blocks: nat): (r: Bytes)
    requires 16 * blocks <= |input|
    ensures |r| == 16 * blocks
    decreases blocks
  {
    if blocks == 0 then []
    else CbcOutput(encrypt, chain, input, blocks - 1) + CbcChain(encrypt, chain, input, blocks)
  }

  class Cbc {
    const prp: Prp
    var block: Block

    /** cf_cbc_init. */
    constructor (prp: Prp, iv: Block)
      ensures this.prp == prp && block == iv
    {
      this.prp := prp;
      block := iv;
    }

    /** cf_cbc_encrypt. */
    method Encrypt(input: Bytes, blocks: nat) returns (output: Bytes)
      requires 16 * blocks <= |input|
      modifies this
      ensures output == CbcOutput(prp.encrypt, old(block), input, blocks)
      ensures block == CbcChain(prp.encrypt, old(block), input, blocks)
    {
      output := [];
      var done := 0;
      while done < blocks
        invariant done <= blocks
        invariant output == CbcOutput(prp.encrypt, old(block), input, done)
        invariant block == CbcChain(prp.encrypt, old(block), input, done)
      {
        var buf := Xor(input[16 * done..16 * (done + 1)], block);
        block := prp.encrypt(buf);
        output := output + block;
        done := done + 1;
      }
    }

    /** cf_cbc_decrypt. */
    method Decrypt(input: Bytes, blocks: nat) returns (output: Bytes)
      requires 16 * blocks <= |input|
      modifies this
      ensures output == CbcPlain(prp.decrypt, old(block), input, blocks)
      ensures block == if blocks == 0 then old(block) else input[16 * (blocks - 1)..16 * blocks]
    {
      hide Xor;
      output := [];
      var done := 0;
      while done < blocks
        invariant done <= blocks
        invariant output == CbcPlain(prp.decrypt, old(block), input, done)
        invariant block == if done == 0 then old(block) else input[16 * (done - 1)..16 * done]
      {
        var next := input[16 * done..16 * (done + 1)];
        var buf := prp.decrypt(next);
        output := output + Xor(buf, block);
        block := next;
        done := done + 1;
      }
    }
  }

  function CbcPlain(decrypt: Block -> Block, chain: Block, input: Bytes, blocks: nat): (r: Bytes)
    requires 16 * blocks <= |input|
    ensures |r| == 16 * blocks
    decreases blocks
  {
    if blocks == 0 then []
    else
      var before := if blocks == 1 then chain else input[16 * (blocks - 2)..16 * (blocks - 1)];
      CbcPlain(decrypt, chain, input, blocks - 1) + Xor(decrypt(input[16 * (blocks - 1)..16 * blocks]), before)
  }

  lemma {:induction false} CbcOutputAt(encrypt: Block -> Block, chain: Block, input: Bytes, blocks: nat, k: nat)
    requires 16 * blocks <= |input| && 1 <= k <= blocks
    ensures CbcOutput(encrypt, chain, input, blocks)[16 * (k - 1)..16 * k] == CbcChain(encrypt, chain, input, k)
    decreases blocks
  {
    var o := CbcOutput(encrypt, chain, input, blocks - 1);
    if k < blocks {
      CbcOutputAt(encrypt, chain, input, blocks - 1, k);
      assert (o + CbcChain(encrypt, chain, input, blocks))[16 * (k - 1)..16 * k] == o[16 * (k - 1)..16 * k];
    }
  }

  lemma CbcBlockBack(prp: Prp, chain: Block, part: Block)
    requires Inverse(prp)
    ensures Xor(prp.decrypt(CbcBlock(prp.encrypt, chain, part)), chain) == part
  {
    XorTwice(part, chain);
    var sum: Block := Xor(part, chain);
    assert prp.decrypt(prp.encrypt(sum)) == sum;
  }

  /** With an inverse pair of block functions, decryption gives the input back. */
  lemma {:induction false} CbcRoundTrip(prp: Prp, chain: Block, input: Bytes, blocks: nat, k: nat)
    requires Inverse(prp) && 16 * blocks <= |input| && k <= blocks
    ensures CbcPlain(prp.decrypt, chain, CbcOutput(prp.encrypt, chain, input, blocks), k) == input[..16 * k]
    decreases k
  {
    hide Xor, CbcOutput;
    if k > 0 {
      CbcRoundTrip(prp, chain, input, blocks, k - 1);
      CbcOutputAt(prp.encrypt, chain, input, blocks, k);
      if k > 1 { CbcOutputAt(prp.encrypt, chain, input, blocks, k - 1); }
      CbcBlockBack(prp, CbcChain(prp.encrypt, chain, input, k - 1), input[16 * (k - 1)..16 * k]);
      assert input[..16 * k] == input[..16 * (k - 1)] + input[16 * (k - 1)..16 * k];
    }
  }

  // ---------------------------------------------------------------- CTR

  /** The `i`-th counter block. */
  function Counter(nonce: Block, i: nat): (r: Block) {
    if i == 0 then nonce else Incremented(Counter(nonce, i - 1))
  }

  /** The counter is the nonce plus `i`, modulo 2^128. */
  lemma {:induction false} CounterAdds(nonce: Block, i: nat)
    ensures BigEndian(Counter(nonce, i)) == (BigEndian(nonce) + i) % Pow256(16)
  {
    hide Pow256, BigEndian, Incremented;
    BigEndianBelow(Counter(nonce, i));
    if i == 0 {
      ModSmall(BigEndian(nonce), Pow256(16));
    } else {
      CounterAdds(nonce, i - 1);
      IncrementedAddsOne(Counter(nonce, i - 1));
      ModNext(BigEndian(nonce) + i - 1, Pow256(16));
    }
  }

  /** Key byte number `k` counted from the nonce. */
  function KeyByte(encrypt: Block -> Block, nonce: Block, k: nat): byte {
    encrypt(Counter(nonce, k / 16))[k % 16]
  }

  function KeyBytes(encrypt: Block -> Block, nonce: Block, at: nat, n: nat): (r: Bytes)
    ensures |r| == n
  {
    seq(n, i requires 0 <= i < n => KeyByte(encrypt, nonce, at + i))
  }

  lemma KeyBytesJoin(encrypt: Block -> Block, nonce: Block, at: nat, a: nat, b: nat)
    ensures KeyBytes(encrypt, nonce, at, a) + KeyBytes(encrypt, nonce, at + a, b) == KeyBytes(encrypt, nonce, at, a + b)
  {
    hide KeyByte;
  }

  /** One-shot CTR. */
  function CtrBytes(encrypt: Block -> Block, nonce: Block, input: Bytes): (r: Bytes)
    ensures |r| == |input|
  {
    Xor(input, KeyBytes(encrypt, nonce, 0, |input|))
  }

  /** A second pass from the same nonce restores the input. */
  lemma CtrTwice(encrypt: Block -> Block, nonce: Block, input: Bytes)
    ensures CtrBytes(encrypt, nonce, CtrBytes(encrypt, nonce, input)) == input
  {
    XorTwice(input, KeyBytes(encrypt, nonce, 0, |input|));
  }

  /** A chunk ciphered behind what was ciphered before. */
  lemma CtrNext(encrypt: Block -> Block, nonce: Block, done: Bytes, chunk: Bytes)
    ensures CtrBytes(encrypt, nonce, done) + Xor(chunk, KeyBytes(encrypt, nonce, |done|, |chunk|))
         == CtrBytes(encrypt, nonce, done + chunk)
  {
    hide KeyByte;
    KeyBytesJoin(encrypt, nonce, 0, |done|, |chunk|);
    var k := KeyBytes(encrypt, nonce, 0, |done| + |chunk|);
    assert k == KeyBytes(encrypt, nonce, 0, |done|) + KeyBytes(encrypt, nonce, |done|, |chunk|);
  }

  /** incr_be over the whole block. */
  function Stepped(nonce: Block): (r: Block) {
    Incremented(nonce)
  }

  /** ctr_next_block on the nonce in the context. */
  function NextBlock(encrypt: Block -> Block): Source<Block> {
    (nonce: Block) => (Stepped(nonce), encrypt(nonce))
  }

  /** The state of the source after `k` bytes. */
  function TapAt(encrypt: Block -> Block, nonce: Block, k: nat): Tap<Block> {
    if k % 16 == 0 then Tap(Counter(nonce, k / 16), [])
    else Tap(Counter(nonce, k / 16 + 1), encrypt(Counter(nonce, k / 16))[k % 16..])
  }

  lemma TapSteps(encrypt: Block -> Block, nonce: Block, k: nat)
    ensures Sized(NextBlock(encrypt), 16)
    ensures Key(NextBlock(encrypt), 16, TapAt(encrypt, nonce, k), 1) == [KeyByte(encrypt, nonce, k)]
    ensures After(NextBlock(encrypt), 16, TapAt(encrypt, nonce, k), 1) == TapAt(encrypt, nonce, k + 1)
  {
    var tap := TapAt(encrypt, nonce, k);
    var next := NextBlock(encrypt);
    var t := Refill(next, 16, tap);
    var block := encrypt(Counter(nonce, k / 16));
    assert t.ready == block[k % 16..] && t.ctx == Counter(nonce, k / 16 + 1);
    assert t.ready[1..] == block[k % 16 + 1..];
    assert Key(next, 16, tap, 1) == [t.ready[0]] + Key(next, 16, Tap(t.ctx, t.ready[1..]), 0);
    assert After(next, 16, tap, 1) == After(next, 16, Tap(t.ctx, t.ready[1..]), 0);
  }

  /** The buffered source gives the key bytes in order, however many are drawn at a time. */
  lemma {:induction false} TapRun(encrypt: Block -> Block, nonce: Block, k: nat, n: nat)
    ensures Sized(NextBlock(encrypt), 16)
    ensures Key(NextBlock(encrypt), 16, TapAt(encrypt, nonce, k), n) == KeyBytes(encrypt, nonce, k, n)
    ensures After(NextBlock(encrypt), 16, TapAt(encrypt, nonce, k), n) == TapAt(encrypt, nonce, k + n)
    decreases n
  {
    hide KeyByte, TapAt;
    TapSteps(encrypt, nonce, k);
    if n > 0 {
      TapRun(encrypt, nonce, k + 1, n - 1);
      KeyConcat(NextBlock(encrypt), 16, TapAt(encrypt, nonce, k), 1, n - 1);
      assert KeyBytes(encrypt, nonce, k, n) == [KeyByte(encrypt, nonce, k)] + KeyBytes(encrypt, nonce, k + 1, n - 1);
    }
  }

  class Ctr {
    const encrypt: Block -> Block
    ghost const start: Block
    var nonce: Block
    const keymat: array<byte>
    var nkeymat: nat
    /** Key bytes used so far. */
    ghost var drawn: nat

    ghost predicate Valid()
      reads this, keymat
    {
      && keymat.Length == 16 && nkeymat < 16
      && Tap(nonce, keymat[16 - nkeymat..]) == TapAt(encrypt, start, drawn)
    }

    /** cf_ctr_init. */
    constructor (encrypt: Block -> Block, nonce: Block)
      ensures Valid() && fresh(keymat) && this.encrypt == encrypt && start == nonce && drawn == 0
    {
      this.encrypt := encrypt;
      this.start := nonce;
      this.nonce := nonce;
      keymat := new byte[16](_ => 0);
      nkeymat := 0;
      drawn := 0;
    }

    /** cf_ctr_cipher: every call goes on where the last one stopped, and input and output may be
        the same array. */
    method Cipher(input: array<byte>, output: array<byte>, bytes: nat)
      requires Valid() && bytes <= input.Length && bytes <= output.Length
      requires keymat != input && keymat != output
      modifies this, keymat, output
      ensures Valid() && drawn == old(drawn) + bytes
      ensures output[..] == Xor(old(input[..])[..bytes], KeyBytes(encrypt, start, old(drawn), bytes)) + old(output[..])[bytes..]
    {
      hide Key, After, TapAt, KeyBytes;
      TapRun(encrypt, start, drawn, bytes);
      nkeymat, nonce := XorStream(keymat, nkeymat, 16, input, output, bytes, NextBlock(encrypt), nonce);
      drawn := drawn + bytes;
    }

    /** cf_ctr_discard_block: the rest of the current key block is dropped. */
    method DiscardBlock()
      requires Valid()
      modifies this
      ensures Valid() && drawn == (old(drawn) + 15) / 16 * 16
    {
      nkeymat := 0;
      drawn := (drawn + 15) / 16 * 16;
      assert keymat[16..] == [];
    }
  }

  /** Any split into chunks ciphers the concatenation in one pass. */
  method CipherChunks(encrypt: Block -> Block, nonce: Block, chunks: seq<Bytes>) returns (out: Bytes)
    ensures out == CtrBytes(encrypt, nonce, Joined(chunks))
  {
    hide KeyBytes, CtrBytes;
    var ctr := new Ctr(encrypt, nonce);
    out := [];
    var i := 0;
    while i < |chunks|
      invariant i <= |chunks| && ctr.Valid() && ctr.encrypt == encrypt && ctr.start == nonce
      invariant fresh(ctr) && fresh(ctr.keymat)
      invariant ctr.drawn == |Joined(chunks[..i])| && out == CtrBytes(encrypt, nonce, Joined(chunks[..i]))
    {
      var chunk := chunks[i];
      var data := new byte[|chunk|](k requires 0 <= k < |chunk| => chunk[k]);
      assert data[..] == data[..][..|chunk|] == chunk;
      ctr.Cipher(data, data, |chunk|);
      CtrNext(encrypt, nonce, Joined(chunks[..i]), chunk);
      assert chunks[..i + 1][..i] == chunks[..i];
      out := out + data[..];
      i := i + 1;
    }
    assert chunks[..i] == chunks;
  }

  /** The chunks of the given sizes, and what is left over. */
  function Cut(b: Bytes, sizes: seq<nat>): (chunks: seq<Bytes>)
    ensures Joined(chunks) == b
    decreases |sizes|
  {
    if sizes == [] then JoinedOne(b); [b]
    else
      var n := |sizes| - 1;
      var k := if sizes[n] <= |b| then sizes[n] else |b|;
      Cut(b[..|b| - k], sizes[..n]) + [b[|b| - k..]]
  }

  lemma JoinedOne(b: Bytes)
    ensures Joined([b]) == b
  {
    assert [b][..0] == [];
  }

  /** Two passes from the same nonce, each in a context of its own and in chunks of its own, restore
      the input. */
  method CipherTwice(encrypt: Block -> Block, nonce: Block, chunks: seq<Bytes>, sizes: seq<nat>) returns (out: Bytes)
    ensures out == Joined(chunks)
  {
    hide CtrBytes;
    var cipher := CipherChunks(encrypt, nonce, chunks);
    out := CipherChunks(encrypt, nonce, Cut(cipher, sizes));
    CtrTwice(encrypt, nonce, Joined(chunks));
  }
}
