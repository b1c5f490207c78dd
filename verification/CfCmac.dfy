/** cifra_cmac.c: streaming CMAC against sections 2.3 and 2.4 of RFC 4493. */
module CfCmac {
  import opened Division
  import opened CfBytes
  import opened CfBlockwise
  import opened CfModes
  import opened CfGf128

  const SIZE_WRAP: nat := 0x1_0000_0000
  const ZERO: Block := [0, 0, 0, 0, 0, 0, 0, 0, 0, 0, 0, 0, 0, 0, 0, 0]

  // ---------------------------------------------------------------- the one-shot specification

  /** The subkeys 2L and 4L. */
  function Subkey1(encrypt: Block -> Block): Block {
    Double(encrypt(ZERO))
  }

  function Subkey2(encrypt: Block -> Block): Block {
    Double(Subkey1(encrypt))
  }

  /** A one bit and zero bits up to the block size. */
  function Pad(m: Bytes): (r: Block)
    requires |m| < 16
  {
    m + [0x80] + Repeat(0, 15 - |m|)
  }

  /** The number of blocks before the last one, which is whole or padded. */
  function FullBefore(len: nat): (n: nat)
    ensures 16 * n <= len <= 16 * n + 16
  {
    if len == 0 then 0 else (len - 1) / 16
  }

  /** The last cipher call, for a whole last block and for a shorter one. */
  function WholeTag(encrypt: Block -> Block, last: Block, chain: Block): Block {
    encrypt(Xor(Xor(last, Subkey1(encrypt)), chain))
  }

  function PaddedTag(encrypt: Block -> Block, last: Bytes, chain: Block): Block
    requires |last| < 16
  {
    encrypt(Xor(Xor(Pad(last), Subkey2(encrypt)), chain))
  }

  /** Section 2.4 of RFC 4493. */
  function Cmac(encrypt: Block -> Block, m: Bytes): (tag: Block) {
    var n := FullBefore(|m|);
    var last, chain := m[16 * n..], CbcChain(encrypt, ZERO, m, n);
    if |last| == 16 then WholeTag(encrypt, last, chain) else PaddedTag(encrypt, last, chain)
  }

  // ---------------------------------------------------------------- the process callbacks

  /** What the callbacks change in cf_cmac_stream: the CBC block, the byte counter (a size_t) and
      the finalised flag. */
  datatype Mac = Mac(block: Block, processed: nat, finalised: bool)

  const FRESH: Mac := Mac(ZERO, 0, false)

  /** cmac_process. The buffering always passes whole blocks. */
  function ProcessBlock(encrypt: Block -> Block): Process<Mac> {
    (m: Mac, block: Bytes) =>
      if |block| != 16 then m else Mac(CbcBlock(encrypt, m.block, block), (m.processed + 16) % SIZE_WRAP, m.finalised)
  }

  /** cmac_process_final_nopad and cmac_process_final_pad, by the subkey they xor in. */
  function ProcessFinal(encrypt: Block -> Block, key: Block): Process<Mac> {
    (m: Mac, block: Bytes) =>
      if |block| != 16 then m
      else Mac(CbcBlock(encrypt, m.block, Xor(block, key)), (m.processed + 16) % SIZE_WRAP, true)
  }

  /** The stream after a message, before the final call. */
  function Absorbed(encrypt: Block -> Block, m: Bytes): (r: Fed<Mac>)
    ensures |r.left| < 16
  {
    var n := |m| / 16;
    Fed(Mac(CbcChain(encrypt, ZERO, m, n), 16 * n % SIZE_WRAP, false), m[16 * n..])
  }

  lemma {:induction false} ChainPrefix(encrypt: Block -> Block, chain: Block, a: Bytes, b: Bytes, n: nat)
    requires 16 * n <= |a| <= |b| && a == b[..|a|]
    ensures CbcChain(encrypt, chain, a, n) == CbcChain(encrypt, chain, b, n)
  {
    if n > 0 {
      ChainPrefix(encrypt, chain, a, b, n - 1);
      assert a[16 * (n - 1)..16 * n] == b[16 * (n - 1)..16 * n];
    }
  }

  /** One more byte. */
  lemma AbsorbByte(encrypt: Block -> Block, m: Bytes, b: byte)
    ensures FeedByte(ProcessBlock(encrypt), 16, Absorbed(encrypt, m), b) == Absorbed(encrypt, m + [b])
  {
    var n := |m| / 16;
    var w := m + [b];
    ChainPrefix(encrypt, ZERO, m, w, n);
    assert m[16 * n..] + [b] == w[16 * n..];
    if |m| % 16 == 15 {
      assert |w| / 16 == n + 1;
      assert w[16 * n..] == w[16 * n..16 * (n + 1)];
      WrapTwice(16 * n, 16);
      assert w[16 * (n + 1)..] == [];
    }
  }

  lemma WrapTwice(a: nat, b: nat)
    ensures (a % SIZE_WRAP + b) % SIZE_WRAP == (a + b) % SIZE_WRAP
  {
    assert a % SIZE_WRAP + b == a + b + (-(a / SIZE_WRAP)) * SIZE_WRAP;
    ModAddMultiple(a + b, -(a / SIZE_WRAP), SIZE_WRAP);
  }

  lemma {:induction false} AbsorbAll(encrypt: Block -> Block, m: Bytes, data: Bytes)
    ensures Feed(ProcessBlock(encrypt), 16, Absorbed(encrypt, m), data) == Absorbed(encrypt, m + data)
    decreases |data|
  {
    hide Absorbed, FeedByte;
    if data == [] {
      assert m + data == m;
    } else {
      AbsorbByte(encrypt, m, data[0]);
      AbsorbAll(encrypt, m + [data[0]], data[1..]);
      assert m + [data[0]] + data[1..] == m + data;
    }
  }

  lemma AbsorbNothing(encrypt: Block -> Block)
    ensures Absorbed(encrypt, []) == Fed(FRESH, [])
  {}

  /** The context looks unused exactly after a whole multiple of 2^32 bytes. */
  lemma AbsorbedUsed(encrypt: Block -> Block, m: Bytes)
    ensures |Absorbed(encrypt, m).left| == |m| % 16
    ensures Absorbed(encrypt, m).left == [] && Absorbed(encrypt, m).ctx.processed == 0 <==> |m| % SIZE_WRAP == 0
    ensures |m| % SIZE_WRAP == 0 ==> m[16 * (|m| / 16)..] == []
  {}

  /** A message that ends with a whole block: that block meets 2L. */
  lemma WholeEnd(encrypt: Block -> Block, m: Bytes, data: Bytes)
    requires data != [] && (|m| + |data|) % 16 == 0
    ensures var r := FeedFinal(ProcessBlock(encrypt), ProcessFinal(encrypt, Subkey1(encrypt)), 16, Absorbed(encrypt, m), data);
      r.left == [] && r.ctx.finalised && r.ctx.block == Cmac(encrypt, m + data)
  {
    hide Double, Xor, CbcChain;
    var k := |data| - 1;
    AbsorbAll(encrypt, m, data[..k]);
    WholeParts(encrypt, m, data);
  }

  /** The last block of a message that ends a block is what waits before its last byte, and that byte. */
  lemma WholeParts(encrypt: Block -> Block, m: Bytes, data: Bytes)
    requires data != [] && (|m| + |data|) % 16 == 0
    ensures var k, w := |data| - 1, m + data;
      var head, n := m + data[..k], FullBefore(|w|);
      && |w| == 16 * n + 16 && |head| == 16 * n + 15 && |head| / 16 == n
      && head[16 * n..] + [data[k]] == w[16 * n..]
      && CbcChain(encrypt, ZERO, head, n) == CbcChain(encrypt, ZERO, w, n)
  {
    hide CbcChain;
    var k, w := |data| - 1, m + data;
    var head, n := m + data[..k], FullBefore(|w|);
    assert head == w[..|head|];
    ChainPrefix(encrypt, ZERO, head, w, n);
  }

  /** The padded rest meets 4L. */
  lemma PaddedEnd(encrypt: Block -> Block, m: Bytes)
    ensures var st := Absorbed(encrypt, m);
      var n := |m| / 16;
      Feed(ProcessFinal(encrypt, Subkey2(encrypt)), 16, st, PadBytes(0x80, 0, 0, 16 - |st.left|))
      == Fed(Mac(PaddedTag(encrypt, m[16 * n..], CbcChain(encrypt, ZERO, m, n)), (16 * n + 16) % SIZE_WRAP, true), [])
  {
    hide Feed, Double, Xor, CbcChain, PadBytes;
    var st := Absorbed(encrypt, m);
    var pad := PadBytes(0x80, 0, 0, 16 - |st.left|);
    PadIs(16 - |st.left|);
    assert st.left + pad == Pad(st.left);
    FeedFill(ProcessFinal(encrypt, Subkey2(encrypt)), 16, st, pad);
    WrapTwice(16 * (|m| / 16), 16);
  }

  lemma NoFullLast(len: nat)
    requires len == 0 || len % 16 != 0
    ensures FullBefore(len) == len / 16 && len - 16 * (len / 16) < 16
  {}

  /** Which is the tag when the message ends inside a block, or is empty. */
  lemma PaddedIsCmac(encrypt: Block -> Block, m: Bytes)
    ensures m == [] || |m| % 16 != 0 ==>
      Cmac(encrypt, m) == PaddedTag(encrypt, m[16 * (|m| / 16)..], CbcChain(encrypt, ZERO, m, |m| / 16))
  {
    hide WholeTag, PaddedTag, CbcChain, FullBefore;
    if m == [] || |m| % 16 != 0 { NoFullLast(|m|); }
  }

  lemma PadIs(n: nat)
    requires n > 0
    ensures PadBytes(0x80, 0, 0, n) == [0x80] + Repeat(0, n - 1)
  {
    PadOne();
    if n > 1 { assert Repeat(0, n - 2) + [0] == Repeat(0, n - 1); }
  }

  lemma PadOne()
    ensures 0x80 as bv8 ^ 0 == 0x80
  {}

  // ---------------------------------------------------------------- the stream

  class CmacStream {
    const encrypt: Block -> Block
    /** 2L and 4L. */
    const b: Block
    const p: Block
    const buffer: array<byte>
    var used: nat
    var mac: Mac
    /** The message so far. */
    ghost var message: Bytes

    ghost predicate Valid()
      reads this, buffer
    {
      && b == Subkey1(encrypt) && p == Subkey2(encrypt)
      && buffer.Length == 16 && used < 16
    }

    /** Updates are allowed: the message is in the CBC block and the buffer. */
    ghost predicate Open()
      reads this, buffer
    {
      Valid() && Fed(mac, buffer[..used]) == Absorbed(encrypt, message)
    }

    /** cf_cmac_stream_init, with the subkeys of cf_cmac_init. */
    constructor (encrypt: Block -> Block)
      ensures Open() && this.encrypt == encrypt && message == [] && fresh(buffer)
    {
      var l := encrypt(ZERO);
      var l2 := DoubleBlock(l);
      var l4 := DoubleBlock(l2);
      this.encrypt := encrypt;
      b, p := l2, l4;
      buffer := new byte[16](_ => 0);
      used, mac, message := 0, FRESH, [];
      AbsorbNothing(encrypt);
    }

    /** cf_cmac_stream_reset. */
    method Reset()
      requires Valid()
      modifies this, buffer
      ensures Open() && message == []
    {
      for i := 0 to 16
      {
        buffer[i] := 0;
      }
      used, mac, message := 0, FRESH, [];
      AbsorbNothing(encrypt);
    }

    /** cf_cmac_stream_update, not final. */
    method Update(data: Bytes)
      requires Open()
      modifies this, buffer
      ensures Open() && message == old(message) + data
    {
      hide Absorbed;
      AbsorbAll(encrypt, message, data);
      FinalIsFeed(ProcessBlock(encrypt), 16, Fed(mac, buffer[..used]), data);
      used, mac := AccumulateFinal(buffer, used, 16, data, ProcessBlock(encrypt), ProcessBlock(encrypt), mac);
      message := message + data;
    }

    /** The guard on an empty last chunk, in terms of the message. */
    lemma UnusedIs()
      requires Open()
      ensures used == 0 && mac.processed == 0 <==> |message| % SIZE_WRAP == 0
    {
      hide CbcChain;
      AbsorbedUsed(encrypt, message);
    }

    /** cf_cmac_stream_update, final. An empty last chunk is refused unless the context looks
        unused; the byte counter looks so again after a whole multiple of 2^32 bytes, and then the
        padded empty block is added to a message that was complete. */
    method UpdateFinal(data: Bytes)
      requires Open()
      requires data != [] || (used == 0 && mac.processed == 0)
      modifies this, buffer
      ensures Valid() && mac.finalised
      ensures data != [] || old(message) == [] ==> mac.block == Cmac(encrypt, old(message) + data)
      ensures data == [] ==> |old(message)| % SIZE_WRAP == 0
      ensures data == [] && old(message) != [] ==>
        mac.block == PaddedTag(encrypt, [], CbcChain(encrypt, ZERO, old(message), |old(message)| / 16))
    {
      hide CbcChain, PaddedTag, Cmac, Absorbed;
      AbsorbedUsed(encrypt, message);
      PaddedIsCmac(encrypt, message + data);
      var wholeNumberOfBlocks := (|data| + used) % 16 == 0;
      var emptyMessage := |data| == 0 && used == 0 && mac.processed == 0;
      if data == [] { assert message + data == message; }
      if wholeNumberOfBlocks && !emptyMessage {
        FinishWhole(data);
      } else {
        FinishPadded(data);
      }
    }

    /** The final chunk ends a block. */
    method FinishWhole(data: Bytes)
      requires Open() && data != [] && (|message| + |data|) % 16 == 0
      modifies this, buffer
      ensures Valid() && mac.finalised && mac.block == Cmac(encrypt, old(message) + data)
    {
      hide Feed, FeedFinal, Absorbed, Cmac;
      WholeEnd(encrypt, message, data);
      used, mac := AccumulateFinal(buffer, used, 16, data, ProcessBlock(encrypt), ProcessFinal(encrypt, b), mac);
    }

    /** The final chunk does not: padding follows it. */
    method FinishPadded(data: Bytes)
      requires Open()
      modifies this, buffer
      ensures Valid() && mac.finalised
      ensures var w := old(message) + data;
        mac.block == PaddedTag(encrypt, w[16 * (|w| / 16)..], CbcChain(encrypt, ZERO, w, |w| / 16))
    {
      hide Feed, FeedFinal, Absorbed, CbcChain, PaddedTag, PadBytes;
      AbsorbAll(encrypt, message, data);
      FinalIsFeed(ProcessBlock(encrypt), 16, Fed(mac, buffer[..used]), data);
      PaddedEnd(encrypt, message + data);
      used, mac := AccumulateFinal(buffer, used, 16, data, ProcessBlock(encrypt), ProcessBlock(encrypt), mac);
      used, mac := AccPad(buffer, used, 16, 0x80, 0x00, 0x00, 16 - used, ProcessFinal(encrypt, p), mac);
    }

    /** cf_cmac_stream_final. */
    method Final() returns (out: Block)
      requires Valid() && mac.finalised
      ensures out == mac.block
    {
      out := mac.block;
    }
  }

  const IDENTITY: Block -> Block := b => b

  lemma {:induction false} ZeroChain(m: Bytes, n: nat)
    requires 16 * n <= |m| && forall k :: 0 <= k < |m| ==> m[k] == 0
    ensures CbcChain(IDENTITY, ZERO, m, n) == ZERO
  {
    if n > 0 {
      ZeroChain(m, n - 1);
      assert m[16 * (n - 1)..16 * n] == ZERO;
      ZeroXor(ZERO);
    }
  }

  lemma ZeroXor(b: Block)
    ensures Xor(b, ZERO) == b
  {}

  lemma ZeroTags()
    ensures WholeTag(IDENTITY, ZERO, ZERO) == ZERO
    ensures PaddedTag(IDENTITY, [], ZERO)[0] == 0x80
  {
    hide Xor;
    assert Double(ZERO) == ZERO;
    ZeroXor(ZERO);
    ZeroXor(Pad([]));
  }

  /** 2^32 zero bytes under the identity cipher: the empty last chunk gets through, and what it leaves
      is not the tag. */
  lemma WrappedEmptyChunk() returns (m: Bytes)
    ensures |m| == SIZE_WRAP
    ensures Absorbed(IDENTITY, m).left == [] && Absorbed(IDENTITY, m).ctx.processed == 0
    ensures PaddedTag(IDENTITY, [], CbcChain(IDENTITY, ZERO, m, |m| / 16)) != Cmac(IDENTITY, m)
  {
    hide CbcChain, WholeTag, PaddedTag, Absorbed;
    m := Repeat(0, SIZE_WRAP);
    AbsorbedUsed(IDENTITY, m);
    var n := SIZE_WRAP / 16;
    ZeroChain(m, n);
    ZeroChain(m, n - 1);
    assert m[16 * (n - 1)..] == ZERO;
    ZeroTags();
  }

  /** cf_cmac_sign. */
  method Sign(stream: CmacStream, data: Bytes) returns (out: Block)
    requires stream.Valid()
    modifies stream, stream.buffer
    ensures out == Cmac(stream.encrypt, data)
  {
    stream.Reset();
    stream.UpdateFinal(data);
    assert [] + data == data;
    out := stream.Final();
  }

  /** Any split into chunks signs the concatenation, provided the last chunk is nonempty or
      nothing was sent. */
  method SignChunks(encrypt: Block -> Block, chunks: seq<Bytes>, last: Bytes) returns (out: Block)
    requires last != [] || Joined(chunks) == []
    ensures out == Cmac(encrypt, Joined(chunks) + last)
  {
    var stream := new CmacStream(encrypt);
    var i := 0;
    while i < |chunks|
      invariant i <= |chunks| && stream.Open() && stream.encrypt == encrypt && fresh(stream) && fresh(stream.buffer)
      invariant stream.message == Joined(chunks[..i])
    {
      assert chunks[..i + 1][..i] == chunks[..i];
      stream.Update(chunks[i]);
      i := i + 1;
    }
    assert chunks[..i] == chunks;
    AbsorbNothing(encrypt);
    stream.UpdateFinal(last);
    out := stream.Final();
  }
}
