/** eax.c: authenticated encryption from CMAC and CTR. */
module CfEax {
  import opened CfBytes
  import opened CfModes
  import opened CfCmac

  datatype Option<+T> = None | Some(value: T)
  datatype Sealed = Sealed(cipher: Bytes, tag: Bytes)

  // ---------------------------------------------------------------- specification

  /** A zero block with the tweak in its last byte. */
  function Tweak(t: byte): (r: Block) {
    Repeat(0, 15) + [t]
  }

  /** OMAC with a tweak: CMAC of the tweak block and the message. */
  function Omac(encrypt: Block -> Block, t: byte, m: Bytes): Block {
    Cmac(encrypt, Tweak(t) + m)
  }

  /** NN xor CC xor HH. */
  function FullTag(encrypt: Block -> Block, nonce: Bytes, header: Bytes, cipher: Bytes): (r: Block) {
    Xor(Xor(Omac(encrypt, 0, nonce), Omac(encrypt, 2, cipher)), Omac(encrypt, 1, header))
  }

  function Keystreamed(encrypt: Block -> Block, nonce: Bytes, input: Bytes): (r: Bytes)
    ensures |r| == |input|
  {
    CtrBytes(encrypt, Omac(encrypt, 0, nonce), input)
  }

  function Seal(encrypt: Block -> Block, nonce: Bytes, header: Bytes, plain: Bytes, ntag: nat): (r: Sealed)
    requires ntag <= 16
    ensures |r.cipher| == |plain| && |r.tag| == ntag
  {
    var cipher := Keystreamed(encrypt, nonce, plain);
    Sealed(cipher, FullTag(encrypt, nonce, header, cipher)[..ntag])
  }

  function Open(encrypt: Block -> Block, nonce: Bytes, header: Bytes, s: Sealed): (r: Option<Bytes>)
    requires |s.tag| <= 16
  {
    if s.tag == FullTag(encrypt, nonce, header, s.cipher)[..|s.tag|] then Some(Keystreamed(encrypt, nonce, s.cipher))
    else None
  }

  /** What was sealed opens to the plaintext, for every cipher, nonce, header, message and tag
      length. */
  lemma SealedOpens(encrypt: Block -> Block, nonce: Bytes, header: Bytes, plain: Bytes, ntag: nat)
    requires ntag <= 16
    ensures Open(encrypt, nonce, header, Seal(encrypt, nonce, header, plain, ntag)) == Some(plain)
  {
    CtrTwice(encrypt, Omac(encrypt, 0, nonce), plain);
  }

  /** Of all tags of one length exactly one opens a ciphertext. */
  lemma OneTagOpens(encrypt: Block -> Block, nonce: Bytes, header: Bytes, s: Sealed, other: Bytes)
    requires |other| == |s.tag| <= 16 && Open(encrypt, nonce, header, s).Some?
    ensures Open(encrypt, nonce, header, Sealed(s.cipher, other)).Some? <==> other == s.tag
  {}

  // ---------------------------------------------------------------- methods

  /** cmac_compute_n, on a stream that is used again and again. */
  method ComputeN(stream: CmacStream, t: byte, input: Bytes) returns (out: Block)
    requires stream.Valid()
    modifies stream, stream.buffer
    ensures stream.Valid() && out == Omac(stream.encrypt, t, input)
  {
    hide Cmac, Absorbed;
    var firstBlock := Repeat(0, 15) + [t];
    stream.Reset();
    if |input| != 0 {
      stream.Update(firstBlock);
      assert [] + firstBlock == firstBlock;
      stream.UpdateFinal(input);
    } else {
      stream.UpdateFinal(firstBlock);
      assert [] + firstBlock == firstBlock + input;
    }
    out := stream.Final();
  }

  lemma XorAt(a: Block, b: Block, c: Block, i: nat)
    requires i < 16
    ensures Xor(Xor(a, b), c)[i] == XorByte(XorByte(a[i], b[i]), c[i])
  {}

  /** The loop that writes the first `ntag` bytes of the tag. */
  method CombineTag(nn: Block, cc: Block, hh: Block, tag: array<byte>, ntag: nat)
    requires ntag <= 16 && ntag <= tag.Length
    modifies tag
    ensures tag[..] == Xor(Xor(nn, cc), hh)[..ntag] + old(tag[..])[ntag..]
  {
    hide XorByte, Xor;
    ghost var sum, was := Xor(Xor(nn, cc), hh), tag[..];
    var i := 0;
    while i < ntag
      invariant i <= ntag
      invariant forall k :: 0 <= k < i ==> tag[k] == sum[k]
      invariant forall k :: i <= k < tag.Length ==> tag[k] == was[k]
    {
      XorAt(nn, cc, hh, i);
      tag[i] := XorByte(XorByte(nn[i], cc[i]), hh[i]);
      i := i + 1;
    }
  }

  /** cf_eax_encrypt; the message may be encrypted in place. */
  method Encrypt(encrypt: Block -> Block, plain: array<byte>, nplain: nat, header: Bytes, nonce: Bytes,
                 cipher: array<byte>, tag: array<byte>, ntag: nat)
    requires nplain <= plain.Length && nplain <= cipher.Length
    requires ntag <= 16 && ntag <= tag.Length && tag != cipher && tag != plain
    modifies cipher, tag
    ensures var s := Seal(encrypt, nonce, header, old(plain[..])[..nplain], ntag);
      && cipher[..] == s.cipher + old(cipher[..])[nplain..]
      && tag[..] == s.tag + old(tag[..])[ntag..]
  {
    hide Cmac, Omac, KeyBytes, Xor, TapAt;
    var stream := new CmacStream(encrypt);
    var nn := ComputeN(stream, 0, nonce);
    var hh := ComputeN(stream, 1, header);
    var ctr := new Ctr(encrypt, nn);
    ghost var was := cipher[..];
    ctr.Cipher(plain, cipher, nplain);
    ghost var c := Keystreamed(encrypt, nonce, old(plain[..])[..nplain]);
    assert cipher[..] == c + was[nplain..];
    assert cipher[..nplain] == c;
    var cc := ComputeN(stream, 2, cipher[..nplain]);
    CombineTag(nn, cc, hh, tag, ntag);
  }

  function Differ(d: byte, x: byte, y: byte): byte {
    d | (x ^ y)
  }

  /** mem_eq: no early exit. */
  method MemEq(a: Bytes, b: Bytes, len: nat) returns (same: bool)
    requires len <= |a| && len <= |b|
    ensures same <==> a[..len] == b[..len]
  {
    hide Differ;
    var i, diff: byte := 0, 0;
    while i < len
      invariant i <= len && (diff == 0 <==> a[..i] == b[..i])
    {
      DifferIs(diff, a[i], b[i]);
      assert a[..i + 1] == a[..i] + [a[i]] && b[..i + 1] == b[..i] + [b[i]];
      diff := Differ(diff, a[i], b[i]);
      i := i + 1;
    }
    same := diff == 0;
  }

  lemma DifferIs(d: byte, x: byte, y: byte)
    ensures Differ(d, x, y) == 0 <==> d == 0 && x == y
  {}

  /** cf_eax_decrypt: 0 exactly when the tag is the recomputed one, and otherwise 1 with the output
      untouched. The message may be decrypted in place. */
  method Decrypt(encrypt: Block -> Block, cipher: array<byte>, ncipher: nat, header: Bytes, nonce: Bytes,
                 tag: Bytes, plain: array<byte>)
    returns (r: int)
    requires ncipher <= cipher.Length && ncipher <= plain.Length
    requires 1 <= |tag| <= 16
    modifies plain
    ensures r == 0 || r == 1
    ensures var o := Open(encrypt, nonce, header, Sealed(old(cipher[..])[..ncipher], tag));
      && (r == 0 <==> o.Some?)
      && plain[..] == if o.Some? then o.value + old(plain[..])[ncipher..] else old(plain[..])
  {
    hide Cmac, Omac, KeyBytes, Xor, TapAt;
    ghost var input := cipher[..][..ncipher];
    var stream := new CmacStream(encrypt);
    var nn := ComputeN(stream, 0, nonce);
    var hh := ComputeN(stream, 1, header);
    assert cipher[..ncipher] == input;
    var cc := ComputeN(stream, 2, cipher[..ncipher]);
    var tt := new byte[16](_ => 0);
    CombineTag(nn, cc, hh, tt, |tag|);
    assert tt[..][..|tag|] == FullTag(encrypt, nonce, header, input)[..|tag|];
    var same := MemEq(tt[..], tag, |tag|);
    assert tag[..|tag|] == tag;
    if !same {
      return 1;
    }
    var ctr := new Ctr(encrypt, nn);
    ctr.Cipher(cipher, plain, ncipher);
    r := 0;
  }
}
