/** What CBC, CTR, CMAC and EAX compute, said without the functions the methods are tied to. */
module CfModeLaws {
  import opened Division
  import opened CfBytes
  import opened CfBitops
  import opened CfBlockwise
  import opened CfModes
  import opened CfGf128
  import opened CfCmac
  import opened CfEax

  // ---------------------------------------------------------------- counting

  /** An increment goes into the byte before the trailing 0xFF bytes, which become zero. */
  lemma {:induction false} IncrementCarries(p: Bytes, x: byte, k: nat)
    requires x != 0xFF
    ensures Incremented(p + [x] + Repeat(0xFF, k)) == p + [x + 1] + Repeat(0, k)
    decreases k
  {
    var v := p + [x] + Repeat(0xFF, k);
    if k > 0 {
      IncrementCarries(p, x, k - 1);
      assert v[..|v| - 1] == p + [x] + Repeat(0xFF, k - 1);
      ZeroMore(p + [x + 1], k);
      assert p + [x + 1] + Repeat(0, k - 1) + [0] == p + [x + 1] + Repeat(0, k);
    } else {
      assert v == p + [x];
      assert v[..|v| - 1] == p;
      assert p + [x + 1] == p + [x + 1] + Repeat(0, 0);
    }
  }

  lemma {:induction false} IncrementWraps(n: nat)
    ensures Incremented(Repeat(0xFF, n)) == Repeat(0, n)
  {
    if n > 0 {
      IncrementWraps(n - 1);
      assert Repeat(0xFF, n)[..n - 1] == Repeat(0xFF, n - 1);
      assert Repeat(0, n - 1) + [0] == Repeat(0, n);
    }
  }

  lemma {:induction false} BigEndianInjective(a: Bytes, b: Bytes)
    requires |a| == |b| && BigEndian(a) == BigEndian(b)
    ensures a == b
  {
    if a != [] {
      var k := |a| - 1;
      LastDigit(BigEndian(a[..k]), a[k] as int, BigEndian(b[..k]), b[k] as int);
      BigEndianInjective(a[..k], b[..k]);
      SameByte(a[k], b[k]);
      assert a == a[..k] + [a[k]] && b == b[..k] + [b[k]];
    }
  }

  lemma LastDigit(a: nat, x: nat, b: nat, y: nat)
    requires x < 256 && y < 256 && 256 * a + x == 256 * b + y
    ensures a == b && x == y
  {}

  lemma Pow256Is()
    ensures Pow256(16) == 0x1_00000000_00000000_00000000_00000000
  {
    assert Pow256(4) == 0x1_0000_0000;
    assert Pow256(8) == 0x1_0000_0000_0000_0000;
    assert Pow256(12) == 0x1_0000_0000_0000_0000_0000_0000;
  }

  lemma Pow256Next(n: nat)
    ensures Pow256(n + 1) == 256 * Pow256(n)
  {}

  // ---------------------------------------------------------------- CTR and CBC

  /** Byte `i` of the output is byte `i` of the input xor byte `i` mod 16 of the cipher of the block
      whose number is the nonce plus `i` div 16, modulo 2^128. */
  lemma CtrByteIs(encrypt: Block -> Block, nonce: Block, input: Bytes, i: nat, b: Block)
    requires i < |input|
    requires BigEndian(b) == (BigEndian(nonce) + i / 16) % 0x1_00000000_00000000_00000000_00000000
    ensures CtrBytes(encrypt, nonce, input)[i] == input[i] ^ encrypt(b)[i % 16]
  {
    hide BigEndian, Counter, Pow256;
    Pow256Is();
    CounterAdds(nonce, i / 16);
    BigEndianInjective(b, Counter(nonce, i / 16));
  }

  /** Cipher block `k` is the cipher of plain block `k` xor the cipher block before it, or the initial
      one. */
  lemma CbcBlockIs(encrypt: Block -> Block, iv: Block, input: Bytes, blocks: nat, k: nat)
    requires 16 * blocks <= |input| && k < blocks
    ensures var c := CbcOutput(encrypt, iv, input, blocks);
      c[16 * k..16 * k + 16] == encrypt(Xor(input[16 * k..16 * k + 16], if k == 0 then iv else c[16 * k - 16..16 * k]))
  {
    hide CbcOutput, Xor;
    CbcOutputAt(encrypt, iv, input, blocks, k + 1);
    if k > 0 { CbcOutputAt(encrypt, iv, input, blocks, k); }
  }

  // ---------------------------------------------------------------- doubling

  /** The top bit of a byte. */
  function Top(b: byte): (t: nat) {
    if b < 0x80 then 0 else 1
  }

  lemma ShiftByteIs(b: byte, next: byte)
    ensures ShiftByte(b, next) as int == 2 * b as int - 256 * Top(b) + Top(next)
  {}

  /** The block shifted left by one bit, before anything is folded in. */
  function Shifted(b: Block, n: nat): (r: Bytes)
    requires n <= 15
    ensures |r| == n
  {
    if n == 0 then [] else Shifted(b, n - 1) + [ShiftByte(b[n - 1], b[n])]
  }

  lemma {:induction false} ShiftedIs(b: Block, n: nat)
    requires n <= 15
    ensures BigEndian(Shifted(b, n)) + Top(b[0]) * Pow256(n) == 2 * BigEndian(b[..n]) + Top(b[n])
  {
    hide ShiftByte, Top;
    if n > 0 {
      ShiftedIs(b, n - 1);
      ShiftByteIs(b[n - 1], b[n]);
      assert b[..n] == b[..n - 1] + [b[n - 1]];
      BigEndianNext(b[..n - 1], b[n - 1]);
      BigEndianNext(Shifted(b, n - 1), ShiftByte(b[n - 1], b[n]));
      Carry(Top(b[0]), Pow256(n - 1));
      hide BigEndian, Shifted;
    } else {
      assert b[..0] == [];
    }
  }

  lemma BigEndianNext(v: Bytes, x: byte)
    ensures BigEndian(v + [x]) == 256 * BigEndian(v) + x as int
  {
    assert (v + [x])[..|v|] == v;
  }

  lemma Carry(t: nat, p: nat)
    ensures t * (256 * p) == 256 * (t * p)
  {}

  /** The last byte before anything is folded in. */
  lemma LastShifted(b: byte)
    ensures (b << 1) as int == 2 * b as int - 256 * Top(b)
  {}

  lemma {:induction false} ShiftedAt(b: Block, n: nat, i: nat)
    requires i < n <= 15
    ensures Shifted(b, n)[i] == ShiftByte(b[i], b[i + 1])
  {
    hide ShiftByte;
    if i < n - 1 { ShiftedAt(b, n - 1, i); }
  }

  lemma FoldIs(last: byte, first: byte)
    ensures Fold(last, first) == (last << 1) ^ (if Top(first) == 1 then 0x87 else 0)
  {}

  lemma FoldNothing(b: byte)
    ensures b ^ 0 == b && (b ^ 0x87) ^ 0x87 == b
  {}

  lemma DoubleParts(b: Block)
    ensures Double(b) == Shifted(b, 15) + [(b[15] << 1) ^ (if Top(b[0]) == 1 then 0x87 else 0)]
  {
    hide ShiftByte, Fold, Top, Shifted;
    FoldIs(b[15], b[0]);
    forall i | 0 <= i < 15 ensures Double(b)[i] == Shifted(b, 15)[i] { ShiftedAt(b, 15, i); }
  }

  /** Section 2.3 of RFC 4493 on numbers: twice the number when its top bit is clear. Otherwise the
      last byte xor 0x87 is that of twice the number less 2^128. */
  lemma DoubleIsTwice(b: Block)
    ensures b[0] < 0x80 ==> BigEndian(Double(b)) == 2 * BigEndian(b)
    ensures b[0] >= 0x80 ==>
      var d := Double(b);
      BigEndian(d[..15] + [d[15] ^ 0x87]) == 2 * BigEndian(b) - 0x1_00000000_00000000_00000000_00000000
  {
    hide Double, Shifted, Pow256;
    DoubleParts(b);
    ShiftedIs(b, 15);
    LastShifted(b[15]);
    FoldNothing(b[15] << 1);
    Pow256Is();
    Pow256Next(15);
    var d := Shifted(b, 15) + [b[15] << 1];
    assert d[..15] == Shifted(b, 15);
  }

  // ---------------------------------------------------------------- CMAC

  lemma XorSwap(a: Block, b: Block, c: Block)
    ensures Xor(Xor(a, b), c) == Xor(Xor(a, c), b)
  {}

  /** At most one block. */
  lemma CmacShort(encrypt: Block -> Block, m: Bytes)
    requires |m| <= 16
    ensures var l := encrypt([0, 0, 0, 0, 0, 0, 0, 0, 0, 0, 0, 0, 0, 0, 0, 0]);
      Cmac(encrypt, m) ==
        if |m| == 16 then encrypt(Xor(m, Double(l))) else encrypt(Xor(m + [0x80] + Repeat(0, 15 - |m|), Double(Double(l))))
  {
    hide Xor, Double;
    assert m[16 * FullBefore(|m|)..] == m;
    if |m| == 16 { ZeroXor(Xor(m, Subkey1(encrypt))); } else { ZeroXor(Xor(Pad(m), Subkey2(encrypt))); }
  }

  /** The chain over a first block and what follows it. */
  lemma {:induction false} ChainFirst(encrypt: Block -> Block, a: Block, m: Bytes, n: nat)
    requires 16 * n <= |m|
    ensures 16 * (n + 1) <= |a + m|
    ensures CbcChain(encrypt, ZERO, a + m, n + 1) == CbcChain(encrypt, encrypt(a), m, n)
  {
    hide Xor;
    if n == 0 {
      assert (a + m)[0..16] == a;
      ZeroXor(a);
      assert CbcChain(encrypt, ZERO, a + m, 0) == ZERO;
    } else {
      ChainFirst(encrypt, a, m, n - 1);
      assert (a + m)[16 * n..16 * (n + 1)] == m[16 * (n - 1)..16 * n];
    }
  }

  /** A chain that starts elsewhere is the chain of a message with another first block. */
  lemma {:induction false} ChainFolds(encrypt: Block -> Block, b: Block, m: Bytes, n: nat)
    requires |m| >= 16 && 1 <= n && 16 * n <= |m|
    ensures CbcChain(encrypt, b, m, n) == CbcChain(encrypt, ZERO, Xor(b, m[..16]) + m[16..], n)
  {
    hide Xor;
    var w := Xor(b, m[..16]) + m[16..];
    if n == 1 {
      assert w[0..16] == Xor(b, m[..16]) && m[0..16] == m[..16];
      XorCommutes(b, m[..16]);
      ZeroXor(Xor(b, m[..16]));
      assert CbcChain(encrypt, b, m, 0) == b && CbcChain(encrypt, ZERO, w, 0) == ZERO;
    } else {
      ChainFolds(encrypt, b, m, n - 1);
      assert w[16 * (n - 1)..16 * n] == m[16 * (n - 1)..16 * n];
    }
  }

  lemma XorCommutes(a: Block, b: Block)
    ensures Xor(a, b) == Xor(b, a)
  {
    forall i | 0 <= i < 16 ensures Xor(a, b)[i] == Xor(b, a)[i] { XorByteCommutes(a[i], b[i]); }
  }

  lemma XorByteCommutes(x: byte, y: byte)
    ensures XorByte(x, y) == XorByte(y, x)
  {}

  lemma BlocksMore(len: nat)
    requires len > 0
    ensures FullBefore(len + 16) == FullBefore(len) + 1
  {}

  lemma OneBlockMore(encrypt: Block -> Block, a: Block, m: Block)
    ensures Cmac(encrypt, a + m) == WholeTag(encrypt, m, encrypt(a))
  {
    hide WholeTag, PaddedTag;
    ChainFirst(encrypt, a, m, 0);
    assert (a + m)[16..] == m && FullBefore(|a + m|) == 1;
  }

  lemma WholeTagFolds(encrypt: Block -> Block, m: Block, chain: Block)
    ensures WholeTag(encrypt, m, chain) == Cmac(encrypt, Xor(chain, m))
  {
    hide Xor, Double;
    XorCommutes(chain, m);
    XorSwap(m, Subkey1(encrypt), chain);
    CmacShort(encrypt, Xor(m, chain));
  }

  /** The chain of the first block is xored into the next one when that one is whole. */
  lemma CmacFolds(encrypt: Block -> Block, a: Block, m: Bytes)
    requires |m| >= 16
    ensures Cmac(encrypt, a + m) == Cmac(encrypt, Xor(encrypt(a), m[..16]) + m[16..])
  {
    hide Cmac, Xor;
    if |m| == 16 {
      OneBlockMore(encrypt, a, m);
      WholeTagFolds(encrypt, m, encrypt(a));
      assert m[..16] == m && Xor(encrypt(a), m) + m[16..] == Xor(encrypt(a), m);
    } else {
      ManyBlocksFold(encrypt, a, m);
    }
  }

  lemma ManyBlocksFold(encrypt: Block -> Block, a: Block, m: Bytes)
    requires |m| > 16
    ensures Cmac(encrypt, a + m) == Cmac(encrypt, Xor(encrypt(a), m[..16]) + m[16..])
  {
    hide Xor, WholeTag, PaddedTag, CbcChain, FullBefore;
    var w := Xor(encrypt(a), m[..16]) + m[16..];
    BlocksMore(|m|);
    var n := FullBefore(|m|);
    ChainFirst(encrypt, a, m, n);
    ChainFolds(encrypt, encrypt(a), m, n);
    assert (a + m)[16 * (n + 1)..] == m[16 * n..];
    assert w[16 * n..] == m[16 * n..];
  }

  /** Two blocks, the second one cut short: it is padded, meets 4L, and the chain of the first one. */
  lemma CmacPartial(encrypt: Block -> Block, a: Block, m: Bytes)
    requires 0 < |m| < 16
    ensures var l := encrypt([0, 0, 0, 0, 0, 0, 0, 0, 0, 0, 0, 0, 0, 0, 0, 0]);
      Cmac(encrypt, a + m) == encrypt(Xor(Xor(m + [0x80] + Repeat(0, 15 - |m|), Double(Double(l))), encrypt(a)))
  {
    hide Xor, Double;
    assert FullBefore(|a + m|) == 1 && (a + m)[16..] == m;
    ChainFirst(encrypt, a, m, 0);
  }

  /** The padding byte by byte: a single one is the xor of first and last. */
  lemma PadShape(first: byte, middle: byte, last: byte, n: nat)
    ensures var p := PadBytes(first, middle, last, n);
      && (n == 1 ==> p[0] == first ^ last)
      && (n >= 2 ==> p[0] == first && p[n - 1] == last)
      && forall k :: 1 <= k < n - 1 ==> p[k] == middle
  {}

  // ---------------------------------------------------------------- EAX

  /** The tweak blocks written out. */
  lemma OmacIs(encrypt: Block -> Block, m: Bytes)
    ensures Omac(encrypt, 0, m) == Cmac(encrypt, [0, 0, 0, 0, 0, 0, 0, 0, 0, 0, 0, 0, 0, 0, 0, 0] + m)
    ensures Omac(encrypt, 1, m) == Cmac(encrypt, [0, 0, 0, 0, 0, 0, 0, 0, 0, 0, 0, 0, 0, 0, 0, 1] + m)
    ensures Omac(encrypt, 2, m) == Cmac(encrypt, [0, 0, 0, 0, 0, 0, 0, 0, 0, 0, 0, 0, 0, 0, 0, 2] + m)
  {
    hide Cmac;
    assert Tweak(0) == [0, 0, 0, 0, 0, 0, 0, 0, 0, 0, 0, 0, 0, 0, 0, 0];
    assert Tweak(1) == [0, 0, 0, 0, 0, 0, 0, 0, 0, 0, 0, 0, 0, 0, 0, 1];
    assert Tweak(2) == [0, 0, 0, 0, 0, 0, 0, 0, 0, 0, 0, 0, 0, 0, 0, 2];
  }

  lemma SameStart(x: Bytes, y: Bytes, b: Bytes, c: Bytes, n: nat)
    requires |x| == |y| == |b| == |c| && n <= |b|
    requires forall i :: 0 <= i < n ==> (x[i] == y[i] <==> b[i] == c[i])
    ensures x[..n] == y[..n] <==> b[..n] == c[..n]
  {
    if x[..n] == y[..n] {
      forall i | 0 <= i < n ensures b[i] == c[i] { assert x[..n][i] == y[..n][i]; }
    }
    if b[..n] == c[..n] {
      forall i | 0 <= i < n ensures x[i] == y[i] { assert b[..n][i] == c[..n][i]; }
    }
  }

  /** Of two sums that differ in one term, the first bytes agree exactly when those of the term do. */
  lemma XorInjective(a: Bytes, b: Bytes, c: Bytes, d: Bytes, n: nat)
    requires |a| == |b| == |c| == |d| && n <= |a|
    ensures Xor(Xor(a, b), d)[..n] == Xor(Xor(a, c), d)[..n] <==> b[..n] == c[..n]
    ensures Xor(Xor(b, a), d)[..n] == Xor(Xor(c, a), d)[..n] <==> b[..n] == c[..n]
    ensures Xor(Xor(a, d), b)[..n] == Xor(Xor(a, d), c)[..n] <==> b[..n] == c[..n]
  {
    hide XorByte;
    forall i | 0 <= i < n
      ensures Xor(Xor(a, b), d)[i] == Xor(Xor(a, c), d)[i] <==> b[i] == c[i]
      ensures Xor(Xor(b, a), d)[i] == Xor(Xor(c, a), d)[i] <==> b[i] == c[i]
      ensures Xor(Xor(a, d), b)[i] == Xor(Xor(a, d), c)[i] <==> b[i] == c[i]
    {
      XorByteInjective(a[i], b[i], c[i]);
      XorByteInjective(d[i], XorByte(a[i], b[i]), XorByte(a[i], c[i]));
      XorByteInjective(d[i], XorByte(b[i], a[i]), XorByte(c[i], a[i]));
      XorByteInjective(XorByte(a[i], d[i]), b[i], c[i]);
    }
    hide Xor;
    SameStart(Xor(Xor(a, b), d), Xor(Xor(a, c), d), b, c, n);
    SameStart(Xor(Xor(b, a), d), Xor(Xor(c, a), d), b, c, n);
    SameStart(Xor(Xor(a, d), b), Xor(Xor(a, d), c), b, c, n);
  }

  lemma XorByteInjective(a: byte, b: byte, c: byte)
    ensures XorByte(a, b) == XorByte(a, c) <==> b == c
    ensures XorByte(b, a) == XorByte(c, a) <==> b == c
  {}

  /** The sealed message: the plaintext in counter mode from the tag of the nonce, and the three tags
      xored. */
  lemma SealedIs(encrypt: Block -> Block, nonce: Bytes, header: Bytes, plain: Bytes, ntag: nat)
    requires ntag <= 16
    ensures var s := Seal(encrypt, nonce, header, plain, ntag);
      var nn := Cmac(encrypt, [0, 0, 0, 0, 0, 0, 0, 0, 0, 0, 0, 0, 0, 0, 0, 0] + nonce);
      var hh := Cmac(encrypt, [0, 0, 0, 0, 0, 0, 0, 0, 0, 0, 0, 0, 0, 0, 0, 1] + header);
      var cc := Cmac(encrypt, [0, 0, 0, 0, 0, 0, 0, 0, 0, 0, 0, 0, 0, 0, 0, 2] + s.cipher);
      && s.cipher == CtrBytes(encrypt, nn, plain)
      && forall i :: 0 <= i < ntag ==> s.tag[i] == nn[i] ^ hh[i] ^ cc[i]
  {
    hide Cmac, Omac, CtrBytes;
    OmacIs(encrypt, nonce);
    OmacIs(encrypt, header);
    OmacIs(encrypt, Seal(encrypt, nonce, header, plain, ntag).cipher);
  }

  /** What was sealed under one header opens under another exactly when the two have the same tag, as
      far as it is kept. */
  lemma HeaderBound(encrypt: Block -> Block, nonce: Bytes, header: Bytes, plain: Bytes, ntag: nat, other: Bytes)
    requires ntag <= 16
    ensures Open(encrypt, nonce, other, Seal(encrypt, nonce, header, plain, ntag)).Some? <==>
        Cmac(encrypt, [0, 0, 0, 0, 0, 0, 0, 0, 0, 0, 0, 0, 0, 0, 0, 1] + other)[..ntag]
        == Cmac(encrypt, [0, 0, 0, 0, 0, 0, 0, 0, 0, 0, 0, 0, 0, 0, 0, 1] + header)[..ntag]
  {
    hide Cmac, Omac, CtrBytes, Xor;
    var s := Seal(encrypt, nonce, header, plain, ntag);
    OmacIs(encrypt, header);
    OmacIs(encrypt, other);
    XorInjective(Omac(encrypt, 0, nonce), Omac(encrypt, 1, header), Omac(encrypt, 1, other), Omac(encrypt, 2, s.cipher), ntag);
  }

  /** The same for a changed ciphertext, of any length. */
  lemma CipherBound(encrypt: Block -> Block, nonce: Bytes, header: Bytes, plain: Bytes, ntag: nat, other: Bytes)
    requires ntag <= 16
    ensures var s := Seal(encrypt, nonce, header, plain, ntag);
      Open(encrypt, nonce, header, Sealed(other, s.tag)).Some? <==>
        Cmac(encrypt, [0, 0, 0, 0, 0, 0, 0, 0, 0, 0, 0, 0, 0, 0, 0, 2] + other)[..ntag]
        == Cmac(encrypt, [0, 0, 0, 0, 0, 0, 0, 0, 0, 0, 0, 0, 0, 0, 0, 2] + s.cipher)[..ntag]
  {
    hide Cmac, Omac, CtrBytes, Xor;
    var s := Seal(encrypt, nonce, header, plain, ntag);
    OmacIs(encrypt, s.cipher);
    OmacIs(encrypt, other);
    XorInjective(Omac(encrypt, 0, nonce), Omac(encrypt, 2, s.cipher), Omac(encrypt, 2, other), Omac(encrypt, 1, header), ntag);
  }

  /** And for another nonce. */
  lemma NonceBound(encrypt: Block -> Block, nonce: Bytes, header: Bytes, plain: Bytes, ntag: nat, other: Bytes)
    requires ntag <= 16
    ensures Open(encrypt, other, header, Seal(encrypt, nonce, header, plain, ntag)).Some? <==>
        Cmac(encrypt, [0, 0, 0, 0, 0, 0, 0, 0, 0, 0, 0, 0, 0, 0, 0, 0] + other)[..ntag]
        == Cmac(encrypt, [0, 0, 0, 0, 0, 0, 0, 0, 0, 0, 0, 0, 0, 0, 0, 0] + nonce)[..ntag]
  {
    hide Cmac, Omac, CtrBytes, Xor;
    var s := Seal(encrypt, nonce, header, plain, ntag);
    OmacIs(encrypt, nonce);
    OmacIs(encrypt, other);
    XorInjective(Omac(encrypt, 2, s.cipher), Omac(encrypt, 0, nonce), Omac(encrypt, 0, other), Omac(encrypt, 1, header), ntag);
  }

  /** What opens is the ciphertext in counter mode from the tag of the nonce. */
  lemma OpenedIs(encrypt: Block -> Block, nonce: Bytes, header: Bytes, s: Sealed)
    requires |s.tag| <= 16
    ensures var o := Open(encrypt, nonce, header, s);
      o.Some? ==> o.value == CtrBytes(encrypt, Cmac(encrypt, [0, 0, 0, 0, 0, 0, 0, 0, 0, 0, 0, 0, 0, 0, 0, 0] + nonce), s.cipher)
  {
    hide Cmac, Omac, CtrBytes;
    OmacIs(encrypt, nonce);
  }
}
