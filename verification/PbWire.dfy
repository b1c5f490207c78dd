/** Wire-level number codecs of nanopb: base-128 varints, zigzag, little-endian
    fixed-width words and the narrowing to C integer widths. */
module PbWire {
  import opened Division
  import opened PbBytes

  const TWO32: int := 0x1_0000_0000
  const TWO64: int := 0x1_0000_0000_0000_0000

  function Pow2(n: nat): (p: int)
    ensures p >= 1
  {
    if n == 0 then 1 else 2 * Pow2(n - 1)
  }

  function Pow128(n: nat): (p: int)
    ensures p >= 1
  {
    if n == 0 then 1 else 128 * Pow128(n - 1)
  }

  lemma Pow2Step(n: nat)
    ensures Pow2(n + 1) == 2 * Pow2(n)
  {}

  lemma Pow2Widths()
    ensures Pow2(8) == 0x100 && Pow2(16) == 0x1_0000
    ensures Pow2(32) == TWO32 && Pow2(64) == TWO64
  {
    assert Pow2(8) == 0x100;
    assert Pow2(16) == 0x1_0000;
    assert Pow2(24) == 0x100_0000;
    assert Pow2(32) == TWO32;
    assert Pow2(40) == 0x100_0000_0000;
    assert Pow2(48) == 0x1_0000_0000_0000;
    assert Pow2(56) == 0x100_0000_0000_0000;
  }

  /** The varint of `v`, low groups first, continuation bit on all but the last byte. */
  function VarintBytes(v: nat): (r: seq<byte>)
    ensures |r| >= 1
  {
    if v < 128 then [v] else [v % 128 + 128] + VarintBytes(v / 128)
  }

  /** The groups of a varint as an unbounded number. `limit` is the number of bytes
      the decoder accepts before it reports an overflow. */
  function Groups(limit: nat, w: seq<byte>): (r: Read<nat>)
    ensures |r.rest| <= |w| && (r.Ok? ==> |r.rest| < |w|)
    decreases |w|
  {
    if limit == 0 then Fail(w)
    else if w == [] then Fail(w)
    else if w[0] < 128 then Ok(w[0], w[1..])
    else
      match Groups(limit - 1, w[1..])
      case Fail(rest) => Fail(rest)
      case Ok(v, rest) => Ok(w[0] - 128 + 128 * v, rest)
  }

  /** A decoder that accepts `limit` bytes and keeps the value modulo `m`: excess bits are
      shifted out of the result word. */
  function Varint(limit: nat, m: nat, w: seq<byte>): (r: Read<nat>)
    requires m > 0
    ensures |r.rest| <= |w| && (r.Ok? ==> |r.rest| < |w| && r.value < m)
  {
    match Groups(limit, w)
    case Fail(rest) => Fail(rest)
    case Ok(v, rest) => Ok(v % m, rest)
  }

  /** pb_decode_varint: ten bytes at most, a 64-bit word. */
  function Varint64(w: seq<byte>): (r: Read<nat>)
    ensures |r.rest| <= |w| && (r.Ok? ==> |r.rest| < |w| && r.value < TWO64)
  {
    Varint(10, TWO64, w)
  }

  /** pb_decode_varint32: five bytes at most, a 32-bit word. */
  function Varint32(w: seq<byte>): (r: Read<nat>)
    ensures |r.rest| <= |w| && (r.Ok? ==> |r.rest| < |w| && r.value < TWO32)
  {
    Varint(5, TWO32, w)
  }

  lemma {:induction false} VarintFits(v: nat, n: nat)
    requires n >= 1 && v < Pow128(n)
    ensures |VarintBytes(v)| <= n
  {
    if v >= 128 {
      assert v / 128 < Pow128(n - 1);
      VarintFits(v / 128, n - 1);
    }
  }

  /** The written varint has the least length whose base-128 range contains the value. */
  lemma {:induction false} VarintLength(v: nat)
    ensures v < Pow128(|VarintBytes(v)|)
    ensures |VarintBytes(v)| > 1 ==> Pow128(|VarintBytes(v)| - 1) <= v
  {
    if v >= 128 {
      VarintLength(v / 128);
    }
  }

  lemma {:induction false} GroupsOfVarint(limit: nat, v: nat, z: seq<byte>)
    requires |VarintBytes(v)| <= limit
    ensures Groups(limit, VarintBytes(v) + z) == Ok(v, z)
  {
    var w := VarintBytes(v) + z;
    if v < 128 {
      assert w[1..] == z;
    } else {
      assert w[1..] == VarintBytes(v / 128) + z;
      GroupsOfVarint(limit - 1, v / 128, z);
    }
  }

  lemma VarintMax(v: nat)
    ensures v < TWO64 ==> |VarintBytes(v)| <= 10
    ensures v < TWO32 ==> |VarintBytes(v)| <= 5
  {
    assert Pow128(5) == 0x8_0000_0000;
    assert Pow128(10) == 0x40_0000_0000_0000_0000;
    if v < TWO64 { VarintFits(v, 10); }
    if v < TWO32 { VarintFits(v, 5); }
  }

  lemma VarintWithin(limit: nat, m: nat, v: nat, z: seq<byte>)
    requires v < m && |VarintBytes(v)| <= limit
    ensures Varint(limit, m, VarintBytes(v) + z) == Ok(v, z)
  {
    GroupsOfVarint(limit, v, z);
    ModSmall(v, m);
  }

  /** pb_decode_varint undoes pb_encode_varint, and so does the 32-bit decoder below 2^32. */
  lemma VarintRoundTrip(v: nat, z: seq<byte>)
    requires v < TWO64
    ensures Varint64(VarintBytes(v) + z) == Ok(v, z)
    ensures v < TWO32 ==> Varint32(VarintBytes(v) + z) == Ok(v, z)
  {
    VarintMax(v);
    VarintWithin(10, TWO64, v, z);
    if v < TWO32 { VarintWithin(5, TWO32, v, z); }
  }

  /** A shorter limit only adds overflow errors. */
  lemma {:induction false} GroupsMoreBytes(a: nat, b: nat, w: seq<byte>)
    requires a <= b && Groups(a, w).Ok?
    ensures Groups(b, w) == Groups(a, w)
  {
    if w[0] >= 128 {
      GroupsMoreBytes(a - 1, b - 1, w[1..]);
    }
  }

  /** On every input the 32-bit decoder accepts, the two decoders stop at the same byte
      and agree modulo 2^32. */
  lemma DecodersAgree(w: seq<byte>)
    requires Varint32(w).Ok?
    ensures Varint64(w).Ok? && Varint64(w).rest == Varint32(w).rest
    ensures Varint64(w).value % TWO32 == Varint32(w).value
  {
    GroupsMoreBytes(5, 10, w);
    GroupsBelow(5, w);
    assert Pow128(5) == 0x8_0000_0000;
  }

  lemma {:induction false} GroupsBelow(limit: nat, w: seq<byte>)
    requires Groups(limit, w).Ok?
    ensures Groups(limit, w).value < Pow128(|w| - |Groups(limit, w).rest|)
    ensures |w| - |Groups(limit, w).rest| <= limit
  {
    if w[0] >= 128 {
      GroupsBelow(limit - 1, w[1..]);
    }
  }

  /** No other byte string decodes to `v` in fewer bytes than the written one. */
  lemma VarintIsShortest(v: nat, w: seq<byte>)
    requires v < TWO64
    requires Varint64(w).Ok? && Varint64(w).value == v
    ensures |VarintBytes(v)| <= |w| - |Varint64(w).rest|
  {
    GroupsBelow(10, w);
    var n := |w| - |Varint64(w).rest|;
    assert v <= Groups(10, w).value;
    VarintFits(v, n);
  }

  predicate Suffix(rest: seq<byte>, w: seq<byte>) {
    |rest| <= |w| && rest == w[|w| - |rest|..]
  }

  lemma SuffixTrans(a: seq<byte>, b: seq<byte>, c: seq<byte>)
    requires Suffix(a, b) && Suffix(b, c)
    ensures Suffix(a, c)
  {}

  lemma SuffixDrop(w: seq<byte>)
    ensures Suffix(w, w) && (w != [] ==> Suffix(w[1..], w))
  {}

  lemma GroupsRest(limit: nat, w: seq<byte>)
    ensures Groups(limit, w).rest ==
      if limit == 0 || w == [] then w else if w[0] < 128 then w[1..] else Groups(limit - 1, w[1..]).rest
  {}

  /** A decoder leaves the end of its window. */
  lemma {:induction false} GroupsSuffix(limit: nat, w: seq<byte>)
    ensures Suffix(Groups(limit, w).rest, w)
  {
    hide Groups, Suffix;
    GroupsRest(limit, w);
    SuffixDrop(w);
    if limit > 0 && w != [] && w[0] >= 128 {
      GroupsSuffix(limit - 1, w[1..]);
      SuffixTrans(Groups(limit, w).rest, w[1..], w);
    }
  }

  /** Reading is local: bytes after those consumed do not matter. */
  lemma {:induction false} GroupsExtend(limit: nat, w: seq<byte>, z: seq<byte>)
    requires Groups(limit, w).Ok?
    ensures Groups(limit, w + z) == Ok(Groups(limit, w).value, Groups(limit, w).rest + z)
  {
    var t := w[1..];
    assert (w + z)[0] == w[0] && (w + z)[1..] == t + z;
    if w[0] >= 128 {
      GroupsExtend(limit - 1, t, z);
    }
  }

  // ---------------------------------------------------------------- signed numbers

  function ToSigned(bits: nat, u: int): (r: int)
    requires bits >= 1
  {
    var m := u % Pow2(bits);
    if m < Pow2(bits - 1) then m else m - Pow2(bits)
  }

  lemma ToSignedInRange(bits: nat, v: int)
    requires bits >= 1
    ensures -Pow2(bits - 1) <= ToSigned(bits, v) < Pow2(bits - 1)
    ensures -Pow2(bits - 1) <= v < Pow2(bits - 1) ==> ToSigned(bits, v) == v
  {
    ToSignedWithin(v, Pow2(bits - 1));
  }

  lemma ToSignedWithin(v: int, half: int)
    requires half >= 1
    ensures 0 <= v % (2 * half) < 2 * half
    ensures 0 <= v < half ==> v % (2 * half) == v
    ensures -half <= v < 0 ==> v % (2 * half) == v + 2 * half
  {
    if 0 <= v < half { ModSmall(v, 2 * half); }
    if -half <= v < 0 { DivUnique(v, 2 * half, -1, v + 2 * half); }
  }

  /** pb_encode_svarint: the sign ends up in the lowest bit. */
  function ZigZag(v: int): (u: int)
    ensures 0 <= u < TWO64
  {
    if v < 0 then TWO64 - 1 - (2 * v) % TWO64 else (2 * v) % TWO64
  }

  /** pb_decode_svarint. */
  function UnZigZag(u: int): (v: int)
    requires 0 <= u < TWO64
  {
    if u % 2 == 1 then ToSigned(64, TWO64 - 1 - u / 2) else ToSigned(64, u / 2)
  }

  /** Small magnitudes get small codes, and the decoder gets the number back. */
  lemma ZigZagRoundTrip(v: int)
    requires -Pow2(63) <= v < Pow2(63)
    ensures ZigZag(v) == if v < 0 then -2 * v - 1 else 2 * v
    ensures UnZigZag(ZigZag(v)) == v
  {
    hide Pow2, ToSigned;
    ZigZagCode(v);
    hide ZigZag;
    if v < 0 {
      assert ZigZag(v) == 2 * (-v - 1) + 1;
      ToSignedComplement(-v - 1);
    } else {
      ToSignedInRange(64, v);
    }
  }

  lemma ZigZagCode(v: int)
    requires -Pow2(63) <= v < Pow2(63)
    ensures ZigZag(v) == if v < 0 then -2 * v - 1 else 2 * v
  {
    Pow2Widths();
    assert TWO64 == 2 * Pow2(63);
    if v < 0 { DivUnique(2 * v, TWO64, -1, 2 * v + TWO64); } else { ModSmall(2 * v, TWO64); }
  }

  lemma ToSignedComplement(u: int)
    requires 0 <= u < Pow2(63)
    ensures ToSigned(64, TWO64 - 1 - u) == -u - 1
  {
    Pow2Widths();
    ModSmall(TWO64 - 1 - u, TWO64);
  }

  // ---------------------------------------------------------------- fixed words

  function LittleEndian(n: nat, v: nat): (r: seq<byte>)
    ensures |r| == n
  {
    if n == 0 then [] else [v % 256] + LittleEndian(n - 1, v / 256)
  }

  function LittleEndianValue(b: seq<byte>): (v: nat)
  {
    if b == [] then 0 else b[0] + 256 * LittleEndianValue(b[1..])
  }

  lemma {:induction false} LittleEndianRoundTrip(n: nat, v: nat)
    requires v < Pow2(8 * n)
    ensures LittleEndianValue(LittleEndian(n, v)) == v
  {
    if n > 0 {
      Pow2Byte(8 * n);
      assert v / 256 < Pow2(8 * (n - 1));
      LittleEndianRoundTrip(n - 1, v / 256);
      assert LittleEndian(n, v)[1..] == LittleEndian(n - 1, v / 256);
    }
  }

  lemma Pow2Byte(n: nat)
    requires n >= 8
    ensures Pow2(n) == 256 * Pow2(n - 8)
  {
    assert Pow2(n) == 4 * Pow2(n - 2);
    assert Pow2(n - 2) == 4 * Pow2(n - 4);
    assert Pow2(n - 4) == 4 * Pow2(n - 6);
    assert Pow2(n - 6) == 4 * Pow2(n - 8);
  }

  lemma {:induction false} LittleEndianBelow(b: seq<byte>)
    ensures LittleEndianValue(b) < Pow2(8 * |b|)
  {
    if b != [] {
      LittleEndianBelow(b[1..]);
      Pow2Byte(8 * |b|);
    }
  }
}
