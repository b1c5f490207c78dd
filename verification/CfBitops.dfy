/** bitops.h: branch-free selection and big-endian counting. */
module CfBitops {
  import opened CfBytes

  // ---------------------------------------------------------------- selection

  /** mask_u8: the difference is cut to its low eight bits before the test. */
  function MaskU8(x: bv32, y: bv32): (mask: byte)
  {
    var diff := x ^ y;
    var diffIsZero := ((!diff & (diff - 1)) & 0xFF) as bv8;
    0 - (diffIsZero >> 7)
  }

  /** So the mask compares bytes. It is the promised comparison of words exactly when unequal words
      differ in their low byte. */
  lemma MaskIs(x: bv32, y: bv32)
    ensures MaskU8(x, y) == if (x ^ y) & 0xFF == 0 then 0xFF else 0
    ensures (MaskU8(x, y) == if x == y then 0xFF else 0) <==> x == y || (x ^ y) & 0xFF != 0
  {}

  /** Two words the mask takes for equal. */
  lemma MaskConfuses()
    ensures MaskU8(0x100, 0) == 0xFF
  {}

  lemma MaskOfIndex(x: byte, i: byte)
    ensures MaskU8(x as bv32, i as bv32) == if x as int == i as int then 0xFF else 0
  {
    MaskOfBytes(x, i);
    if x as int == i as int { SameByte(x, i); }
  }

  lemma SameByte(x: byte, y: byte)
    requires x as int == y as int
    ensures x == y
  {}

  lemma MaskOfBytes(x: byte, y: byte)
    ensures MaskU8(x as bv32, y as bv32) == if x == y then 0xFF else 0
  {}

  function Blend(r: byte, item: byte, mask: byte): byte {
    (r & !mask) | (item & mask)
  }

  lemma BlendIs(r: byte, item: byte)
    ensures Blend(r, item, 0xFF) == item && Blend(r, item, 0) == r
  {}

  /** What the scan has selected after `n` entries: the entry, or nought if it is not among them. */
  function Selected(tab: Bytes, i: byte, n: nat): byte
    requires n <= |tab|
  {
    if i as int < n then tab[i as int] else 0
  }

  /** One step of the scan. */
  lemma SelectStep(tab: Bytes, i: byte, n: byte, r: byte)
    requires n as int < |tab| <= 256 && r == Selected(tab, i, n as int)
    ensures Blend(r, tab[n as int], MaskU8(i as bv32, n as bv32)) == Selected(tab, i, n as int + 1)
  {
    hide MaskU8, Blend;
    MaskOfIndex(i, n);
    BlendIs(r, tab[n as int]);
  }

  /** The byte the mask sees of an index. */
  function LowByte(i: bv32): byte {
    (i & 0xFF) as bv8
  }

  lemma MaskOfLow(i: bv32, n: byte)
    ensures MaskU8(i, n as bv32) == MaskU8(LowByte(i) as bv32, n as bv32)
  {}

  /** select_u8: the scan sees the low byte of the index only. */
  method SelectU8(i: bv32, tab: Bytes) returns (r: byte)
    requires |tab| <= 256
    ensures r == if LowByte(i) as int < |tab| then tab[LowByte(i) as int] else 0
  {
    hide MaskU8, Blend, LowByte;
    r := 0;
    var ii, index: byte := 0, 0;
    while ii < |tab|
      invariant ii <= |tab| && r == Selected(tab, LowByte(i), ii)
      invariant ii < |tab| ==> index as int == ii
    {
      SelectStep(tab, LowByte(i), index, r);
      MaskOfLow(i, index);
      NextByte(index);
      var mask := MaskU8(i, index as bv32);
      r := Blend(r, tab[ii], mask);
      ii, index := ii + 1, index + 1;
    }
  }

  /** select_u8x4: four entries in one scan of the table. */
  method SelectU8x4(a: byte, b: byte, c: byte, d: byte, tab: Bytes) returns (ra: byte, rb: byte, rc: byte, rd: byte)
    requires |tab| <= 256
    ensures ra == Selected(tab, a, |tab|) && rb == Selected(tab, b, |tab|)
    ensures rc == Selected(tab, c, |tab|) && rd == Selected(tab, d, |tab|)
  {
    hide MaskU8, Blend;
    ra, rb, rc, rd := 0, 0, 0, 0;
    var i, index: byte := 0, 0;
    while i < |tab|
      invariant i <= |tab| && (i < |tab| ==> index as int == i)
      invariant ra == Selected(tab, a, i) && rb == Selected(tab, b, i)
      invariant rc == Selected(tab, c, i) && rd == Selected(tab, d, i)
    {
      var item := tab[i];
      SelectStep(tab, a, index, ra);
      SelectStep(tab, b, index, rb);
      SelectStep(tab, c, index, rc);
      SelectStep(tab, d, index, rd);
      NextByte(index);
      ra := Blend(ra, item, MaskU8(a as bv32, index as bv32));
      rb := Blend(rb, item, MaskU8(b as bv32, index as bv32));
      rc := Blend(rc, item, MaskU8(c as bv32, index as bv32));
      rd := Blend(rd, item, MaskU8(d as bv32, index as bv32));
      i, index := i + 1, index + 1;
    }
  }

  // ---------------------------------------------------------------- big-endian counting

  function Pow256(n: nat): (p: nat)
    ensures p >= 1
  {
    if n == 0 then 1 else 256 * Pow256(n - 1)
  }

  function BigEndian(v: Bytes): (n: nat) {
    if v == [] then 0 else 256 * BigEndian(v[..|v| - 1]) + v[|v| - 1] as int
  }

  lemma {:induction false} BigEndianBelow(v: Bytes)
    ensures BigEndian(v) < Pow256(|v|)
  {
    if v != [] { BigEndianBelow(v[..|v| - 1]); }
  }

  /** The bytes after one increment: trailing 0xFF bytes become zero, the byte before them grows. */
  function Incremented(v: Bytes): (r: Bytes)
    ensures |r| == |v|
  {
    if v == [] then []
    else
      var k := |v| - 1;
      if v[k] == 0xFF then Incremented(v[..k]) + [0] else v[..k] + [v[k] + 1]
  }

  lemma NextByte(b: byte)
    ensures b + 1 == 0 <==> b == 0xFF
    ensures b != 0xFF ==> (b + 1) as int == b as int + 1
    ensures (0xFF as bv8) as int == 255 && (0 as bv8) as int == 0
  {}

  /** Counting is addition modulo 256^n. */
  lemma {:induction false} IncrementedAddsOne(v: Bytes)
    ensures BigEndian(Incremented(v)) == if BigEndian(v) + 1 == Pow256(|v|) then 0 else BigEndian(v) + 1
  {
    if v != [] {
      var k := |v| - 1;
      NextByte(v[k]);
      BigEndianBelow(v[..k]);
      if v[k] == 0xFF {
        IncrementedAddsOne(v[..k]);
        assert Incremented(v)[..k] == Incremented(v[..k]);
      } else {
        assert Incremented(v)[..k] == v[..k];
      }
    }
  }

  /** The bytes once the carry has reached byte `at` - 1. */
  ghost function Carried(v: Bytes, at: nat, len: nat): (r: Bytes)
    requires at <= len <= |v|
    ensures |r| == |v|
  {
    v[..at] + Repeat(0, len - at) + v[len..]
  }

  /** incr_be, with the bytes before the one it stops at untouched. */
  method IncrBe(v: array<byte>, len: nat)
    requires 0 < len <= v.Length
    modifies v
    ensures v[..] == Incremented(old(v[..])[..len]) + old(v[..])[len..]
  {
    hide Incremented, Carried;
    var at := len - 1;
    ghost var v0 := v[..];
    CarryStarts(v0, len);
    while true
      invariant at < len && v[..] == Carried(v0, at + 1, len)
      invariant Incremented(v0[..len]) == Incremented(v0[..at + 1]) + Repeat(0, len - 1 - at)
      decreases at
    {
      NextByte(v[at]);
      CarryOn(v0, at, len);
      assert v[at] == v[..][at];
      v[at] := v[at] + 1;
      if v[at] != 0 {
        return;
      }
      if at == 0 {
        return;
      }
      at := at - 1;
    }
  }

  lemma CarryStarts(v: Bytes, len: nat)
    requires len <= |v|
    ensures Carried(v, len, len) == v
    ensures Incremented(v[..len]) == Incremented(v[..len]) + Repeat(0, 0)
  {}

  lemma CarryOn(v: Bytes, at: nat, len: nat)
    requires at < len <= |v|
    requires Incremented(v[..len]) == Incremented(v[..at + 1]) + Repeat(0, len - 1 - at)
    ensures Carried(v, at + 1, len)[at] == v[at]
    ensures v[at] == 0xFF ==>
      && Carried(v, at + 1, len)[at := 0] == Carried(v, at, len)
      && Incremented(v[..len]) == Incremented(v[..at]) + Repeat(0, len - at)
      && (at == 0 ==> Carried(v, 0, len) == Incremented(v[..len]) + v[len..])
    ensures v[at] != 0xFF ==> Carried(v, at + 1, len)[at := v[at] + 1] == Incremented(v[..len]) + v[len..]
  {
    IncrementedByte(v, at);
    hide Incremented;
    CarriedByte(v, at, len, v[at] + 1);
    if v[at] == 0xFF {
      ZeroMore(Incremented(v[..at]), len - at);
      if at == 0 { assert v[..0] == [] && Incremented([]) == []; }
    }
  }

  lemma IncrementedByte(v: Bytes, at: nat)
    requires at < |v|
    ensures Incremented(v[..at + 1]) == if v[at] == 0xFF then Incremented(v[..at]) + [0] else v[..at] + [v[at] + 1]
  {
    assert v[..at + 1][..at] == v[..at];
  }

  lemma CarriedByte(v: Bytes, at: nat, len: nat, b: byte)
    requires at < len <= |v|
    ensures Carried(v, at + 1, len)[at] == v[at]
    ensures Carried(v, at + 1, len)[at := b] == v[..at] + [b] + Repeat(0, len - 1 - at) + v[len..]
    ensures Carried(v, at + 1, len)[at := 0] == Carried(v, at, len)
  {}

  lemma ZeroMore(a: Bytes, n: nat)
    requires n > 0
    ensures (a + [0]) + Repeat(0, n - 1) == a + Repeat(0, n)
  {}
}
