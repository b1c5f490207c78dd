/** The bytes of a message in the terms of the wire format itself: keys, lengths and payloads by number,
    and what a decoder makes of them that does not list the field. */
module PbEncodeLaws {
  import opened Division
  import opened PbBytes
  import opened PbWire
  import opened PbTypes
  import opened PbEncodeSpec
  import opened PbDecodeSpec
  import opened PbRoundTrip
  import PbRecords

  // ---------------------------------------------------------------- bytes of numbers

  /** Byte `k` of a varint holds bits 7k to 7k + 6; all bytes but the last are marked. */
  lemma {:induction false} VarintByteAt(v: nat, k: nat)
    requires k < |VarintBytes(v)|
    ensures VarintBytes(v)[k] == v / Pow128(k) % 128 + (if k + 1 < |VarintBytes(v)| then 128 else 0)
  {
    if k > 0 {
      VarintByteAt(v / 128, k - 1);
      DivDiv(v, 128, Pow128(k - 1));
    }
  }

  /** Byte `k` of a fixed word holds bits 8k to 8k + 7. */
  lemma {:induction false} FixedByteAt(n: nat, v: nat, k: nat)
    requires k < n
    ensures LittleEndian(n, v)[k] == v / Pow2(8 * k) % 256
  {
    if k > 0 {
      FixedByteAt(n - 1, v / 256, k - 1);
      Pow2Byte(8 * k);
      DivDiv(v, 256, Pow2(8 * k - 8));
    }
  }

  // ---------------------------------------------------------------- records by number

  /** The 64-bit word of a number. */
  function Word64(n: int): nat {
    if n >= 0 then n else if n >= -0x8000_0000_0000_0000 then n + 0x1_0000_0000_0000_0000 else 0
  }

  /** One present item of a field that is no array: the key is eight times the field number plus 0 for a
      varint, 1 for eight bytes, 2 for bytes behind their length, 5 for four bytes. Negative numbers are
      64-bit varints whatever the width of their field. */
  lemma SingleRecord(f: Field, u: View)
    requires Plain(f) && Fits(f, u) && !f.htype.Repeated?
    ensures var r := EncMessage([f], [Present([u])]);
      match f.ltype
      case IntT => r == VarintBytes(8 * f.tag) + VarintBytes(Word64(u.n))
      case UIntT => r == VarintBytes(8 * f.tag) + VarintBytes(u.n)
      case SIntT => r == VarintBytes(8 * f.tag) + VarintBytes(if u.n < 0 then -2 * u.n - 1 else 2 * u.n)
      case Fix64T => r == VarintBytes(8 * f.tag + 1) + LittleEndian(8, u.n)
      case BytesT => r == VarintBytes(8 * f.tag + 2) + (VarintBytes(|u.b|) + u.b)
      case StringT => r == VarintBytes(8 * f.tag + 2) + (VarintBytes(|u.b|) + u.b)
      case SubT(sub) =>
        var m := EncMessage(sub, u.fields);
        r == VarintBytes(8 * f.tag + 2) + (VarintBytes(|m|) + m)
      case Fix32T => r == VarintBytes(8 * f.tag + 5) + LittleEndian(4, u.n)
      case ExtT => true
  {
    OneRecord(f, u);
    NumberBytes(f, u);
  }

  lemma OneRecord(f: Field, u: View)
    requires !f.htype.Repeated?
    ensures EncMessage([f], [Present([u])]) == TagBytes(WireType(f), f.tag) + EncValue(f, u)
  {
    hide EncValue;
    var t, v := TagBytes(WireType(f), f.tag), EncValue(f, u);
    assert EncTagged(f, [u], 0) == t + v + EncTagged(f, [u], 1) == t + v;
    assert EncFrom([f], [Present([u])], 0) == EncField(f, Present([u])) + EncFrom([f], [Present([u])], 1);
  }

  lemma NumberBytes(f: Field, u: View)
    requires Fits(f, u)
    ensures f.ltype.IntT? ==> EncValue(f, u) == VarintBytes(Word64(u.n))
    ensures f.ltype.UIntT? ==> u.n >= 0 && EncValue(f, u) == VarintBytes(u.n)
    ensures f.ltype.SIntT? ==> EncValue(f, u) == VarintBytes(if u.n < 0 then -2 * u.n - 1 else 2 * u.n)
    ensures f.ltype.Fix32T? ==> EncValue(f, u) == LittleEndian(4, u.n)
    ensures f.ltype.Fix64T? ==> EncValue(f, u) == LittleEndian(8, u.n)
  {
    hide VarintBytes, LittleEndian, ZigZag, Pow2;
    WidthsNest(f.dataSize);
    Pow2Widths();
    Pow2Step(63);
    if f.ltype.IntT? {
      if u.n < 0 { DivUnique(u.n, TWO64, -1, u.n + TWO64); } else { ModSmall(u.n, TWO64); }
    } else if f.ltype.UIntT? || f.ltype.Fix64T? {
      ModSmall(u.n, TWO64);
    } else if f.ltype.SIntT? {
      ZigZagRoundTrip(u.n);
    } else if f.ltype.Fix32T? {
      ModSmall(u.n, TWO32);
    }
  }

  /** The payloads of all items, one after the other. */
  function Payloads(f: Field, us: seq<View>): seq<byte>
    decreases |us|
  {
    if us == [] then [] else EncValue(f, us[0]) + Payloads(f, us[1..])
  }

  lemma PayloadNonempty(f: Field, us: seq<View>)
    requires us != [] && Packable(f) && Fits(f, us[0])
    ensures Payloads(f, us) != []
  {
    hide VarintBytes, LittleEndian;
  }

  /** A packed array: one record, the payloads one after the other behind their common length. */
  lemma PackedRecord(f: Field, us: seq<View>)
    requires f.htype.Repeated? && us != []
    requires f.ltype.IntT? || f.ltype.UIntT? || f.ltype.SIntT? || f.ltype.Fix32T? || f.ltype.Fix64T?
    ensures EncMessage([f], [Present(us)])
         == VarintBytes(8 * f.tag + 2) + (VarintBytes(|Payloads(f, us)|) + Payloads(f, us))
  {
    hide EncValue, EncPacked, Payloads;
    PackedPayloads(f, us, 0);
    assert us[0..] == us;
    var r := EncField(f, Present(us));
    assert EncFrom([f], [Present(us)], 0) == r + EncFrom([f], [Present(us)], 1);
  }

  lemma {:induction false} PackedPayloads(f: Field, us: seq<View>, k: nat)
    requires k <= |us|
    ensures EncPacked(f, us, k) == Payloads(f, us[k..])
    decreases |us| - k
  {
    hide EncValue;
    if k < |us| {
      PackedPayloads(f, us, k + 1);
      assert us[k..][1..] == us[k + 1..];
    }
  }

  /** Any other array: one record an item, as if each were a field of its own. */
  lemma {:induction false} UnpackedRecords(f: Field, us: seq<View>, u: View)
    requires f.htype.Repeated? && (f.ltype.BytesT? || f.ltype.StringT? || f.ltype.SubT?)
    ensures EncMessage([f], [Present(us + [u])])
         == EncMessage([f], [Present(us)]) + EncMessage([f.(htype := Optional)], [Present([u])])
  {
    hide EncValue;
    var g := f.(htype := Optional);
    OneRecord(g, u);
    SameItem(f, g, u);
    TaggedAppend(f, us, u, 0);
    OneField(f, us);
    OneField(f, us + [u]);
  }

  lemma SameItem(f: Field, g: Field, u: View)
    requires g == f.(htype := Optional)
    ensures EncValue(g, u) == EncValue(f, u) && WireType(g) == WireType(f)
  {}

  lemma OneField(f: Field, us: seq<View>)
    requires f.htype.Repeated? && (f.ltype.BytesT? || f.ltype.StringT? || f.ltype.SubT?)
    ensures EncMessage([f], [Present(us)]) == EncTagged(f, us, 0)
  {
    hide EncTagged;
    assert EncFrom([f], [Present(us)], 0) == EncField(f, Present(us)) + EncFrom([f], [Present(us)], 1);
    assert us == [] ==> EncTagged(f, us, 0) == [] by { NoTagged(f, us); }
  }

  lemma NoTagged(f: Field, us: seq<View>)
    ensures us == [] ==> EncTagged(f, us, 0) == []
  {}

  lemma {:induction false} TaggedAppend(f: Field, us: seq<View>, u: View, k: nat)
    requires k <= |us|
    ensures EncTagged(f, us + [u], k) == EncTagged(f, us, k) + (TagBytes(WireType(f), f.tag) + EncValue(f, u))
    decreases |us| - k
  {
    hide EncValue, WireType, TagBytes;
    var t, v := TagBytes(WireType(f), f.tag), EncValue(f, u);
    if k == |us| {
      assert EncTagged(f, us + [u], k) == t + v + EncTagged(f, us + [u], k + 1);
      assert t + v + [] == [] + (t + v);
    } else {
      TaggedAppend(f, us, u, k + 1);
      var head := t + EncValue(f, us[k]);
      assert EncTagged(f, us, k) == head + EncTagged(f, us, k + 1);
      assert EncTagged(f, us + [u], k) == head + EncTagged(f, us + [u], k + 1);
      assert head + (EncTagged(f, us, k + 1) + (t + v)) == (head + EncTagged(f, us, k + 1)) + (t + v);
    }
  }

  /** Fields are written in the order of the descriptor, and absent ones not at all. */
  lemma {:induction false} FieldsInOrder(fields: seq<Field>, ps: seq<Present>, f: Field, p: Present)
    requires |fields| == |ps|
    ensures EncMessage(fields + [f], ps + [p]) == EncMessage(fields, ps) + EncMessage([f], [p])
    ensures EncMessage([f], [Present([])]) == []
  {
    hide EncField;
    FromAppend(fields, ps, f, p, 0);
    assert EncFrom([f], [p], 0) == EncField(f, p) + EncFrom([f], [p], 1);
    NothingWritten(f);
  }

  lemma NothingWritten(f: Field)
    ensures EncMessage([f], [Present([])]) == []
  {
    assert EncFrom([f], [Present([])], 0) == [] + EncFrom([f], [Present([])], 1);
  }

  lemma {:induction false} FromAppend(fields: seq<Field>, ps: seq<Present>, f: Field, p: Present, i: nat)
    requires |fields| == |ps| && i <= |fields|
    ensures EncFrom(fields + [f], ps + [p], i) == EncFrom(fields, ps, i) + EncField(f, p)
    decreases |fields| - i
  {
    hide EncField;
    if i == |fields| {
      assert EncFrom(fields + [f], ps + [p], i) == EncField(f, p) + EncFrom(fields + [f], ps + [p], i + 1);
    } else {
      FromAppend(fields, ps, f, p, i + 1);
      var head := EncField(fields[i], ps[i]);
      assert head + (EncFrom(fields, ps, i + 1) + EncField(f, p)) == (head + EncFrom(fields, ps, i + 1)) + EncField(f, p);
    }
  }

  // ---------------------------------------------------------------- a decoder that does not list the field

  lemma {:induction false} VarintSkips(v: nat, z: seq<byte>)
    ensures SkipVarint(VarintBytes(v) + z) == Ok((), z)
  {
    var w := VarintBytes(v) + z;
    if v < 128 {
      assert w[1..] == z;
    } else {
      assert w[1..] == VarintBytes(v / 128) + z;
      VarintSkips(v / 128, z);
    }
  }

  lemma PrefixedSkips(b: seq<byte>, z: seq<byte>)
    requires |b| < TWO32
    ensures SkipField(WT_STRING, Prefixed(b) + z) == Ok((), z)
  {
    assert Prefixed(b) + z == VarintBytes(|b|) + (b + z);
    VarintWithin32(|b|, b + z);
    assert (b + z)[|b|..] == z;
  }

  /** The value behind a key is skipped by the wire type of the key alone. */
  lemma ItemSkips(f: Field, u: View, z: seq<byte>)
    requires Fits(f, u) && |EncValue(f, u)| < TWO32
    ensures SkipField(WireType(f), EncValue(f, u) + z) == Ok((), z)
  {
    match f.ltype {
      case Fix32T => assert (EncValue(f, u) + z)[4..] == z;
      case Fix64T => assert (EncValue(f, u) + z)[8..] == z;
      case BytesT => PrefixedSkips(u.b, z);
      case StringT => PrefixedSkips(u.b, z);
      case SubT(sub) => PrefixedSkips(EncFrom(sub, u.fields, 0), z);
      case IntT => VarintSkips(u.n % TWO64, z);
      case UIntT => VarintSkips(u.n % TWO64, z);
      case SIntT => VarintSkips(ZigZag(u.n), z);
    }
  }

  lemma KeySkips(f: Field, wt: nat, body: seq<byte>, other: seq<Field>)
    requires Plain(f) && wt < 8 && SkipField(wt, body) == Ok((), [])
    requires forall i :: 0 <= i < |other| ==> other[i].tag != f.tag
    ensures PbRecords.IsUnknown(other, TagBytes(wt, f.tag) + body)
  {
    TagRoundTrip(f, wt, body);
  }

  /** Every record the encoder writes is a well-formed unknown record for a decoder that does not list
      its field. */
  lemma ItemUnknown(f: Field, u: View, other: seq<Field>)
    requires FieldOk(f) && Fits(f, u) && |EncValue(f, u)| < TWO32
    requires forall i :: 0 <= i < |other| ==> other[i].tag != f.tag
    ensures PbRecords.IsUnknown(other, EncTagged(f, [u], 0))
  {
    hide EncValue, EncTagged, Fits, FieldOk, TagBytes;
    var body := EncValue(f, u);
    ItemSkips(f, u, []);
    assert body + [] == body;
    KeyedItem(f, u, other);
    OneTagged(f, u);
  }

  lemma KeyedItem(f: Field, u: View, other: seq<Field>)
    requires FieldOk(f) && SkipField(WireType(f), EncValue(f, u)) == Ok((), [])
    requires forall i :: 0 <= i < |other| ==> other[i].tag != f.tag
    ensures PbRecords.IsUnknown(other, TagBytes(WireType(f), f.tag) + EncValue(f, u))
  {
    hide EncValue, SkipField;
    KeySkips(f, WireType(f), EncValue(f, u), other);
  }

  lemma OneTagged(f: Field, u: View)
    ensures EncTagged(f, [u], 0) == TagBytes(WireType(f), f.tag) + EncValue(f, u)
  {
    hide EncValue, TagBytes, WireType;
    var t, v := TagBytes(WireType(f), f.tag), EncValue(f, u);
    assert EncTagged(f, [u], 0) == t + v + EncTagged(f, [u], 1) == t + v;
  }

  lemma PackedUnknown(f: Field, us: seq<View>, other: seq<Field>)
    requires FieldOk(f) && Packable(f) && f.htype.Repeated? && us != [] && |us| <= f.arraySize
    requires forall k :: 0 <= k < |us| ==> Fits(f, us[k])
    requires forall i :: 0 <= i < |other| ==> other[i].tag != f.tag
    ensures PbRecords.IsUnknown(other, EncField(f, Present(us)))
  {
    forall k | 0 <= k < |us| ensures us[k].N? { PackableFits(f, us[k]); }
    PackedSmall(f, us, 0);
    var body := EncPacked(f, us, 0);
    PrefixedSkips(body, []);
    assert Prefixed(body) + [] == Prefixed(body);
    KeySkips(f, WT_STRING, Prefixed(body), other);
  }

  // ---------------------------------------------------------------- a decoder that lists nothing

  /** Every message is read to its end by a decoder that knows none of its fields. */
  lemma MessageSkipped(fields: seq<Field>, ps: seq<Present>)
    requires Descriptor(fields) && FitsMessage(fields, ps) && |EncMessage(fields, ps)| < TWO32
    ensures DecMessage([], EncMessage(fields, ps), []) == Good([], [], 0, true)
  {
    FromSkipped(fields, ps, 0);
  }

  ghost function LoopNone(t: seq<byte>): Outcome {
    DecLoop([], t, |t|, [], {})
  }

  lemma UnknownSkipped(r: seq<byte>, z: seq<byte>)
    requires PbRecords.IsUnknown([], r)
    ensures LoopNone(r + z) == LoopNone(z)
  {
    PbRecords.UnknownThenRest([], r, z, PbRecords.State([], {}));
  }

  lemma {:induction false} FromSkipped(fields: seq<Field>, ps: seq<Present>, i: nat)
    requires Descriptor(fields) && FitsMessage(fields, ps) && i <= |fields|
    requires |EncFrom(fields, ps, i)| < TWO32
    ensures LoopNone(EncFrom(fields, ps, i)) == Good([], [], 0, true)
    decreases |fields| - i
  {
    if i < |fields| {
      hide EncField;
      var rest := EncFrom(fields, ps, i + 1);
      assert EncFrom(fields, ps, i) == EncField(fields[i], ps[i]) + rest;
      FromSkipped(fields, ps, i + 1);
      assert FieldOk(fields[i]) && FitsField(fields[i], ps[i]);
      FieldSkipped(fields[i], ps[i], rest);
    }
  }

  lemma FieldSkipped(f: Field, p: Present, z: seq<byte>)
    requires FieldOk(f) && FitsField(f, p) && |EncField(f, p)| < TWO32
    ensures LoopNone(EncField(f, p) + z) == LoopNone(z)
  {
    hide LoopNone;
    if p.values == [] {
      assert EncField(f, p) + z == z;
    } else if f.htype.Repeated? && Packable(f) {
      PackedUnknown(f, p.values, []);
      assert p == Present(p.values);
      UnknownSkipped(EncField(f, p), z);
    } else {
      TaggedSkipped(f, p.values, 0, z);
    }
  }

  lemma TaggedSplit(f: Field, us: seq<View>, k: nat, z: seq<byte>)
    requires k < |us|
    ensures EncTagged(f, us, k) + z == EncTagged(f, [us[k]], 0) + (EncTagged(f, us, k + 1) + z)
    ensures |EncValue(f, us[k])| + |EncTagged(f, us, k + 1)| <= |EncTagged(f, us, k)|
  {
    hide EncValue, TagBytes, WireType;
    OneTagged(f, us[k]);
    var head, rest := TagBytes(WireType(f), f.tag) + EncValue(f, us[k]), EncTagged(f, us, k + 1);
    assert head + rest + z == head + (rest + z);
  }

  lemma {:induction false} TaggedSkipped(f: Field, us: seq<View>, k: nat, z: seq<byte>)
    requires FieldOk(f) && k <= |us| && |EncTagged(f, us, k)| < TWO32
    requires forall j :: 0 <= j < |us| ==> Fits(f, us[j])
    ensures LoopNone(EncTagged(f, us, k) + z) == LoopNone(z)
    decreases |us| - k
  {
    if k == |us| {
      assert EncTagged(f, us, k) + z == z;
    } else {
      hide LoopNone, EncTagged, EncValue, Fits, FieldOk, PbRecords.IsUnknown;
      TaggedSplit(f, us, k, z);
      TaggedSkipped(f, us, k + 1, z);
      ItemUnknown(f, us[k], []);
      UnknownSkipped(EncTagged(f, [us[k]], 0), EncTagged(f, us, k + 1) + z);
    }
  }
}
