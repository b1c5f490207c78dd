/** What pb_encode writes for a logical message, and when it refuses. */
module PbEncodeSpec {
  import opened PbBytes
  import opened PbWire
  import opened PbTypes

  const WT_VARINT: nat := 0
  const WT_64BIT: nat := 1
  const WT_STRING: nat := 2
  const WT_32BIT: nat := 5

  /** pb_encode_tag_for_field chooses the wire type by the field type. */
  function WireType(f: Field): (wt: nat)
    ensures wt < 8
  {
    match f.ltype
    case Fix32T => WT_32BIT
    case Fix64T => WT_64BIT
    case BytesT => WT_STRING
    case StringT => WT_STRING
    case SubT(_) => WT_STRING
    case _ => WT_VARINT
  }

  function TagBytes(wt: nat, tag: nat): (r: seq<byte>)
    ensures |r| >= 1
  {
    VarintBytes(8 * tag + wt)
  }

  function Prefixed(b: seq<byte>): (r: seq<byte>)
    ensures |r| > |b|
  {
    VarintBytes(|b|) + b
  }

  /** One item without its tag. */
  function EncValue(f: Field, u: View): seq<byte>
    decreases u, 0
  {
    match u
    case N(n) => EncNumber(f, n)
    case B(b) => Prefixed(b)
    case M(sub) => if f.ltype.SubT? then Prefixed(EncFrom(f.ltype.fields, sub, 0)) else []
  }

  function EncNumber(f: Field, n: int): seq<byte> {
    match f.ltype
    case SIntT => VarintBytes(ZigZag(n))
    case Fix32T => LittleEndian(4, n % TWO32)
    case Fix64T => LittleEndian(8, n % TWO64)
    case _ => VarintBytes(n % TWO64)
  }

  /** The items from number `k` on, each with its own tag. */
  function EncTagged(f: Field, us: seq<View>, k: nat): seq<byte>
    decreases us, |us| - k
  {
    if k >= |us| then []
    else TagBytes(WireType(f), f.tag) + EncValue(f, us[k]) + EncTagged(f, us, k + 1)
  }

  /** The items from number `k` on, untagged: the body of a packed array. */
  function EncPacked(f: Field, us: seq<View>, k: nat): seq<byte>
    decreases us, |us| - k
  {
    if k >= |us| then [] else EncValue(f, us[k]) + EncPacked(f, us, k + 1)
  }

  /** All records of a field. Arrays are packed whenever their type allows it. */
  function EncField(f: Field, p: Present): seq<byte>
    decreases p
  {
    if p.values == [] then []
    else if f.htype.Repeated? && Packable(f) then
      TagBytes(WT_STRING, f.tag) + Prefixed(EncPacked(f, p.values, 0))
    else EncTagged(f, p.values, 0)
  }

  /** The records of the fields from number `i` on. */
  function EncFrom(fields: seq<Field>, ps: seq<Present>, i: nat): seq<byte>
    decreases ps, |ps| - i
  {
    if i >= |ps| || i >= |fields| then []
    else EncField(fields[i], ps[i]) + EncFrom(fields, ps, i + 1)
  }

  function EncMessage(fields: seq<Field>, ps: seq<Present>): seq<byte> {
    EncFrom(fields, ps, 0)
  }

  // ---------------------------------------------------------------- what pb_encode accepts

  ghost predicate EncodableValue(f: Field, v: Value)
    requires ValueShaped(f, v)
    decreases f, 0
  {
    match f.ltype
    case BytesT => |v.bytes| + BYTES_HEADER <= f.dataSize
    case SubT(sub) => Encodable(sub, v.slots)
    case StringT => true
    case Fix32T => true
    case Fix64T => true
    case ExtT => true
    case _ => IntWidth(f.dataSize)
  }

  ghost predicate EncodableSlot(f: Field, s: Slot)
    requires SlotShaped(f, s)
    decreases f, 1
  {
    match f.htype
    case Required => EncodableValue(f, s.items[0])
    case Optional => s.size != 0 ==> EncodableValue(f, s.items[0])
    case Oneof => s.size == f.tag ==> EncodableValue(f, s.items[0])
    case Repeated =>
      s.size <= f.arraySize && forall k :: 0 <= k < s.size ==> EncodableValue(f, s.items[k])
  }

  /** No array count above its capacity, no bytes item above its buffer, and integer fields
      of 1, 2, 4 or 8 bytes. */
  ghost predicate Encodable(fields: seq<Field>, slots: seq<Slot>)
    requires Shaped(fields, slots)
    decreases fields, 2
  {
    forall i {:trigger At(fields, slots, i)} :: 0 <= i < |fields| ==> EncodableSlot(fields[i], At(fields, slots, i))
  }

  /** Static fields with a field number, at every level: what the encoder can walk. */
  ghost predicate FieldPlain(f: Field)
    decreases f, 0
  {
    Plain(f) && match f.ltype case SubT(sub) => AllPlain(sub) case _ => true
  }

  ghost predicate AllPlain(fields: seq<Field>)
    decreases fields, 1
  {
    forall i :: 0 <= i < |fields| ==> FieldPlain(fields[i])
  }

  lemma TagsNonzero(fields: seq<Field>)
    requires AllPlain(fields)
    ensures forall i :: 0 <= i < |fields| ==> fields[i].tag != 0
  {
    forall i | 0 <= i < |fields| ensures fields[i].tag != 0 { assert FieldPlain(fields[i]); }
  }

  lemma {:induction false} DescriptorPlain(fields: seq<Field>)
    requires Descriptor(fields)
    ensures AllPlain(fields)
    decreases fields, 1
  {
    forall i | 0 <= i < |fields| ensures FieldPlain(fields[i]) { FieldOkPlain(fields[i]); }
  }

  lemma {:induction false} FieldOkPlain(f: Field)
    requires FieldOk(f)
    ensures FieldPlain(f)
    decreases f, 0
  {
    match f.ltype { case SubT(sub) => DescriptorPlain(sub); case _ => }
  }

  lemma PackedViews(f: Field, s: Slot)
    requires Packable(f) && f.htype.Repeated? && SlotShaped(f, s) && s.size <= f.arraySize
    ensures var us := SlotView(f, s).values;
      && |us| == s.size
      && forall k :: 0 <= k < s.size ==>
           && ValueShaped(f, s.items[k]) && us[k] == N(s.items[k].n)
           && EncValue(f, us[k]) == EncNumber(f, s.items[k].n)
  {
    forall k | 0 <= k < s.size
      ensures ValueShaped(f, s.items[k]) && SlotView(f, s).values[k] == N(s.items[k].n)
    {
      assert ValueShaped(f, s.items[k]);
    }
  }

  lemma FixedPackedSize(f: Field, us: seq<View>, k: nat)
    requires (f.ltype.Fix32T? || f.ltype.Fix64T?) && k <= |us|
    requires forall m :: 0 <= m < |us| ==> us[m].N?
    ensures |EncPacked(f, us, k)| == (if f.ltype.Fix32T? then 4 else 8) * (|us| - k)
    decreases |us| - k
  {
    if k < |us| {
      FixedPackedSize(f, us, k + 1);
      assert EncValue(f, us[k]) == EncNumber(f, us[k].n);
    }
  }

  ghost predicate EncodableAt(fields: seq<Field>, slots: seq<Slot>, i: nat)
    requires Shaped(fields, slots) && i < |fields|
  {
    EncodableSlot(fields[i], At(fields, slots, i))
  }

  ghost predicate EncodableBefore(fields: seq<Field>, slots: seq<Slot>, n: nat)
    requires Shaped(fields, slots) && n <= |fields|
  {
    n == 0 || (EncodableBefore(fields, slots, n - 1) && EncodableAt(fields, slots, n - 1))
  }

  lemma EncodableNeedsEach(fields: seq<Field>, slots: seq<Slot>, i: nat)
    requires Shaped(fields, slots) && i < |fields| && !EncodableAt(fields, slots, i)
    ensures !Encodable(fields, slots)
  {}

  lemma {:induction false} EncodableAll(fields: seq<Field>, slots: seq<Slot>, n: nat)
    requires Shaped(fields, slots) && n <= |fields| && EncodableBefore(fields, slots, n)
    ensures forall i :: 0 <= i < n ==> EncodableAt(fields, slots, i)
    ensures n == |fields| ==> Encodable(fields, slots)
  {
    if n > 0 { EncodableAll(fields, slots, n - 1); }
    if n == |fields| {
      forall i | 0 <= i < n ensures EncodableSlot(fields[i], At(fields, slots, i)) {
        assert EncodableAt(fields, slots, i);
      }
    }
  }

  lemma ViewAt(fields: seq<Field>, slots: seq<Slot>, i: nat)
    requires Shaped(fields, slots) && i < |fields|
    ensures SlotShaped(fields[i], At(fields, slots, i))
    ensures MessageView(fields, slots)[i] == SlotView(fields[i], At(fields, slots, i))
  {
    assert SlotShaped(fields[i], At(fields, slots, i));
  }

  lemma EncFromUnfold(fields: seq<Field>, ps: seq<Present>, i: nat, done: seq<byte>)
    requires |ps| == |fields| && i < |fields|
    ensures done + EncFrom(fields, ps, i) == done + EncField(fields[i], ps[i]) + EncFrom(fields, ps, i + 1)
  {
    assert done + (EncField(fields[i], ps[i]) + EncFrom(fields, ps, i + 1))
        == done + EncField(fields[i], ps[i]) + EncFrom(fields, ps, i + 1);
  }
}
