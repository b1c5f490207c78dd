/** pb_decode gives back the message pb_encode wrote. */
module PbRoundTrip {
  import opened Division
  import opened PbBytes
  import opened PbWire
  import opened PbTypes
  import opened PbEncodeSpec
  import opened PbDecodeSpec

  // ---------------------------------------------------------------- which messages

  /** A logical item its field can hold. */
  ghost predicate Fits(f: Field, u: View)
    decreases f, 0
  {
    match f.ltype
    case IntT => u.N? && IntWidth(f.dataSize) && -Pow2(8 * f.dataSize - 1) <= u.n < Pow2(8 * f.dataSize - 1)
    case SIntT => u.N? && IntWidth(f.dataSize) && -Pow2(8 * f.dataSize - 1) <= u.n < Pow2(8 * f.dataSize - 1)
    case UIntT => u.N? && IntWidth(f.dataSize) && 0 <= u.n < Pow2(8 * f.dataSize)
    case Fix32T => u.N? && 0 <= u.n < TWO32
    case Fix64T => u.N? && 0 <= u.n < TWO64
    case BytesT => u.B? && |u.b| + BYTES_HEADER <= f.dataSize
    case StringT => u.B? && 0 !in u.b && |u.b| + 1 <= f.dataSize
    case SubT(sub) => u.M? && FitsMessage(sub, u.fields)
    case ExtT => false
  }

  ghost predicate FitsField(f: Field, p: Present)
    decreases f, 1
  {
    && (forall k :: 0 <= k < |p.values| ==> Fits(f, p.values[k]))
    && match f.htype
       case Required => |p.values| == 1
       case Repeated => |p.values| <= f.arraySize
       case _ => |p.values| <= 1
  }

  ghost predicate FitsMessage(fields: seq<Field>, ps: seq<Present>)
    decreases fields, 2
  {
    && |ps| == |fields|
    && (forall i :: 0 <= i < |fields| ==> FitsField(fields[i], ps[i]))
    && (forall i, j :: 0 <= i < j < |fields| && SlotOf(fields, i) == SlotOf(fields, j) ==>
          ps[i].values == [] || ps[j].values == [])
  }

  // ---------------------------------------------------------------- memory before decoding

  ghost predicate FreshValue(f: Field, v: Value)
    requires ValueShaped(f, v)
    decreases f, 0
  {
    match f.ltype
    case SubT(sub) => Fresh(sub, v.slots)
    case _ => true
  }

  ghost predicate FreshSlot(f: Field, s: Slot)
    requires SlotShaped(f, s)
    decreases f, 1
  {
    match f.htype
    case Required => FreshValue(f, s.items[0])
    case Optional => s.size == 0 && FreshValue(f, s.items[0])
    case Repeated => s.size == 0
    case Oneof => s.size != f.tag
  }

  /** Memory in which nothing is present yet, at any depth the decoder relies on. */
  ghost predicate Fresh(fields: seq<Field>, slots: seq<Slot>)
    requires Shaped(fields, slots)
    decreases fields, 2
  {
    forall i {:trigger At(fields, slots, i)} :: 0 <= i < |fields| ==> FreshSlot(fields[i], At(fields, slots, i))
  }

  lemma {:induction false} DefaultsFresh(fields: seq<Field>, slots: seq<Slot>)
    requires Descriptor(fields) && Shaped(fields, slots)
    ensures Shaped(fields, Defaults(fields, slots)) && Fresh(fields, Defaults(fields, slots))
    decreases fields, 2
  {
    DefaultsShaped(fields, slots);
    forall i | 0 <= i < |fields| ensures FreshSlot(fields[i], At(fields, Defaults(fields, slots), i)) {
      assert FieldOk(fields[i]);
      assert SlotShaped(fields[i], At(fields, slots, i));
      LeaderIsItsOwn(fields, i);
      if !fields[i].htype.Oneof? { DefaultSlotFresh(fields[i], slots[i]); }
    }
  }

  lemma {:induction false} DefaultSlotFresh(f: Field, s: Slot)
    requires FieldOk(f) && SlotShaped(f, s) && !f.htype.Oneof?
    ensures SlotShaped(f, DefaultSlot(f, s)) && FreshSlot(f, DefaultSlot(f, s))
    decreases f, 1
  {
    DefaultSlotShaped(f, s);
    if !f.htype.Repeated? && f.ltype.SubT? {
      assert ValueShaped(f, s.items[0]);
      DefaultsFresh(f.ltype.fields, s.items[0].slots);
    }
  }

  // ---------------------------------------------------------------- numbers

  lemma NumberRoundTrip(f: Field, n: int, z: seq<byte>)
    requires Packable(f) && Fits(f, N(n))
    ensures DecScalar(f, EncNumber(f, n) + z) == Ok(Num(n), z)
  {
    match f.ltype {
      case IntT => IntRoundTrip(f, n, z);
      case UIntT => UIntRoundTrip(f, n, z);
      case SIntT => SIntRoundTrip(f, n, z);
      case Fix32T => Pow2Widths(); ModSmall(n, TWO32); FixedRoundTrip(4, n, z);
      case Fix64T => Pow2Widths(); ModSmall(n, TWO64); FixedRoundTrip(8, n, z);
      case _ =>
    }
  }

  lemma IntRoundTrip(f: Field, n: int, z: seq<byte>)
    requires f.ltype.IntT? && Fits(f, N(n))
    ensures DecScalar(f, EncNumber(f, n) + z) == Ok(Num(n), z)
  {
    VarintRoundTrip(n % TWO64, z);
    SignedBack(f.dataSize, n);
  }

  lemma UIntRoundTrip(f: Field, n: int, z: seq<byte>)
    requires f.ltype.UIntT? && Fits(f, N(n))
    ensures DecScalar(f, EncNumber(f, n) + z) == Ok(Num(n), z)
  {
    WidthsNest(f.dataSize);
    ModSmall(n, TWO64);
    VarintRoundTrip(n, z);
    ModSmall(n, Pow2(8 * f.dataSize));
  }

  lemma SIntRoundTrip(f: Field, n: int, z: seq<byte>)
    requires f.ltype.SIntT? && Fits(f, N(n))
    ensures DecScalar(f, EncNumber(f, n) + z) == Ok(Num(n), z)
  {
    VarintRoundTrip(ZigZag(n), z);
    ZigZagBack(f.dataSize, n);
  }

  lemma ZigZagBack(size: nat, n: int)
    requires IntWidth(size) && -Pow2(8 * size - 1) <= n < Pow2(8 * size - 1)
    ensures NarrowZigZag(size, ZigZag(n)) == Some(n)
  {
    hide Pow2, UnZigZag, ZigZag, ToSigned;
    WidthsNest(size);
    ZigZagRoundTrip(n);
    ToSignedInRange(8 * size, n);
  }

  lemma WidthsNest(size: nat)
    ensures IntWidth(size) ==> Pow2(8 * size) == 2 * Pow2(8 * size - 1)
    ensures IntWidth(size) ==> Pow2(8 * size - 1) <= Pow2(63) && Pow2(8 * size) <= TWO64
    ensures IntWidth(size) && size < 8 ==> Pow2(8 * size - 1) <= Pow2(31)
  {
    hide Pow2;
    Pow2Widths();
    Pow2Step(63); Pow2Step(31); Pow2Step(15); Pow2Step(7);
  }

  /** A negative number is written as a 64-bit varint and survives the int32_t cast. */
  lemma SignedBack(size: nat, n: int)
    requires IntWidth(size) && -Pow2(8 * size - 1) <= n < Pow2(8 * size - 1)
    ensures NarrowSigned(size, n % TWO64) == Some(n)
  {
    hide Pow2, ToSigned;
    WidthsNest(size);
    Pow2Widths();
    ToSignedInRange(8 * size, n);
    if size == 8 {
      ToSignedMod(64, n);
      ToSignedInRange(64, n);
    } else {
      ToSignedMod32(n);
      ToSignedInRange(32, n);
    }
  }

  lemma ToSignedMod(bits: nat, n: int)
    requires bits >= 1
    ensures ToSigned(bits, n % Pow2(bits)) == ToSigned(bits, n)
  {
    ModSmall(n % Pow2(bits), Pow2(bits));
  }

  lemma ToSignedMod32(n: int)
    ensures ToSigned(32, n % TWO64) == ToSigned(32, n)
  {
    Pow2Widths();
    var q := n / TWO64;
    assert n % TWO64 == n - q * TWO64;
    assert q * TWO64 == (q * TWO32) * TWO32;
    ModAddMultiple(n, -(q * TWO32), TWO32);
  }

  lemma FixedRoundTrip(n: nat, v: nat, z: seq<byte>)
    requires v < Pow2(8 * n)
    ensures DecFixed(n, LittleEndian(n, v) + z) == Ok(Num(v), z)
  {
    LittleEndianRoundTrip(n, v);
    assert (LittleEndian(n, v) + z)[..n] == LittleEndian(n, v);
  }

  // ---------------------------------------------------------------- one item

  /** The decode loop on a window that ends with the tape. */
  ghost function Loop(fields: seq<Field>, t: seq<byte>, slots: seq<Slot>, seen: set<nat>): (r: Outcome)
    requires Descriptor(fields) && Shaped(fields, slots)
  {
    DecLoop(fields, t, |t|, slots, seen)
  }

  lemma PrefixedSplit(b: seq<byte>, z: seq<byte>)
    requires |b| < TWO32
    ensures SubWindow(Prefixed(b) + z, |Prefixed(b) + z|) == Split(b, z, |z|)
  {
    var t := Prefixed(b) + z;
    assert t == VarintBytes(|b|) + (b + z);
    VarintWithin32(|b|, b + z);
    assert (b + z)[..|b|] == b && (b + z)[|b|..] == z;
  }

  lemma VarintWithin32(v: nat, z: seq<byte>)
    requires v < TWO32
    ensures Varint32(VarintBytes(v) + z) == Ok(v, z)
  {
    VarintRoundTrip(v, z);
  }

  lemma {:induction false} CStringOfText(b: seq<byte>)
    requires 0 !in b
    ensures CString(b) == b
  {
    if b != [] { CStringOfText(b[1..]); }
  }

  lemma BlobRoundTrip(f: Field, b: seq<byte>, z: seq<byte>)
    requires FieldOk(f) && (f.ltype.BytesT? || f.ltype.StringT?) && Fits(f, B(b))
    ensures DecScalar(f, Prefixed(b) + z) == Ok(if f.ltype.BytesT? then Data(b) else Text(b), z)
  {
    assert Prefixed(b) + z == VarintBytes(|b|) + (b + z);
    VarintWithin32(|b|, b + z);
    assert (b + z)[..|b|] == b && (b + z)[|b|..] == z;
    ModSmall(|b| + 1, TWO32);
  }

  lemma {:induction false} ItemRoundTrip(f: Field, u: View, z: seq<byte>, prior: Value)
    requires FieldOk(f) && Fits(f, u) && |EncValue(f, u)| < TWO32
    requires f.ltype.SubT? && !f.htype.Oneof? ==> ValueShaped(f, prior)
    requires f.ltype.SubT? && !f.htype.Oneof? && !f.htype.Repeated? ==> FreshValue(f, prior)
    ensures var t := EncValue(f, u) + z;
      var r := DecItem(f, t, |t|, prior);
      r.GoodItem? && r.tape == z && r.left == |z| && r.drained && ValueView(f, r.value) == u
    decreases u, 0
  {
    match u {
      case N(n) => NumberRoundTrip(f, n, z);
      case B(b) => BlobRoundTrip(f, b, z); if f.ltype.StringT? { CStringOfText(b); }
      case M(ps) =>
        var sub := f.ltype.fields;
        var start := SubStart(f, prior);
        assert Fresh(sub, start) by { StartFresh(f, prior); }
        var inner := EncFrom(sub, ps, 0);
        PrefixedSplit(inner, z);
        FieldsRoundTrip(sub, ps, 0, start, {});
        assert [] + z == z;
    }
  }

  lemma StartFresh(f: Field, prior: Value)
    requires FieldOk(f) && f.ltype.SubT?
    requires !f.htype.Oneof? ==> ValueShaped(f, prior)
    requires !f.htype.Oneof? && !f.htype.Repeated? ==> FreshValue(f, prior)
    ensures Fresh(f.ltype.fields, SubStart(f, prior))
  {
    var sub := f.ltype.fields;
    match f.htype {
      case Repeated => DefaultsFresh(sub, prior.slots);
      case Oneof => ZeroMessageShaped(sub); DefaultsFresh(sub, ZeroMessage(sub));
      case _ =>
    }
  }

  // ---------------------------------------------------------------- one record

  lemma TagRoundTrip(f: Field, wt: nat, z: seq<byte>)
    requires Plain(f) && wt < 8
    ensures DecTag(TagBytes(wt, f.tag) + z) == Record(f.tag, wt, z)
  {
    VarintWithin32(8 * f.tag + wt, z);
  }

  /** A record of field `i` whose value decodes to slot `s` moves the loop to that slot. */
  lemma LoopStep(fields: seq<Field>, i: nat, wt: nat, body: seq<byte>, slots: seq<Slot>,
                 seen: set<nat>, s: Slot, z: seq<byte>)
    requires Descriptor(fields) && Shaped(fields, slots) && i < |fields| && wt < 8
    requires FieldOk(fields[i]) && SlotShaped(fields[i], At(fields, slots, i))
    requires DecSlot(fields[i], wt, body, |body|, At(fields, slots, i)) == Put(s, z, |z|, true)
    ensures Shaped(fields, slots[SlotOf(fields, i) := s])
    ensures Loop(fields, TagBytes(wt, fields[i].tag) + body, slots, seen)
         == Loop(fields, z, slots[SlotOf(fields, i) := s], seen + {i})
  {
    ShapedUpdate(fields, slots, i, s);
    TagRoundTrip(fields[i], wt, body);
    IndexOfTag(fields, i);
  }

  // ---------------------------------------------------------------- all records of a field

  lemma TaggedUnfold(f: Field, us: seq<View>, k: nat, z: seq<byte>)
    requires k < |us|
    ensures EncTagged(f, us, k) + z
         == TagBytes(WireType(f), f.tag) + (EncValue(f, us[k]) + (EncTagged(f, us, k + 1) + z))
  {
    var t, v, r := TagBytes(WireType(f), f.tag), EncValue(f, us[k]), EncTagged(f, us, k + 1);
    assert t + v + r + z == t + (v + (r + z));
  }

  lemma SingleSlot(f: Field, u: View, z: seq<byte>, t: Slot)
    requires FieldOk(f) && SlotShaped(f, t) && FreshSlot(f, t)
    requires !f.htype.Repeated? && Fits(f, u) && |EncValue(f, u)| < TWO32
    ensures var b := EncValue(f, u) + z;
      var r := DecSlot(f, WireType(f), b, |b|, t);
      && r.Put? && r.tape == z && r.left == |z| && r.drained
      && SlotView(f, r.slot) == Present([u])
    decreases u, 1
  {
    ItemRoundTrip(f, u, z, t.items[0]);
  }

  /** One tagged item of a required, optional or oneof field. */
  lemma SingleField(fields: seq<Field>, i: nat, us: seq<View>, z: seq<byte>, slots: seq<Slot>, seen: set<nat>)
    returns (s: Slot)
    requires Descriptor(fields) && Shaped(fields, slots) && i < |fields|
    requires |us| == 1 && !fields[i].htype.Repeated? && Fits(fields[i], us[0])
    requires |EncTagged(fields[i], us, 0)| < TWO32
    requires FreshSlot(fields[i], At(fields, slots, i))
    ensures SlotShaped(fields[i], s) && SlotView(fields[i], s) == Present(us)
    ensures fields[i].htype.Oneof? ==> s.size == fields[i].tag
    ensures Shaped(fields, slots[SlotOf(fields, i) := s])
    ensures Loop(fields, EncTagged(fields[i], us, 0) + z, slots, seen)
         == Loop(fields, z, slots[SlotOf(fields, i) := s], seen + {i})
    decreases us, 1
  {
    hide DecLoop, DecSlot, DecItem;
    var f := fields[i];
    assert FieldOk(f);
    var t := At(fields, slots, i);
    SingleSlot(f, us[0], z, t);
    var body := EncValue(f, us[0]) + z;
    s := DecSlot(f, WireType(f), body, |body|, t).slot;
    LoopStep(fields, i, WireType(f), body, slots, seen, s, z);
    TaggedUnfold(f, us, 0, z);
    assert EncTagged(f, us, 1) + z == z;
  }

  /** The items of an array from number `k` on, after `k` of them were stored. */
  ghost predicate Stored(f: Field, us: seq<View>, k: nat, s: Slot) {
    && SlotShaped(f, s) && f.htype.Repeated? && s.size == k <= |us| <= f.arraySize
    && forall m :: 0 <= m < k ==> ValueView(f, s.items[m]) == us[m]
  }

  lemma StoreOne(f: Field, us: seq<View>, k: nat, s: Slot, v: Value)
    requires k < |us| && Stored(f, us, k, s) && ValueShaped(f, v) && ValueView(f, v) == us[k]
    ensures Stored(f, us, k + 1, Slot(k + 1, s.items[k := v]))
  {}

  lemma UnpackedSlot(f: Field, us: seq<View>, k: nat, z: seq<byte>, t: Slot)
    requires FieldOk(f) && !Packable(f) && k < |us| && Stored(f, us, k, t)
    requires Fits(f, us[k]) && |EncValue(f, us[k])| < TWO32
    ensures var b := EncValue(f, us[k]) + z;
      var r := DecSlot(f, WireType(f), b, |b|, t);
      r.Put? && r.tape == z && r.left == |z| && r.drained && Stored(f, us, k + 1, r.slot)
    decreases us[k], 1
  {
    ItemRoundTrip(f, us[k], z, t.items[k]);
    var b := EncValue(f, us[k]) + z;
    StoreOne(f, us, k, t, DecItem(f, b, |b|, t.items[k]).value);
  }

  lemma {:induction false} UnpackedField(fields: seq<Field>, i: nat, us: seq<View>, k: nat, z: seq<byte>,
                                         slots: seq<Slot>, seen: set<nat>)
    returns (s: Slot, seen': set<nat>)
    requires Descriptor(fields) && Shaped(fields, slots) && i < |fields| && k <= |us|
    requires !Packable(fields[i]) && Stored(fields[i], us, k, slots[i])
    requires forall m :: 0 <= m < |us| ==> Fits(fields[i], us[m])
    requires |EncTagged(fields[i], us, k)| < TWO32
    ensures Stored(fields[i], us, |us|, s) && seen <= seen'
    ensures Shaped(fields, slots[i := s])
    ensures Loop(fields, EncTagged(fields[i], us, k) + z, slots, seen) == Loop(fields, z, slots[i := s], seen')
    decreases us, |us| - k
  {
    hide DecLoop, DecSlot, DecItem;
    var f := fields[i];
    assert FieldOk(f);
    if k == |us| {
      s, seen' := slots[i], seen;
      assert slots[i := s] == slots;
      assert EncTagged(f, us, k) + z == z;
    } else {
      var rest := EncTagged(f, us, k + 1) + z;
      var body := EncValue(f, us[k]) + rest;
      UnpackedSlot(f, us, k, rest, slots[i]);
      var t := DecSlot(f, WireType(f), body, |body|, slots[i]).slot;
      LoopStep(fields, i, WireType(f), body, slots, seen, t, rest);
      TaggedUnfold(f, us, k, z);
      s, seen' := UnpackedField(fields, i, us, k + 1, z, slots[i := t], seen + {i});
      assert slots[i := t][i := s] == slots[i := s];
    }
  }

  lemma PackableFits(f: Field, u: View)
    requires Packable(f) && Fits(f, u)
    ensures u.N?
  {}

  lemma PackedStep(f: Field, w: seq<byte>, s: Slot, v: Value, rest: seq<byte>)
    requires FieldOk(f) && Packable(f) && f.htype.Repeated? && SlotShaped(f, s)
    requires DecScalar(f, w) == Ok(v, rest) && s.size < f.arraySize
    ensures ValueShaped(f, v) && SlotShaped(f, Slot(s.size + 1, s.items[s.size := v])) && |rest| < |w|
    ensures DecPacked(f, w, s) == DecPacked(f, rest, Slot(s.size + 1, s.items[s.size := v]))
  {
    hide DecScalar, ValueShaped;
    DecScalarShaped(f, w);
    DecScalarShrinks(f, w);
  }

  lemma {:induction false} PackedItems(f: Field, us: seq<View>, k: nat, s: Slot)
    returns (s': Slot)
    requires FieldOk(f) && Packable(f) && k <= |us| && Stored(f, us, k, s)
    requires forall m :: 0 <= m < |us| ==> Fits(f, us[m])
    ensures DecPacked(f, EncPacked(f, us, k), s) == PackDone(s') && Stored(f, us, |us|, s')
    decreases |us| - k
  {
    if k == |us| {
      s' := s;
    } else {
      hide DecScalar, EncNumber, Fits, FieldOk, DecPacked, SlotShaped;
      var rest := EncPacked(f, us, k + 1);
      PackableFits(f, us[k]);
      var n := us[k].n;
      assert EncPacked(f, us, k) == EncNumber(f, n) + rest;
      NumberRoundTrip(f, n, rest);
      PackedStep(f, EncNumber(f, n) + rest, s, Num(n), rest);
      NumberView(f, n);
      StoreOne(f, us, k, s, Num(n));
      s' := PackedItems(f, us, k + 1, Slot(k + 1, s.items[k := Num(n)]));
    }
  }

  lemma NumberView(f: Field, n: int)
    requires Packable(f) && ValueShaped(f, Num(n))
    ensures ValueView(f, Num(n)) == N(n)
  {}

  /** A packed body never outgrows a 32-bit length: ten bytes an item at most. */
  lemma {:induction false} PackedSmall(f: Field, us: seq<View>, k: nat)
    requires Packable(f) && k <= |us|
    requires forall m :: 0 <= m < |us| ==> us[m].N?
    ensures |EncPacked(f, us, k)| <= 10 * (|us| - k)
    decreases |us| - k
  {
    if k < |us| {
      VarintMax(ZigZag(us[k].n));
      VarintMax(us[k].n % TWO64);
      PackedSmall(f, us, k + 1);
    }
  }

  lemma PackedField(fields: seq<Field>, i: nat, us: seq<View>, z: seq<byte>, slots: seq<Slot>, seen: set<nat>)
    returns (s: Slot)
    requires Descriptor(fields) && Shaped(fields, slots) && i < |fields|
    requires Packable(fields[i]) && Stored(fields[i], us, 0, slots[i])
    requires forall m :: 0 <= m < |us| ==> Fits(fields[i], us[m])
    ensures Stored(fields[i], us, |us|, s)
    ensures Shaped(fields, slots[i := s])
    ensures Loop(fields, TagBytes(WT_STRING, fields[i].tag) + Prefixed(EncPacked(fields[i], us, 0)) + z, slots, seen)
         == Loop(fields, z, slots[i := s], seen + {i})
  {
    hide DecLoop, DecSlot, DecItem;
    var f := fields[i];
    assert FieldOk(f);
    var inner := EncPacked(f, us, 0);
    var body := Prefixed(inner) + z;
    s := PackedSlot(f, us, z, slots[i]);
    LoopStep(fields, i, WT_STRING, body, slots, seen, s, z);
    assert TagBytes(WT_STRING, f.tag) + Prefixed(inner) + z == TagBytes(WT_STRING, f.tag) + body;
  }

  lemma PackedSlot(f: Field, us: seq<View>, z: seq<byte>, t: Slot)
    returns (s: Slot)
    requires FieldOk(f) && Packable(f) && Stored(f, us, 0, t)
    requires forall m :: 0 <= m < |us| ==> Fits(f, us[m])
    ensures var b := Prefixed(EncPacked(f, us, 0)) + z;
      DecSlot(f, WT_STRING, b, |b|, t) == Put(s, z, |z|, true)
    ensures Stored(f, us, |us|, s)
  {
    PackedSmall(f, us, 0);
    PrefixedSplit(EncPacked(f, us, 0), z);
    s := PackedItems(f, us, 0, t);
  }

  lemma StoredView(f: Field, us: seq<View>, s: Slot)
    requires Stored(f, us, |us|, s)
    ensures SlotView(f, s) == Present(us)
  {}

  // ---------------------------------------------------------------- all fields

  /** Fields before `i` hold what was written, fields from `i` on hold nothing yet. */
  ghost predicate Progress(fields: seq<Field>, ps: seq<Present>, i: nat, slots: seq<Slot>, seen: set<nat>)
  {
    && Shaped(fields, slots) && |ps| == |fields| && i <= |fields|
    && (forall k {:trigger At(fields, slots, k)} :: 0 <= k < i ==> SlotView(fields[k], At(fields, slots, k)) == ps[k])
    && (forall k {:trigger At(fields, slots, k)} :: i <= k < |fields| ==> FreshSlot(fields[k], At(fields, slots, k)))
    && (forall k :: 0 <= k < i && fields[k].htype.Required? ==> k in seen)
  }

  /** Storing field `i` keeps the others: only exclusive oneof members share its slot. */
  lemma ProgressStep(fields: seq<Field>, ps: seq<Present>, i: nat, slots: seq<Slot>, seen: set<nat>,
                     s: Slot, seen': set<nat>)
    requires Descriptor(fields) && FitsMessage(fields, ps) && i < |fields|
    requires Progress(fields, ps, i, slots, seen)
    requires SlotShaped(fields[i], s) && SlotView(fields[i], s) == ps[i]
    requires Shaped(fields, slots[SlotOf(fields, i) := s])
    requires s == At(fields, slots, i) || (ps[i].values != [] && (fields[i].htype.Oneof? ==> s.size == fields[i].tag))
    requires seen <= seen' && (fields[i].htype.Required? ==> i in seen')
    ensures Progress(fields, ps, i + 1, slots[SlotOf(fields, i) := s], seen')
  {
    hide SlotView, FreshSlot, SlotShaped, FitsMessage, Descriptor;
    var j := SlotOf(fields, i);
    var slots' := slots[j := s];
    forall k | 0 <= k < |fields| && k != i
      ensures k < i ==> SlotView(fields[k], At(fields, slots', k)) == ps[k]
      ensures k > i ==> FreshSlot(fields[k], At(fields, slots', k))
    {
      OtherSlot(fields, ps, i, slots, seen, s, k);
    }
    assert At(fields, slots', i) == s;
  }

  lemma OtherSlot(fields: seq<Field>, ps: seq<Present>, i: nat, slots: seq<Slot>, seen: set<nat>, s: Slot, k: nat)
    requires Descriptor(fields) && FitsMessage(fields, ps) && i < |fields| && k < |fields| && k != i
    requires Progress(fields, ps, i, slots, seen)
    requires Shaped(fields, slots[SlotOf(fields, i) := s])
    requires s == At(fields, slots, i) || (ps[i].values != [] && (fields[i].htype.Oneof? ==> s.size == fields[i].tag))
    ensures var slots' := slots[SlotOf(fields, i) := s];
      && SlotShaped(fields[k], At(fields, slots', k))
      && (k < i ==> SlotView(fields[k], At(fields, slots', k)) == ps[k])
      && (k > i ==> FreshSlot(fields[k], At(fields, slots', k)))
  {
    var slots' := slots[SlotOf(fields, i) := s];
    assert SlotShaped(fields[k], At(fields, slots', k)) && SlotShaped(fields[k], At(fields, slots, k));
    if At(fields, slots', k) != At(fields, slots, k) {
      SharedSlot(fields, i, k);
      assert fields[k].tag != fields[i].tag by { if k < i {} else {} }
      if k < i { assert ps[k].values == []; }
    }
  }

  /** All records of field `i`, whatever its kind. */
  lemma FieldRoundTrip(fields: seq<Field>, i: nat, p: Present, z: seq<byte>, slots: seq<Slot>, seen: set<nat>)
    returns (s: Slot, seen': set<nat>)
    requires Descriptor(fields) && Shaped(fields, slots) && i < |fields|
    requires FitsField(fields[i], p) && FreshSlot(fields[i], At(fields, slots, i))
    requires |EncField(fields[i], p)| < TWO32
    ensures Shaped(fields, slots[SlotOf(fields, i) := s])
    ensures SlotShaped(fields[i], s) && SlotView(fields[i], s) == p
    ensures s == At(fields, slots, i) || (p.values != [] && (fields[i].htype.Oneof? ==> s.size == fields[i].tag))
    ensures seen <= seen' && (fields[i].htype.Required? ==> i in seen')
    ensures Loop(fields, EncField(fields[i], p) + z, slots, seen)
         == Loop(fields, z, slots[SlotOf(fields, i) := s], seen')
    decreases p
  {
    hide DecLoop, DecSlot, DecItem;
    var f := fields[i];
    var us := p.values;
    var j := SlotOf(fields, i);
    s, seen' := slots[j], seen;
    assert FieldOk(f);
    if us == [] {
      assert SlotView(f, s).values == [];
      assert slots[j := s] == slots;
      assert EncField(f, p) + z == z;
    } else if !f.htype.Repeated? {
      s := SingleField(fields, i, us, z, slots, seen);
      seen' := seen + {i};
    } else if Packable(f) {
      s := PackedField(fields, i, us, z, slots, seen);
      seen' := seen + {i};
      StoredView(f, us, s);
    } else {
      s, seen' := UnpackedField(fields, i, us, 0, z, slots, seen);
      StoredView(f, us, s);
    }
  }

  lemma FieldsEnd(fields: seq<Field>, ps: seq<Present>, slots: seq<Slot>, seen: set<nat>)
    requires Descriptor(fields) && Progress(fields, ps, |fields|, slots, seen)
    ensures Loop(fields, [], slots, seen) == Good(slots, [], 0, true)
    ensures MessageView(fields, slots) == ps
  {
    hide SlotView, Descriptor, SlotShaped;
  }

  lemma ProgressAt(fields: seq<Field>, ps: seq<Present>, i: nat, slots: seq<Slot>, seen: set<nat>)
    requires Progress(fields, ps, i, slots, seen) && FitsMessage(fields, ps) && i < |fields|
    ensures FreshSlot(fields[i], At(fields, slots, i)) && FitsField(fields[i], ps[i])
  {
    hide FreshSlot, FitsField;
    assert FreshSlot(fields[i], At(fields, slots, i));
  }

  lemma {:induction false} FieldsRoundTrip(fields: seq<Field>, ps: seq<Present>, i: nat, slots: seq<Slot>, seen: set<nat>)
    requires Descriptor(fields) && FitsMessage(fields, ps) && i <= |fields|
    requires Progress(fields, ps, i, slots, seen)
    requires |EncFrom(fields, ps, i)| < TWO32
    ensures var r := Loop(fields, EncFrom(fields, ps, i), slots, seen);
      r.Good? && r.tape == [] && r.drained && MessageView(fields, r.slots) == ps
    decreases ps, |ps| - i
  {
    hide Loop, FreshSlot, SlotView, SlotShaped, Descriptor, EncField, MessageView;
    if i == |fields| {
      FieldsEnd(fields, ps, slots, seen);
    } else {
      var z := EncFrom(fields, ps, i + 1);
      ProgressAt(fields, ps, i, slots, seen);
      var s, seen' := FieldRoundTrip(fields, i, ps[i], z, slots, seen);
      ProgressStep(fields, ps, i, slots, seen, s, seen');
      FieldsRoundTrip(fields, ps, i + 1, slots[SlotOf(fields, i) := s], seen');
    }
  }

  // ---------------------------------------------------------------- the theorem

  ghost predicate TerminatedValue(f: Field, v: Value)
    requires ValueShaped(f, v)
    decreases f, 0
  {
    match f.ltype
    case StringT => |CString(v.mem)| < f.dataSize
    case SubT(sub) => Terminated(sub, v.slots)
    case _ => true
  }

  ghost predicate TerminatedSlot(f: Field, s: Slot)
    requires SlotShaped(f, s)
    decreases f, 1
  {
    match f.htype
    case Required => TerminatedValue(f, s.items[0])
    case Optional => s.size != 0 ==> TerminatedValue(f, s.items[0])
    case Oneof => s.size == f.tag ==> TerminatedValue(f, s.items[0])
    case Repeated => forall k :: 0 <= k < s.size && k < |s.items| ==> TerminatedValue(f, s.items[k])
  }

  /** Every string present has its NUL inside the field. */
  ghost predicate Terminated(fields: seq<Field>, slots: seq<Slot>)
    requires Shaped(fields, slots)
    decreases fields, 2
  {
    forall i {:trigger At(fields, slots, i)} :: 0 <= i < |fields| ==> TerminatedSlot(fields[i], At(fields, slots, i))
  }

  lemma {:induction false} ValueFits(f: Field, v: Value)
    requires FieldOk(f) && ValueShaped(f, v) && EncodableValue(f, v) && TerminatedValue(f, v)
    ensures Fits(f, ValueView(f, v))
    decreases f, 0
  {
    match f.ltype {
      case SubT(sub) => ViewFits(sub, v.slots);
      case _ =>
    }
  }

  lemma {:induction false} SlotFits(f: Field, s: Slot)
    requires FieldOk(f) && SlotShaped(f, s) && EncodableSlot(f, s) && TerminatedSlot(f, s)
    ensures FitsField(f, SlotView(f, s))
    decreases f, 1
  {
    var p := SlotView(f, s);
    forall k | 0 <= k < |p.values| ensures Fits(f, p.values[k]) {
      ValueFits(f, s.items[k]);
    }
  }

  lemma {:induction false} ViewFits(fields: seq<Field>, slots: seq<Slot>)
    requires Descriptor(fields) && Shaped(fields, slots)
    requires Encodable(fields, slots) && Terminated(fields, slots)
    ensures FitsMessage(fields, MessageView(fields, slots))
    decreases fields, 2
  {
    var ps := MessageView(fields, slots);
    forall i | 0 <= i < |fields| ensures FitsField(fields[i], ps[i]) {
      assert FieldOk(fields[i]);
      SlotFits(fields[i], At(fields, slots, i));
    }
    forall i, j | 0 <= i < j < |fields| && SlotOf(fields, i) == SlotOf(fields, j)
      ensures ps[i].values == [] || ps[j].values == []
    {
      OneofExclusive(fields, slots, i, j);
    }
  }

  /** The single which_ tag shows one member of a oneof at most. */
  lemma OneofExclusive(fields: seq<Field>, slots: seq<Slot>, i: nat, j: nat)
    requires Descriptor(fields) && Shaped(fields, slots)
    requires i < j < |fields| && SlotOf(fields, i) == SlotOf(fields, j)
    ensures MessageView(fields, slots)[i].values == [] || MessageView(fields, slots)[j].values == []
  {
    SharedSlot(fields, i, j);
    assert fields[i].tag != fields[j].tag;
  }

  /** For every descriptor and every message pb_encode accepts with its strings terminated,
      decoding the written bytes, into any memory, succeeds, uses all of them and yields a
      message with the same logical content. */
  lemma MessageRoundTrip(fields: seq<Field>, slots: seq<Slot>, dest: seq<Slot>)
    requires Descriptor(fields) && Shaped(fields, slots) && Shaped(fields, dest)
    requires Encodable(fields, slots) && Terminated(fields, slots)
    requires |EncMessage(fields, MessageView(fields, slots))| < TWO32
    ensures var r := DecMessage(fields, EncMessage(fields, MessageView(fields, slots)), dest);
      r.Good? && r.tape == [] && r.drained && MessageView(fields, r.slots) == MessageView(fields, slots)
  {
    ViewFits(fields, slots);
    DefaultsFresh(fields, dest);
    FieldsRoundTrip(fields, MessageView(fields, slots), 0, Defaults(fields, dest), {});
  }
}
