/** Message descriptors, the memory of a C message struct, and the logical message
    that memory stands for. */
module PbTypes {
  import opened PbBytes
  import opened PbWire

  datatype Option<+T> = None | Some(value: T)

  /** PB_LTYPE_*: how one item is stored and written. */
  datatype LType =
    | IntT | UIntT | SIntT | Fix32T | Fix64T
    | BytesT | StringT
    | SubT(fields: seq<Field>)
    | ExtT

  /** PB_HTYPE_*: how often a field may occur. */
  datatype HType = Required | Optional | Repeated | Oneof

  /** PB_ATYPE_*: where a field is allocated. */
  datatype AType = Static | Pointer | Callback

  /** pb_field_t. The terminator entry with tag 0 is not stored. */
  datatype Field = Field(
    tag: nat, ltype: LType, htype: HType, atype: AType,
    dataOffset: int, sizeOffset: int, dataSize: nat, arraySize: nat,
    dflt: Option<Value>)

  /** One item of struct memory, typed by its field: a number, a pb_bytes_array_t, a char
      array (followed by NULs up to the field size), or a nested struct. */
  datatype Value =
    | Num(n: int)
    | Data(bytes: seq<byte>)
    | Text(mem: seq<byte>)
    | Msg(slots: seq<Slot>)

  /** The memory of one field: what pSize points at (has_ flag, array count or which_ tag)
      and the items pData points at. */
  datatype Slot = Slot(size: nat, items: seq<Value>)

  /** The logical content of an item, and of a field: the items that are present. */
  datatype View = N(n: int) | B(b: seq<byte>) | M(fields: seq<Present>)
  datatype Present = Present(values: seq<View>)

  const PB_SIZE_MAX: nat := 65535
  /** offsetof(pb_bytes_array_t, bytes) with 16-bit sizes. */
  const BYTES_HEADER: nat := 2

  predicate Packable(f: Field) {
    f.ltype.IntT? || f.ltype.UIntT? || f.ltype.SIntT? || f.ltype.Fix32T? || f.ltype.Fix64T?
  }

  predicate IntWidth(size: nat) {
    size == 1 || size == 2 || size == 4 || size == 8
  }

  function Capacity(f: Field): nat {
    if f.htype.Repeated? then f.arraySize else 1
  }

  /** Where field `i` lives: consecutive oneof fields share the storage of the first. */
  function SlotOf(fields: seq<Field>, i: nat): (j: nat)
    requires i < |fields|
    ensures j <= i
    ensures !fields[i].htype.Oneof? ==> j == i
    ensures fields[i].htype.Oneof? ==> fields[j].htype.Oneof?
  {
    if i > 0 && fields[i].htype.Oneof? && fields[i - 1].htype.Oneof? then SlotOf(fields, i - 1) else i
  }

  /** The slot of field `i`. */
  function At(fields: seq<Field>, slots: seq<Slot>, i: nat): Slot
    requires i < |fields| == |slots|
  {
    slots[SlotOf(fields, i)]
  }

  // ---------------------------------------------------------------- shape of memory

  ghost predicate ValueShaped(f: Field, v: Value)
    decreases f, 0
  {
    match f.ltype
    case IntT => v.Num? && (IntWidth(f.dataSize) ==> -Pow2(8 * f.dataSize - 1) <= v.n < Pow2(8 * f.dataSize - 1))
    case SIntT => v.Num? && (IntWidth(f.dataSize) ==> -Pow2(8 * f.dataSize - 1) <= v.n < Pow2(8 * f.dataSize - 1))
    case UIntT => v.Num? && (IntWidth(f.dataSize) ==> 0 <= v.n < Pow2(8 * f.dataSize))
    case Fix32T => v.Num? && 0 <= v.n < TWO32
    case Fix64T => v.Num? && 0 <= v.n < TWO64
    case BytesT => v.Data? && |v.bytes| <= PB_SIZE_MAX
    case StringT => v.Text? && |v.mem| <= f.dataSize
    case SubT(sub) => v.Msg? && Shaped(sub, v.slots)
    case ExtT => true
  }

  ghost predicate SlotShaped(f: Field, s: Slot)
    decreases f, 1
  {
    && |s.items| == Capacity(f)
    && (f.htype.Oneof? ==> s.size == f.tag ==> ValueShaped(f, s.items[0]))
    && (!f.htype.Oneof? ==> forall k :: 0 <= k < |s.items| ==> ValueShaped(f, s.items[k]))
  }

  ghost predicate Shaped(fields: seq<Field>, slots: seq<Slot>)
    decreases fields, 2
  {
    && |slots| == |fields|
    && forall i {:trigger At(fields, slots, i)} :: 0 <= i < |fields| ==> SlotShaped(fields[i], At(fields, slots, i))
  }

  // ---------------------------------------------------------------- logical content

  /** strnlen of a char array. */
  function CString(mem: seq<byte>): (s: seq<byte>)
    ensures s <= mem && 0 !in s
    ensures |s| < |mem| ==> mem[|s|] == 0
  {
    if mem == [] || mem[0] == 0 then [] else [mem[0]] + CString(mem[1..])
  }

  /** The string ends at the first NUL, or with the array. */
  lemma {:induction false} CStringIs(mem: seq<byte>, n: nat)
    requires n <= |mem| && (forall k :: 0 <= k < n ==> mem[k] != 0)
    requires n < |mem| ==> mem[n] == 0
    ensures CString(mem) == mem[..n]
  {
    if n > 0 {
      CStringIs(mem[1..], n - 1);
      assert mem[..n] == [mem[0]] + mem[1..][..n - 1];
    }
  }

  ghost function ValueView(f: Field, v: Value): View
    requires ValueShaped(f, v)
    decreases f, 0
  {
    match f.ltype
    case SubT(sub) => M(MessageView(sub, v.slots))
    case BytesT => B(v.bytes)
    case StringT => B(CString(v.mem))
    case ExtT => N(0)
    case _ => N(v.n)
  }

  /** The items of a field that are present. A count above the capacity, which the encoder
      refuses, shows the items that exist. */
  ghost function SlotView(f: Field, s: Slot): Present
    requires SlotShaped(f, s)
    decreases f, 1
  {
    match f.htype
    case Required => Present([ValueView(f, s.items[0])])
    case Optional => if s.size == 0 then Present([]) else Present([ValueView(f, s.items[0])])
    case Oneof => if s.size == f.tag then Present([ValueView(f, s.items[0])]) else Present([])
    case Repeated =>
      Present(seq(if s.size <= |s.items| then s.size else |s.items|,
        k requires 0 <= k < |s.items| => ValueView(f, s.items[k])))
  }

  ghost function MessageView(fields: seq<Field>, slots: seq<Slot>): (r: seq<Present>)
    requires Shaped(fields, slots)
    ensures |r| == |fields|
    decreases fields, 2
  {
    seq(|fields|, i requires 0 <= i < |fields| => SlotView(fields[i], At(fields, slots, i)))
  }

  // ---------------------------------------------------------------- well-formed descriptors

  function RequiredBefore(fields: seq<Field>, i: nat): (n: nat)
    requires i <= |fields|
    ensures n <= i
  {
    if i == 0 then 0
    else RequiredBefore(fields, i - 1) + if fields[i - 1].htype.Required? then 1 else 0
  }

  /** The required-field bitset has two words; a count of 32 or of 64 and more makes the final
      check shift by 32 bits or read a third word. */
  predicate RequiredFits(fields: seq<Field>) {
    RequiredBefore(fields, |fields|) < 64 && RequiredBefore(fields, |fields|) != 32
  }

  predicate Plain(f: Field) {
    && 1 <= f.tag <= PB_SIZE_MAX && f.dataSize <= PB_SIZE_MAX && f.arraySize <= PB_SIZE_MAX
    && f.atype.Static?
    && !f.ltype.ExtT?
  }

  ghost predicate DefaultShaped(f: Field)
  {
    f.dflt.Some? ==> !f.ltype.SubT? && ValueShaped(f, f.dflt.value)
  }

  ghost predicate FieldOk(f: Field)
    decreases f, 0
  {
    && Plain(f) && DefaultShaped(f)
    && match f.ltype case SubT(sub) => Descriptor(sub) case _ => true
  }

  /** A descriptor as the generator emits it: distinct field numbers, static fields only. A run of
      oneof fields is one union. */
  ghost predicate Descriptor(fields: seq<Field>)
    decreases fields, 1
  {
    && (forall i :: 0 <= i < |fields| ==> FieldOk(fields[i]))
    && (forall i, j :: 0 <= i < j < |fields| ==> fields[i].tag != fields[j].tag)
    && RequiredFits(fields)
  }

  // ---------------------------------------------------------------- initial memory

  function ZeroValue(f: Field): (v: Value)
    decreases f, 0
  {
    match f.ltype
    case SubT(sub) => Msg(ZeroMessage(sub))
    case BytesT => Data([])
    case StringT => Text([])
    case _ => Num(0)
  }

  function ZeroSlot(f: Field): (s: Slot)
    decreases f, 1
  {
    Slot(0, seq(Capacity(f), _ => ZeroValue(f)))
  }

  /** A struct after memset to zero. */
  function ZeroMessage(fields: seq<Field>): (slots: seq<Slot>)
    ensures |slots| == |fields|
    decreases fields, 2
  {
    seq(|fields|, i requires 0 <= i < |fields| => ZeroSlot(fields[i]))
  }

  lemma {:induction false} ZeroValueShaped(f: Field)
    requires FieldOk(f)
    ensures ValueShaped(f, ZeroValue(f))
    decreases f, 0
  {
    if f.ltype.SubT? { ZeroMessageShaped(f.ltype.fields); }
  }

  lemma {:induction false} ZeroMessageShaped(fields: seq<Field>)
    requires Descriptor(fields)
    ensures Shaped(fields, ZeroMessage(fields))
    decreases fields, 2
  {
    forall i | 0 <= i < |fields| ensures SlotShaped(fields[i], At(fields, ZeroMessage(fields), i)) {
      assert FieldOk(fields[i]);
      ZeroValueShaped(fields[i]);
    }
  }

  /** pb_field_set_to_default: optional and required items get their default, arrays and
      oneofs are only marked empty. */
  function DefaultValue(f: Field, prior: Value): (v: Value)
    requires ValueShaped(f, prior)
    decreases f, 0
  {
    match f.ltype
    case SubT(sub) => Msg(Defaults(sub, prior.slots))
    case _ => if f.dflt.Some? then f.dflt.value else ZeroValue(f)
  }

  function DefaultSlot(f: Field, s: Slot): (r: Slot)
    requires SlotShaped(f, s)
    decreases f, 1
  {
    match f.htype
    case Repeated => s.(size := 0)
    case Oneof => s.(size := 0)
    case Optional => Slot(0, [DefaultValue(f, s.items[0])])
    case Required => s.(items := [DefaultValue(f, s.items[0])])
  }

  /** pb_message_set_to_defaults. */
  function Defaults(fields: seq<Field>, slots: seq<Slot>): (r: seq<Slot>)
    requires Shaped(fields, slots)
    ensures |r| == |fields|
    decreases fields, 2
  {
    seq(|fields|, i requires 0 <= i < |fields| =>
      if SlotOf(fields, i) == i then DefaultSlot(fields[i], At(fields, slots, i)) else slots[i])
  }

  lemma {:induction false} DefaultsShaped(fields: seq<Field>, slots: seq<Slot>)
    requires Descriptor(fields) && Shaped(fields, slots)
    ensures Shaped(fields, Defaults(fields, slots))
    decreases fields, 2
  {
    forall i | 0 <= i < |fields| ensures SlotShaped(fields[i], At(fields, Defaults(fields, slots), i)) {
      assert FieldOk(fields[i]);
      assert SlotShaped(fields[i], At(fields, slots, i));
      LeaderIsItsOwn(fields, i);
      if !fields[i].htype.Oneof? { DefaultSlotShaped(fields[i], slots[i]); }
    }
  }

  lemma {:induction false} DefaultSlotShaped(f: Field, s: Slot)
    requires FieldOk(f) && SlotShaped(f, s) && !f.htype.Oneof?
    ensures SlotShaped(f, DefaultSlot(f, s))
    decreases f, 1
  {
    if !f.htype.Repeated? {
      assert ValueShaped(f, s.items[0]);
      if f.ltype.SubT? { DefaultsShaped(f.ltype.fields, s.items[0].slots); }
      else { ZeroValueShaped(f); }
    }
  }

  lemma {:induction false} LeaderIsItsOwn(fields: seq<Field>, i: nat)
    requires i < |fields|
    ensures SlotOf(fields, SlotOf(fields, i)) == SlotOf(fields, i)
  {
    if i > 0 && fields[i].htype.Oneof? && fields[i - 1].htype.Oneof? { LeaderIsItsOwn(fields, i - 1); }
  }
}
