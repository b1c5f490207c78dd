/** What pb_decode does to struct memory, as a function of the bytes it may read.
    A stream is a pair: `t`, the bytes from its position to the end of the enclosing
    window, and `n`, its bytes_left. Only the first `n` bytes of `t` are read. */
module PbDecodeSpec {
  import opened PbBytes
  import opened PbWire
  import opened PbTypes
  import opened PbEncodeSpec

  // ---------------------------------------------------------------- tags and skipping

  datatype Tag = EndOfMessage(rest: seq<byte>) | BadTag(rest: seq<byte>) | Record(tag: nat, wt: nat, rest: seq<byte>)

  /** pb_decode_tag. A tag that ends with the window counts as the end of the message, and
      so does a zero tag anywhere. */
  function DecTag(w: seq<byte>): (r: Tag)
    ensures r.Record? ==> |r.rest| < |w| && r.wt < 8
    ensures |r.rest| <= |w|
  {
    match Varint32(w)
    case Fail(rest) => if rest == [] then EndOfMessage([]) else BadTag(rest)
    case Ok(t, rest) => if t == 0 then EndOfMessage(rest) else Record(t / 8, t % 8, rest)
  }

  function SkipVarint(w: seq<byte>): (r: Read<()>)
    ensures |r.rest| <= |w|
  {
    if w == [] then Fail([])
    else if w[0] < 128 then Ok((), w[1..])
    else SkipVarint(w[1..])
  }

  function Skip(w: seq<byte>, n: nat): (r: Read<()>)
    ensures |r.rest| <= |w|
  {
    if |w| < n then Fail(w) else Ok((), w[n..])
  }

  /** pb_skip_field. */
  function SkipField(wt: nat, w: seq<byte>): (r: Read<()>)
    ensures |r.rest| <= |w|
  {
    if wt == WT_VARINT then SkipVarint(w)
    else if wt == WT_64BIT then Skip(w, 8)
    else if wt == WT_32BIT then Skip(w, 4)
    else if wt == WT_STRING then
      match Varint32(w) {
        case Fail(rest) => Fail(rest)
        case Ok(n, rest) => Skip(rest, n)
      }
    else Fail(w)
  }

  // ---------------------------------------------------------------- single values

  /** pb_dec_varint: fields up to 32 bits first cast to int32_t. */
  function NarrowSigned(size: nat, u: nat): (r: Option<int>) {
    if !IntWidth(size) then None
    else
      var s := if size == 8 then ToSigned(64, u) else ToSigned(32, u);
      if ToSigned(8 * size, s) == s then Some(s) else None
  }

  /** pb_dec_uvarint. */
  function NarrowUnsigned(size: nat, u: nat): (r: Option<int>) {
    if !IntWidth(size) then None
    else if u % Pow2(8 * size) == u then Some(u) else None
  }

  /** pb_dec_svarint. */
  function NarrowZigZag(size: nat, u: nat): (r: Option<int>)
    requires u < TWO64
  {
    if !IntWidth(size) then None
    else
      var s := UnZigZag(u);
      if ToSigned(8 * size, s) == s then Some(s) else None
  }

  function DecNumber(r: Read<nat>, n: Option<int>): Read<Value>
  {
    if r.Ok? && n.Some? then Ok(Num(n.value), r.rest) else Fail(r.rest)
  }

  function DecFixed(n: nat, w: seq<byte>): (r: Read<Value>) {
    if |w| < n then Fail(w) else Ok(Num(LittleEndianValue(w[..n])), w[n..])
  }

  /** pb_dec_bytes. */
  function DecBytes(f: Field, w: seq<byte>): Read<Value> {
    match Varint32(w)
    case Fail(rest) => Fail(rest)
    case Ok(size, rest) =>
      if size > PB_SIZE_MAX || size + BYTES_HEADER > f.dataSize || |rest| < size then Fail(rest)
      else Ok(Data(rest[..size]), rest[size..])
  }

  /** pb_dec_string: the size plus its NUL is a 32-bit sum. */
  function DecString(f: Field, w: seq<byte>): Read<Value> {
    match Varint32(w)
    case Fail(rest) => Fail(rest)
    case Ok(size, rest) =>
      var alloc := (size + 1) % TWO32;
      if alloc < size || alloc > f.dataSize || |rest| < size then Fail(rest)
      else Ok(Text(rest[..size]), rest[size..])
  }

  function DecScalar(f: Field, w: seq<byte>): (r: Read<Value>)
    requires !f.ltype.SubT?
  {
    match f.ltype
    case IntT => var u := Varint64(w); DecNumber(u, if u.Ok? then NarrowSigned(f.dataSize, u.value) else None)
    case UIntT => var u := Varint64(w); DecNumber(u, if u.Ok? then NarrowUnsigned(f.dataSize, u.value) else None)
    case SIntT => var u := Varint64(w); DecNumber(u, if u.Ok? then NarrowZigZag(f.dataSize, u.value) else None)
    case Fix32T => DecFixed(4, w)
    case Fix64T => DecFixed(8, w)
    case BytesT => DecBytes(f, w)
    case StringT => DecString(f, w)
    case ExtT => Fail(w)
  }

  lemma DecScalarShrinks(f: Field, w: seq<byte>)
    requires !f.ltype.SubT?
    ensures var r := DecScalar(f, w);
      |r.rest| <= |w| && (r.Ok? ==> |r.rest| < |w|)
  {
    hide Varint64, Varint32, ToSigned, UnZigZag, LittleEndianValue;
  }

  lemma DecScalarShaped(f: Field, w: seq<byte>)
    requires !f.ltype.SubT? && DecScalar(f, w).Ok?
    ensures ValueShaped(f, DecScalar(f, w).value)
  {
    hide Varint64, Varint32, ToSigned, UnZigZag, Pow2, LittleEndianValue;
    if f.ltype.IntT? {
      ToSignedInRange(8 * f.dataSize, ToSigned(if f.dataSize == 8 then 64 else 32, Varint64(w).value));
    } else if f.ltype.SIntT? {
      ToSignedInRange(8 * f.dataSize, UnZigZag(Varint64(w).value));
    } else if f.ltype.Fix32T? || f.ltype.Fix64T? {
      FixedInRange(if f.ltype.Fix32T? then 4 else 8, w);
    }
  }

  lemma FixedInRange(n: nat, w: seq<byte>)
    requires n <= |w|
    ensures LittleEndianValue(w[..n]) < Pow2(8 * n)
    ensures Pow2(32) == TWO32 && Pow2(64) == TWO64
  {
    LittleEndianBelow(w[..n]);
    Pow2Widths();
  }

  // ---------------------------------------------------------------- fields and messages

  /** Results carry the stream they leave behind, failures too, as `tape` and `left`, and whether
      every length-delimited window opened on the way was used up. */
  datatype ItemResult = BadItem(tape: seq<byte>, left: nat) | GoodItem(value: Value, tape: seq<byte>, left: nat, drained: bool)
  datatype SlotResult = BadSlot(tape: seq<byte>, left: nat) | Put(slot: Slot, tape: seq<byte>, left: nat, drained: bool)
  datatype Outcome = Bad(tape: seq<byte>, left: nat) | Good(slots: seq<Slot>, tape: seq<byte>, left: nat, drained: bool)

  /** The bytes a stream may read. */
  function Window(t: seq<byte>, n: nat): (w: seq<byte>)
    requires n <= |t|
    ensures |w| == n
  {
    if n == |t| then t else t[..n]
  }

  /** The tape after a read that left `rest` of the window. */
  function Tail(t: seq<byte>, n: nat, rest: seq<byte>): (u: seq<byte>)
    requires |rest| <= n <= |t|
    ensures |u| == |rest| + |t| - n
  {
    if n == |t| then rest else t[n - |rest|..]
  }

  /** pb_make_string_substream: the bytes of a length-delimited value, the tape after them, and
      the bytes_left of the parent. */
  datatype Split = NoSplit(after: seq<byte>, left: nat) | Split(inner: seq<byte>, after: seq<byte>, left: nat)

  function SubWindow(t: seq<byte>, n: nat): (r: Split)
    requires n <= |t|
    ensures r.Split? ==>
      && |r.inner| + r.left < n && r.left <= |r.after| && |r.inner| + |r.after| < |t|
      && |r.after| - r.left == |t| - n
    ensures r.left <= n && r.left <= |r.after|
  {
    match Varint32(Window(t, n))
    case Fail(rest) => NoSplit(Tail(t, n, rest), |rest|)
    case Ok(size, rest) =>
      var u := Tail(t, n, rest);
      if |rest| < size then NoSplit(u, |rest|) else Split(u[..size], u[size..], |rest| - size)
  }

  function IndexOf(fields: seq<Field>, tag: nat): (r: Option<nat>)
    ensures r.Some? ==> r.value < |fields| && fields[r.value].tag == tag
    ensures r.None? ==> forall i :: 0 <= i < |fields| ==> fields[i].tag != tag
  {
    if fields == [] then None
    else if fields[|fields| - 1].tag == tag then Some(|fields| - 1)
    else IndexOf(fields[..|fields| - 1], tag)
  }

  lemma {:induction false} IndexOfTag(fields: seq<Field>, i: nat)
    requires i < |fields|
    requires forall k, l :: 0 <= k < l < |fields| ==> fields[k].tag != fields[l].tag
    ensures IndexOf(fields, fields[i].tag) == Some(i)
  {
    var k := IndexOf(fields, fields[i].tag).value;
    if k < i {} else if i < k {}
  }

  /** The memory a nested struct has when its decoding starts. */
  function SubStart(f: Field, prior: Value): (slots: seq<Slot>)
    requires FieldOk(f) && f.ltype.SubT?
    requires !f.htype.Oneof? ==> ValueShaped(f, prior)
    ensures Shaped(f.ltype.fields, slots)
  {
    var sub := f.ltype.fields;
    match f.htype
    case Repeated => DefaultsShaped(sub, prior.slots); Defaults(sub, prior.slots)
    case Oneof =>
      ZeroMessageShaped(sub);
      DefaultsShaped(sub, ZeroMessage(sub));
      Defaults(sub, ZeroMessage(sub))
    case _ => prior.slots
  }

  /** The field decoder chosen by PB_DECODERS. A nested message sees its own window only; the
      parent goes on where the nested stream stopped. */
  ghost function DecItem(f: Field, t: seq<byte>, n: nat, prior: Value): (r: ItemResult)
    requires FieldOk(f) && n <= |t|
    requires f.ltype.SubT? && !f.htype.Oneof? ==> ValueShaped(f, prior)
    ensures r.left <= n && r.left <= |r.tape|
    ensures r.GoodItem? ==> r.left < n && ValueShaped(f, r.value)
    decreases n, 0
  {
    if f.ltype.SubT? then
      match SubWindow(t, n)
      case NoSplit(after, left) => BadItem(after, left)
      case Split(inner, after, left) =>
        match DecLoop(f.ltype.fields, inner, |inner|, SubStart(f, prior), {}) {
          case Bad(tape, _) => BadItem(tape + after, left)
          case Good(slots, tape, inLeft, d) =>
            GoodItem(Msg(slots), tape + after, left, d && inLeft == 0)
        }
    else
      DecScalarShrinks(f, Window(t, n));
      var v := DecScalar(f, Window(t, n));
      if v.Fail? then BadItem(Tail(t, n, v.rest), |v.rest|)
      else DecScalarShaped(f, Window(t, n)); GoodItem(v.value, Tail(t, n, v.rest), |v.rest|, true)
  }

  datatype PackResult = PackStops(rest: seq<byte>) | PackDone(slot: Slot)

  /** The items of a packed array: stops at the end of the window, at a bad item, or when the
      array is full. Only an empty window is a success. */
  function DecPacked(f: Field, w: seq<byte>, s: Slot): (r: PackResult)
    requires FieldOk(f) && Packable(f) && f.htype.Repeated? && SlotShaped(f, s)
    ensures r.PackDone? ==> SlotShaped(f, r.slot)
    decreases |w|
  {
    if w == [] then PackDone(s)
    else if s.size >= f.arraySize then PackStops(w)
    else
      DecScalarShrinks(f, w);
      var v := DecScalar(f, w);
      if v.Fail? then PackStops(v.rest)
      else
        DecScalarShaped(f, w);
        DecPacked(f, v.rest, Slot(s.size + 1, s.items[s.size := v.value]))
  }

  /** decode_static_field. The wire type matters for packed arrays only. */
  ghost function DecSlot(f: Field, wt: nat, t: seq<byte>, n: nat, s: Slot): (r: SlotResult)
    requires FieldOk(f) && SlotShaped(f, s) && n <= |t|
    ensures r.left <= n && r.left <= |r.tape|
    ensures r.Put? ==> r.left < n && SlotShaped(f, r.slot)
    ensures r.Put? && f.htype.Oneof? ==> r.slot.size == f.tag
    decreases n, 1
  {
    match f.htype
    case Repeated =>
      if wt == WT_STRING && Packable(f) then
        match SubWindow(t, n) {
          case NoSplit(after, left) => BadSlot(after, left)
          case Split(inner, after, left) =>
            match DecPacked(f, inner, s)
            case PackStops(rest) => BadSlot(rest + after, left)
            case PackDone(slot) => Put(slot, after, left, true)
        }
      else if s.size >= f.arraySize then BadSlot(t, n)
      else
        match DecItem(f, t, n, s.items[s.size]) {
          case BadItem(tape, left) => BadSlot(tape, left)
          case GoodItem(v, tape, left, d) => Put(Slot(s.size + 1, s.items[s.size := v]), tape, left, d)
        }
    case _ =>
      match DecItem(f, t, n, s.items[0]) {
        case BadItem(tape, left) => BadSlot(tape, left)
        case GoodItem(v, tape, left, d) =>
          var size := if f.htype.Oneof? then f.tag else if f.htype.Optional? then 1 else s.size;
          Put(Slot(size, [v]), tape, left, d)
      }
  }

  /** The final check: every required field was seen. */
  ghost predicate AllRequired(fields: seq<Field>, seen: set<nat>) {
    forall i :: 0 <= i < |fields| && fields[i].htype.Required? ==> i in seen
  }

  function Undrain(o: Outcome, d: bool): Outcome {
    if o.Good? && !d then o.(drained := false) else o
  }

  ghost function Finish(fields: seq<Field>, slots: seq<Slot>, tape: seq<byte>, left: nat, seen: set<nat>): Outcome {
    if AllRequired(fields, seen) then Good(slots, tape, left, true) else Bad(tape, left)
  }

  /** pb_decode_noinit. */
  ghost function DecLoop(fields: seq<Field>, t: seq<byte>, n: nat, slots: seq<Slot>, seen: set<nat>): (r: Outcome)
    requires Descriptor(fields) && Shaped(fields, slots) && n <= |t|
    ensures r.left <= n && r.left <= |r.tape|
    ensures r.Good? ==> Shaped(fields, r.slots)
    decreases n, 2
  {
    if n == 0 then Finish(fields, slots, t, 0, seen)
    else
      match DecTag(Window(t, n))
      case BadTag(rest) => Bad(Tail(t, n, rest), |rest|)
      case EndOfMessage(rest) => Finish(fields, slots, Tail(t, n, rest), |rest|, seen)
      case Record(tag, wt, rest) =>
        var m, u := |rest|, Tail(t, n, rest);
        match IndexOf(fields, tag) {
          case None =>
            // a message type without fields matches tag 0 with its terminator entry
            if fields == [] && tag == 0 then
              var v := Varint64(Window(u, m));
              Bad(Tail(u, m, v.rest), |v.rest|)
            else
              var k := SkipField(wt, Window(u, m));
              if k.Fail? then Bad(Tail(u, m, k.rest), |k.rest|)
              else DecLoop(fields, Tail(u, m, k.rest), |k.rest|, slots, seen)
          case Some(i) =>
            var j := SlotOf(fields, i);
            match DecSlot(fields[i], wt, u, m, At(fields, slots, i)) {
              case BadSlot(tape, left) => Bad(tape, left)
              case Put(s, tape, left, d) =>
                ShapedUpdate(fields, slots, i, s);
                Undrain(DecLoop(fields, tape, left, slots[j := s], seen + {i}), d)
            }
        }
  }

  lemma ShapedUpdate(fields: seq<Field>, slots: seq<Slot>, i: nat, s: Slot)
    requires Descriptor(fields) && Shaped(fields, slots) && i < |fields|
    requires SlotShaped(fields[i], s) && (fields[i].htype.Oneof? ==> s.size == fields[i].tag)
    ensures Shaped(fields, slots[SlotOf(fields, i) := s])
  {
    var j := SlotOf(fields, i);
    var slots' := slots[j := s];
    forall k | 0 <= k < |fields| ensures SlotShaped(fields[k], At(fields, slots', k)) {
      assert SlotShaped(fields[k], At(fields, slots, k));
      if k != i && SlotOf(fields, k) == j {
        SharedSlot(fields, i, k);
        assert fields[k].tag != fields[i].tag by { if k < i {} else {} }
      }
    }
  }

  lemma SharedSlot(fields: seq<Field>, i: nat, k: nat)
    requires i < |fields| && k < |fields| && i != k && SlotOf(fields, i) == SlotOf(fields, k)
    ensures fields[i].htype.Oneof? && fields[k].htype.Oneof?
  {}

  /** pb_decode on a buffer. */
  ghost function DecMessage(fields: seq<Field>, w: seq<byte>, slots: seq<Slot>): (r: Outcome)
    requires Descriptor(fields) && Shaped(fields, slots)
    ensures r.left <= |w| && r.left <= |r.tape|
    ensures r.Good? ==> Shaped(fields, r.slots)
  {
    DefaultsShaped(fields, slots);
    DecLoop(fields, w, |w|, Defaults(fields, slots), {})
  }
}
