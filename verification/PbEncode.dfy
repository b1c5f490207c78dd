/** pb_encode.c: the encoder over output streams, in its sizing and its writing form. */
module PbEncode {
  import opened Division
  import opened PbBytes
  import opened PbWire
  import opened PbTypes
  import opened PbEncodeSpec
  import opened PbIter

  /** The outcome of an encoder call: true, or the reason of false. */
  datatype Status = Done | StreamFull | BadMessage | SizeChanged

  /** A stream at one moment: the bytes written so far, how many more it takes, and the part of
      the buffer it may not touch. */
  datatype Snap = Snap(sizing: bool, room: int, written: nat, out: seq<byte>, beyond: seq<byte>)

  /** A call with outcome `r` took the stream from `a` to `b` to write `s`. It succeeds exactly
      when the data is good and `s` fits, and it never finds a submessage of another size than the
      sizing pass counted. */
  ghost predicate Step(a: Snap, b: Snap, r: Status, good: bool, s: seq<byte>) {
    && b.sizing == a.sizing && b.beyond == a.beyond && a.out <= b.out
    && r != SizeChanged
    && (r == Done <==> good && (a.sizing || |s| <= a.room))
    && (r == Done ==> b.written == a.written + |s|)
    && (r == Done && !a.sizing ==> b.out == a.out + s && b.room == a.room - |s|)
    && (r == BadMessage ==> !good) && (r == StreamFull ==> !a.sizing)
  }

  lemma StepNone(a: Snap)
    requires a.sizing || a.room >= 0
    ensures Step(a, a, Done, true, [])
  {
    assert a.out + [] == a.out;
  }

  lemma StepThen(a: Snap, b: Snap, c: Snap, r: Status, good1: bool, s1: seq<byte>, good2: bool, s2: seq<byte>)
    requires Step(a, b, Done, good1, s1) && Step(b, c, r, good2, s2)
    ensures Step(a, c, r, good1 && good2, s1 + s2)
  {
    assert a.out + s1 + s2 == a.out + (s1 + s2);
  }

  lemma StepFails(a: Snap, b: Snap, r: Status, good1: bool, s1: seq<byte>, good2: bool, s2: seq<byte>)
    requires r != Done && Step(a, b, r, good1, s1)
    ensures Step(a, b, r, good1 && good2, s1 + s2)
  {}

  lemma PackedNext(f: Field, us: seq<View>, i: nat, done: seq<byte>)
    requires i < |us|
    ensures done + EncPacked(f, us, i) == (done + EncValue(f, us[i])) + EncPacked(f, us, i + 1)
  {
    hide EncValue;
  }

  lemma PackedEnd(f: Field, s: Slot, us: seq<View>)
    requires f.htype.Repeated? && SlotShaped(f, s) && s.size <= f.arraySize
    ensures EncPacked(f, us, |us|) == []
    ensures EncodableSlot(f, s) <==> forall k :: 0 <= k < s.size ==> EncodableValue(f, s.items[k])
  {}

  lemma WriteKept(was: seq<byte>, now: seq<byte>, at: nat, s: seq<byte>, end: nat)
    requires at + |s| <= end <= |was| && now == was[..at] + s + was[at + |s|..]
    ensures |now| == |was| && now[..at + |s|] == was[..at] + s && now[end..] == was[end..]
  {}

  lemma TailOfTail(a: array<byte>, from: nat, gap: nat)
    requires from + gap <= a.Length
    ensures a[from..][gap..] == a[from + gap..]
  {}

  lemma StepFull(a: Snap, s: seq<byte>)
    requires !a.sizing && |s| > a.room
    ensures Step(a, a, StreamFull, true, s)
  {}

  /** A substream of exactly the size of what is written into it: the writing succeeds, and the
      parent has moved by that size. */
  lemma StepInside(a: Snap, inner: Snap, inner': Snap, r: Status, s: seq<byte>)
    requires Step(inner, inner', r, true, s)
    requires !a.sizing && |s| <= a.room
    requires !inner.sizing && inner.room == |s| && inner.written == 0 && inner.out == a.out
    ensures r == Done && inner'.written == |s| && inner'.out == a.out + s && inner'.beyond == inner.beyond
    ensures Step(a, Snap(false, a.room - |s|, a.written + |s|, a.out + s, a.beyond), Done, true, s)
  {}

  /** The loop of pb_encode after `n` fields: `done` was written since `start`. */
  ghost predicate Midway(fields: seq<Field>, slots: seq<Slot>, n: nat, done: seq<byte>, start: Snap, now: Snap)
    requires Shaped(fields, slots)
  {
    && n <= |fields| && EncodableBefore(fields, slots, n)
    && EncMessage(fields, MessageView(fields, slots)) == done + EncFrom(fields, MessageView(fields, slots), n)
    && Step(start, now, Done, true, done)
  }

  lemma MidwayStart(fields: seq<Field>, slots: seq<Slot>, start: Snap)
    requires Shaped(fields, slots) && (start.sizing || start.room >= 0)
    ensures Midway(fields, slots, 0, [], start, start)
  {
    StepNone(start);
  }

  /** What field `i` may rely on. */
  lemma MidwayField(fields: seq<Field>, slots: seq<Slot>, i: nat, done: seq<byte>, start: Snap, now: Snap)
    requires AllPlain(fields) && Shaped(fields, slots) && i < |fields| && Midway(fields, slots, i, done, start, now)
    requires |EncMessage(fields, MessageView(fields, slots))| < TWO32
    ensures |slots| == |fields| && FieldPlain(fields[i]) && SlotShaped(fields[i], At(fields, slots, i))
    ensures MessageView(fields, slots)[i] == SlotView(fields[i], At(fields, slots, i))
    ensures |EncField(fields[i], MessageView(fields, slots)[i])| < TWO32
  {
    hide EncMessage, EncField, Step;
    ViewAt(fields, slots, i);
    EncFromUnfold(fields, MessageView(fields, slots), i, done);
    assert FieldPlain(fields[i]);
  }

  /** After field `i`: one field on, or out with its failure. */
  lemma MidwayStep(fields: seq<Field>, slots: seq<Slot>, i: nat, done: seq<byte>, start: Snap, mid: Snap, now: Snap,
                   r: Status)
    requires Shaped(fields, slots) && i < |fields| && Midway(fields, slots, i, done, start, mid)
    requires SlotShaped(fields[i], At(fields, slots, i))
    requires Step(mid, now, r, EncodableSlot(fields[i], At(fields, slots, i)),
                  EncField(fields[i], MessageView(fields, slots)[i]))
    ensures r == Done ==>
      Midway(fields, slots, i + 1, done + EncField(fields[i], MessageView(fields, slots)[i]), start, now)
    ensures r != Done ==> Step(start, now, r, Encodable(fields, slots), EncMessage(fields, MessageView(fields, slots)))
  {
    hide EncMessage, EncField, MessageView, EncodableSlot;
    var ps := MessageView(fields, slots);
    EncFromUnfold(fields, ps, i, done);
    var good := EncodableAt(fields, slots, i);
    if !good { EncodableNeedsEach(fields, slots, i); }
    var part := EncField(fields[i], ps[i]);
    StepThen(start, mid, now, r, true, done, good, part);
    if r != Done {
      StepFails(start, now, r, good, done + part, Encodable(fields, slots), EncFrom(fields, ps, i + 1));
    }
  }

  lemma MidwayEnd(fields: seq<Field>, slots: seq<Slot>, done: seq<byte>, start: Snap, now: Snap)
    requires Shaped(fields, slots) && Midway(fields, slots, |fields|, done, start, now)
    ensures Step(start, now, Done, Encodable(fields, slots), EncMessage(fields, MessageView(fields, slots)))
  {
    EncodableAll(fields, slots, |fields|);
    assert done + [] == done;
  }

  class OStream {
    /** callback == NULL: count the bytes only. */
    const sizing: bool
    const buf: array<byte>
    const maxSize: nat
    var state: nat
    var bytesWritten: nat
    ghost var out: seq<byte>
    ghost var beyond: seq<byte>

    ghost predicate Valid()
      reads this, buf
    {
      !sizing ==>
        && bytesWritten <= maxSize && state + maxSize - bytesWritten <= buf.Length
        && out == buf[..state] && beyond == buf[state + maxSize - bytesWritten..]
    }

    /** Steps on other objects leave a stream as it is. */
    twostate lemma ValidKept()
      requires old(Valid()) && unchanged(this) && unchanged(buf)
      ensures Valid()
    {}

    ghost function Now(): Snap
      reads this
    {
      Snap(sizing, maxSize - bytesWritten, bytesWritten, out, beyond)
    }

    /** pb_ostream_from_buffer. */
    constructor (buffer: array<byte>, size: nat)
      requires size <= buffer.Length
      ensures Valid() && buf == buffer
      ensures Now() == Snap(false, size, 0, [], buffer[size..])
    {
      sizing, buf, maxSize, state, bytesWritten := false, buffer, size, 0, 0;
      out, beyond := [], buffer[size..];
    }

    /** PB_OSTREAM_SIZING. */
    constructor Sizing()
      ensures Valid() && fresh(buf)
      ensures sizing && bytesWritten == 0
    {
      sizing, maxSize, state, bytesWritten := true, 0, 0, 0;
      buf := new byte[0];
    }

    /** The writing substream of pb_encode_submessage. */
    constructor Substream(parent: OStream, size: nat)
      requires parent.Valid() && !parent.sizing && parent.bytesWritten + size <= parent.maxSize
      ensures Valid() && buf == parent.buf && maxSize == size
      ensures Now() == Snap(false, size, 0, parent.out, parent.buf[parent.state + size..])
    {
      sizing, buf, maxSize, state, bytesWritten := false, parent.buf, size, parent.state, 0;
      out, beyond := parent.out, parent.buf[parent.state + size..];
    }

    /** pb_write, with the copy loop of buf_write. */
    method Write(s: seq<byte>) returns (r: Status)
      requires Valid()
      modifies this, buf
      ensures Valid() && Step(old(Now()), Now(), r, true, s) && (r != Done ==> Now() == old(Now()))
    {
      if !sizing {
        if bytesWritten + |s| > maxSize {
          return StreamFull;
        }
        ghost var was := buf[..];
        Copy(s);
        WriteKept(was, buf[..], state, s, state + maxSize - bytesWritten);
        state := state + |s|;
        out := out + s;
      }
      bytesWritten := bytesWritten + |s|;
      r := Done;
    }

    /** The loop of buf_write. */
    method Copy(s: seq<byte>)
      requires state + |s| <= buf.Length
      modifies buf
      ensures buf[..] == old(buf[..])[..state] + s + old(buf[..])[state + |s|..]
    {
      ghost var was := buf[..];
      var i := 0;
      while i < |s|
        invariant 0 <= i <= |s|
        invariant forall k :: 0 <= k < buf.Length ==> buf[k] == if state <= k < state + i then s[k - state] else was[k]
      {
        buf[state + i] := s[i];
        i := i + 1;
      }
    }

    /** pb_write(stream, NULL, n), which only sizing streams get. */
    method Count(n: nat)
      requires Valid() && sizing
      modifies this
      ensures Valid() && bytesWritten == old(bytesWritten) + n
      ensures out == old(out) && beyond == old(beyond)
    {
      bytesWritten := bytesWritten + n;
    }

    /** pb_encode_varint: groups collected in a ten-byte buffer. */
    method EncodeVarint(value: nat) returns (r: Status)
      requires Valid() && value < TWO64
      modifies this, buf
      ensures Valid() && Step(old(Now()), Now(), r, true, VarintBytes(value))
    {
      hide Step;
      if value <= 0x7F {
        r := Write([value]);
        return;
      }
      VarintMax(value);
      var buffer := new byte[10];
      var i, v := 0, value;
      while v != 0
        invariant 0 <= i <= 10
        invariant v != 0 ==> VarintBytes(value) == buffer[..i] + VarintBytes(v)
        invariant v == 0 ==> i > 0 && buffer[i - 1] >= 128
        invariant v == 0 ==> VarintBytes(value) == buffer[..i - 1] + [buffer[i - 1] - 128]
        modifies buffer
      {
        ghost var before := buffer[..i];
        buffer[i] := v % 128 + 128;
        assert buffer[..i] == before;
        v := v / 128;
        i := i + 1;
        assert buffer[..i] == before + [buffer[i - 1]];
      }
      buffer[i - 1] := buffer[i - 1] - 128;
      assert buffer[..i] == VarintBytes(value);
      r := Write(buffer[..i]);
    }

    /** pb_encode_tag. */
    method EncodeTag(wt: nat, tag: nat) returns (r: Status)
      requires Valid() && wt < 8 && tag < TWO32
      modifies this, buf
      ensures Valid() && Step(old(Now()), Now(), r, true, TagBytes(wt, tag))
    {
      r := EncodeVarint(8 * tag + wt);
    }

    /** pb_encode_string. */
    method EncodeString(b: seq<byte>) returns (r: Status)
      requires Valid() && |b| < TWO64
      modifies this, buf
      ensures Valid() && Step(old(Now()), Now(), r, true, Prefixed(b))
    {
      ghost var start := Now();
      r := EncodeVarint(|b|);
      ghost var mid := Now();
      if r != Done {
        StepFails(start, mid, r, true, VarintBytes(|b|), true, b);
        return;
      }
      r := Write(b);
      StepThen(start, mid, Now(), r, true, VarintBytes(|b|), true, b);
    }

    /** pb_enc_varint, pb_enc_uvarint, pb_enc_svarint, pb_enc_fixed32 and pb_enc_fixed64. */
    method EncodeNumber(f: Field, n: int) returns (r: Status)
      requires Valid() && Packable(f) && ValueShaped(f, Num(n))
      modifies this, buf
      ensures Valid() && Step(old(Now()), Now(), r, EncodableValue(f, Num(n)), EncNumber(f, n))
    {
      if f.ltype.Fix32T? {
        ModSmall(n, TWO32);
        r := EncodeFixed32(n);
      } else if f.ltype.Fix64T? {
        ModSmall(n, TWO64);
        r := EncodeFixed64(n);
      } else if f.dataSize != 1 && f.dataSize != 2 && f.dataSize != 4 && f.dataSize != 8 {
        r := BadMessage;
      } else if f.ltype.SIntT? {
        r := EncodeVarint(ZigZag(n));
      } else {
        r := EncodeVarint(n % TWO64);
      }
    }

    /** pb_encode_fixed32. */
    method EncodeFixed32(n: nat) returns (r: Status)
      requires Valid() && n < TWO32
      modifies this, buf
      ensures Valid() && Step(old(Now()), Now(), r, true, LittleEndian(4, n))
    {
      FourBytes(n);
      r := Write([n % 256, n / 0x100 % 256, n / 0x1_0000 % 256, n / 0x100_0000 % 256]);
    }

    /** pb_encode_fixed64. */
    method EncodeFixed64(n: nat) returns (r: Status)
      requires Valid() && n < TWO64
      modifies this, buf
      ensures Valid() && Step(old(Now()), Now(), r, true, LittleEndian(8, n))
    {
      EightBytes(n);
      r := Write([n % 256, n / 0x100 % 256, n / 0x1_0000 % 256, n / 0x100_0000 % 256,
                  n / 0x1_0000_0000 % 256, n / 0x100_0000_0000 % 256,
                  n / 0x1_0000_0000_0000 % 256, n / 0x100_0000_0000_0000 % 256]);
    }

    /** The strnlen loop of pb_enc_string. */
    method StringLength(mem: seq<byte>, maxSize: nat) returns (size: nat)
      requires |mem| <= maxSize
      ensures size <= |mem| && mem[..size] == CString(mem)
    {
      size := 0;
      while size < maxSize && size < |mem| && mem[size] != 0
        invariant size <= |mem|
        invariant forall k :: 0 <= k < size ==> mem[k] != 0
      {
        size := size + 1;
      }
      CStringIs(mem, size);
    }

    /** The field encoder chosen by PB_ENCODERS. */
    method EncodeItem(f: Field, v: Value) returns (r: Status)
      requires Valid() && FieldPlain(f) && ValueShaped(f, v)
      requires |EncValue(f, ValueView(f, v))| < TWO32
      modifies this, buf
      ensures Valid() && Step(old(Now()), Now(), r, EncodableValue(f, v), EncValue(f, ValueView(f, v)))
      decreases f, 0
    {
      if f.ltype.BytesT? {
        if |v.bytes| + BYTES_HEADER > f.dataSize {
          return BadMessage;
        }
        r := EncodeString(v.bytes);
      } else if f.ltype.StringT? {
        var size := StringLength(v.mem, f.dataSize);
        r := EncodeString(v.mem[..size]);
      } else if f.ltype.SubT? {
        r := EncodeSubmessage(f.ltype.fields, v.slots);
      } else {
        r := EncodeNumber(f, v.n);
      }
    }

    /** encode_array: packed if the type allows it, counting the body first. */
    method EncodeArray(f: Field, s: Slot) returns (r: Status)
      requires Valid() && FieldPlain(f) && f.htype.Repeated? && SlotShaped(f, s)
      requires |EncField(f, SlotView(f, s))| < TWO32
      modifies this, buf
      ensures Valid() && Step(old(Now()), Now(), r, EncodableSlot(f, s), EncField(f, SlotView(f, s)))
      decreases f, 3
    {
      if s.size == 0 {
        return Done;
      }
      if s.size > f.arraySize {
        return BadMessage;
      }
      if Packable(f) {
        r := EncodePackedArray(f, s);
      } else {
        r := EncodeTaggedArray(f, s);
      }
    }

    method EncodePackedArray(f: Field, s: Slot) returns (r: Status)
      requires Valid() && FieldPlain(f) && f.htype.Repeated? && SlotShaped(f, s)
      requires Packable(f) && 0 < s.size <= f.arraySize
      requires |EncField(f, SlotView(f, s))| < TWO32
      modifies this, buf
      ensures Valid() && Step(old(Now()), Now(), r, EncodableSlot(f, s), EncField(f, SlotView(f, s)))
      decreases f, 0
    {
      ghost var good := EncodableSlot(f, s);
      ghost var body := EncPacked(f, SlotView(f, s).values, 0);
      ghost var tag, length := TagBytes(WT_STRING, f.tag), VarintBytes(|body|);
      assert EncField(f, SlotView(f, s)) == tag + (length + body);
      ghost var start := Now();
      r := EncodeTag(WT_STRING, f.tag);
      ghost var tagged := Now();
      if r != Done {
        StepFails(start, tagged, r, true, tag, good, length + body);
        return;
      }
      var size;
      r, size := PackedSize(f, s);
      if r != Done {
        assert Step(tagged, tagged, r, good, length + body);
        StepThen(start, tagged, tagged, r, true, tag, good, length + body);
        return;
      }
      r := EncodeVarint(size);
      ghost var sized := Now();
      if r != Done {
        StepFails(tagged, sized, r, true, length, good, body);
        StepThen(start, tagged, sized, r, true, tag, good, length + body);
        return;
      }
      StepThen(start, tagged, sized, r, true, tag, true, length);
      if sizing {
        Count(size);
      } else {
        r := EncodePackedBody(f, s);
        StepThen(tagged, sized, Now(), r, true, length, good, body);
      }
      StepThen(start, tagged, Now(), r, true, tag, good, length + body);
    }

    method EncodePackedBody(f: Field, s: Slot) returns (r: Status)
      requires Valid() && f.htype.Repeated? && SlotShaped(f, s)
      requires Packable(f) && 0 < s.size <= f.arraySize
      modifies this, buf
      ensures Valid() && Step(old(Now()), Now(), r, EncodableSlot(f, s), EncPacked(f, SlotView(f, s).values, 0))
    {
      hide Step, EncNumber, EncValue, EncPacked, EncodableSlot;
      ghost var us := SlotView(f, s).values;
      ghost var body := EncPacked(f, us, 0);
      PackedViews(f, s);
      PackedEnd(f, s, us);
      ghost var start := Now();
      StepNone(start);
      var i := 0;
      ghost var done := [];
      r := Done;
      while i < s.size
        invariant i <= s.size && body == done + EncPacked(f, us, i)
        invariant r == Done && Valid() && Step(start, Now(), Done, true, done)
        invariant forall k :: 0 <= k < i ==> EncodableValue(f, s.items[k])
      {
        ghost var v := s.items[i];
        ghost var item, rest := EncValue(f, us[i]), EncPacked(f, us, i + 1);
        ghost var mid := Now();
        PackedNext(f, us, i, done);
        r := EncodeNumber(f, s.items[i].n);
        StepThen(start, mid, Now(), r, true, done, EncodableValue(f, v), item);
        if r != Done {
          StepFails(start, Now(), r, EncodableValue(f, v), done + item, EncodableSlot(f, s), rest);
          return;
        }
        done := done + item;
        i := i + 1;
      }
      assert body == done + [] == done;
    }

    /** The size of a packed body: known for fixed types, counted on a sizing stream otherwise. */
    method PackedSize(f: Field, s: Slot) returns (r: Status, size: nat)
      requires Packable(f) && f.htype.Repeated? && SlotShaped(f, s) && s.size <= f.arraySize
      ensures r == Done <==> EncodableSlot(f, s)
      ensures r == Done ==> size == |EncPacked(f, SlotView(f, s).values, 0)|
      ensures r == Done || r == BadMessage
    {
      ghost var us := SlotView(f, s).values;
      PackedViews(f, s);
      if f.ltype.Fix32T? {
        FixedPackedSize(f, us, 0);
        return Done, 4 * s.size;
      }
      if f.ltype.Fix64T? {
        FixedPackedSize(f, us, 0);
        return Done, 8 * s.size;
      }
      var sizestream := new OStream.Sizing();
      var i := 0;
      while i < s.size
        invariant i <= s.size && sizestream.Valid() && sizestream.sizing && fresh(sizestream) && fresh(sizestream.buf)
        invariant sizestream.bytesWritten + |EncPacked(f, us, i)| == |EncPacked(f, us, 0)|
        invariant forall k :: 0 <= k < i ==> EncodableValue(f, s.items[k])
      {
        r := sizestream.EncodeNumber(f, s.items[i].n);
        if r != Done {
          return r, 0;
        }
        i := i + 1;
      }
      return Done, sizestream.bytesWritten;
    }

    method EncodeTaggedArray(f: Field, s: Slot) returns (r: Status)
      requires Valid() && FieldPlain(f) && f.htype.Repeated? && SlotShaped(f, s)
      requires !Packable(f) && 0 < s.size <= f.arraySize
      requires |EncField(f, SlotView(f, s))| < TWO32
      modifies this, buf
      ensures Valid() && Step(old(Now()), Now(), r, EncodableSlot(f, s), EncField(f, SlotView(f, s)))
      decreases f, 2
    {
      hide Step, EncValue, ValueView, TagBytes;
      ghost var us := SlotView(f, s).values;
      ghost var all := EncTagged(f, us, 0);
      ghost var start := Now();
      StepNone(start);
      var i := 0;
      ghost var done := [];
      r := Done;
      while i < s.size
        invariant i <= s.size && all == done + EncTagged(f, us, i)
        invariant r == Done && Valid() && Step(start, Now(), Done, true, done)
        invariant forall k :: 0 <= k < i ==> EncodableValue(f, s.items[k])
      {
        ghost var v := s.items[i];
        ghost var tag, item, rest := TagBytes(WireType(f), f.tag), EncValue(f, us[i]), EncTagged(f, us, i + 1);
        ghost var mid := Now();
        assert ValueShaped(f, v) && us[i] == ValueView(f, v);
        assert all == (done + (tag + item)) + rest;
        r := EncodeTaggedItem(f, s.items[i]);
        StepThen(start, mid, Now(), r, true, done, EncodableValue(f, v), tag + item);
        if r != Done {
          StepFails(start, Now(), r, EncodableValue(f, v), done + (tag + item), EncodableSlot(f, s), rest);
          return;
        }
        done := done + (tag + item);
        i := i + 1;
      }
      assert EncodableSlot(f, s) && all == done;
    }

    /** pb_encode_tag_for_field and the item after it. */
    method EncodeTaggedItem(f: Field, v: Value) returns (r: Status)
      requires Valid() && FieldPlain(f) && ValueShaped(f, v)
      requires |EncValue(f, ValueView(f, v))| < TWO32
      modifies this, buf
      ensures Valid() && Step(old(Now()), Now(), r, EncodableValue(f, v),
        TagBytes(WireType(f), f.tag) + EncValue(f, ValueView(f, v)))
      decreases f, 1
    {
      ghost var tag, item := TagBytes(WireType(f), f.tag), EncValue(f, ValueView(f, v));
      ghost var start := Now();
      r := EncodeTag(WireType(f), f.tag);
      ghost var mid := Now();
      if r != Done {
        StepFails(start, mid, r, true, tag, EncodableValue(f, v), item);
        return;
      }
      r := EncodeItem(f, v);
      StepThen(start, mid, Now(), r, true, tag, EncodableValue(f, v), item);
    }

    /** encode_basic_field. */
    method EncodeField(f: Field, s: Slot) returns (r: Status)
      requires Valid() && FieldPlain(f) && SlotShaped(f, s)
      requires |EncField(f, SlotView(f, s))| < TWO32
      modifies this, buf
      ensures Valid() && Step(old(Now()), Now(), r, EncodableSlot(f, s), EncField(f, SlotView(f, s)))
      decreases f, 4
    {
      match f.htype {
        case Repeated =>
          r := EncodeArray(f, s);
          return;
        case Optional =>
          if s.size == 0 {
            return Done;
          }
        case Oneof =>
          if s.size != f.tag {
            return Done;
          }
        case Required =>
      }
      ghost var us := SlotView(f, s).values;
      assert us == [ValueView(f, s.items[0])] && EncTagged(f, us, 1) == [];
      assert EncField(f, SlotView(f, s)) == TagBytes(WireType(f), f.tag) + EncValue(f, us[0]);
      r := EncodeTaggedItem(f, s.items[0]);
    }

    /** One turn of the loop of pb_encode. */
    method EncodeFieldAt(fields: seq<Field>, slots: seq<Slot>, i: nat, ghost start: Snap, ghost done: seq<byte>)
      returns (r: Status)
      requires Valid() && AllPlain(fields) && Shaped(fields, slots) && i < |fields|
      requires |EncMessage(fields, MessageView(fields, slots))| < TWO32
      requires Midway(fields, slots, i, done, start, Now())
      modifies this, buf
      ensures Valid()
      ensures r == Done ==>
        Midway(fields, slots, i + 1, done + EncField(fields[i], MessageView(fields, slots)[i]), start, Now())
      ensures r != Done ==>
        Step(start, Now(), r, Encodable(fields, slots), EncMessage(fields, MessageView(fields, slots)))
      decreases fields, 5
    {
      hide Step, Midway, EncMessage, MessageView, EncField, Encodable, Shaped, AllPlain;
      ghost var mid := Now();
      MidwayField(fields, slots, i, done, start, mid);
      r := EncodeField(fields[i], At(fields, slots, i));
      MidwayStep(fields, slots, i, done, start, mid, Now(), r);
    }

    /** The do-while loop of pb_encode. */
    method EncodeFields(fields: seq<Field>, slots: seq<Slot>) returns (r: Status, ghost done: seq<byte>)
      requires Valid() && AllPlain(fields) && Shaped(fields, slots) && fields != []
      requires |EncMessage(fields, MessageView(fields, slots))| < TWO32
      modifies this, buf
      ensures Valid()
      ensures r == Done ==> Midway(fields, slots, |fields|, done, old(Now()), Now())
      ensures r != Done ==>
        Step(old(Now()), Now(), r, Encodable(fields, slots), EncMessage(fields, MessageView(fields, slots)))
      decreases fields, 6
    {
      hide Midway, Step, EncMessage, MessageView, Encodable;
      TagsNonzero(fields);
      var iter := new FieldIter(fields, 0);
      ghost var start := Now();
      MidwayStart(fields, slots, start);
      done := [];
      ghost var n, now := 0, start;
      while true
        invariant iter.Valid() && iter.start == fields && fresh(iter) && iter.pos == n < |fields|
        invariant Valid() && Now() == now && Midway(fields, slots, n, done, start, now)
        decreases |fields| - n
      {
        r := EncodeFieldAt(fields, slots, iter.pos, start, done);
        if r != Done {
          return;
        }
        done := done + EncField(fields[n], MessageView(fields, slots)[n]);
        now, n := Now(), n + 1;
        assert Midway(fields, slots, n, done, start, now);
        label stepped:
        var more := iter.Next();
        ValidKept@stepped();
        if !more {
          return;
        }
      }
    }

    /** pb_encode. */
    method Encode(fields: seq<Field>, slots: seq<Slot>) returns (r: Status)
      requires Valid() && AllPlain(fields) && Shaped(fields, slots)
      requires |EncMessage(fields, MessageView(fields, slots))| < TWO32
      modifies this, buf
      ensures Valid() && Step(old(Now()), Now(), r, Encodable(fields, slots), EncMessage(fields, MessageView(fields, slots)))
      decreases fields, 7
    {
      if fields == [] {
        return Done;
      }
      ghost var start := Now();
      ghost var done;
      r, done := EncodeFields(fields, slots);
      if r == Done {
        MidwayEnd(fields, slots, done, start, Now());
      }
    }

    /** pb_encode_submessage: a sizing pass for the length prefix, then the writing pass on a
        substream of exactly that size. */
    method EncodeSubmessage(fields: seq<Field>, slots: seq<Slot>) returns (r: Status)
      requires Valid() && AllPlain(fields) && Shaped(fields, slots)
      requires |EncMessage(fields, MessageView(fields, slots))| < TWO32
      modifies this, buf
      ensures Valid() && Step(old(Now()), Now(), r, Encodable(fields, slots), Prefixed(EncMessage(fields, MessageView(fields, slots))))
      decreases fields, 9
    {
      ghost var good := Encodable(fields, slots);
      ghost var body := EncMessage(fields, MessageView(fields, slots));
      ghost var length := VarintBytes(|body|);
      ghost var start := Now();
      var sub := new OStream.Sizing();
      r := sub.Encode(fields, slots);
      if r != Done {
        return;
      }
      var size := sub.bytesWritten;
      r := EncodeVarint(size);
      ghost var sized := Now();
      if r != Done {
        StepFails(start, sized, r, true, length, good, body);
        return;
      }
      if sizing {
        Count(size);
        StepThen(start, sized, Now(), r, true, length, good, body);
        return;
      }
      r := EncodeNested(fields, slots, size);
      StepThen(start, sized, Now(), r, true, length, good, body);
    }

    /** The second pass of pb_encode_submessage, on a substream that takes `size` bytes. */
    method EncodeNested(fields: seq<Field>, slots: seq<Slot>, size: nat) returns (r: Status)
      requires Valid() && !sizing && AllPlain(fields) && Shaped(fields, slots)
      requires |EncMessage(fields, MessageView(fields, slots))| == size < TWO32
      requires Encodable(fields, slots)
      modifies this, buf
      ensures Valid() && Step(old(Now()), Now(), r, true, EncMessage(fields, MessageView(fields, slots)))
      decreases fields, 8
    {
      hide EncMessage, MessageView, Encodable, Step, Shaped, AllPlain;
      ghost var body := EncMessage(fields, MessageView(fields, slots));
      ghost var start := Now();
      if bytesWritten + size > maxSize {
        StepFull(start, body);
        return StreamFull;
      }
      var substream := new OStream.Substream(this, size);
      ghost var inner := substream.Now();
      ghost var gap := maxSize - bytesWritten - size;
      TailOfTail(buf, state + size, gap);
      assert beyond == inner.beyond[gap..];
      r := substream.Encode(fields, slots);
      StepInside(start, inner, substream.Now(), r, body);
      Rejoin(substream, gap);
      if substream.bytesWritten != size {
        return SizeChanged;
      }
    }

    /** The parent takes over where the substream stands, with `gap` bytes of room behind it. */
    method Rejoin(substream: OStream, ghost gap: nat)
      requires substream != this && substream.Valid() && !sizing && !substream.sizing && substream.buf == buf
      requires substream.bytesWritten == substream.maxSize
      requires maxSize - bytesWritten == substream.maxSize + gap && substream.state + gap <= buf.Length
      requires gap <= |substream.beyond| && beyond == substream.beyond[gap..]
      modifies this
      ensures Valid()
      ensures Now() == Snap(false, gap, old(bytesWritten) + substream.maxSize, substream.out, old(beyond))
    {
      bytesWritten := bytesWritten + substream.bytesWritten;
      state := substream.state;
      out := substream.out;
      TailOfTail(buf, state, gap);
    }
  }

  /** pb_get_encoded_size. */
  method GetEncodedSize(fields: seq<Field>, slots: seq<Slot>) returns (ok: bool, size: nat)
    requires AllPlain(fields) && Shaped(fields, slots)
    requires |EncMessage(fields, MessageView(fields, slots))| < TWO32
    ensures ok <==> Encodable(fields, slots)
    ensures ok ==> size == |EncMessage(fields, MessageView(fields, slots))|
  {
    var stream := new OStream.Sizing();
    var r := stream.Encode(fields, slots);
    return r == Done, stream.bytesWritten;
  }

  /** Encoding into a buffer succeeds exactly when the computed size is within its capacity, and
      then the buffer starts with the message; bytes past the capacity are never touched. */
  method EncodeToBuffer(buffer: array<byte>, capacity: nat, fields: seq<Field>, slots: seq<Slot>)
    returns (sized: bool, size: nat, ok: bool)
    requires capacity <= buffer.Length
    requires AllPlain(fields) && Shaped(fields, slots)
    requires |EncMessage(fields, MessageView(fields, slots))| < TWO32
    modifies buffer
    ensures sized <==> Encodable(fields, slots)
    ensures ok <==> sized && size <= capacity
    ensures ok ==> buffer[..size] == EncMessage(fields, MessageView(fields, slots))
    ensures buffer[capacity..] == old(buffer[capacity..])
  {
    sized, size := GetEncodedSize(fields, slots);
    var stream := new OStream(buffer, capacity);
    var r := stream.Encode(fields, slots);
    ok := r == Done;
  }

  /** The shifted bytes of a word are its little-endian bytes. */
  lemma EightBytes(n: nat)
    ensures LittleEndian(8, n) ==
      [n % 256, n / 0x100 % 256, n / 0x1_0000 % 256, n / 0x100_0000 % 256,
       n / 0x1_0000_0000 % 256, n / 0x100_0000_0000 % 256,
       n / 0x1_0000_0000_0000 % 256, n / 0x100_0000_0000_0000 % 256]
  {
    FourBytes(n);
    FourBytes(n / 0x1_0000_0000);
    LittleEndianSplit(n);
    DivDiv(n, 0x1_0000_0000, 0x100);
    DivDiv(n, 0x1_0000_0000, 0x1_0000);
    DivDiv(n, 0x1_0000_0000, 0x100_0000);
  }

  lemma FourBytes(n: nat)
    ensures LittleEndian(4, n) == [n % 256, n / 0x100 % 256, n / 0x1_0000 % 256, n / 0x100_0000 % 256]
  {
    DivDiv(n, 0x100, 0x100);
    DivDiv(n, 0x1_0000, 0x100);
    assert LittleEndian(1, n / 0x100_0000) == [n / 0x100_0000 % 256];
    assert LittleEndian(2, n / 0x1_0000) == [n / 0x1_0000 % 256] + LittleEndian(1, n / 0x100_0000);
    assert LittleEndian(3, n / 0x100) == [n / 0x100 % 256] + LittleEndian(2, n / 0x1_0000);
  }

  lemma LittleEndianSplit(n: nat)
    ensures LittleEndian(8, n) == LittleEndian(4, n) + LittleEndian(4, n / 0x1_0000_0000)
  {
    DivDiv(n, 0x100, 0x100);
    DivDiv(n, 0x1_0000, 0x100);
    DivDiv(n, 0x100_0000, 0x100);
    var high := LittleEndian(4, n / 0x1_0000_0000);
    assert LittleEndian(5, n / 0x100_0000) == [n / 0x100_0000 % 256] + high;
    assert LittleEndian(6, n / 0x1_0000) == [n / 0x1_0000 % 256, n / 0x100_0000 % 256] + high;
    assert LittleEndian(7, n / 0x100) == [n / 0x100 % 256, n / 0x1_0000 % 256, n / 0x100_0000 % 256] + high;
    FourBytes(n);
  }
}
