/** Whatever pb_decode makes of any bytes, pb_encode takes, and what it writes decodes to the same content. */
module PbReencode {
  import opened PbBytes
  import opened PbWire
  import opened PbTypes
  import opened PbEncodeSpec
  import opened PbDecodeSpec
  import opened PbRoundTrip

  /** An item the encoder takes, its strings terminated. */
  ghost predicate Whole(f: Field, v: Value)
    requires ValueShaped(f, v)
  {
    EncodableValue(f, v) && TerminatedValue(f, v)
  }

  // ---------------------------------------------------------------- memory while decoding

  /** Memory of a message in which everything present is whole. Required items may not be there yet. */
  ghost predicate ReadyValue(f: Field, v: Value)
    requires ValueShaped(f, v)
    decreases f, 0
  {
    match f.ltype
    case SubT(sub) => Ready(sub, v.slots)
    case _ => true
  }

  ghost predicate ReadySlot(f: Field, s: Slot)
    requires SlotShaped(f, s)
    decreases f, 1
  {
    match f.htype
    case Required => ReadyValue(f, s.items[0])
    case Optional => ReadyValue(f, s.items[0]) && (s.size != 0 ==> Whole(f, s.items[0]))
    case Oneof => s.size == f.tag ==> Whole(f, s.items[0])
    case Repeated => s.size <= f.arraySize && forall k :: 0 <= k < s.size ==> Whole(f, s.items[k])
  }

  ghost predicate Ready(fields: seq<Field>, slots: seq<Slot>)
    requires Shaped(fields, slots)
    decreases fields, 2
  {
    forall i {:trigger At(fields, slots, i)} :: 0 <= i < |fields| ==> ReadySlot(fields[i], At(fields, slots, i))
  }

  /** The required items that were seen are whole. */
  ghost predicate SeenWhole(fields: seq<Field>, slots: seq<Slot>, seen: set<nat>)
    requires Shaped(fields, slots)
  {
    forall i {:trigger At(fields, slots, i)} :: 0 <= i < |fields| && fields[i].htype.Required? && i in seen ==>
      SlotShaped(fields[i], At(fields, slots, i)) && Whole(fields[i], At(fields, slots, i).items[0])
  }

  lemma {:induction false} DefaultsReady(fields: seq<Field>, slots: seq<Slot>)
    requires Descriptor(fields) && Shaped(fields, slots)
    ensures Shaped(fields, Defaults(fields, slots)) && Ready(fields, Defaults(fields, slots))
    decreases fields, 2
  {
    DefaultsShaped(fields, slots);
    forall i | 0 <= i < |fields| ensures ReadySlot(fields[i], At(fields, Defaults(fields, slots), i)) {
      assert FieldOk(fields[i]);
      assert SlotShaped(fields[i], At(fields, slots, i));
      LeaderIsItsOwn(fields, i);
      if !fields[i].htype.Oneof? { DefaultSlotReady(fields[i], slots[i]); }
    }
  }

  lemma {:induction false} DefaultSlotReady(f: Field, s: Slot)
    requires FieldOk(f) && SlotShaped(f, s) && !f.htype.Oneof?
    ensures SlotShaped(f, DefaultSlot(f, s)) && ReadySlot(f, DefaultSlot(f, s))
    decreases f, 1
  {
    DefaultSlotShaped(f, s);
    if !f.htype.Repeated? && f.ltype.SubT? {
      assert ValueShaped(f, s.items[0]);
      DefaultsReady(f.ltype.fields, s.items[0].slots);
    }
  }

  // ---------------------------------------------------------------- decoding keeps it

  lemma ScalarWhole(f: Field, w: seq<byte>)
    requires !f.ltype.SubT? && DecScalar(f, w).Ok?
    ensures ValueShaped(f, DecScalar(f, w).value) && Whole(f, DecScalar(f, w).value)
  {
    hide Varint64, Varint32, ToSigned, UnZigZag, Pow2, LittleEndianValue;
    DecScalarShaped(f, w);
  }

  lemma {:induction false} ItemReady(f: Field, t: seq<byte>, n: nat, prior: Value)
    requires FieldOk(f) && n <= |t|
    requires f.ltype.SubT? && !f.htype.Oneof? ==> ValueShaped(f, prior)
    requires f.ltype.SubT? && (f.htype.Required? || f.htype.Optional?) ==> ReadyValue(f, prior)
    requires DecItem(f, t, n, prior).GoodItem?
    ensures var v := DecItem(f, t, n, prior).value; Whole(f, v) && ReadyValue(f, v)
    decreases n, 0
  {
    if f.ltype.SubT? {
      var sub, s := f.ltype.fields, SubWindow(t, n);
      StartReady(f, prior);
      NothingSeen(sub, SubStart(f, prior));
      LoopReady(sub, s.inner, |s.inner|, SubStart(f, prior), {});
    } else {
      ScalarWhole(f, Window(t, n));
    }
  }

  lemma StartReady(f: Field, prior: Value)
    requires FieldOk(f) && f.ltype.SubT?
    requires !f.htype.Oneof? ==> ValueShaped(f, prior)
    requires f.htype.Required? || f.htype.Optional? ==> ReadyValue(f, prior)
    ensures Descriptor(f.ltype.fields) && Ready(f.ltype.fields, SubStart(f, prior))
  {
    var sub := f.ltype.fields;
    ZeroMessageShaped(sub);
    if f.htype.Oneof? { DefaultsReady(sub, ZeroMessage(sub)); }
    else if f.htype.Repeated? { DefaultsReady(sub, prior.slots); }
    hide Defaults, Ready;
  }

  lemma {:induction false} PackedReady(f: Field, w: seq<byte>, s: Slot)
    requires FieldOk(f) && Packable(f) && f.htype.Repeated? && SlotShaped(f, s) && ReadySlot(f, s)
    ensures var r := DecPacked(f, w, s); r.PackDone? ==> ReadySlot(f, r.slot)
    decreases |w|
  {
    if w != [] && s.size < f.arraySize {
      DecScalarShrinks(f, w);
      var v := DecScalar(f, w);
      if v.Ok? {
        ScalarWhole(f, w);
        PackedReady(f, v.rest, Slot(s.size + 1, s.items[s.size := v.value]));
      }
    }
  }

  lemma {:induction false} SlotReady(f: Field, wt: nat, t: seq<byte>, n: nat, s: Slot)
    requires FieldOk(f) && SlotShaped(f, s) && n <= |t| && ReadySlot(f, s)
    requires DecSlot(f, wt, t, n, s).Put?
    ensures var r := DecSlot(f, wt, t, n, s).slot;
      ReadySlot(f, r) && (f.htype.Required? ==> Whole(f, r.items[0]))
    decreases n, 1
  {
    hide DecItem, Whole, ReadyValue, DecPacked, SubWindow;
    if f.htype.Repeated? {
      if wt == WT_STRING && Packable(f) {
        PackedReady(f, SubWindow(t, n).inner, s);
      } else {
        ItemReady(f, t, n, s.items[s.size]);
      }
    } else {
      ItemReady(f, t, n, s.items[0]);
    }
  }

  /** A message that decoded. */
  ghost predicate Done(fields: seq<Field>, o: Outcome) {
    o.Good? ==> Shaped(fields, o.slots) && Ready(fields, o.slots) && Encodable(fields, o.slots) && Terminated(fields, o.slots)
  }

  /** The final check makes ready memory whole. */
  lemma FinishDone(fields: seq<Field>, slots: seq<Slot>, tape: seq<byte>, left: nat, seen: set<nat>)
    requires Shaped(fields, slots) && Ready(fields, slots) && SeenWhole(fields, slots, seen)
    ensures Done(fields, Finish(fields, slots, tape, left, seen))
  {
    hide Whole, ReadyValue;
    if AllRequired(fields, seen) {
      forall i {:trigger At(fields, slots, i)} | 0 <= i < |fields|
        ensures EncodableSlot(fields[i], At(fields, slots, i)) && TerminatedSlot(fields[i], At(fields, slots, i))
      {
        assert ReadySlot(fields[i], At(fields, slots, i));
        SlotDone(fields[i], At(fields, slots, i));
      }
    }
  }

  lemma SlotDone(f: Field, s: Slot)
    requires SlotShaped(f, s) && ReadySlot(f, s) && (f.htype.Required? ==> Whole(f, s.items[0]))
    ensures EncodableSlot(f, s) && TerminatedSlot(f, s)
  {
    hide ReadyValue, EncodableValue, TerminatedValue, ValueShaped;
  }

  /** A stored slot leaves the others ready: only members of one union share it. */
  lemma ReadyUpdate(fields: seq<Field>, slots: seq<Slot>, seen: set<nat>, i: nat, s: Slot)
    requires Descriptor(fields) && Shaped(fields, slots) && i < |fields|
    requires Ready(fields, slots) && SeenWhole(fields, slots, seen)
    requires SlotShaped(fields[i], s) && (fields[i].htype.Oneof? ==> s.size == fields[i].tag)
    requires ReadySlot(fields[i], s) && (fields[i].htype.Required? ==> Whole(fields[i], s.items[0]))
    ensures var slots' := slots[SlotOf(fields, i) := s];
      Shaped(fields, slots') && Ready(fields, slots') && SeenWhole(fields, slots', seen + {i})
  {
    hide Whole, ReadyValue, ValueShaped;
    ShapedUpdate(fields, slots, i, s);
    var j := SlotOf(fields, i);
    var slots' := slots[j := s];
    forall k {:trigger At(fields, slots', k)} | 0 <= k < |fields|
      ensures SlotShaped(fields[k], At(fields, slots', k)) && ReadySlot(fields[k], At(fields, slots', k))
      ensures fields[k].htype.Required? && k in seen + {i} ==>
        SlotShaped(fields[k], At(fields, slots', k)) && Whole(fields[k], At(fields, slots', k).items[0])
    {
      assert SlotShaped(fields[k], At(fields, slots, k)) && ReadySlot(fields[k], At(fields, slots, k));
      if k != i && SlotOf(fields, k) == j {
        SharedSlot(fields, i, k);
        assert fields[k].tag != fields[i].tag by { if k < i {} else {} }
      }
    }
  }

  lemma {:induction false} LoopReady(fields: seq<Field>, t: seq<byte>, n: nat, slots: seq<Slot>, seen: set<nat>)
    requires Descriptor(fields) && Shaped(fields, slots) && n <= |t|
    requires Ready(fields, slots) && SeenWhole(fields, slots, seen)
    ensures Done(fields, DecLoop(fields, t, n, slots, seen))
    decreases n, 2
  {
    hide Ready, SeenWhole, Done, Finish, DecSlot;
    if n == 0 {
      FinishDone(fields, slots, t, 0, seen);
    } else {
      var g := DecTag(Window(t, n));
      if g.EndOfMessage? {
        FinishDone(fields, slots, Tail(t, n, g.rest), |g.rest|, seen);
      } else if g.Record? {
        var m, u := |g.rest|, Tail(t, n, g.rest);
        match IndexOf(fields, g.tag) {
          case None => SkippedReady(fields, g.wt, u, m, slots, seen);
          case Some(i) => KnownReady(fields, i, g.wt, u, m, slots, seen);
        }
      }
      BadDone(fields);
    }
  }

  lemma BadDone(fields: seq<Field>)
    ensures forall tape, left {:trigger Bad(tape, left)} :: Done(fields, Bad(tape, left))
  {}

  lemma {:induction false} SkippedReady(fields: seq<Field>, wt: nat, u: seq<byte>, m: nat, slots: seq<Slot>, seen: set<nat>)
    requires Descriptor(fields) && Shaped(fields, slots) && m <= |u|
    requires Ready(fields, slots) && SeenWhole(fields, slots, seen)
    ensures var k := SkipField(wt, Window(u, m));
      k.Ok? ==> Done(fields, DecLoop(fields, Tail(u, m, k.rest), |k.rest|, slots, seen))
    decreases m, 3
  {
    hide DecLoop, SkipField, Ready, SeenWhole, Done;
    var k := SkipField(wt, Window(u, m));
    if k.Ok? { LoopReady(fields, Tail(u, m, k.rest), |k.rest|, slots, seen); }
  }

  lemma {:induction false} KnownReady(fields: seq<Field>, i: nat, wt: nat, u: seq<byte>, m: nat, slots: seq<Slot>, seen: set<nat>)
    requires Descriptor(fields) && Shaped(fields, slots) && i < |fields| && m <= |u|
    requires Ready(fields, slots) && SeenWhole(fields, slots, seen)
    ensures FieldOk(fields[i]) && SlotShaped(fields[i], At(fields, slots, i))
    ensures var p := DecSlot(fields[i], wt, u, m, At(fields, slots, i));
      p.Put? ==> var slots' := slots[SlotOf(fields, i) := p.slot];
                 && Shaped(fields, slots')
                 && var o := DecLoop(fields, p.tape, p.left, slots', seen + {i});
                    Done(fields, o) && Done(fields, Undrain(o, p.drained))
    decreases m, 3
  {
    assert FieldOk(fields[i]) && SlotShaped(fields[i], At(fields, slots, i)) && ReadySlot(fields[i], At(fields, slots, i));
    hide DecLoop, DecSlot, Ready, SeenWhole, ReadySlot, Whole;
    var p := DecSlot(fields[i], wt, u, m, At(fields, slots, i));
    if p.Put? {
      SlotReady(fields[i], wt, u, m, At(fields, slots, i));
      ReadyUpdate(fields, slots, seen, i, p.slot);
      LoopReady(fields, p.tape, p.left, slots[SlotOf(fields, i) := p.slot], seen + {i});
    }
  }

  // ---------------------------------------------------------------- the theorems

  /** Whatever bytes decode, to whatever message: the encoder takes it, and its strings are terminated. */
  lemma DecodedIsEncodable(fields: seq<Field>, w: seq<byte>, dest: seq<Slot>)
    requires Descriptor(fields) && Shaped(fields, dest) && DecMessage(fields, w, dest).Good?
    ensures var m := DecMessage(fields, w, dest).slots;
      Shaped(fields, m) && Encodable(fields, m) && Terminated(fields, m)
  {
    hide DecLoop, Defaults;
    DefaultsReady(fields, dest);
    NothingSeen(fields, Defaults(fields, dest));
    LoopReady(fields, w, |w|, Defaults(fields, dest), {});
  }

  lemma NothingSeen(fields: seq<Field>, slots: seq<Slot>)
    requires Shaped(fields, slots)
    ensures SeenWhole(fields, slots, {})
  {}

  /** And what the encoder makes of it decodes, into any memory, to the same content. */
  lemma DecodedReencodes(fields: seq<Field>, w: seq<byte>, dest: seq<Slot>, other: seq<Slot>)
    requires Descriptor(fields) && Shaped(fields, dest) && Shaped(fields, other) && DecMessage(fields, w, dest).Good?
    requires var m := DecMessage(fields, w, dest).slots; |EncMessage(fields, MessageView(fields, m))| < TWO32
    ensures var m := DecMessage(fields, w, dest).slots;
      var r := DecMessage(fields, EncMessage(fields, MessageView(fields, m)), other);
      r.Good? && r.tape == [] && MessageView(fields, r.slots) == MessageView(fields, m)
  {
    hide DecMessage, MessageView, EncMessage;
    DecodedIsEncodable(fields, w, dest);
    MessageRoundTrip(fields, DecMessage(fields, w, dest).slots, other);
  }
}
