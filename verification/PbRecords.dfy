/** Record order and unknown records do not change what pb_decode yields. */
module PbRecords {
  import opened PbBytes
  import opened PbWire
  import opened PbTypes
  import opened PbEncodeSpec
  import opened PbDecodeSpec

  // ---------------------------------------------------------------- decoding is local

  lemma Varint32Extend(w: seq<byte>, z: seq<byte>)
    requires Varint32(w).Ok?
    ensures Varint32(w + z) == Ok(Varint32(w).value, Varint32(w).rest + z)
  {
    GroupsExtend(5, w, z);
  }

  lemma Varint64Extend(w: seq<byte>, z: seq<byte>)
    requires Varint64(w).Ok?
    ensures Varint64(w + z) == Ok(Varint64(w).value, Varint64(w).rest + z)
  {
    GroupsExtend(10, w, z);
  }

  lemma TagExtend(w: seq<byte>, z: seq<byte>)
    requires DecTag(w).Record?
    ensures DecTag(w + z) == Record(DecTag(w).tag, DecTag(w).wt, DecTag(w).rest + z)
  {
    Varint32Extend(w, z);
  }

  lemma {:induction false} SkipVarintExtend(w: seq<byte>, z: seq<byte>)
    requires SkipVarint(w).Ok?
    ensures SkipVarint(w + z) == Ok((), SkipVarint(w).rest + z)
  {
    assert (w + z)[1..] == w[1..] + z;
    if w[0] >= 128 { SkipVarintExtend(w[1..], z); }
  }

  lemma SkipFieldExtend(wt: nat, w: seq<byte>, z: seq<byte>)
    requires SkipField(wt, w).Ok?
    ensures SkipField(wt, w + z) == Ok((), SkipField(wt, w).rest + z)
  {
    if wt == WT_VARINT { SkipVarintExtend(w, z); }
    else if wt == WT_STRING { Varint32Extend(w, z); }
  }

  lemma ScalarExtend(f: Field, w: seq<byte>, z: seq<byte>)
    requires !f.ltype.SubT? && DecScalar(f, w).Ok?
    ensures DecScalar(f, w + z) == Ok(DecScalar(f, w).value, DecScalar(f, w).rest + z)
  {
    match f.ltype {
      case Fix32T => assert (w + z)[..4] == w[..4];
      case Fix64T => assert (w + z)[..8] == w[..8];
      case BytesT => BlobExtend(w, z);
      case StringT => BlobExtend(w, z);
      case _ => Varint64Extend(w, z);
    }
  }

  lemma BlobExtend(w: seq<byte>, z: seq<byte>)
    requires Varint32(w).Ok? && Varint32(w).value <= |Varint32(w).rest|
    ensures Varint32(w + z) == Ok(Varint32(w).value, Varint32(w).rest + z)
    ensures var n, rest := Varint32(w).value, Varint32(w).rest;
      (rest + z)[..n] == rest[..n] && (rest + z)[n..] == rest[n..] + z
  {
    Varint32Extend(w, z);
  }

  lemma SubWindowExtend(w: seq<byte>, z: seq<byte>)
    requires SubWindow(w, |w|).Split?
    ensures var s := SubWindow(w, |w|);
      SubWindow(w + z, |w + z|) == Split(s.inner, s.after + z, s.left + |z|)
  {
    BlobExtend(w, z);
  }

  lemma ScalarItemExtend(f: Field, w: seq<byte>, z: seq<byte>, prior: Value)
    requires FieldOk(f) && !f.ltype.SubT? && DecItem(f, w, |w|, prior).GoodItem?
    ensures var r := DecItem(f, w, |w|, prior);
      DecItem(f, w + z, |w + z|, prior) == GoodItem(r.value, r.tape + z, r.left + |z|, true)
  {
    ScalarExtend(f, w, z);
  }

  /** A nested message depends on its own window and on what follows it. */
  lemma NestedItem(f: Field, t: seq<byte>, n: nat, prior: Value, s: Split, o: Outcome)
    requires FieldOk(f) && f.ltype.SubT? && n <= |t|
    requires !f.htype.Oneof? ==> ValueShaped(f, prior)
    requires s.Split? && SubWindow(t, n) == s
    requires o == DecLoop(f.ltype.fields, s.inner, |s.inner|, SubStart(f, prior), {})
    ensures DecItem(f, t, n, prior) ==
      if o.Bad? then BadItem(o.tape + s.after, s.left)
      else GoodItem(Msg(o.slots), o.tape + s.after, s.left, o.drained && o.left == 0)
  {
    hide DecLoop, SubWindow, SubStart;
  }

  lemma NestedSplits(f: Field, t: seq<byte>, n: nat, prior: Value)
    requires FieldOk(f) && f.ltype.SubT? && n <= |t|
    requires !f.htype.Oneof? ==> ValueShaped(f, prior)
    requires DecItem(f, t, n, prior).GoodItem?
    ensures SubWindow(t, n).Split?
  {
    hide DecLoop, SubWindow, SubStart;
  }

  lemma NestedExtend(f: Field, w: seq<byte>, z: seq<byte>, prior: Value)
    requires FieldOk(f) && f.ltype.SubT?
    requires !f.htype.Oneof? ==> ValueShaped(f, prior)
    requires DecItem(f, w, |w|, prior).GoodItem? && DecItem(f, w, |w|, prior).drained
    ensures var r := DecItem(f, w, |w|, prior);
      DecItem(f, w + z, |w + z|, prior) == GoodItem(r.value, r.tape + z, r.left + |z|, true)
  {
    hide DecItem, DecLoop, SubWindow, SubStart;
    NestedSplits(f, w, |w|, prior);
    var s := SubWindow(w, |w|);
    SubWindowExtend(w, z);
    var o := DecLoop(f.ltype.fields, s.inner, |s.inner|, SubStart(f, prior), {});
    NestedItem(f, w, |w|, prior, s, o);
    NestedItem(f, w + z, |w + z|, prior, Split(s.inner, s.after + z, s.left + |z|), o);
    assert o.tape + s.after + z == o.tape + (s.after + z);
  }

  /** A value whose windows were all used up decodes the same whatever follows it. */
  lemma ItemExtend(f: Field, w: seq<byte>, z: seq<byte>, prior: Value)
    requires FieldOk(f)
    requires f.ltype.SubT? && !f.htype.Oneof? ==> ValueShaped(f, prior)
    requires DecItem(f, w, |w|, prior).GoodItem? && DecItem(f, w, |w|, prior).drained
    ensures var r := DecItem(f, w, |w|, prior);
      DecItem(f, w + z, |w + z|, prior) == GoodItem(r.value, r.tape + z, r.left + |z|, true)
  {
    if f.ltype.SubT? { NestedExtend(f, w, z, prior); } else { ScalarItemExtend(f, w, z, prior); }
  }

  lemma SlotExtend(f: Field, wt: nat, w: seq<byte>, z: seq<byte>, s: Slot)
    requires FieldOk(f) && SlotShaped(f, s)
    requires DecSlot(f, wt, w, |w|, s).Put? && DecSlot(f, wt, w, |w|, s).drained
    ensures var r := DecSlot(f, wt, w, |w|, s);
      DecSlot(f, wt, w + z, |w + z|, s) == Put(r.slot, r.tape + z, r.left + |z|, true)
  {
    if f.htype.Repeated? && wt == WT_STRING && Packable(f) { SubWindowExtend(w, z); }
    else { ItemExtend(f, w, z, s.items[if f.htype.Repeated? then s.size else 0]); }
  }

  // ---------------------------------------------------------------- whole records

  /** Decoder memory between two records. */
  datatype State = State(slots: seq<Slot>, seen: set<nat>)

  ghost predicate StateOk(fields: seq<Field>, st: State) {
    Descriptor(fields) && Shaped(fields, st.slots)
  }

  /** The decode loop on a window that ends with the tape. */
  ghost function Loop(fields: seq<Field>, t: seq<byte>, st: State): Outcome
    requires StateOk(fields, st)
  {
    DecLoop(fields, t, |t|, st.slots, st.seen)
  }

  /** The effect of a byte string that is exactly one record, with every window used up. */
  ghost function RunRecord(fields: seq<Field>, r: seq<byte>, st: State): (o: Option<State>)
    requires StateOk(fields, st)
    ensures o.Some? ==> StateOk(fields, o.value)
  {
    match DecTag(r)
    case Record(tag, wt, body) =>
      (match IndexOf(fields, tag)
       case None =>
         if IsUnknown(fields, r) then Some(st) else None
       case Some(i) =>
         var j := SlotOf(fields, i);
         match DecSlot(fields[i], wt, body, |body|, At(fields, st.slots, i))
         case Put(s, tape, left, d) =>
           if tape == [] && d then
             ShapedUpdate(fields, st.slots, i, s);
             Some(State(st.slots[j := s], st.seen + {i}))
           else None
         case BadSlot(_, _) => None)
    case _ => None
  }

  /** One well-formed record whose field number the descriptor does not list. */
  ghost predicate IsUnknown(fields: seq<Field>, u: seq<byte>) {
    match DecTag(u)
    case Record(tag, wt, body) =>
      && IndexOf(fields, tag).None? && !(fields == [] && tag == 0)
      && SkipField(wt, body) == Ok((), [])
    case _ => false
  }

  lemma UnknownThenRest(fields: seq<Field>, r: seq<byte>, z: seq<byte>, st: State)
    requires StateOk(fields, st) && IsUnknown(fields, r)
    ensures Loop(fields, r + z, st) == Loop(fields, z, st)
  {
    var t := DecTag(r);
    TagExtend(r, z);
    SkipFieldExtend(t.wt, t.rest, z);
    assert [] + z == z;
  }

  lemma KnownThenRest(fields: seq<Field>, r: seq<byte>, z: seq<byte>, st: State, i: nat)
    requires StateOk(fields, st) && RunRecord(fields, r, st).Some?
    requires DecTag(r).Record? && IndexOf(fields, DecTag(r).tag) == Some(i)
    ensures var st' := RunRecord(fields, r, st).value;
      Loop(fields, r + z, st) == Loop(fields, z, st')
  {
    hide DecSlot, DecTag;
    var t := DecTag(r);
    TagExtend(r, z);
    assert FieldOk(fields[i]) && SlotShaped(fields[i], At(fields, st.slots, i));
    SlotExtend(fields[i], t.wt, t.rest, z, At(fields, st.slots, i));
    assert [] + z == z;
  }

  lemma RecordThenRest(fields: seq<Field>, r: seq<byte>, z: seq<byte>, st: State)
    requires StateOk(fields, st) && RunRecord(fields, r, st).Some?
    ensures var st' := RunRecord(fields, r, st).value;
      Loop(fields, r + z, st) == Loop(fields, z, st')
  {
    hide DecLoop, DecSlot;
    match IndexOf(fields, DecTag(r).tag) {
      case None => UnknownThenRest(fields, r, z, st);
      case Some(i) => KnownThenRest(fields, r, z, st, i);
    }
  }

  function Joined(rs: seq<seq<byte>>): seq<byte> {
    if rs == [] then [] else rs[0] + Joined(rs[1..])
  }

  ghost function RunRecords(fields: seq<Field>, rs: seq<seq<byte>>, st: State): (o: Option<State>)
    requires StateOk(fields, st)
    ensures o.Some? ==> StateOk(fields, o.value)
  {
    if rs == [] then Some(st)
    else
      var o := RunRecord(fields, rs[0], st);
      if o.None? then None else RunRecords(fields, rs[1..], o.value)
  }

  lemma {:induction false} RecordsThenRest(fields: seq<Field>, rs: seq<seq<byte>>, z: seq<byte>, st: State)
    requires StateOk(fields, st) && RunRecords(fields, rs, st).Some?
    ensures var st' := RunRecords(fields, rs, st).value;
      Loop(fields, Joined(rs) + z, st) == Loop(fields, z, st')
  {
    if rs == [] {
      assert Joined(rs) + z == z;
    } else {
      assert Joined(rs) + z == rs[0] + (Joined(rs[1..]) + z);
      RecordThenRest(fields, rs[0], Joined(rs[1..]) + z, st);
      RecordsThenRest(fields, rs[1..], z, RunRecord(fields, rs[0], st).value);
    }
  }

  ghost function Start(fields: seq<Field>, dest: seq<Slot>): (st: State)
    requires Descriptor(fields) && Shaped(fields, dest)
    ensures StateOk(fields, st)
  {
    DefaultsShaped(fields, dest);
    State(Defaults(fields, dest), {})
  }

  // ---------------------------------------------------------------- unknown records

  /** A well-formed unknown record anywhere between records changes nothing, whatever state the decoder
      is in: not the outcome, not the message, not what is left of the input. */
  lemma UnknownRecordPassed(fields: seq<Field>, before: seq<seq<byte>>, u: seq<byte>, after: seq<byte>, st: State)
    requires StateOk(fields, st) && RunRecords(fields, before, st).Some? && IsUnknown(fields, u)
    ensures Loop(fields, Joined(before) + (u + after), st) == Loop(fields, Joined(before) + after, st)
  {
    var st' := RunRecords(fields, before, st).value;
    RecordsThenRest(fields, before, u + after, st);
    RecordsThenRest(fields, before, after, st);
    RecordThenRest(fields, u, after, st');
  }

  /** So a message decodes the same with the record and without it. */
  lemma UnknownRecordIgnored(fields: seq<Field>, before: seq<seq<byte>>, u: seq<byte>, after: seq<byte>,
                             dest: seq<Slot>)
    requires Descriptor(fields) && Shaped(fields, dest)
    requires RunRecords(fields, before, Start(fields, dest)).Some?
    requires IsUnknown(fields, u)
    ensures DecMessage(fields, Joined(before) + (u + after), dest) == DecMessage(fields, Joined(before) + after, dest)
  {
    UnknownRecordPassed(fields, before, u, after, Start(fields, dest));
  }

  // ---------------------------------------------------------------- record order

  /** Different fields that do not share a oneof; unknown records are independent of all. */
  ghost predicate Independent(fields: seq<Field>, r1: seq<byte>, r2: seq<byte>) {
    && DecTag(r1).Record? && DecTag(r2).Record?
    && var i1, i2 := IndexOf(fields, DecTag(r1).tag), IndexOf(fields, DecTag(r2).tag);
       i1.Some? && i2.Some? ==> SlotOf(fields, i1.value) != SlotOf(fields, i2.value)
  }

  /** A record reads and writes the slot of its own field only. */
  lemma KnownRecordFrame(fields: seq<Field>, r: seq<byte>, i: nat, st: State, st2: State)
    requires StateOk(fields, st) && StateOk(fields, st2)
    requires DecTag(r).Record? && IndexOf(fields, DecTag(r).tag) == Some(i)
    requires RunRecord(fields, r, st).Some?
    requires At(fields, st.slots, i) == At(fields, st2.slots, i)
    ensures var j := SlotOf(fields, i);
      && var s := RunRecord(fields, r, st).value.slots[j];
      && RunRecord(fields, r, st) == Some(State(st.slots[j := s], st.seen + {i}))
      && RunRecord(fields, r, st2) == Some(State(st2.slots[j := s], st2.seen + {i}))
  {}

  lemma UnknownRecordFrame(fields: seq<Field>, r: seq<byte>, st: State)
    requires StateOk(fields, st) && RunRecord(fields, r, st).Some?
    requires DecTag(r).Record? && IndexOf(fields, DecTag(r).tag).None?
    ensures forall st2 :: StateOk(fields, st2) ==> RunRecord(fields, r, st2) == Some(st2)
  {}

  /** Two records in a row. */
  ghost function RunTwo(fields: seq<Field>, r1: seq<byte>, r2: seq<byte>, st: State): (o: Option<State>)
    requires StateOk(fields, st)
    ensures o.Some? ==> StateOk(fields, o.value)
  {
    var o := RunRecord(fields, r1, st);
    if o.None? then None else RunRecord(fields, r2, o.value)
  }

  lemma RecordsCommute(fields: seq<Field>, r1: seq<byte>, r2: seq<byte>, st: State)
    requires StateOk(fields, st) && Independent(fields, r1, r2)
    requires RunTwo(fields, r1, r2, st).Some?
    ensures RunTwo(fields, r2, r1, st) == RunTwo(fields, r1, r2, st)
  {
    var i1, i2 := IndexOf(fields, DecTag(r1).tag), IndexOf(fields, DecTag(r2).tag);
    var a := RunRecord(fields, r1, st).value;
    if i1.None? {
      UnknownRecordFrame(fields, r1, st);
    } else if i2.None? {
      UnknownRecordFrame(fields, r2, a);
    } else {
      KnownRecordFrame(fields, r1, i1.value, st, st);
      KnownRecordFrame(fields, r2, i2.value, a, st);
      var b := RunRecord(fields, r2, st).value;
      KnownRecordFrame(fields, r1, i1.value, st, b);
      var j1, j2 := SlotOf(fields, i1.value), SlotOf(fields, i2.value);
      var s1, s2 := a.slots[j1], b.slots[j2];
      assert st.slots[j1 := s1][j2 := s2] == st.slots[j2 := s2][j1 := s1];
      assert st.seen + {i1.value} + {i2.value} == st.seen + {i2.value} + {i1.value};
    }
  }

  /** Swapping two adjacent whole records of different fields leaves the decode unchanged, whatever
      state the decoder is in. */
  lemma RecordsSwapped(fields: seq<Field>, before: seq<seq<byte>>, r1: seq<byte>, r2: seq<byte>,
                       after: seq<byte>, st: State)
    requires StateOk(fields, st) && Independent(fields, r1, r2)
    requires RunRecords(fields, before, st).Some?
    requires RunTwo(fields, r1, r2, RunRecords(fields, before, st).value).Some?
    ensures Loop(fields, Joined(before) + (r1 + (r2 + after)), st)
         == Loop(fields, Joined(before) + (r2 + (r1 + after)), st)
  {
    var st' := RunRecords(fields, before, st).value;
    RecordsThenRest(fields, before, r1 + (r2 + after), st);
    RecordsThenRest(fields, before, r2 + (r1 + after), st);
    RecordsCommute(fields, r1, r2, st');
    TwoThenRest(fields, r1, r2, after, st');
    TwoThenRest(fields, r2, r1, after, st');
  }

  /** So a message decodes the same with the records in either order. */
  lemma RecordOrderIgnored(fields: seq<Field>, before: seq<seq<byte>>, r1: seq<byte>, r2: seq<byte>,
                           after: seq<byte>, dest: seq<Slot>)
    requires Descriptor(fields) && Shaped(fields, dest) && Independent(fields, r1, r2)
    requires RunRecords(fields, before, Start(fields, dest)).Some?
    requires RunTwo(fields, r1, r2, RunRecords(fields, before, Start(fields, dest)).value).Some?
    ensures DecMessage(fields, Joined(before) + (r1 + (r2 + after)), dest)
         == DecMessage(fields, Joined(before) + (r2 + (r1 + after)), dest)
  {
    RecordsSwapped(fields, before, r1, r2, after, Start(fields, dest));
  }

  lemma TwoThenRest(fields: seq<Field>, r1: seq<byte>, r2: seq<byte>, z: seq<byte>, st: State)
    requires StateOk(fields, st) && RunTwo(fields, r1, r2, st).Some?
    ensures var st' := RunTwo(fields, r1, r2, st).value;
      Loop(fields, r1 + (r2 + z), st) == Loop(fields, z, st')
  {
    RecordThenRest(fields, r1, r2 + z, st);
    RecordThenRest(fields, r2, z, RunRecord(fields, r1, st).value);
  }
}
