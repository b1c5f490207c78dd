/** What a decode does, told record by record: which fields must be there, what ends a message, what makes
    it fail, and which of two values stays. */
module PbDecodeLaws {
  import opened Division
  import opened PbBytes
  import opened PbWire
  import opened PbTypes
  import opened PbEncodeSpec
  import opened PbDecodeSpec
  import opened PbRecords
  import PbRoundTrip
  import PbEncodeLaws

  // ---------------------------------------------------------------- required fields

  /** The record `r` starts with the key of field number `tag`. */
  ghost predicate HasTag(r: seq<byte>, tag: nat) {
    Varint32(r).Ok? && Varint32(r).value / 8 == tag
  }

  ghost predicate SomeHas(rs: seq<seq<byte>>, tag: nat) {
    exists k :: 0 <= k < |rs| && HasTag(rs[k], tag)
  }

  lemma SomeHasCons(rs: seq<seq<byte>>, tag: nat)
    requires rs != []
    ensures SomeHas(rs, tag) <==> HasTag(rs[0], tag) || SomeHas(rs[1..], tag)
  {
    if k :| 0 <= k < |rs| && HasTag(rs[k], tag) {
      if k > 0 { assert HasTag(rs[1..][k - 1], tag); }
    }
    if k :| 0 <= k < |rs[1..]| && HasTag(rs[1..][k], tag) { assert HasTag(rs[k + 1], tag); }
  }

  ghost predicate Complete(fields: seq<Field>, rs: seq<seq<byte>>, seen: set<nat>) {
    forall i :: 0 <= i < |fields| && fields[i].htype.Required? ==> i in seen || SomeHas(rs, fields[i].tag)
  }

  /** What one record adds to the fields seen. */
  lemma RecordSees(fields: seq<Field>, r: seq<byte>, st: State, i: nat)
    requires StateOk(fields, st) && RunRecord(fields, r, st).Some? && i < |fields|
    ensures i in RunRecord(fields, r, st).value.seen <==> i in st.seen || HasTag(r, fields[i].tag)
  {
    hide DecSlot, SkipField, Shaped, Groups;
    assert FieldOk(fields[i]);
    IndexOfTag(fields, i);
  }

  lemma {:induction false} RecordsComplete(fields: seq<Field>, rs: seq<seq<byte>>, st: State)
    requires StateOk(fields, st) && RunRecords(fields, rs, st).Some?
    ensures var o := Loop(fields, Joined(rs), st);
      && (o.Good? <==> Complete(fields, rs, st.seen))
      && o.tape == [] && o.left == 0
      && (o.Good? ==> o.slots == RunRecords(fields, rs, st).value.slots)
    decreases |rs|
  {
    if rs == [] {
      assert Loop(fields, [], st) == Finish(fields, st.slots, [], 0, st.seen);
      NoneHas(fields, st.seen);
    } else {
      hide Loop, RunRecord, Complete;
      var st' := RunRecord(fields, rs[0], st).value;
      RecordThenRest(fields, rs[0], Joined(rs[1..]), st);
      RecordsComplete(fields, rs[1..], st');
      CompleteCons(fields, rs, st);
    }
  }

  lemma NoneHas(fields: seq<Field>, seen: set<nat>)
    ensures Complete(fields, [], seen) <==> AllRequired(fields, seen)
  {}

  lemma CompleteCons(fields: seq<Field>, rs: seq<seq<byte>>, st: State)
    requires rs != [] && StateOk(fields, st) && RunRecord(fields, rs[0], st).Some?
    ensures Complete(fields, rs, st.seen) <==> Complete(fields, rs[1..], RunRecord(fields, rs[0], st).value.seen)
  {
    hide RunRecord, SomeHas, HasTag, StateOk;
    forall i | 0 <= i < |fields|
      ensures i in st.seen || SomeHas(rs, fields[i].tag)
         <==> i in RunRecord(fields, rs[0], st).value.seen || SomeHas(rs[1..], fields[i].tag)
    {
      RecordSees(fields, rs[0], st, i);
      SomeHasCons(rs, fields[i].tag);
    }
  }

  /** A message of whole records decodes exactly when every required field has a record, and then to what
      the records made of the defaults. */
  lemma RequiredDecides(fields: seq<Field>, rs: seq<seq<byte>>, dest: seq<Slot>)
    requires Descriptor(fields) && Shaped(fields, dest)
    requires RunRecords(fields, rs, Start(fields, dest)).Some?
    ensures var o := DecMessage(fields, Joined(rs), dest);
      && (o.Good? <==> forall i :: 0 <= i < |fields| && fields[i].htype.Required? ==>
            exists k :: 0 <= k < |rs| && Varint32(rs[k]).Ok? && Varint32(rs[k]).value / 8 == fields[i].tag)
      && o.tape == [] && o.left == 0
      && (o.Good? ==> o.slots == RunRecords(fields, rs, Start(fields, dest)).value.slots)
  {
    hide DecLoop, RunRecords;
    RecordsComplete(fields, rs, Start(fields, dest));
    forall i | 0 <= i < |fields|
      ensures SomeHas(rs, fields[i].tag)
         <==> exists k :: 0 <= k < |rs| && Varint32(rs[k]).Ok? && Varint32(rs[k]).value / 8 == fields[i].tag
    {
      if k :| 0 <= k < |rs| && Varint32(rs[k]).Ok? && Varint32(rs[k]).value / 8 == fields[i].tag {
        assert HasTag(rs[k], fields[i].tag);
      }
      if k :| 0 <= k < |rs| && HasTag(rs[k], fields[i].tag) {}
    }
  }

  // ---------------------------------------------------------------- what ends a message

  lemma {:induction false} AllMarked(limit: nat, w: seq<byte>, z: seq<byte>)
    requires forall k :: 0 <= k < |w| ==> w[k] >= 128
    requires |w| <= limit && (|w| == limit || z == [])
    ensures Groups(limit, w + z) == Fail(z)
  {
    if w != [] {
      assert (w + z)[1..] == w[1..] + z;
      AllMarked(limit - 1, w[1..], z);
    } else {
      assert w + z == z;
    }
  }

  /** A zero byte where a key is due ends the message; the rest stays unread. */
  lemma ZeroEnds(fields: seq<Field>, rs: seq<seq<byte>>, z: seq<byte>, dest: seq<Slot>)
    requires Descriptor(fields) && Shaped(fields, dest)
    requires RunRecords(fields, rs, Start(fields, dest)).Some?
    ensures var o, p := DecMessage(fields, Joined(rs) + ([0] + z), dest), DecMessage(fields, Joined(rs), dest);
      && (o.Good? <==> p.Good?) && (o.Good? ==> o.slots == p.slots)
      && o.tape == z && o.left == |z|
  {
    hide DecMessage, RunRecords, DecTag;
    ZeroTag(z);
    EndsWith(fields, rs, [0] + z, z, dest);
  }

  lemma ZeroTag(z: seq<byte>)
    ensures DecTag([0] + z) == EndOfMessage(z)
  {
    assert ([0] + z)[1..] == z;
  }

  /** So does a key that breaks off at the end of the input. */
  lemma CutKeyEnds(fields: seq<Field>, rs: seq<seq<byte>>, w: seq<byte>, dest: seq<Slot>)
    requires Descriptor(fields) && Shaped(fields, dest)
    requires RunRecords(fields, rs, Start(fields, dest)).Some?
    requires 1 <= |w| <= 5 && forall k :: 0 <= k < |w| ==> w[k] >= 128
    ensures var o, p := DecMessage(fields, Joined(rs) + w, dest), DecMessage(fields, Joined(rs), dest);
      && (o.Good? <==> p.Good?) && (o.Good? ==> o.slots == p.slots)
      && o.tape == [] && o.left == 0
  {
    hide DecMessage, RunRecords;
    AllMarked(5, w, []);
    assert w + [] == w;
    EndsWith(fields, rs, w, [], dest);
  }

  lemma EndsWith(fields: seq<Field>, rs: seq<seq<byte>>, w: seq<byte>, z: seq<byte>, dest: seq<Slot>)
    requires Descriptor(fields) && Shaped(fields, dest)
    requires RunRecords(fields, rs, Start(fields, dest)).Some?
    requires w != [] && DecTag(w) == EndOfMessage(z)
    ensures var o, p := DecMessage(fields, Joined(rs) + w, dest), DecMessage(fields, Joined(rs), dest);
      && (o.Good? <==> p.Good?) && (o.Good? ==> o.slots == p.slots)
      && o.tape == z && o.left == |z|
  {
    hide RunRecords, DecTag, Groups;
    var st := Start(fields, dest);
    var st' := RunRecords(fields, rs, st).value;
    RecordsThenRest(fields, rs, w, st);
    RecordsThenRest(fields, rs, [], st);
    assert Joined(rs) + [] == Joined(rs);
    LoopEnd(fields, w, z, st');
  }

  lemma LoopEnd(fields: seq<Field>, w: seq<byte>, z: seq<byte>, st: State)
    requires StateOk(fields, st) && w != [] && DecTag(w) == EndOfMessage(z)
    ensures Loop(fields, w, st) == Finish(fields, st.slots, z, |z|, st.seen)
    ensures Loop(fields, [], st) == Finish(fields, st.slots, [], 0, st.seen)
  {
    hide DecTag, Finish, DecSlot;
  }

  // ---------------------------------------------------------------- what makes it fail

  lemma FailsAt(fields: seq<Field>, rs: seq<seq<byte>>, w: seq<byte>, dest: seq<Slot>)
    requires Descriptor(fields) && Shaped(fields, dest)
    requires RunRecords(fields, rs, Start(fields, dest)).Some?
    requires forall st :: StateOk(fields, st) ==> Loop(fields, w, st).Bad?
    ensures DecMessage(fields, Joined(rs) + w, dest).Bad?
  {
    hide RunRecords, Loop;
    RecordsThenRest(fields, rs, w, Start(fields, dest));
    assert DecMessage(fields, Joined(rs) + w, dest) == Loop(fields, Joined(rs) + w, Start(fields, dest)) by {
      hide DecLoop;
      MessageIsLoop(fields, Joined(rs) + w, dest);
    }
  }

  lemma MessageIsLoop(fields: seq<Field>, w: seq<byte>, dest: seq<Slot>)
    requires Descriptor(fields) && Shaped(fields, dest)
    ensures DecMessage(fields, w, dest) == Loop(fields, w, Start(fields, dest))
  {
    hide DecLoop;
  }

  /** A key of more than five bytes fails the decode. */
  lemma LongKeyFails(fields: seq<Field>, rs: seq<seq<byte>>, w: seq<byte>, z: seq<byte>, dest: seq<Slot>)
    requires Descriptor(fields) && Shaped(fields, dest)
    requires RunRecords(fields, rs, Start(fields, dest)).Some?
    requires |w| == 5 && z != [] && forall k :: 0 <= k < |w| ==> w[k] >= 128
    ensures DecMessage(fields, Joined(rs) + (w + z), dest).Bad?
  {
    AllMarked(5, w, z);
    forall st | StateOk(fields, st) ensures Loop(fields, w + z, st).Bad? { BadTagFails(fields, w + z, st); }
    FailsAt(fields, rs, w + z, dest);
  }

  lemma BadTagFails(fields: seq<Field>, w: seq<byte>, st: State)
    requires StateOk(fields, st) && w != [] && DecTag(w).BadTag?
    ensures Loop(fields, w, st).Bad?
  {
    hide DecTag, DecSlot;
  }

  lemma BadValueFails(fields: seq<Field>, tag: nat, wt: nat, body: seq<byte>, st: State)
    requires StateOk(fields, st) && 1 <= tag <= PB_SIZE_MAX && wt < 8
    requires IndexOf(fields, tag).None? && SkipField(wt, body).Fail?
    ensures Loop(fields, VarintBytes(8 * tag + wt) + body, st).Bad?
  {
    hide DecSlot, SkipField, Shaped, VarintBytes, Varint32;
    PbRoundTrip.VarintWithin32(8 * tag + wt, body);
  }

  lemma Unlisted(fields: seq<Field>, tag: nat)
    requires forall i :: 0 <= i < |fields| ==> fields[i].tag != tag
    ensures IndexOf(fields, tag).None?
  {}

  /** What cannot be read behind a key that ends in `wt`: anything for 3, 4, 6 and 7; a varint, eight bytes,
      a length and its bytes, or four bytes that break off. */
  ghost predicate Unreadable(wt: nat, body: seq<byte>) {
    || wt in {3, 4, 6, 7}
    || (wt == 0 && forall k :: 0 <= k < |body| ==> body[k] >= 128)
    || (wt == 1 && |body| < 8)
    || (wt == 2 && exists n: nat {:trigger VarintBytes(n)} ::
          n < 0x1_0000_0000 && VarintBytes(n) <= body && |body| - |VarintBytes(n)| < n)
    || (wt == 5 && |body| < 4)
  }

  /** A field nobody lists must still be readable. */
  lemma UnreadableFails(fields: seq<Field>, rs: seq<seq<byte>>, tag: nat, wt: nat, body: seq<byte>, dest: seq<Slot>)
    requires Descriptor(fields) && Shaped(fields, dest)
    requires RunRecords(fields, rs, Start(fields, dest)).Some?
    requires 1 <= tag <= PB_SIZE_MAX && forall i :: 0 <= i < |fields| ==> fields[i].tag != tag
    requires Unreadable(wt, body)
    ensures DecMessage(fields, Joined(rs) + (VarintBytes(8 * tag + wt) + body), dest).Bad?
  {
    hide DecMessage, RunRecords, SkipField, VarintBytes, Descriptor, Shaped;
    Unlisted(fields, tag);
    SkipRefuses(wt, body);
    BodyFails(fields, rs, tag, wt, body, dest);
  }

  lemma SkipRefuses(wt: nat, body: seq<byte>)
    requires Unreadable(wt, body)
    ensures wt < 8 && SkipField(wt, body).Fail?
  {
    hide VarintBytes, Varint32;
    if wt == 0 {
      CutVarint(body);
    } else if wt == 2 {
      var n: nat :| n < 0x1_0000_0000 && VarintBytes(n) <= body && |body| - |VarintBytes(n)| < n;
      var b := body[|VarintBytes(n)|..];
      assert body == VarintBytes(n) + b;
      PbRoundTrip.VarintWithin32(n, b);
    }
  }

  lemma BodyFails(fields: seq<Field>, rs: seq<seq<byte>>, tag: nat, wt: nat, b: seq<byte>, dest: seq<Slot>)
    requires Descriptor(fields) && Shaped(fields, dest)
    requires RunRecords(fields, rs, Start(fields, dest)).Some?
    requires 1 <= tag <= PB_SIZE_MAX && IndexOf(fields, tag).None? && wt < 8 && SkipField(wt, b).Fail?
    ensures DecMessage(fields, Joined(rs) + (VarintBytes(8 * tag + wt) + b), dest).Bad?
  {
    hide RunRecords, Loop, SkipField;
    var w := VarintBytes(8 * tag + wt) + b;
    forall st | StateOk(fields, st) ensures Loop(fields, w, st).Bad? { BadValueFails(fields, tag, wt, b, st); }
    FailsAt(fields, rs, w, dest);
  }

  lemma {:induction false} CutVarint(b: seq<byte>)
    requires forall k :: 0 <= k < |b| ==> b[k] >= 128
    ensures SkipVarint(b) == Fail([])
  {
    if b != [] { CutVarint(b[1..]); }
  }

  // ---------------------------------------------------------------- varints of any length

  /** Seven bits of each byte, the first ones lowest. */
  function Base128(w: seq<byte>): nat {
    if w == [] then 0 else Base128(w[..|w| - 1]) + w[|w| - 1] % 128 * Pow128(|w| - 1)
  }

  lemma {:induction false} Base128Front(a: byte, w: seq<byte>)
    ensures Base128([a] + w) == a % 128 + 128 * Base128(w)
  {
    var all := [a] + w;
    if w == [] {
      assert all[..0] == [] && Pow128(0) == 1;
    } else {
      var k := |w| - 1;
      assert all[..|all| - 1] == [a] + w[..k];
      Base128Front(a, w[..k]);
      Scaled(w[k] % 128, Pow128(k));
    }
  }

  lemma Scaled(d: int, p: int)
    ensures d * (128 * p) == 128 * (d * p)
  {}

  lemma {:induction false} GroupsMean(limit: nat, w: seq<byte>, z: seq<byte>)
    requires 1 <= |w| <= limit && w[|w| - 1] < 128 && forall k :: 0 <= k < |w| - 1 ==> w[k] >= 128
    ensures Groups(limit, w + z) == Ok(Base128(w), z)
  {
    hide Base128;
    assert w == [w[0]] + w[1..];
    Base128Front(w[0], w[1..]);
    if |w| == 1 {
      assert (w + z)[1..] == z;
      NoDigits();
    } else {
      assert (w + z)[1..] == w[1..] + z;
      GroupsMean(limit - 1, w[1..], z);
    }
  }

  lemma NoDigits()
    ensures Base128([]) == 0
  {}

  /** Any varint of at most ten bytes is read, padded ones too, modulo 2^64; of at most five by the 32-bit
      decoder, modulo 2^32. */
  lemma VarintMeans(w: seq<byte>, z: seq<byte>)
    requires w != [] && w[|w| - 1] < 128 && forall k :: 0 <= k < |w| - 1 ==> w[k] >= 128
    ensures |w| <= 10 ==> Varint64(w + z) == Ok(Base128(w) % 0x1_0000_0000_0000_0000, z)
    ensures |w| <= 5 ==> Varint32(w + z) == Ok(Base128(w) % 0x1_0000_0000, z)
  {
    hide Groups, Base128;
    if |w| <= 10 { GroupsMean(10, w, z); }
    if |w| <= 5 { GroupsMean(5, w, z); }
  }

  /** A longer one is an error behind the tenth byte, or behind the fifth; one that breaks off is an error at
      the end. */
  lemma OverlongFails(w: seq<byte>, z: seq<byte>)
    requires forall k :: 0 <= k < |w| ==> w[k] >= 128
    ensures |w| == 10 || (|w| < 10 && z == []) ==> Varint64(w + z) == Fail(z)
    ensures |w| == 5 || (|w| < 5 && z == []) ==> Varint32(w + z) == Fail(z)
  {
    hide Groups;
    if |w| == 10 || (|w| < 10 && z == []) { AllMarked(10, w, z); }
    if |w| == 5 || (|w| < 5 && z == []) { AllMarked(5, w, z); }
  }

  // ---------------------------------------------------------------- which numbers a field takes

  /** An unsigned field takes exactly the numbers of its width. */
  lemma UnsignedTaken(f: Field, v: nat, z: seq<byte>)
    requires f.ltype.UIntT? && v < TWO64
    ensures DecScalar(f, VarintBytes(v) + z) ==
      if f.dataSize in {1, 2, 4, 8} && v < Pow2(8 * f.dataSize) then Ok(Num(v), z) else Fail(z)
  {
    VarintRoundTrip(v, z);
    if IntWidth(f.dataSize) {
      var m := Pow2(8 * f.dataSize);
      if v < m { ModSmall(v, m); } else { assert v % m < m; }
    }
  }

  /** What a varint means to a signed field: the 64-bit number if the field is that wide, and the lower 32
      bits otherwise. */
  function SignedMeaning(size: nat, v: nat): int {
    if size == 8 then
      if v < 0x8000_0000_0000_0000 then v else v - 0x1_0000_0000_0000_0000
    else
      var low := v % 0x1_0000_0000;
      if low < 0x8000_0000 then low else low - 0x1_0000_0000
  }

  /** A signed field takes exactly the meanings of its width. */
  lemma SignedTaken(f: Field, v: nat, z: seq<byte>)
    requires f.ltype.IntT? && v < TWO64
    ensures var n := SignedMeaning(f.dataSize, v);
      DecScalar(f, VarintBytes(v) + z) ==
      if f.dataSize in {1, 2, 4, 8} && -Pow2(8 * f.dataSize - 1) <= n < Pow2(8 * f.dataSize - 1)
      then Ok(Num(n), z) else Fail(z)
  {
    VarintRoundTrip(v, z);
    if IntWidth(f.dataSize) {
      SignedWord(f.dataSize, v);
      hide ToSigned, Pow2;
      ToSignedInRange(8 * f.dataSize, SignedMeaning(f.dataSize, v));
    }
  }

  lemma SignedWord(size: nat, v: nat)
    requires IntWidth(size) && v < TWO64
    ensures (if size == 8 then ToSigned(64, v) else ToSigned(32, v)) == SignedMeaning(size, v)
  {
    Pow2Widths();
    Pow2Step(63);
    Pow2Step(31);
    hide Pow2;
    if size == 8 { ModSmall(v, TWO64); }
  }

  /** The zigzag meaning of a varint, and the numbers a zigzag field takes. */
  lemma ZigZagTaken(f: Field, v: nat, z: seq<byte>)
    requires f.ltype.SIntT? && v < TWO64
    ensures var n: int := if v % 2 == 0 then v / 2 else -(v / 2) - 1;
      DecScalar(f, VarintBytes(v) + z) ==
      if f.dataSize in {1, 2, 4, 8} && -Pow2(8 * f.dataSize - 1) <= n < Pow2(8 * f.dataSize - 1)
      then Ok(Num(n), z) else Fail(z)
  {
    hide ToSigned, Pow2, UnZigZag, VarintBytes, Varint64;
    VarintRoundTrip(v, z);
    if IntWidth(f.dataSize) {
      ZigZagMeaning(v);
      ToSignedInRange(8 * f.dataSize, UnZigZag(v));
    }
  }

  lemma ZigZagMeaning(v: nat)
    requires v < TWO64
    ensures UnZigZag(v) == if v % 2 == 0 then v / 2 else -(v / 2) - 1
  {
    hide Pow2, ToSigned;
    Pow2Widths();
    Pow2Step(63);
    var half: int := v / 2;
    if v % 2 == 0 { ToSignedInRange(64, half); } else { ToSignedComplement(half); }
  }

  // ---------------------------------------------------------------- sizes and counts

  /** A byte array needs its two-byte size and its bytes within the field, a string its bytes and a NUL; and
      the bytes must be there. */
  lemma BlobTaken(f: Field, b: seq<byte>, z: seq<byte>)
    requires FieldOk(f) && (f.ltype.BytesT? || f.ltype.StringT?) && |b| < TWO32 - 1
    ensures DecScalar(f, VarintBytes(|b|) + b + z) ==
      if f.ltype.BytesT? && |b| + 2 <= f.dataSize then Ok(Data(b), z)
      else if f.ltype.StringT? && |b| + 1 <= f.dataSize then Ok(Text(b), z)
      else Fail(b + z)
  {
    assert VarintBytes(|b|) + b + z == VarintBytes(|b|) + (b + z);
    PbRoundTrip.VarintWithin32(|b|, b + z);
    assert (b + z)[..|b|] == b && (b + z)[|b|..] == z;
    ModSmall(|b| + 1, TWO32);
  }

  lemma BlobCut(f: Field, n: nat, b: seq<byte>)
    requires f.ltype.BytesT? || f.ltype.StringT?
    requires |b| < n < TWO32
    ensures DecScalar(f, VarintBytes(n) + b) == Fail(b)
  {
    PbRoundTrip.VarintWithin32(n, b);
  }

  /** A length that the window cannot hold opens no window. */
  lemma WindowTaken(n: nat, b: seq<byte>)
    requires n < TWO32
    ensures var t := VarintBytes(n) + b;
      SubWindow(t, |t|) == if n <= |b| then Split(b[..n], b[n..], |b| - n) else NoSplit(b, |b|)
  {
    PbRoundTrip.VarintWithin32(n, b);
  }

  /** A full array takes no further item. */
  lemma FullArrayFails(f: Field, wt: nat, t: seq<byte>, n: nat, s: Slot)
    requires FieldOk(f) && f.htype.Repeated? && SlotShaped(f, s) && n <= |t| && s.size >= f.arraySize
    requires wt != 2 || !Packable(f)
    ensures DecSlot(f, wt, t, n, s).BadSlot?
  {}

  /** A packed array with more items than there is room for fails. */
  lemma {:induction false} PackedOverflows(f: Field, us: seq<View>, s: Slot)
    requires FieldOk(f) && Packable(f) && f.htype.Repeated? && SlotShaped(f, s)
    requires forall k :: 0 <= k < |us| ==> PbRoundTrip.Fits(f, us[k])
    requires s.size + |us| > f.arraySize && us != []
    ensures DecPacked(f, PbEncodeLaws.Payloads(f, us), s).PackStops?
    decreases |us|
  {
    hide EncNumber;
    PbRoundTrip.PackableFits(f, us[0]);
    var rest := PbEncodeLaws.Payloads(f, us[1..]);
    PbRoundTrip.NumberRoundTrip(f, us[0].n, rest);
    var w := PbEncodeLaws.Payloads(f, us);
    assert w == EncNumber(f, us[0].n) + rest;
    PbEncodeLaws.PayloadNonempty(f, us);
    if s.size < f.arraySize {
      var s' := Slot(s.size + 1, s.items[s.size := Num(us[0].n)]);
      PbRoundTrip.PackedStep(f, w, s, Num(us[0].n), rest);
      PackedOverflows(f, us[1..], s');
    }
  }

  // ---------------------------------------------------------------- defaults

  /** An empty message without required fields gives every field its default: single items the declared
      one or zero, optional ones marked absent, arrays and oneofs marked empty. */
  lemma EmptyMessage(fields: seq<Field>, dest: seq<Slot>, i: nat)
    requires Descriptor(fields) && Shaped(fields, dest) && i < |fields|
    requires forall k :: 0 <= k < |fields| ==> !fields[k].htype.Required?
    ensures var o := DecMessage(fields, [], dest);
      && o.Good? && o.left == 0 && |o.slots| == |fields|
      && PbTypes.At(fields, o.slots, i).size == 0
      && (fields[i].htype.Optional? && !fields[i].ltype.SubT? ==>
            |o.slots[i].items| == 1 &&
            o.slots[i].items[0] ==
              match fields[i].dflt
              case Some(v) => v
              case None => if fields[i].ltype.BytesT? then Data([]) else if fields[i].ltype.StringT? then Text([]) else Num(0))
  {
    hide DecMessage, Defaults, Shaped;
    EmptyIsDefaults(fields, dest);
    DefaultAt(fields, dest, i);
  }

  lemma EmptyIsDefaults(fields: seq<Field>, dest: seq<Slot>)
    requires Descriptor(fields) && Shaped(fields, dest)
    requires forall k :: 0 <= k < |fields| ==> !fields[k].htype.Required?
    ensures DecMessage(fields, [], dest) == Good(Defaults(fields, dest), [], 0, true)
  {
    hide Defaults, Shaped;
    DefaultsShaped(fields, dest);
    assert DecLoop(fields, [], 0, Defaults(fields, dest), {}) == Finish(fields, Defaults(fields, dest), [], 0, {});
  }

  lemma DefaultAt(fields: seq<Field>, dest: seq<Slot>, i: nat)
    requires Descriptor(fields) && Shaped(fields, dest) && i < |fields| && !fields[i].htype.Required?
    ensures var d := Defaults(fields, dest);
      && PbTypes.At(fields, d, i).size == 0
      && (fields[i].htype.Optional? && !fields[i].ltype.SubT? ==>
            |d[i].items| == 1 &&
            d[i].items[0] ==
              match fields[i].dflt
              case Some(v) => v
              case None => if fields[i].ltype.BytesT? then Data([]) else if fields[i].ltype.StringT? then Text([]) else Num(0))
  {
    hide Descriptor;
    LeaderIsItsOwn(fields, i);
    LeaderOneof(fields, i);
    var j := SlotOf(fields, i);
    assert SlotShaped(fields[i], PbTypes.At(fields, dest, i));
    assert SlotShaped(fields[j], PbTypes.At(fields, dest, j));
    DefaultSlotIs(fields[j], PbTypes.At(fields, dest, j));
    assert Defaults(fields, dest)[j] == DefaultSlot(fields[j], PbTypes.At(fields, dest, j));
  }

  lemma DefaultSlotIs(f: Field, s: Slot)
    requires SlotShaped(f, s) && !f.htype.Required?
    ensures var d := DefaultSlot(f, s);
      && d.size == 0
      && (f.htype.Optional? && !f.ltype.SubT? ==>
            |d.items| == 1 &&
            d.items[0] ==
              match f.dflt
              case Some(v) => v
              case None => if f.ltype.BytesT? then Data([]) else if f.ltype.StringT? then Text([]) else Num(0))
  {}

  lemma LeaderOneof(fields: seq<Field>, i: nat)
    requires i < |fields|
    ensures fields[i].htype.Oneof? ==> fields[SlotOf(fields, i)].htype.Oneof?
    ensures !fields[i].htype.Oneof? ==> SlotOf(fields, i) == i
  {}

  // ---------------------------------------------------------------- which of two values stays

  /** Of two records of one single field that holds no message, the second one counts. */
  lemma LastOneStays(fields: seq<Field>, r1: seq<byte>, r2: seq<byte>, st: State, i: nat)
    requires StateOk(fields, st) && RunTwo(fields, r1, r2, st).Some? && i < |fields|
    requires !fields[i].htype.Repeated? && !fields[i].ltype.SubT?
    requires HasTag(r1, fields[i].tag) && HasTag(r2, fields[i].tag)
    ensures RunRecord(fields, r2, st) == RunTwo(fields, r1, r2, st)
  {
    hide RunRecord, DecSlot, HasTag;
    RecordIs(fields, r1, st, i);
    var a := RunRecord(fields, r1, st).value;
    RecordIs(fields, r2, a, i);
    RecordIs(fields, r2, st, i);
    var t1, t := DecTag(r1), DecTag(r2);
    if fields[i].htype.Required? {
      SlotKeepsSize(fields[i], t1.wt, t1.rest, PbTypes.At(fields, st.slots, i));
    }
    SlotForgets(fields[i], t.wt, t.rest, PbTypes.At(fields, st.slots, i), PbTypes.At(fields, a.slots, i));
    assert st.seen + {i} + {i} == st.seen + {i};
    var j, p := SlotOf(fields, i), DecSlot(fields[i], t.wt, t.rest, |t.rest|, PbTypes.At(fields, a.slots, i));
    if p.Put? { assert a.slots[j := p.slot] == st.slots[j := p.slot]; }
  }

  lemma SlotKeepsSize(f: Field, wt: nat, t: seq<byte>, s: Slot)
    requires FieldOk(f) && SlotShaped(f, s) && f.htype.Required?
    ensures var p := DecSlot(f, wt, t, |t|, s); p.Put? ==> p.slot.size == s.size
  {
    hide DecItem;
  }

  /** A record of field `i`, as what it does to the slot of that field. */
  lemma RecordIs(fields: seq<Field>, r: seq<byte>, st: State, i: nat)
    requires StateOk(fields, st) && i < |fields| && HasTag(r, fields[i].tag)
    ensures |st.slots| == |fields| && FieldOk(fields[i]) && SlotShaped(fields[i], PbTypes.At(fields, st.slots, i))
    ensures DecTag(r).Record?
    ensures var t := DecTag(r);
      var p := DecSlot(fields[i], t.wt, t.rest, |t.rest|, PbTypes.At(fields, st.slots, i));
      RunRecord(fields, r, st) ==
        if p.Put? && p.tape == [] && p.drained
        then Some(State(st.slots[SlotOf(fields, i) := p.slot], st.seen + {i})) else None
  {
    hide DecSlot, Shaped, Groups;
    FieldOfState(fields, st, i);
    IndexOfTag(fields, i);
  }

  lemma FieldOfState(fields: seq<Field>, st: State, i: nat)
    requires StateOk(fields, st) && i < |fields|
    ensures |st.slots| == |fields| && FieldOk(fields[i]) && SlotShaped(fields[i], PbTypes.At(fields, st.slots, i))
    ensures fields[i].tag >= 1
  {
    assert FieldOk(fields[i]);
    assert SlotShaped(fields[i], PbTypes.At(fields, st.slots, i));
  }

  lemma SlotForgets(f: Field, wt: nat, t: seq<byte>, s1: Slot, s2: Slot)
    requires FieldOk(f) && SlotShaped(f, s1) && SlotShaped(f, s2)
    requires !f.htype.Repeated? && !f.ltype.SubT? && (f.htype.Required? ==> s1.size == s2.size)
    ensures DecSlot(f, wt, t, |t|, s1) == DecSlot(f, wt, t, |t|, s2)
  {
    hide DecScalar;
  }

  // ---------------------------------------------------------------- where a value goes

  /** What a stored item makes of a slot: it replaces a single one and sets its flag or the number of the
      union member; it goes behind the items of an array and is counted. */
  ghost function Stored(f: Field, s: Slot, v: Value): Slot
    requires SlotShaped(f, s) && (f.htype.Repeated? ==> s.size < f.arraySize)
  {
    match f.htype
    case Required => Slot(s.size, [v])
    case Optional => Slot(1, [v])
    case Oneof => Slot(f.tag, [v])
    case Repeated => Slot(s.size + 1, s.items[..s.size] + [v] + s.items[s.size + 1..])
  }

  lemma ItemStored(f: Field, wt: nat, body: seq<byte>, s: Slot)
    requires FieldOk(f) && SlotShaped(f, s) && (wt != 2 || !Packable(f) || !f.htype.Repeated?)
    requires f.htype.Repeated? ==> s.size < f.arraySize
    ensures var prior := s.items[if f.htype.Repeated? then s.size else 0];
      && (f.ltype.SubT? && !f.htype.Oneof? ==> ValueShaped(f, prior))
      && var g, p := DecItem(f, body, |body|, prior), DecSlot(f, wt, body, |body|, s);
         if g.BadItem? then p.BadSlot? else p == Put(Stored(f, s, g.value), g.tape, g.left, g.drained)
  {
    hide DecItem, ValueShaped;
    if f.htype.Repeated? {
      assert forall v :: s.items[s.size := v] == s.items[..s.size] + [v] + s.items[s.size + 1..];
    }
  }

  /** A record of a field that holds no message, not packed: it is taken exactly when its value is read to
      the end, and an array has room. */
  lemma ScalarRecord(fields: seq<Field>, i: nat, wt: nat, body: seq<byte>, st: State)
    requires StateOk(fields, st) && i < |fields| && wt < 8 && !fields[i].ltype.SubT?
    requires wt != 2 || !Packable(fields[i]) || !fields[i].htype.Repeated?
    ensures |st.slots| == |fields| && SlotShaped(fields[i], PbTypes.At(fields, st.slots, i))
    ensures var f, j := fields[i], SlotOf(fields, i);
      var s, v := st.slots[j], DecScalar(f, body);
      RunRecord(fields, VarintBytes(8 * f.tag + wt) + body, st) ==
        if v.Ok? && v.rest == [] && (f.htype.Repeated? ==> s.size < f.arraySize)
        then Some(State(st.slots[j := Stored(f, s, v.value)], st.seen + {i})) else None
  {
    hide DecSlot, RunRecord, DecScalar, Shaped, ValueShaped, Stored, VarintBytes, Varint32, HasTag;
    FieldOfState(fields, st, i);
    var f := fields[i];
    var s := PbTypes.At(fields, st.slots, i);
    var r := VarintBytes(8 * f.tag + wt) + body;
    KeyIs(f, wt, body);
    RecordIs(fields, r, st, i);
    if f.htype.Repeated? && s.size >= f.arraySize {
      FullArrayFails(f, wt, body, |body|, s);
    } else {
      ItemStored(f, wt, body, s);
      ScalarItem(f, body, s.items[if f.htype.Repeated? then s.size else 0]);
    }
  }

  lemma KeyIs(f: Field, wt: nat, body: seq<byte>)
    requires FieldOk(f) && wt < 8
    ensures HasTag(VarintBytes(8 * f.tag + wt) + body, f.tag)
    ensures DecTag(VarintBytes(8 * f.tag + wt) + body) == Record(f.tag, wt, body)
  {
    hide VarintBytes, Varint32;
    PbRoundTrip.VarintWithin32(8 * f.tag + wt, body);
  }

  lemma ScalarItem(f: Field, body: seq<byte>, prior: Value)
    requires FieldOk(f) && !f.ltype.SubT?
    ensures var g, v := DecItem(f, body, |body|, prior), DecScalar(f, body);
      if v.Fail? then g.BadItem? else |v.rest| <= |body| && g == GoodItem(v.value, v.rest, |v.rest|, true)
  {
    hide DecScalar;
    DecScalarShrinks(f, body);
  }

  /** A record of a message field: the inner bytes are decoded into what the field holds already, and into
      defaults for a new array item or a union member. It is taken exactly when they decode to their end. */
  lemma MessageRecord(fields: seq<Field>, i: nat, wt: nat, b: seq<byte>, st: State)
    requires StateOk(fields, st) && i < |fields| && wt < 8 && fields[i].ltype.SubT? && |b| < TWO32
    requires fields[i].htype.Repeated? ==> st.slots[i].size < fields[i].arraySize
    ensures |st.slots| == |fields| && SlotShaped(fields[i], PbTypes.At(fields, st.slots, i))
    ensures var f, j := fields[i], SlotOf(fields, i);
      var s, sub := st.slots[j], f.ltype.fields;
      && Descriptor(sub)
      && (!f.htype.Oneof? ==> ValueShaped(f, s.items[if f.htype.Repeated? then s.size else 0]))
      && var start :=
           if f.htype.Repeated? then Defaults(sub, s.items[s.size].slots)
           else if f.htype.Oneof? then DefaultsOfZeros(sub) else s.items[0].slots;
         && Shaped(sub, start)
         && var o := DecLoop(sub, b, |b|, start, {});
            RunRecord(fields, VarintBytes(8 * f.tag + wt) + (VarintBytes(|b|) + b), st) ==
              if o.Good? && o.left == 0 && o.tape == [] && o.drained
              then Some(State(st.slots[j := Stored(f, s, Msg(o.slots))], st.seen + {i})) else None
  {
    hide DecSlot, RunRecord, DecLoop, DecItem, Shaped, ValueShaped, Stored, VarintBytes, Varint32, HasTag, Defaults;
    FieldOfState(fields, st, i);
    var f := fields[i];
    var s := PbTypes.At(fields, st.slots, i);
    var t := VarintBytes(|b|) + b;
    KeyIs(f, wt, t);
    RecordIs(fields, VarintBytes(8 * f.tag + wt) + t, st, i);
    ItemStored(f, wt, t, s);
    var prior := s.items[if f.htype.Repeated? then s.size else 0];
    NestedStarts(f, prior);
    WindowTaken(|b|, b);
    var o := DecLoop(f.ltype.fields, b, |b|, SubStart(f, prior), {});
    assert b[..|b|] == b && b[|b|..] == [];
    NestedItem(f, t, |t|, prior, Split(b, [], 0), o);
    assert o.tape + [] == o.tape;
  }

  function DefaultsOfZeros(sub: seq<Field>): seq<Slot>
    requires Descriptor(sub)
  {
    ZeroMessageShaped(sub);
    Defaults(sub, ZeroMessage(sub))
  }

  lemma NestedStarts(f: Field, prior: Value)
    requires FieldOk(f) && f.ltype.SubT? && (!f.htype.Oneof? ==> ValueShaped(f, prior))
    ensures Descriptor(f.ltype.fields)
    ensures SubStart(f, prior) ==
      if f.htype.Repeated? then Defaults(f.ltype.fields, prior.slots)
      else if f.htype.Oneof? then DefaultsOfZeros(f.ltype.fields) else prior.slots
  {
    hide Defaults, Descriptor, Shaped;
  }

  /** A key with field number zero, which the protocol forbids: skipped by its wire type like an unknown
      record, unless the message type has no fields at all; then the decode fails. */
  lemma ZeroNumber(fields: seq<Field>, wt: nat, body: seq<byte>, st: State)
    requires StateOk(fields, st) && 1 <= wt < 8
    ensures IsUnknown(fields, [wt] + body) <==> fields != [] && SkipField(wt, body) == Ok((), [])
    ensures fields == [] ==> Loop(fields, [wt] + body, st).Bad?
  {
    hide DecSlot, SkipField, Shaped;
    assert VarintBytes(wt) == [wt];
    PbRoundTrip.VarintWithin32(wt, body);
    NoZeroTag(fields);
  }

  lemma NoZeroTag(fields: seq<Field>)
    requires Descriptor(fields)
    ensures IndexOf(fields, 0).None?
  {
    forall i | 0 <= i < |fields| ensures fields[i].tag >= 1 { assert FieldOk(fields[i]); }
  }
}
