/** The window is kept: reading moves a stream forward inside the window it was given, whatever the
    bytes are and however deep the messages nest. */
module PbMoves {
  import opened PbBytes
  import opened PbWire
  import opened PbTypes
  import opened PbEncodeSpec
  import opened PbDecodeSpec

  lemma {:induction false} SkipVarintSuffix(w: seq<byte>)
    ensures Suffix(SkipVarint(w).rest, w)
  {
    if w != [] && w[0] >= 128 {
      SkipVarintSuffix(w[1..]);
      SuffixTrans(SkipVarint(w).rest, w[1..], w);
    }
  }

  lemma Varint32Suffix(w: seq<byte>)
    ensures Suffix(Varint32(w).rest, w)
  {
    hide Groups, Suffix;
    GroupsSuffix(5, w);
  }

  lemma Varint64Suffix(w: seq<byte>)
    ensures Suffix(Varint64(w).rest, w)
  {
    hide Groups, Suffix;
    GroupsSuffix(10, w);
  }

  lemma SuffixFrom(w: seq<byte>, n: nat)
    requires n <= |w|
    ensures Suffix(w[n..], w) && Suffix(w, w)
  {}

  lemma SkipSuffix(w: seq<byte>, n: nat)
    ensures Suffix(Skip(w, n).rest, w)
  {}

  lemma SkipFieldSuffix(wt: nat, w: seq<byte>)
    ensures Suffix(SkipField(wt, w).rest, w)
  {
    hide Varint32, SkipVarint, Suffix, Skip;
    SkipVarintSuffix(w);
    SkipSuffix(w, 8);
    SkipSuffix(w, 4);
    SuffixFrom(w, 0);
    var r := Varint32(w);
    Varint32Suffix(w);
    if wt == WT_STRING && r.Ok? {
      SkipSuffix(r.rest, r.value);
      SuffixTrans(Skip(r.rest, r.value).rest, r.rest, w);
    }
  }

  lemma FixedSuffix(n: nat, w: seq<byte>)
    ensures Suffix(DecFixed(n, w).rest, w)
  {}

  lemma BlobSuffix(f: Field, w: seq<byte>)
    ensures Suffix(DecBytes(f, w).rest, w)
    ensures Suffix(DecString(f, w).rest, w)
  {
    hide Varint32, Suffix;
    var r := Varint32(w);
    Varint32Suffix(w);
    if r.Ok? && r.value <= |r.rest| {
      SuffixFrom(r.rest, r.value);
      SuffixTrans(r.rest[r.value..], r.rest, w);
    }
  }

  lemma DecScalarSuffix(f: Field, w: seq<byte>)
    requires !f.ltype.SubT?
    ensures Suffix(DecScalar(f, w).rest, w)
  {
    hide Varint64, NarrowSigned, NarrowUnsigned, NarrowZigZag, DecBytes, DecString, DecFixed, Suffix;
    BlobSuffix(f, w);
    FixedSuffix(4, w);
    FixedSuffix(8, w);
    SuffixFrom(w, 0);
    Varint64Suffix(w);
  }

  lemma DecTagSuffix(w: seq<byte>)
    ensures Suffix(DecTag(w).rest, w)
  {
    GroupsSuffix(5, w);
  }

  /** The stream moved on from (t, n) to (tape, left): something was read, the end of the window
      did not move up, and it stayed if all inner windows were used up. */
  predicate Moved(t: seq<byte>, n: nat, tape: seq<byte>, left: nat, drained: bool) {
    && left <= |tape| && left <= n <= |t|
    && Suffix(tape, t)
    && |tape| - left >= |t| - n
    && (drained ==> |tape| - left == |t| - n)
  }

  lemma SuffixConcat(a: seq<byte>, b: seq<byte>, z: seq<byte>)
    requires Suffix(a, b)
    ensures Suffix(a + z, b + z)
  {}

  lemma SubWindowSuffix(t: seq<byte>, n: nat)
    requires n <= |t| && SubWindow(t, n).Split?
    ensures Suffix(SubWindow(t, n).inner + SubWindow(t, n).after, t)
    ensures Suffix(SubWindow(t, n).after, t)
  {
    var rest := Varint32(Window(t, n)).rest;
    var size := Varint32(Window(t, n)).value;
    var u := Tail(t, n, rest);
    GroupsSuffix(5, Window(t, n));
    assert Suffix(u, t);
    assert u == u[..size] + u[size..];
    SuffixTrans(u[size..], u, t);
  }

  lemma MovedAfter(t: seq<byte>, n: nat, inner: seq<byte>, after: seq<byte>, left: nat,
                   tape: seq<byte>, inLeft: nat, drained: bool)
    requires n <= |t| && SubWindow(t, n) == Split(inner, after, left)
    requires Moved(inner, |inner|, tape, inLeft, drained)
    ensures Moved(t, n, tape + after, left, drained && inLeft == 0)
  {
    SubWindowSuffix(t, n);
    SuffixConcat(tape, inner, after);
    SuffixTrans(tape + after, inner + after, t);
  }

  lemma MovedPast(t: seq<byte>, n: nat)
    requires n <= |t| && SubWindow(t, n).Split?
    ensures Moved(t, n, SubWindow(t, n).after, SubWindow(t, n).left, true)
  {
    SubWindowSuffix(t, n);
  }

  lemma MovedTwice(t: seq<byte>, n: nat, u: seq<byte>, m: nat, d: bool, tape: seq<byte>, left: nat, e: bool)
    requires Moved(t, n, u, m, d) && Moved(u, m, tape, left, e)
    ensures Moved(t, n, tape, left, d && e)
  {}

  lemma MovedRead(t: seq<byte>, n: nat, rest: seq<byte>)
    requires n <= |t| && Suffix(rest, Window(t, n))
    ensures Moved(t, n, Tail(t, n, rest), |rest|, true)
  {}

  lemma NotSplitMoved(t: seq<byte>, n: nat)
    requires n <= |t| && SubWindow(t, n).NoSplit?
    ensures Moved(t, n, SubWindow(t, n).after, SubWindow(t, n).left, true)
  {
    hide Varint32;
    Varint32Suffix(Window(t, n));
    MovedRead(t, n, Varint32(Window(t, n)).rest);
  }

  lemma {:induction false} PackedSuffix(f: Field, w: seq<byte>, s: Slot)
    requires FieldOk(f) && Packable(f) && f.htype.Repeated? && SlotShaped(f, s)
    ensures var p := DecPacked(f, w, s); p.PackStops? ==> Suffix(p.rest, w)
    decreases |w|
  {
    hide DecScalar;
    SuffixFrom(w, 0);
    if w != [] && s.size < f.arraySize {
      var v := DecScalar(f, w);
      DecScalarSuffix(f, w);
      DecScalarShrinks(f, w);
      if v.Ok? {
        DecScalarShaped(f, w);
        var s' := Slot(s.size + 1, s.items[s.size := v.value]);
        PackedSuffix(f, v.rest, s');
        var p := DecPacked(f, v.rest, s');
        if p.PackStops? { SuffixTrans(p.rest, v.rest, w); }
      }
    }
  }

  /** One item, whether it decodes or not: the parent resumes inside its own window. */
  lemma {:induction false} ItemMoved(f: Field, t: seq<byte>, n: nat, prior: Value)
    requires FieldOk(f) && n <= |t|
    requires f.ltype.SubT? && !f.htype.Oneof? ==> ValueShaped(f, prior)
    ensures var r := DecItem(f, t, n, prior);
      Moved(t, n, r.tape, r.left, r.GoodItem? && r.drained)
    decreases n, 0
  {
    if f.ltype.SubT? {
      var s := SubWindow(t, n);
      if s.NoSplit? {
        NotSplitMoved(t, n);
      } else {
        LoopMoved(f.ltype.fields, s.inner, |s.inner|, SubStart(f, prior), {});
        var o := DecLoop(f.ltype.fields, s.inner, |s.inner|, SubStart(f, prior), {});
        MovedAfter(t, n, s.inner, s.after, s.left, o.tape, o.left, o.Good? && o.drained);
      }
    } else {
      DecScalarSuffix(f, Window(t, n));
      MovedRead(t, n, DecScalar(f, Window(t, n)).rest);
    }
  }

  lemma {:induction false} SlotMoved(f: Field, wt: nat, t: seq<byte>, n: nat, s: Slot)
    requires FieldOk(f) && SlotShaped(f, s) && n <= |t|
    ensures var r := DecSlot(f, wt, t, n, s);
      Moved(t, n, r.tape, r.left, r.Put? && r.drained)
    decreases n, 1
  {
    if f.htype.Repeated? && wt == WT_STRING && Packable(f) {
      var w := SubWindow(t, n);
      if w.NoSplit? {
        NotSplitMoved(t, n);
      } else {
        MovedPast(t, n);
        PackedSuffix(f, w.inner, s);
        var p := DecPacked(f, w.inner, s);
        if p.PackStops? { MovedAfter(t, n, w.inner, w.after, w.left, p.rest, |p.rest|, false); }
      }
    } else if !f.htype.Repeated? || s.size < f.arraySize {
      ItemMoved(f, t, n, s.items[if f.htype.Repeated? then s.size else 0]);
    }
  }

  /** For every input, well-formed or not: the position plus bytes_left never passes the end of the
      window it started with, at any depth, and stays equal to it when the decode succeeds and
      inner windows are used up. */
  lemma {:induction false} LoopMoved(fields: seq<Field>, t: seq<byte>, n: nat, slots: seq<Slot>, seen: set<nat>)
    requires Descriptor(fields) && Shaped(fields, slots) && n <= |t|
    ensures var r := DecLoop(fields, t, n, slots, seen);
      Moved(t, n, r.tape, r.left, r.Good? && r.drained)
    decreases n, 2
  {
    if n > 0 {
      var g := DecTag(Window(t, n));
      DecTagSuffix(Window(t, n));
      MovedRead(t, n, g.rest);
      if g.Record? {
        var m, u := |g.rest|, Tail(t, n, g.rest);
        match IndexOf(fields, g.tag) {
          case None =>
            SkippedMoved(fields, g.wt, u, m, slots, seen);
            Varint64Suffix(Window(u, m));
            MovedRead(u, m, Varint64(Window(u, m)).rest);
          case Some(i) =>
            assert SlotShaped(fields[i], At(fields, slots, i));
            KnownMoved(fields, i, g.wt, u, m, slots, seen);
        }
        var r := DecLoop(fields, t, n, slots, seen);
        MovedTwice(t, n, u, m, true, r.tape, r.left, r.Good? && r.drained);
      }
    }
  }

  lemma {:induction false} SkippedMoved(fields: seq<Field>, wt: nat, u: seq<byte>, m: nat, slots: seq<Slot>, seen: set<nat>)
    requires Descriptor(fields) && Shaped(fields, slots) && m <= |u|
    ensures var k := SkipField(wt, Window(u, m));
      && Moved(u, m, Tail(u, m, k.rest), |k.rest|, true)
      && (k.Ok? ==> var o := DecLoop(fields, Tail(u, m, k.rest), |k.rest|, slots, seen);
                    Moved(u, m, o.tape, o.left, o.Good? && o.drained))
    decreases m, 2
  {
    hide DecLoop, SkipField;
    SkipFieldSuffix(wt, Window(u, m));
    var k := SkipField(wt, Window(u, m));
    MovedRead(u, m, k.rest);
    if k.Ok? {
      SkipFieldShrinks(wt, Window(u, m));
      var o := DecLoop(fields, Tail(u, m, k.rest), |k.rest|, slots, seen);
      LoopMoved(fields, Tail(u, m, k.rest), |k.rest|, slots, seen);
      MovedTwice(u, m, Tail(u, m, k.rest), |k.rest|, true, o.tape, o.left, o.Good? && o.drained);
    }
  }

  lemma SkipFieldShrinks(wt: nat, w: seq<byte>)
    requires SkipField(wt, w).Ok?
    ensures |SkipField(wt, w).rest| < |w|
  {}

  lemma {:induction false} KnownMoved(fields: seq<Field>, i: nat, wt: nat, u: seq<byte>, m: nat, slots: seq<Slot>, seen: set<nat>)
    requires Descriptor(fields) && Shaped(fields, slots) && i < |fields| && m <= |u|
    requires FieldOk(fields[i]) && SlotShaped(fields[i], At(fields, slots, i))
    ensures var p := DecSlot(fields[i], wt, u, m, At(fields, slots, i));
      && Moved(u, m, p.tape, p.left, p.Put? && p.drained)
      && (p.Put? ==> var slots' := slots[SlotOf(fields, i) := p.slot];
                     && Shaped(fields, slots')
                     && var o := DecLoop(fields, p.tape, p.left, slots', seen + {i});
                        Moved(u, m, o.tape, o.left, p.drained && o.Good? && o.drained))
    decreases m, 2
  {
    hide DecLoop, DecSlot;
    var p := DecSlot(fields[i], wt, u, m, At(fields, slots, i));
    SlotMoved(fields[i], wt, u, m, At(fields, slots, i));
    if p.Put? {
      var slots' := slots[SlotOf(fields, i) := p.slot];
      ShapedUpdate(fields, slots, i, p.slot);
      var o := DecLoop(fields, p.tape, p.left, slots', seen + {i});
      LoopMoved(fields, p.tape, p.left, slots', seen + {i});
      MovedTwice(u, m, p.tape, p.left, p.drained, o.tape, o.left, o.Good? && o.drained);
    }
  }
}
