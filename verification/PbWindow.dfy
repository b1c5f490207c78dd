/** No byte outside the window is read: streams that agree on their window decode alike. */
module PbWindow {
  import opened PbBytes
  import opened PbWire
  import opened PbTypes
  import opened PbEncodeSpec
  import opened PbDecodeSpec
  import opened PbMoves

  predicate SameWindow(t: seq<byte>, u: seq<byte>, n: nat) {
    n <= |t| && n <= |u| && t[..n] == u[..n]
  }

  lemma SameReads(t: seq<byte>, u: seq<byte>, n: nat)
    requires SameWindow(t, u, n)
    ensures Window(t, n) == Window(u, n)
  {}

  lemma SameTails(t: seq<byte>, u: seq<byte>, n: nat, rest: seq<byte>)
    requires SameWindow(t, u, n) && Suffix(rest, Window(t, n))
    ensures SameWindow(Tail(t, n, rest), Tail(u, n, rest), |rest|)
  {
    var k := n - |rest|;
    assert t[k..][..|rest|] == t[..n][k..] == u[..n][k..] == u[k..][..|rest|];
  }

  lemma SameJoined(a: seq<byte>, t: seq<byte>, u: seq<byte>, n: nat)
    requires SameWindow(t, u, n)
    ensures SameWindow(a + t, a + u, n)
  {
    if n <= |a| {
      assert (a + t)[..n] == a[..n] == (a + u)[..n];
    } else {
      assert (a + t)[..n] == a + t[..n][..n - |a|];
      assert (a + u)[..n] == a + u[..n][..n - |a|];
    }
  }

  predicate SameSplit(a: Split, b: Split) {
    && a.left == b.left && (a.NoSplit? <==> b.NoSplit?) && (a.Split? && b.Split? ==> a.inner == b.inner)
    && SameWindow(a.after, b.after, a.left)
  }

  lemma SameSubWindow(t: seq<byte>, u: seq<byte>, n: nat)
    requires SameWindow(t, u, n)
    ensures SameSplit(SubWindow(t, n), SubWindow(u, n))
  {
    hide Varint32, Tail, Window;
    SameReads(t, u, n);
    var r := Varint32(Window(t, n));
    Varint32Suffix(Window(t, n));
    SameTails(t, u, n, r.rest);
    if r.Ok? && r.value <= |r.rest| {
      SameCut(Tail(t, n, r.rest), Tail(u, n, r.rest), |r.rest|, r.value);
    }
  }

  lemma SameCut(t: seq<byte>, u: seq<byte>, n: nat, k: nat)
    requires SameWindow(t, u, n) && k <= n
    ensures t[..k] == u[..k] && SameWindow(t[k..], u[k..], n - k)
  {
    assert t[..k] == t[..n][..k] == u[..n][..k] == u[..k];
    assert t[k..][..n - k] == t[..n][k..] == u[..n][k..] == u[k..][..n - k];
  }

  predicate SameItem(a: ItemResult, b: ItemResult) {
    && a.left == b.left && (a.BadItem? <==> b.BadItem?)
    && (a.GoodItem? && b.GoodItem? ==> a.value == b.value && a.drained == b.drained)
    && SameWindow(a.tape, b.tape, a.left)
  }

  predicate SameSlot(a: SlotResult, b: SlotResult) {
    && a.left == b.left && (a.BadSlot? <==> b.BadSlot?)
    && (a.Put? && b.Put? ==> a.slot == b.slot && a.drained == b.drained)
    && SameWindow(a.tape, b.tape, a.left)
  }

  predicate SameOutcome(a: Outcome, b: Outcome) {
    && a.left == b.left && (a.Bad? <==> b.Bad?)
    && (a.Good? && b.Good? ==> a.slots == b.slots && a.drained == b.drained)
    && SameWindow(a.tape, b.tape, a.left)
  }

  lemma ItemReadsWindow(f: Field, t: seq<byte>, u: seq<byte>, n: nat, prior: Value)
    requires FieldOk(f) && SameWindow(t, u, n)
    requires f.ltype.SubT? && !f.htype.Oneof? ==> ValueShaped(f, prior)
    ensures SameItem(DecItem(f, t, n, prior), DecItem(f, u, n, prior))
  {
    hide DecLoop, DecScalar, SubWindow, SubStart, Tail, Window;
    if f.ltype.SubT? {
      SameSubWindow(t, u, n);
      var s := SubWindow(t, n);
      if s.Split? {
        var o := DecLoop(f.ltype.fields, s.inner, |s.inner|, SubStart(f, prior), {});
        SameJoined(o.tape, s.after, SubWindow(u, n).after, s.left);
      }
    } else {
      SameReads(t, u, n);
      DecScalarSuffix(f, Window(t, n));
      SameTails(t, u, n, DecScalar(f, Window(t, n)).rest);
    }
  }

  lemma SlotReadsWindow(f: Field, wt: nat, t: seq<byte>, u: seq<byte>, n: nat, s: Slot)
    requires FieldOk(f) && SlotShaped(f, s) && SameWindow(t, u, n)
    ensures SameSlot(DecSlot(f, wt, t, n, s), DecSlot(f, wt, u, n, s))
  {
    hide DecItem, SubWindow;
    if f.htype.Repeated? && wt == WT_STRING && Packable(f) {
      SameSubWindow(t, u, n);
      var w := SubWindow(t, n);
      if w.Split? && DecPacked(f, w.inner, s).PackStops? {
        SameJoined(DecPacked(f, w.inner, s).rest, w.after, SubWindow(u, n).after, w.left);
      }
    } else if f.htype.Repeated? {
      if s.size < f.arraySize { ItemReadsWindow(f, t, u, n, s.items[s.size]); }
    } else {
      ItemReadsWindow(f, t, u, n, s.items[0]);
    }
  }

  /** Whatever stands behind the window, in the enclosing window or the buffer, the outcome, the
      message and the bytes used are the same. */
  lemma {:induction false} LoopReadsWindow(fields: seq<Field>, t: seq<byte>, u: seq<byte>, n: nat, slots: seq<Slot>, seen: set<nat>)
    requires Descriptor(fields) && Shaped(fields, slots) && SameWindow(t, u, n)
    ensures SameOutcome(DecLoop(fields, t, n, slots, seen), DecLoop(fields, u, n, slots, seen))
    decreases n
  {
    hide DecSlot, SkipField, DecTag, Tail, Window;
    if n > 0 {
      SameReads(t, u, n);
      var g := DecTag(Window(t, n));
      DecTagSuffix(Window(t, n));
      SameTails(t, u, n, g.rest);
      if g.Record? {
        var m, t', u' := |g.rest|, Tail(t, n, g.rest), Tail(u, n, g.rest);
        match IndexOf(fields, g.tag) {
          case None =>
            SameReads(t', u', m);
            var k := SkipField(g.wt, Window(t', m));
            SkipFieldSuffix(g.wt, Window(t', m));
            SameTails(t', u', m, k.rest);
            Varint64Suffix(Window(t', m));
            SameTails(t', u', m, Varint64(Window(t', m)).rest);
            if k.Ok? { LoopReadsWindow(fields, Tail(t', m, k.rest), Tail(u', m, k.rest), |k.rest|, slots, seen); }
          case Some(i) =>
            StoredReadsWindow(fields, i, g.wt, t', u', m, slots, seen);
        }
      }
    }
  }

  lemma {:induction false} StoredReadsWindow(fields: seq<Field>, i: nat, wt: nat, t: seq<byte>, u: seq<byte>, m: nat,
                                             slots: seq<Slot>, seen: set<nat>)
    requires Descriptor(fields) && Shaped(fields, slots) && i < |fields| && SameWindow(t, u, m)
    ensures FieldOk(fields[i]) && SlotShaped(fields[i], At(fields, slots, i))
    ensures var p, q := DecSlot(fields[i], wt, t, m, At(fields, slots, i)), DecSlot(fields[i], wt, u, m, At(fields, slots, i));
      && SameSlot(p, q)
      && (p.Put? ==> var slots' := slots[SlotOf(fields, i) := p.slot];
                     && Shaped(fields, slots')
                     && SameOutcome(DecLoop(fields, p.tape, p.left, slots', seen + {i}),
                                    DecLoop(fields, q.tape, q.left, slots', seen + {i})))
    decreases m
  {
    hide DecSlot, DecLoop;
    assert FieldOk(fields[i]) && SlotShaped(fields[i], At(fields, slots, i));
    var s := At(fields, slots, i);
    SlotReadsWindow(fields[i], wt, t, u, m, s);
    var p, q := DecSlot(fields[i], wt, t, m, s), DecSlot(fields[i], wt, u, m, s);
    if p.Put? {
      ShapedUpdate(fields, slots, i, p.slot);
      LoopReadsWindow(fields, p.tape, q.tape, p.left, slots[SlotOf(fields, i) := p.slot], seen + {i});
    }
  }
}
