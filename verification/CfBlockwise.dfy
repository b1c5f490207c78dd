/** The block buffering of blockwise.c. */
module CfBlockwise {
  import opened Division
  import opened CfBytes

  /** A processing context and the bytes that wait for a full block. */
  datatype Fed<S> = Fed(ctx: S, left: Bytes)

  type Process<!S> = (S, Bytes) -> S

  /** One byte into the buffer; a full block is processed at once. */
  function FeedByte<S>(process: Process<S>, n: nat, st: Fed<S>, b: byte): (r: Fed<S>)
    requires |st.left| < n
    ensures |r.left| < n
  {
    var left := st.left + [b];
    if |left| == n then Fed(process(st.ctx, left), []) else Fed(st.ctx, left)
  }

  /** Byte-at-a-time feeding: what accumulation in chunks refines. */
  function Feed<S>(process: Process<S>, n: nat, st: Fed<S>, inp: Bytes): (r: Fed<S>)
    requires |st.left| < n
    ensures |r.left| < n
    decreases |inp|
  {
    if inp == [] then st else Feed(process, n, FeedByte(process, n, st, inp[0]), inp[1..])
  }

  /** Only the concatenation of the chunks matters. */
  lemma {:induction false} FeedConcat<S>(process: Process<S>, n: nat, st: Fed<S>, a: Bytes, b: Bytes)
    requires |st.left| < n
    ensures Feed(process, n, st, a + b) == Feed(process, n, Feed(process, n, st, a), b)
    decreases |a|
  {
    if a == [] {
      assert a + b == b;
    } else {
      assert (a + b)[1..] == a[1..] + b;
      FeedConcat(process, n, FeedByte(process, n, st, a[0]), a[1..], b);
    }
  }

  lemma {:induction false} FeedShort<S>(process: Process<S>, n: nat, st: Fed<S>, a: Bytes)
    requires |st.left| + |a| < n
    ensures Feed(process, n, st, a) == Fed(st.ctx, st.left + a)
    decreases |a|
  {
    if a == [] {
      assert st.left + a == st.left;
    } else {
      FeedShort(process, n, Fed(st.ctx, st.left + [a[0]]), a[1..]);
      assert st.left + [a[0]] + a[1..] == st.left + a;
    }
  }

  lemma FeedFill<S>(process: Process<S>, n: nat, st: Fed<S>, a: Bytes)
    requires |st.left| < n && |st.left| + |a| == n
    ensures Feed(process, n, st, a) == Fed(process(st.ctx, st.left + a), [])
  {
    var k := |a| - 1;
    assert a == a[..k] + [a[k]];
    FeedConcat(process, n, st, a[..k], [a[k]]);
    FeedShort(process, n, st, a[..k]);
    assert st.left + a[..k] + [a[k]] == st.left + a;
    FeedOne(process, n, Fed(st.ctx, st.left + a[..k]), a[k]);
  }

  lemma FeedOne<S>(process: Process<S>, n: nat, st: Fed<S>, b: byte)
    requires |st.left| < n
    ensures Feed(process, n, st, [b]) == FeedByte(process, n, st, b)
  {
    assert [b][1..] == [];
  }

  /** How many bytes wait depends on the total length only. */
  lemma {:induction false} FeedLeft<S>(process: Process<S>, n: nat, st: Fed<S>, a: Bytes)
    requires |st.left| < n
    ensures |Feed(process, n, st, a).left| == (|st.left| + |a|) % n
    decreases |a|
  {
    if a != [] {
      var next := FeedByte(process, n, st, a[0]);
      FeedLeft(process, n, next, a[1..]);
      if next.left == [] { WrapOnce(|a[1..]|, n); }
    }
  }

  lemma WrapOnce(k: nat, n: nat)
    requires n > 0
    ensures (n + k) % n == k % n
  {
    ModAddMultiple(k, 1, n);
  }

  /** The last byte goes to `final` should it complete a block. */
  function FeedFinal<S>(process: Process<S>, final: Process<S>, n: nat, st: Fed<S>, inp: Bytes): (r: Fed<S>)
    requires |st.left| < n
    ensures |r.left| < n
  {
    if inp == [] then st
    else FeedByte(final, n, Feed(process, n, st, inp[..|inp| - 1]), inp[|inp| - 1])
  }

  /** process_final runs exactly when there is input and it ends with a full block, and then it
      gets that last block after all others went to process. */
  lemma FinalOnLastBlock<S>(process: Process<S>, final: Process<S>, n: nat, st: Fed<S>, inp: Bytes)
    requires |st.left| < n
    ensures inp == [] || (|st.left| + |inp|) % n != 0 ==>
      FeedFinal(process, final, n, st, inp) == Feed(process, n, st, inp)
    ensures inp != [] && (|st.left| + |inp|) % n == 0 ==>
      var before := Feed(process, n, st, inp[..|inp| - 1]);
      && |before.left| == n - 1
      && FeedFinal(process, final, n, st, inp) == Fed(final(before.ctx, before.left + [inp[|inp| - 1]]), [])
  {
    if inp != [] {
      var k := |inp| - 1;
      var before := Feed(process, n, st, inp[..k]);
      assert inp == inp[..k] + [inp[k]];
      FeedConcat(process, n, st, inp[..k], [inp[k]]);
      FeedOne(process, n, before, inp[k]);
      FeedLeft(process, n, st, inp[..k]);
      ModNext(|st.left| + k, n);
    }
  }

  lemma ModNext(a: nat, n: nat)
    requires n > 0
    ensures (a + 1) % n == if a % n == n - 1 then 0 else a % n + 1
  {
    var q := a / n;
    if a % n == n - 1 { DivUnique(a + 1, n, q + 1, 0); } else { DivUnique(a + 1, n, q, a % n + 1); }
  }

  /** With one function for all blocks nothing is special about the last one. */
  lemma FinalIsFeed<S>(process: Process<S>, n: nat, st: Fed<S>, inp: Bytes)
    requires |st.left| < n
    ensures FeedFinal(process, process, n, st, inp) == Feed(process, n, st, inp)
  {
    if inp != [] {
      var k := |inp| - 1;
      assert inp == inp[..k] + [inp[k]];
      FeedConcat(process, n, st, inp[..k], [inp[k]]);
      FeedOne(process, n, Feed(process, n, st, inp[..k]), inp[k]);
    }
  }

  // ---------------------------------------------------------------- accumulation

  /** cf_blockwise_accumulate_final. */
  method AccumulateFinal<S>(partial: array<byte>, npartial: nat, nblock: nat, inp: Bytes,
                            process: Process<S>, processFinal: Process<S>, ctx: S)
    returns (npartial': nat, ctx': S)
    requires npartial < nblock <= partial.Length
    modifies partial
    ensures npartial' < nblock
    ensures Fed(ctx', partial[..npartial']) ==
      FeedFinal(process, processFinal, nblock, Fed(ctx, old(partial[..npartial])), inp)
  {
    hide Feed, FeedFinal;
    var bufin;
    npartial', ctx', bufin := FillPartial(partial, npartial, nblock, inp, process, processFinal, ctx);
    ctx', bufin := WholeBlocks(nblock, inp, bufin, process, processFinal, ctx', partial[..npartial']);
    npartial' := KeepRest(partial, npartial', nblock, inp[bufin..], process, processFinal, ctx');
  }

  /** First the buffer is filled, when it holds anything. */
  method FillPartial<S>(partial: array<byte>, npartial: nat, nblock: nat, inp: Bytes,
                        process: Process<S>, processFinal: Process<S>, ctx: S)
    returns (npartial': nat, ctx': S, bufin: nat)
    requires npartial < nblock <= partial.Length
    modifies partial
    ensures npartial' < nblock && bufin <= |inp| && (npartial' != 0 ==> bufin == |inp|)
    ensures FeedFinal(process, processFinal, nblock, Fed(ctx, old(partial[..npartial])), inp)
         == FeedFinal(process, processFinal, nblock, Fed(ctx', partial[..npartial']), inp[bufin..])
  {
    hide Feed, FeedFinal;
    npartial', ctx', bufin := npartial, ctx, 0;
    assert inp[0..] == inp;
    if npartial' != 0 && |inp| != 0 {
      ghost var start := Fed(ctx, partial[..npartial]);
      var space := nblock - npartial';
      var taken := if space < |inp| then space else |inp|;
      CopyIn(partial, npartial', inp[..taken]);
      bufin := taken;
      npartial' := npartial' + taken;
      if npartial' == nblock {
        FinalFills(process, processFinal, nblock, start, inp, taken);
        if bufin == |inp| {
          ctx' := processFinal(ctx', partial[..nblock]);
        } else {
          ctx' := process(ctx', partial[..nblock]);
        }
        npartial' := 0;
        assert partial[..0] == [];
      } else {
        FinalShort(process, processFinal, nblock, start, inp);
        assert inp[..taken] == inp && inp[bufin..] == [];
      }
    }
  }

  /** Then full blocks are processed where they stand in the input. */
  method WholeBlocks<S>(nblock: nat, inp: Bytes, start: nat, process: Process<S>, processFinal: Process<S>, ctx: S,
                        ghost left: Bytes)
    returns (ctx': S, bufin: nat)
    requires |left| < nblock && start <= |inp| && (left != [] ==> start == |inp|)
    ensures start <= bufin <= |inp| && |inp| - bufin < nblock
    ensures left != [] ==> bufin == |inp|
    ensures FeedFinal(process, processFinal, nblock, Fed(ctx, left), inp[start..])
         == FeedFinal(process, processFinal, nblock, Fed(ctx', left), inp[bufin..])
  {
    hide Feed, FeedFinal;
    ctx', bufin := ctx, start;
    while |inp| - bufin >= nblock
      invariant start <= bufin <= |inp| && (left != [] ==> bufin == |inp|)
      invariant FeedFinal(process, processFinal, nblock, Fed(ctx, left), inp[start..])
             == FeedFinal(process, processFinal, nblock, Fed(ctx', left), inp[bufin..])
    {
      var block := inp[bufin..bufin + nblock];
      FinalFills(process, processFinal, nblock, Fed(ctx', left), inp[bufin..], nblock);
      assert left + inp[bufin..][..nblock] == block;
      assert inp[bufin..][nblock..] == inp[bufin + nblock..];
      if |inp| - bufin == nblock {
        ctx' := processFinal(ctx', block);
      } else {
        ctx' := process(ctx', block);
      }
      bufin := bufin + nblock;
    }
  }

  /** Last, what is left of the input is buffered. */
  method KeepRest<S>(partial: array<byte>, npartial: nat, nblock: nat, rest: Bytes,
                     ghost process: Process<S>, ghost processFinal: Process<S>, ghost ctx: S)
    returns (npartial': nat)
    requires npartial < nblock <= partial.Length && |rest| < nblock && (npartial != 0 ==> rest == [])
    modifies partial
    ensures npartial' < nblock
    ensures Fed(ctx, partial[..npartial']) ==
      FeedFinal(process, processFinal, nblock, Fed(ctx, old(partial[..npartial])), rest)
  {
    hide Feed, FeedFinal;
    FinalShort(process, processFinal, nblock, Fed(ctx, partial[..npartial]), rest);
    npartial' := npartial;
    var bufin := 0;
    while bufin < |rest|
      invariant bufin <= |rest| && npartial' == npartial + bufin
      invariant partial[..npartial'] == old(partial[..npartial]) + rest[..bufin]
    {
      var space := nblock - npartial';
      var taken := if space < |rest| - bufin then space else |rest| - bufin;
      CopyIn(partial, npartial', rest[bufin..bufin + taken]);
      assert rest[..bufin] + rest[bufin..bufin + taken] == rest[..bufin + taken];
      bufin := bufin + taken;
      npartial' := npartial' + taken;
    }
    assert rest[..bufin] == rest;
  }

  /** memcpy into the buffer. */
  method CopyIn(partial: array<byte>, at: nat, bytes: Bytes)
    requires at + |bytes| <= partial.Length
    modifies partial
    ensures partial[..at + |bytes|] == old(partial[..at]) + bytes
    ensures partial[at + |bytes|..] == old(partial[at + |bytes|..])
  {
    var i := 0;
    while i < |bytes|
      invariant i <= |bytes|
      invariant partial[..at] == old(partial[..at]) && partial[at..at + i] == bytes[..i]
      invariant partial[at + |bytes|..] == old(partial[at + |bytes|..])
    {
      partial[at + i] := bytes[i];
      i := i + 1;
    }
    assert partial[..at + |bytes|] == partial[..at] + partial[at..at + |bytes|];
  }

  /** The first `k` bytes of input complete a block. */
  lemma FinalFills<S>(process: Process<S>, final: Process<S>, n: nat, st: Fed<S>, inp: Bytes, k: nat)
    requires |st.left| < n && 0 < k <= |inp| && |st.left| + k == n
    ensures FeedFinal(process, final, n, st, inp) == FeedFinal(process, final, n,
      Fed(if k == |inp| then final(st.ctx, st.left + inp[..k]) else process(st.ctx, st.left + inp[..k]), []),
      inp[k..])
  {
    hide Feed;
    var m := |inp| - 1;
    if k == |inp| {
      FeedShort(process, n, st, inp[..m]);
      assert st.left + inp[..m] + [inp[m]] == st.left + inp[..k];
    } else {
      FeedConcat(process, n, st, inp[..k], inp[k..m]);
      assert inp[..k] + inp[k..m] == inp[..m];
      FeedFill(process, n, st, inp[..k]);
      assert inp[k..][..m - k] == inp[k..m];
    }
  }

  lemma FinalShort<S>(process: Process<S>, final: Process<S>, n: nat, st: Fed<S>, inp: Bytes)
    requires |st.left| + |inp| < n
    ensures FeedFinal(process, final, n, st, inp) == Fed(st.ctx, st.left + inp)
    ensures FeedFinal(process, final, n, Fed(st.ctx, st.left + inp), []) == Fed(st.ctx, st.left + inp)
  {
    hide Feed;
    if inp != [] {
      var m := |inp| - 1;
      FeedShort(process, n, st, inp[..m]);
      assert st.left + inp[..m] + [inp[m]] == st.left + inp;
    } else {
      assert st.left + inp == st.left;
    }
  }

  /** cf_blockwise_accumulate. */
  method Accumulate<S>(partial: array<byte>, npartial: nat, nblock: nat, inp: Bytes, process: Process<S>, ctx: S)
    returns (npartial': nat, ctx': S)
    requires npartial < nblock <= partial.Length
    modifies partial
    ensures npartial' < nblock
    ensures Fed(ctx', partial[..npartial']) == Feed(process, nblock, Fed(ctx, old(partial[..npartial])), inp)
  {
    FinalIsFeed(process, nblock, Fed(ctx, partial[..npartial]), inp);
    npartial', ctx' := AccumulateFinal(partial, npartial, nblock, inp, process, process, ctx);
  }

  /** cf_blockwise_acc_byte: `fill` copies of one byte, with the buffer filled only once. */
  method AccByte<S>(partial: array<byte>, npartial: nat, nblock: nat, b: byte, fill: nat, process: Process<S>, ctx: S)
    returns (npartial': nat, ctx': S)
    requires npartial < nblock <= partial.Length
    modifies partial
    ensures npartial' < nblock
    ensures Fed(ctx', partial[..npartial']) == Feed(process, nblock, Fed(ctx, old(partial[..npartial])), Repeat(b, fill))
  {
    hide Feed;
    npartial', ctx' := npartial, ctx;
    var nbytes: nat, filled := fill, false;
    ghost var todo := Feed(process, nblock, Fed(ctx, partial[..npartial]), Repeat(b, fill));
    while nbytes != 0
      invariant npartial' < nblock
      invariant filled && nbytes != 0 ==> npartial' == 0 && partial[..nblock] == Repeat(b, nblock)
      invariant todo == Feed(process, nblock, Fed(ctx', partial[..npartial']), Repeat(b, nbytes))
    {
      var start := npartial';
      var count := if nbytes < nblock - start then nbytes else nblock - start;
      ghost var st := Fed(ctx', partial[..start]);
      RepeatSplit(b, count, nbytes - count);
      FeedConcat(process, nblock, st, Repeat(b, count), Repeat(b, nbytes - count));
      if !filled {
        CopyIn(partial, start, Repeat(b, count));
      }
      assert partial[..start + count] == st.left + Repeat(b, count);
      if start == 0 && count == nblock {
        filled := true;
      }
      if start + count == nblock {
        FeedFill(process, nblock, st, Repeat(b, count));
        ctx' := process(ctx', partial[..nblock]);
        npartial' := 0;
      } else {
        FeedShort(process, nblock, st, Repeat(b, count));
        npartial' := npartial' + count;
      }
      nbytes := nbytes - count;
    }
    FeedNothing(process, nblock, Fed(ctx', partial[..npartial']), Repeat(b, 0));
  }

  lemma FeedNothing<S>(process: Process<S>, n: nat, st: Fed<S>, none: Bytes)
    requires |st.left| < n && |none| == 0
    ensures Feed(process, n, st, none) == st
  {}

  /** The padding patterns of cf_blockwise_acc_pad. With three bytes or more the last one is the
      last byte given, not the first one again. */
  function PadBytes(fbyte: byte, mbyte: byte, lbyte: byte, n: nat): (r: Bytes)
    ensures |r| == n
  {
    if n == 0 then [] else if n == 1 then [fbyte ^ lbyte]
    else [fbyte] + Repeat(mbyte, n - 2) + [lbyte]
  }

  /** The pattern the header describes: from three bytes on it ends with the first byte again. */
  function CommentedPad(fbyte: byte, mbyte: byte, lbyte: byte, n: nat): (r: Bytes)
    ensures |r| == n
  {
    if n < 3 then PadBytes(fbyte, mbyte, lbyte, n) else [fbyte] + Repeat(mbyte, n - 2) + [fbyte]
  }

  /** The code writes that pattern exactly for fewer than three bytes, or when the first byte is the
      last one too. */
  lemma PadAsCommented(fbyte: byte, mbyte: byte, lbyte: byte, n: nat)
    ensures PadBytes(fbyte, mbyte, lbyte, n) == CommentedPad(fbyte, mbyte, lbyte, n) <==> n < 3 || lbyte == fbyte
  {
    if n >= 3 {
      assert PadBytes(fbyte, mbyte, lbyte, n)[n - 1] == lbyte;
      assert CommentedPad(fbyte, mbyte, lbyte, n)[n - 1] == fbyte;
    }
  }

  /** The padding of CMAC over three bytes is not what the header describes. */
  lemma CmacPadDiffers()
    ensures PadBytes(0x80, 0, 0, 3) == [0x80, 0, 0] && CommentedPad(0x80, 0, 0, 3) == [0x80, 0, 0x80]
  {
    assert Repeat(0, 1) == [0];
  }

  /** cf_blockwise_acc_pad. */
  method AccPad<S>(partial: array<byte>, npartial: nat, nblock: nat, fbyte: byte, mbyte: byte, lbyte: byte,
                   nbytes: nat, process: Process<S>, ctx: S)
    returns (npartial': nat, ctx': S)
    requires npartial < nblock <= partial.Length
    modifies partial
    ensures npartial' < nblock
    ensures Fed(ctx', partial[..npartial'])
         == Feed(process, nblock, Fed(ctx, old(partial[..npartial])), PadBytes(fbyte, mbyte, lbyte, nbytes))
  {
    hide Feed;
    npartial', ctx' := npartial, ctx;
    ghost var st := Fed(ctx, partial[..npartial]);
    if nbytes == 0 {
      FeedNothing(process, nblock, st, []);
    } else if nbytes == 1 {
      npartial', ctx' := Accumulate(partial, npartial', nblock, [fbyte ^ lbyte], process, ctx');
    } else if nbytes == 2 {
      npartial', ctx' := Accumulate(partial, npartial', nblock, [fbyte], process, ctx');
      npartial', ctx' := Accumulate(partial, npartial', nblock, [lbyte], process, ctx');
      FeedConcat(process, nblock, st, [fbyte], [lbyte]);
      assert [fbyte] + [lbyte] == PadBytes(fbyte, mbyte, lbyte, 2);
    } else {
      npartial', ctx' := Accumulate(partial, npartial', nblock, [fbyte], process, ctx');
      FeedConcat(process, nblock, st, [fbyte], Repeat(mbyte, nbytes - 2) + [lbyte]);
      assert [fbyte] + (Repeat(mbyte, nbytes - 2) + [lbyte]) == PadBytes(fbyte, mbyte, lbyte, nbytes);
      npartial', ctx' := AccTail(partial, npartial', nblock, mbyte, lbyte, nbytes, process, ctx');
    }
  }

  /** The padding behind its first byte. */
  method AccTail<S>(partial: array<byte>, npartial: nat, nblock: nat, mbyte: byte, lbyte: byte,
                    nbytes: nat, process: Process<S>, ctx: S)
    returns (npartial': nat, ctx': S)
    requires npartial < nblock <= partial.Length && nbytes >= 3
    modifies partial
    ensures npartial' < nblock
    ensures Fed(ctx', partial[..npartial'])
         == Feed(process, nblock, Fed(ctx, old(partial[..npartial])), Repeat(mbyte, nbytes - 2) + [lbyte])
  {
    hide Feed;
    ghost var mid := Fed(ctx, partial[..npartial]);
    if lbyte != mbyte {
      npartial', ctx' := AccByte(partial, npartial, nblock, mbyte, nbytes - 2, process, ctx);
      npartial', ctx' := Accumulate(partial, npartial', nblock, [lbyte], process, ctx');
      FeedConcat(process, nblock, mid, Repeat(mbyte, nbytes - 2), [lbyte]);
    } else {
      npartial', ctx' := AccByte(partial, npartial, nblock, mbyte, nbytes - 1, process, ctx);
      assert Repeat(mbyte, nbytes - 2) + [lbyte] == Repeat(mbyte, nbytes - 1);
    }
  }

  // ---------------------------------------------------------------- key streams

  /** A block source and the bytes of its last block not yet used. */
  datatype Tap<S> = Tap(ctx: S, ready: Bytes)

  type Source<!S> = S -> (S, Bytes)

  ghost predicate Sized<S(!new)>(next: Source<S>, n: nat) {
    n > 0 && forall s :: |next(s).1| == n
  }

  function Refill<S(!new)>(next: Source<S>, n: nat, tap: Tap<S>): (r: Tap<S>)
    requires Sized(next, n)
    ensures r.ready != []
  {
    if tap.ready != [] then tap else Tap(next(tap.ctx).0, next(tap.ctx).1)
  }

  /** The next `k` key bytes. */
  function Key<S(!new)>(next: Source<S>, n: nat, tap: Tap<S>, k: nat): (r: Bytes)
    requires Sized(next, n)
    ensures |r| == k
    decreases k
  {
    if k == 0 then []
    else
      var t := Refill(next, n, tap);
      [t.ready[0]] + Key(next, n, Tap(t.ctx, t.ready[1..]), k - 1)
  }

  /** The source after `k` key bytes. */
  function After<S(!new)>(next: Source<S>, n: nat, tap: Tap<S>, k: nat): (r: Tap<S>)
    requires Sized(next, n)
    decreases k
  {
    if k == 0 then tap
    else
      var t := Refill(next, n, tap);
      After(next, n, Tap(t.ctx, t.ready[1..]), k - 1)
  }

  lemma {:induction false} KeyConcat<S(!new)>(next: Source<S>, n: nat, tap: Tap<S>, a: nat, b: nat)
    requires Sized(next, n)
    ensures Key(next, n, tap, a + b) == Key(next, n, tap, a) + Key(next, n, After(next, n, tap, a), b)
    ensures After(next, n, tap, a + b) == After(next, n, After(next, n, tap, a), b)
    decreases a
  {
    if a > 0 {
      var t := Refill(next, n, tap);
      KeyConcat(next, n, Tap(t.ctx, t.ready[1..]), a - 1, b);
    }
  }

  /** Key bytes that are ready are used in order. */
  lemma {:induction false} KeyReady<S(!new)>(next: Source<S>, n: nat, tap: Tap<S>, k: nat)
    requires Sized(next, n) && k <= |tap.ready|
    ensures Key(next, n, tap, k) == tap.ready[..k]
    ensures After(next, n, tap, k) == Tap(tap.ctx, tap.ready[k..])
    decreases k
  {
    if k > 0 {
      KeyReady(next, n, Tap(tap.ctx, tap.ready[1..]), k - 1);
      assert tap.ready[..k] == [tap.ready[0]] + tap.ready[1..][..k - 1];
    }
  }

  /** Out of key bytes: produce a block. */
  method Produce<S(!new)>(partial: array<byte>, npartial: nat, nblock: nat, next: Source<S>, ctx: S)
    returns (npartial': nat, ctx': S)
    requires Sized(next, nblock) && npartial <= nblock == partial.Length
    modifies partial
    ensures 0 < npartial' <= nblock
    ensures Tap(ctx', partial[nblock - npartial'..]) == Refill(next, nblock, Tap(ctx, old(partial[nblock - npartial..])))
  {
    npartial', ctx' := npartial, ctx;
    if npartial' == 0 {
      var (c, block) := next(ctx');
      CopyIn(partial, 0, block);
      ctx', npartial' := c, nblock;
      assert partial[0..] == block;
    }
  }

  lemma ReadyParts(partial: array<byte>, offset: nat, taken: nat)
    requires offset + taken <= partial.Length
    ensures partial[offset..][..taken] == partial[offset..offset + taken]
    ensures partial[offset..][taken..] == partial[offset + taken..]
  {}

  /** One turn of the loop of cf_blockwise_xor. */
  method XorTurn<S(!new)>(partial: array<byte>, npartial: nat, nblock: nat, inp: array<byte>, outp: array<byte>,
                          done: nat, nbytes: nat, next: Source<S>, ctx: S)
    returns (npartial': nat, ctx': S, done': nat)
    requires Sized(next, nblock) && npartial < nblock == partial.Length
    requires done < nbytes <= inp.Length && nbytes <= outp.Length && partial != inp && partial != outp
    modifies partial, outp
    ensures npartial' < nblock && done < done' <= nbytes
    ensures var tap := Tap(ctx, old(partial[nblock - npartial..]));
      && Tap(ctx', partial[nblock - npartial'..]) == After(next, nblock, tap, done' - done)
      && outp[..] == old(outp[..])[..done] + Xor(old(inp[..])[done..done'], Key(next, nblock, tap, done' - done)) + old(outp[..])[done'..]
  {
    hide Key, After, Xor, Refill;
    ghost var tap := Tap(ctx, partial[nblock - npartial..]);
    npartial', ctx' := Produce(partial, npartial, nblock, next, ctx);
    var offset := nblock - npartial';
    var taken := if npartial' < nbytes - done then npartial' else nbytes - done;
    RefillKey(next, nblock, tap, taken);
    KeyReady(next, nblock, Tap(ctx', partial[offset..]), taken);
    ReadyParts(partial, offset, taken);
    XorBytes(outp, done, inp, partial, offset, taken);
    npartial' := npartial' - taken;
    done' := done + taken;
  }

  /** cf_blockwise_xor. Input and output may be the same array; unused key bytes are at the end of
      `partial`. */
  method XorStream<S(!new)>(partial: array<byte>, npartial: nat, nblock: nat, inp: array<byte>, outp: array<byte>,
                            nbytes: nat, next: Source<S>, ctx: S)
    returns (npartial': nat, ctx': S)
    requires Sized(next, nblock) && npartial < nblock == partial.Length
    requires nbytes <= inp.Length && nbytes <= outp.Length && partial != inp && partial != outp
    modifies partial, outp
    ensures npartial' < nblock
    ensures var tap := Tap(ctx, old(partial[nblock - npartial..]));
      && Tap(ctx', partial[nblock - npartial'..]) == After(next, nblock, tap, nbytes)
      && outp[..] == Xor(old(inp[..])[..nbytes], Key(next, nblock, tap, nbytes)) + old(outp[..])[nbytes..]
  {
    hide Key, After, Xor;
    npartial', ctx' := npartial, ctx;
    ghost var inp0, outp0 := inp[..], outp[..];
    ghost var tap := Tap(ctx, partial[nblock - npartial..]);
    ghost var result := Xor(inp0[..nbytes], Key(next, nblock, tap, nbytes));
    var done := 0;
    KeyReady(next, nblock, tap, 0);
    while done < nbytes
      invariant done <= nbytes && npartial' < nblock
      invariant Tap(ctx', partial[nblock - npartial'..]) == After(next, nblock, tap, done)
      invariant outp[..] == result[..done] + outp0[done..] && (inp != outp ==> inp[..] == inp0)
    {
      ghost var was, at, now := Tap(ctx', partial[nblock - npartial'..]), done, inp[..];
      npartial', ctx', done := XorTurn(partial, npartial', nblock, inp, outp, done, nbytes, next, ctx');
      StreamStep(next, nblock, tap, was, inp0, outp0, now, inp == outp, nbytes, at, done);
    }
    assert result[..nbytes] == result;
  }

  /** The pieces of a turn join what was written before. */
  lemma StreamStep<S(!new)>(next: Source<S>, n: nat, tap: Tap<S>, was: Tap<S>, inp0: Bytes, outp0: Bytes, now: Bytes,
                            same: bool, nbytes: nat, at: nat, done: nat)
    requires Sized(next, n) && was == After(next, n, tap, at)
    requires at < done <= nbytes <= |inp0| && nbytes <= |outp0| && (same ==> inp0 == outp0)
    requires var result := Xor(inp0[..nbytes], Key(next, n, tap, nbytes));
      now == if same then result[..at] + outp0[at..] else inp0
    ensures var result := Xor(inp0[..nbytes], Key(next, n, tap, nbytes));
      var m := result[..at] + outp0[at..];
      m[..at] + Xor(now[at..done], Key(next, n, was, done - at)) + m[done..] == result[..done] + outp0[done..]
    ensures After(next, n, was, done - at) == After(next, n, tap, done)
  {
    hide Key, After;
    var key := Key(next, n, tap, nbytes);
    KeyConcat(next, n, tap, at, done - at);
    KeyConcat(next, n, tap, done, nbytes - done);
    assert key[at..done] == Key(next, n, was, done - at);
    SliceAfter(Xor(inp0[..nbytes], key)[..at], outp0, at, done);
    SliceTwice(inp0, nbytes, at, done);
    assert now[at..done] == inp0[at..done];
    XorParts(inp0[..nbytes], key, at, done - at);
  }

  lemma SliceTwice(s: Bytes, n: nat, i: nat, j: nat)
    requires i <= j <= n <= |s|
    ensures s[..n][i..j] == s[i..j]
  {}

  lemma SliceAfter(a: Bytes, o: Bytes, i: nat, j: nat)
    requires |a| == i <= j <= |o|
    ensures (a + o[i..])[i..j] == o[i..j]
  {}

  lemma RefillKey<S(!new)>(next: Source<S>, n: nat, tap: Tap<S>, k: nat)
    requires Sized(next, n) && k > 0
    ensures var t := Refill(next, n, tap);
      Key(next, n, tap, k) == Key(next, n, t, k) && After(next, n, tap, k) == After(next, n, t, k)
  {}

  /** xor_bb at one place of two arrays, which may be the same. */
  method XorBytes(outp: array<byte>, at: nat, inp: array<byte>, key: array<byte>, offset: nat, len: nat)
    requires at + len <= inp.Length && at + len <= outp.Length && offset + len <= key.Length && key != outp
    modifies outp
    ensures outp[..] == old(outp[..])[..at] + Xor(old(inp[..])[at..at + len], key[offset..offset + len]) + old(outp[..])[at + len..]
  {
    hide XorByte;
    var i := 0;
    while i < len
      invariant i <= len
      invariant outp[..at] == old(outp[..at]) && outp[at + len..] == old(outp[at + len..])
      invariant forall j :: at <= j < at + i ==> outp[j] == XorByte(old(inp[j]), key[offset + (j - at)])
      invariant forall j :: at + i <= j < at + len ==> inp[j] == old(inp[j])
    {
      outp[at + i] := XorByte(inp[at + i], key[offset + i]);
      i := i + 1;
    }
  }

  /** A part of the xor is the xor of the parts. */
  lemma XorParts(x: Bytes, y: Bytes, at: nat, len: nat)
    requires |x| == |y| && at + len <= |x|
    ensures Xor(x, y)[at..at + len] == Xor(x[at..at + len], y[at..at + len])
    ensures Xor(x, y)[..at + len] == Xor(x, y)[..at] + Xor(x, y)[at..at + len]
  {}
}
