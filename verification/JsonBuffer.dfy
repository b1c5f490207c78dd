/** The printer of cJSON.c that writes into one growing buffer. */
module JsonBuffer {
  import opened JsonSpec
  import opened JsonPrint

  // ---------------------------------------------------------------- the size of a new buffer

  /** The least power of two times `p` that is at least `x`. */
  function Doubled(p: nat, x: nat): (r: nat)
    requires p >= 1
    ensures r >= x && r >= p && (r == p || r < 2 * x)
    decreases if p < x then x - p else 0
  {
    if p >= x then p else Doubled(2 * p, x)
  }

  /** The least power of two that is at least `x`. */
  function Pow2AtLeast(x: nat): (r: nat)
    ensures r >= x
  {
    Doubled(1, x)
  }

  /** The bit smearing of pow2gt: every bit below a set one is set too. */
  function Smear(a: bv32): bv32 {
    var b := a | (a >> 1);
    var c := b | (b >> 2);
    var d := c | (c >> 4);
    var e := d | (d >> 8);
    e | (e >> 16)
  }

  /** So one more than the smeared predecessor is a power of two, at least `x` and less than twice `x`. */
  lemma SmearedIsPower(x: bv32)
    requires 1 <= x <= 0x4000_0000
    ensures var r := Smear(x - 1) + 1;
      r >= x && r >> 1 < x && r != 0 && r & (r - 1) == 0
  {}

  /** The word as a number, and the shifts by one. */
  function Val(a: bv32): nat {
    a as nat
  }

  function Half(a: bv32): bv32 {
    a >> 1
  }

  function Twice(y: bv32, low: bool): bv32 {
    if low then (y << 1) | 1 else y << 1
  }

  lemma SmearHalf(a: bv32)
    requires a != 0
    ensures Smear(a) == Twice(Smear(Half(a)), true) && Smear(Half(a)) < 0x8000_0000
  {}

  lemma ShiftVal(y: bv32)
    requires y < 0x8000_0000
    ensures (y << 1) as nat == 2 * (y as nat)
    ensures ((y << 1) | 1) as nat == 2 * (y as nat) + 1
  {}

  lemma ValShift(y: bv32)
    requires y < 0x8000_0000
    ensures Val(y << 1) == 2 * Val(y) && Val((y << 1) | 1) == 2 * Val(y) + 1
  {
    ShiftVal(y);
  }

  lemma ValTwice(y: bv32)
    requires y < 0x8000_0000
    ensures Val(Twice(y, false)) == 2 * Val(y) && Val(Twice(y, true)) == 2 * Val(y) + 1
  {
    hide Val;
    ValShift(y);
  }

  lemma ValBelow(y: bv32)
    requires Val(y) < 0x8000_0000
    ensures y < 0x8000_0000
  {}

  lemma HalfTwice(a: bv32)
    ensures Half(a) < 0x8000_0000 && (a == Twice(Half(a), false) || a == Twice(Half(a), true))
  {}

  lemma ValZero(a: bv32)
    ensures Val(a) == 0 <==> a == 0
    ensures Smear(0) == 0
  {}

  /** The word of a number, bit by bit. */
  function WordOf(n: nat): (a: bv32)
    requires n < 0x1_0000_0000
  {
    if n == 0 then 0 else Twice(WordOf(n / 2), n % 2 == 1)
  }

  lemma {:induction false} ValOf(n: nat)
    requires n < 0x1_0000_0000
    ensures Val(WordOf(n)) == n
  {
    hide Val, Twice;
    if n == 0 {
      ValZero(0);
    } else {
      ValOf(n / 2);
      ValBelow(WordOf(n / 2));
      ValTwice(WordOf(n / 2));
    }
  }

  lemma {:induction false} DoubledScales(p: nat, x: nat)
    requires p >= 1
    ensures Doubled(2 * p, x) == 2 * Doubled(p, (x + 1) / 2)
    decreases if 2 * p < x then x - 2 * p else 0
  {
    if 2 * p < x { DoubledScales(2 * p, x); }
  }

  /** The smeared word and one is the least power of two above the word. */
  lemma {:induction false} SmearedIsDoubled(a: bv32)
    ensures Val(Smear(a)) + 1 == Pow2AtLeast(Val(a) + 1)
    decreases Val(a)
  {
    hide Smear, Val, Half, Twice;
    ValZero(a);
    if a != 0 {
      SmearHalf(a);
      HalfTwice(a);
      ValTwice(Half(a));
      ValZero(Half(a));
      SmearedIsDoubled(Half(a));
      ValTwice(Smear(Half(a)));
      DoubledScales(1, Val(a) + 1);
    }
  }

  /** pow2gt, for every size whose result an int can hold. */
  method Pow2Gt(x: nat) returns (r: nat)
    requires 1 <= x <= 0x4000_0000
    ensures r == Pow2AtLeast(x)
  {
    hide Smear, Val, WordOf;
    var a := WordOf(x - 1);
    ValOf(x - 1);
    SmearedIsDoubled(a);
    r := Val(Smear(a)) + 1;
  }

  class PrintBuffer {
    var buffer: array<char>
    var length: nat
    var offset: nat

    ghost predicate Valid()
      reads this
    {
      length == buffer.Length && offset <= length
    }

    /** The text up to the offset. */
    ghost function Done(): string
      requires Valid()
      reads this, buffer
    {
      buffer[..offset]
    }

    /** A value was printed behind `pre`: its text stands there with a NUL, and the offset is somewhere
        in it until the next update. */
    ghost predicate Wrote(pre: string, text: string)
      reads this, buffer
    {
      && Valid() && |pre| <= offset <= |pre| + |text| < length
      && buffer[..|pre| + |text|] == pre + text && buffer[|pre| + |text|] == '\0'
    }

    constructor (prebuffer: nat)
      ensures Valid() && Done() == "" && fresh(buffer)
    {
      buffer := new char[prebuffer];
      length, offset := prebuffer, 0;
    }

    /** ensure: room for `needed` bytes behind the offset, in the old buffer or in a larger copy. */
    method Ensure(needed: nat)
      requires Valid()
      modifies this
      ensures Valid() && offset == old(offset) && offset + needed <= length
      ensures old(length) <= length && buffer[..old(length)] == old(buffer[..])
      ensures buffer == old(buffer) || fresh(buffer)
    {
      if needed + offset <= length {
        return;
      }
      var newSize: nat;
      if needed + offset <= 0x4000_0000 {
        newSize := Pow2Gt(needed + offset);
      } else {
        // pow2gt overflows an int here; the model goes on doubling
        newSize := Pow2AtLeast(needed + offset);
      }
      var newBuffer := new char[newSize];
      var i := 0;
      while i < length
        invariant i <= length <= newSize && newBuffer[..i] == buffer[..i]
        modifies newBuffer
      {
        newBuffer[i] := buffer[i];
        i := i + 1;
      }
      length := newSize;
      buffer := newBuffer;
    }

    /** update: the offset moves to the NUL. */
    method Update(ghost pre: string, ghost text: string)
      requires Wrote(pre, text) && '\0' !in text
      modifies this`offset
      ensures Valid() && Done() == pre + text && offset < length && buffer[offset] == '\0'
    {
      ghost var whole := pre + text;
      forall k | |pre| <= k < |whole| ensures buffer[k] != '\0' {
        assert buffer[k] == buffer[..|whole|][k] && whole[k] == text[k - |pre|];
      }
      while buffer[offset] != '\0'
        invariant |pre| <= offset <= |whole| < length && buffer[|whole|] == '\0'
        decreases |whole| - offset
      {
        offset := offset + 1;
      }
    }

    /** Bytes are written at the offset and the offset moves behind them. */
    method Put(s: string, needed: nat)
      requires Valid() && |s| <= needed
      modifies this, buffer
      ensures Valid() && Done() == old(Done()) + s
      ensures buffer == old(buffer) || fresh(buffer)
    {
      Ensure(needed);
      ghost var pre := Done();
      CopyAt(buffer, offset, s);
      offset := offset + |s|;
      assert buffer[..offset] == buffer[..][..offset];
    }

    /** Bytes and a NUL are written at the offset, which stays before them. */
    method Close(s: string, needed: nat)
      requires Valid() && |s| + 1 <= needed
      modifies this, buffer
      ensures Wrote(old(Done()), s)
      ensures buffer == old(buffer) || fresh(buffer)
    {
      Ensure(needed);
      ghost var pre := Done();
      CopyAt(buffer, offset, s + "\0");
      Landed(pre, s, buffer[..], "");
    }

    /** print_string_ptr into the buffer. */
    method PrintString(s: string)
      requires Valid() && '\0' !in s
      modifies this, buffer
      ensures Wrote(old(Done()), Quote(s))
      ensures buffer == old(buffer) || fresh(buffer)
    {
      hide Quote, EscapeAll, Spliced;
      var flag, len := QuotedLength(s);
      Ensure(len + 3);
      ghost var pre, was := Done(), buffer[..];
      WriteQuoted(buffer, offset, s, flag, len);
      SplicedLanded(was, offset, Quote(s), buffer[..]);
    }

    /** print_value into the buffer. */
    method PrintInto(t: Json, depth: nat, fmt: bool)
      requires Valid() && Renderable(t)
      modifies this, buffer
      ensures Wrote(old(Done()), Print(t, depth, fmt))
      ensures buffer == old(buffer) || fresh(buffer)
      decreases t, 3
    {
      hide PrintItems, PrintMembers, Wrote;
      match t {
        case Null => Close("null", 5);
        case False => Close("false", 6);
        case True => Close("true", 5);
        case Num(i, d) => if d == 0.0 { Close("0", 2); } else { NumberFits(i); Close(Dec(i), 21); }
        case Str(s) => PrintString(s);
        case Arr(items) => PrintArrayInto(items, depth, fmt);
        case Obj(members) => PrintObjectInto(members, depth, fmt);
      }
    }

    /** print_array into the buffer. */
    method PrintArrayInto(items: seq<Json>, depth: nat, fmt: bool)
      requires Valid() && Renderable(Arr(items))
      modifies this, buffer
      ensures Wrote(old(Done()), Print(Arr(items), depth, fmt))
      ensures buffer == old(buffer) || fresh(buffer)
      decreases items, 1
    {
      hide PrintItems, Print, Wrote, Renderable;
      ghost var pre, body := Done(), PrintItems(items, 0, depth, fmt);
      ArrayText(items, depth, fmt);
      if |items| == 0 {
        Close("[]", 3);
        return;
      }
      Put("[", 1);
      PrintItemsInto(items, depth, fmt);
      Close("]", 2);
      Rejoin(pre, "[", body, "]");
      Relanded(pre, "[" + body, pre + "[" + body, "]");
    }

    /** The loop of print_array. */
    method PrintItemsInto(items: seq<Json>, depth: nat, fmt: bool)
      requires Valid() && Renderable(Arr(items))
      modifies this, buffer
      ensures Valid() && Done() == old(Done()) + PrintItems(items, 0, depth, fmt)
      ensures buffer == old(buffer) || fresh(buffer)
      decreases items, 0
    {
      hide PrintItems, Print;
      ghost var whole := Done() + PrintItems(items, 0, depth, fmt);
      var i := 0;
      while i < |items|
        invariant i <= |items| && Valid() && (buffer == old(buffer) || fresh(buffer))
        invariant Done() + PrintItems(items, i, depth, fmt) == whole
      {
        ghost var done := Done();
        ItemsStep(items, i, depth, fmt, done);
        PrintNoNul(items[i], depth + 1, fmt);
        PrintInto(items[i], depth + 1, fmt);
        Update(done, Print(items[i], depth + 1, fmt));
        if i + 1 < |items| {
          Put(Comma(fmt), if fmt then 3 else 2);
        } else {
          assert Done() + "" == Done();
        }
        i := i + 1;
      }
      NoItems(items, depth, fmt);
      assert Done() + "" == Done();
    }

    /** print_object into the buffer. */
    method PrintObjectInto(members: seq<Member>, depth: nat, fmt: bool)
      requires Valid() && Renderable(Obj(members))
      modifies this, buffer
      ensures Wrote(old(Done()), Print(Obj(members), depth, fmt))
      ensures buffer == old(buffer) || fresh(buffer)
      decreases members, 2
    {
      hide PrintMembers, Print, Tabs, Wrote, Renderable, Break, EmptyObject;
      ghost var pre, body := Done(), PrintMembers(members, 0, depth + 1, fmt);
      ObjectText(members, depth, fmt);
      if |members| == 0 {
        EmptyLength(depth, fmt);
        Close(EmptyObject(depth, fmt), if fmt then depth + 4 else 3);
        return;
      }
      var open := "{" + Break(fmt);
      Put(open, |open| + 1);
      PrintMembersInto(members, depth + 1, fmt);
      var close := (if fmt then Tabs(depth) else "") + "}";
      Close(close, |close| + 1);
      Rejoin(pre, open, body, close);
      Relanded(pre, open + body, pre + open + body, close);
    }

    /** The loop of print_object. */
    method PrintMembersInto(members: seq<Member>, depth: nat, fmt: bool)
      requires Valid() && Renderable(Obj(members))
      modifies this, buffer
      ensures Valid() && Done() == old(Done()) + PrintMembers(members, 0, depth, fmt)
      ensures buffer == old(buffer) || fresh(buffer)
      decreases members, 1
    {
      hide PrintMembers, Print, Tabs, Renderable;
      ghost var whole := Done() + PrintMembers(members, 0, depth, fmt);
      var i := 0;
      while i < |members|
        invariant i <= |members| && Valid() && (buffer == old(buffer) || fresh(buffer))
        invariant Done() + PrintMembers(members, i, depth, fmt) == whole
      {
        PrintMemberInto(members, i, depth, fmt, whole);
        i := i + 1;
      }
      NoMembers(members, depth, fmt);
      assert Done() + "" == Done();
    }

    /** A value closed behind its opening was printed behind what stood before. */
    lemma Relanded(pre: string, body: string, whole: string, close: string)
      requires whole == pre + body && Wrote(whole, close)
      ensures Wrote(pre, body + close)
    {
      assert pre + (body + close) == whole + close;
    }

    /** One turn of the loop of print_object. */
    method PrintMemberInto(members: seq<Member>, i: nat, depth: nat, fmt: bool, ghost whole: string)
      requires Valid() && Renderable(Obj(members)) && i < |members|
      requires Done() + PrintMembers(members, i, depth, fmt) == whole
      modifies this, buffer
      ensures Valid() && Done() + PrintMembers(members, i + 1, depth, fmt) == whole
      ensures buffer == old(buffer) || fresh(buffer)
      decreases members, 0
    {
      hide PrintMembers, Print, Quote, Tabs;
      var m := members[i];
      MembersStep(members, i, depth, fmt, Done());
      if fmt {
        Put(Tabs(depth), depth);
      } else {
        assert Done() + "" == Done();
      }
      ghost var done := Done();
      QuoteNoNul(m.name);
      PrintString(m.name);
      Update(done, Quote(m.name));
      Put(if fmt then ":\t" else ":", if fmt then 2 else 1);
      done := Done();
      PrintNoNul(m.value, depth, fmt);
      PrintInto(m.value, depth, fmt);
      Update(done, Print(m.value, depth, fmt));
      var tail := (if i + 1 < |members| then "," else "") + Break(fmt);
      done := Done();
      Put(tail, |tail| + 1);
      Tail(done, if i + 1 < |members| then "," else "", Break(fmt));
    }
  }

  // ---------------------------------------------------------------- texts

  lemma ArrayText(items: seq<Json>, depth: nat, fmt: bool)
    ensures Print(Arr(items), depth, fmt)
      == if items == [] then "[]" else "[" + PrintItems(items, 0, depth, fmt) + "]"
  {
    hide PrintItems;
  }

  lemma ObjectText(members: seq<Member>, depth: nat, fmt: bool)
    ensures Print(Obj(members), depth, fmt) ==
      if members == [] then EmptyObject(depth, fmt)
      else "{" + Break(fmt) + PrintMembers(members, 0, depth + 1, fmt) + ((if fmt then Tabs(depth) else "") + "}")
  {
    hide PrintMembers, Tabs;
    if members != [] {
      Assoc("{" + Break(fmt) + PrintMembers(members, 0, depth + 1, fmt), if fmt then Tabs(depth) else "", "}");
    }
  }

  lemma Assoc(a: string, b: string, c: string)
    ensures a + b + c == a + (b + c)
  {}

  lemma Tail(a: string, b: string, c: string)
    ensures a + (b + c) == a + b + c
  {}

  lemma Rejoin(pre: string, open: string, body: string, close: string)
    ensures pre + open + body == pre + (open + body)
    ensures open + body + close == (open + body) + close
  {}

  lemma EmptyLength(depth: nat, fmt: bool)
    ensures |EmptyObject(depth, fmt)| + 1 <= if fmt then depth + 4 else 3
  {}

  lemma Landed(pre: string, s: string, now: string, rest: string)
    requires |pre| + |s| + 1 <= |now| && now[..|pre| + |s| + 1] == pre + (s + "\0")
    ensures now[..|pre| + |s|] == pre + s && now[|pre| + |s|] == '\0'
  {
    assert now[|pre| + |s|] == now[..|pre| + |s| + 1][|pre| + |s|];
  }

  lemma SplicedLanded(was: string, at: nat, s: string, now: string)
    requires at + |s| + 1 <= |was| && now == Spliced(was, at, s + "\0")
    ensures |now| == |was| && now[..at + |s|] == was[..at] + s && now[at + |s|] == '\0'
  {}

  /** cJSON_PrintBuffered, for any guess of the size. */
  method PrintBuffered(t: Json, prebuffer: nat, fmt: bool) returns (r: string)
    requires Renderable(t)
    ensures r == Print(t, 0, fmt)
  {
    hide Print;
    var p := new PrintBuffer(prebuffer);
    p.PrintInto(t, 0, fmt);
    PrintNoNul(t, 0, fmt);
    p.Update("", Print(t, 0, fmt));
    assert "" + Print(t, 0, fmt) == Print(t, 0, fmt);
    r := p.buffer[..p.offset];
  }

  /** The two printers give the same text. */
  method PrintersAgree(t: Json, prebuffer: nat, fmt: bool) returns (once: string, buffered: string)
    requires Renderable(t)
    ensures once == buffered == Print(t, 0, fmt)
  {
    once := PrintAllocated(t, fmt);
    buffered := PrintBuffered(t, prebuffer, fmt);
  }
}
