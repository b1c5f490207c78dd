/** pb_decode.c: the decoder over input streams, message memory and the required-field bitset. */
module PbDecode {
  import opened Division
  import opened PbBytes
  import opened PbWire
  import opened PbTypes
  import opened PbBits
  import opened PbEncodeSpec
  import opened PbDecodeSpec
  import opened PbMoves
  import opened PbIter

  // ---------------------------------------------------------------- varint loops

  /** `acc` collected from `k` groups, joined with the groups still to be read. */
  function Join(acc: int, k: nat, r: Read<nat>): Read<int> {
    if r.Ok? then Ok(acc + Pow128(k) * r.value, r.rest) else r
  }

  lemma JoinStep(limit: nat, acc: int, k: nat, w: seq<byte>)
    requires limit > 0 && w != []
    ensures Join(acc, k, Groups(limit, w)) ==
      if w[0] < 128 then Ok(acc + w[0] * Pow128(k), w[1..])
      else Join(acc + (w[0] - 128) * Pow128(k), k + 1, Groups(limit - 1, w[1..]))
  {
    if w[0] >= 128 && Groups(limit - 1, w[1..]).Ok? {
      Spread(Pow128(k), w[0] - 128, Groups(limit - 1, w[1..]).value);
    }
  }

  lemma Spread(p: int, g: int, v: int)
    ensures p * (g + 128 * v) == g * p + (128 * p) * v
  {}

  /** The quick case of pb_decode_varint32, and its first group otherwise. */
  lemma FirstGroup(limit: nat, w: seq<byte>)
    requires limit > 0 && w != []
    ensures Groups(limit, w) ==
      if w[0] < 128 then Ok(w[0], w[1..]) else Join(w[0] - 128, 1, Groups(limit - 1, w[1..]))
  {
    JoinStep(limit, 0, 0, w);
  }

  lemma JoinNone(r: Read<nat>)
    ensures Join(0, 0, r) == r
  {}

  lemma JoinStops(limit: nat, acc: int, k: nat, w: seq<byte>)
    requires limit == 0 || w == []
    ensures Join(acc, k, Groups(limit, w)) == Fail(w)
  {}

  /** `x << n` before it is cut to the width of the result word. */
  function ShiftLeft(x: nat, n: nat): (r: nat) {
    x * Pow2(n)
  }

  lemma {:induction false} Pow2Groups(k: nat)
    ensures Pow2(7 * k) == Pow128(k)
  {
    if k > 0 {
      Pow2Groups(k - 1);
      Pow2Seven(7 * (k - 1));
    }
  }

  lemma Pow2Seven(n: nat)
    ensures Pow2(n + 7) == 128 * Pow2(n)
  {
    assert Pow2(n + 2) == 4 * Pow2(n);
    assert Pow2(n + 4) == 4 * Pow2(n + 2);
    assert Pow2(n + 6) == 4 * Pow2(n + 4);
  }

  /** Bits shifted out early are bits of no consequence. */
  lemma WrapSum(acc: int, x: int, m: int)
    requires m > 0
    ensures (acc % m + x) % m == (acc + x) % m
  {
    assert acc % m + x == acc + x + (-(acc / m)) * m;
    ModAddMultiple(acc + x, -(acc / m), m);
  }

  function WithGroup(acc: int, b: byte, k: nat): int {
    acc + b % 128 * Pow128(k)
  }

  /** One more group: the spread of the rest, and the word it is added to modulo the word's width. */
  lemma NextGroup(limit: nat, acc: int, k: nat, w: seq<byte>, m: int)
    requires limit > 0 && w != [] && m > 0
    ensures Join(acc, k, Groups(limit, w)) ==
      if w[0] < 128 then Ok(WithGroup(acc, w[0], k), w[1..])
      else Join(WithGroup(acc, w[0], k), k + 1, Groups(limit - 1, w[1..]))
    ensures (acc % m + ShiftLeft(w[0] % 128, 7 * k)) % m == WithGroup(acc, w[0], k) % m
  {
    hide Groups, Join, Pow128, Pow2;
    JoinStep(limit, acc, k, w);
    Pow2Groups(k);
    WrapSum(acc, w[0] % 128 * Pow128(k), m);
  }

  /** Four bytes, the first the lowest. */
  function Word(b0: int, b1: int, b2: int, b3: int): int {
    b0 + 0x100 * b1 + 0x1_0000 * b2 + 0x100_0000 * b3
  }

  lemma FourMore(b: seq<byte>)
    requires |b| >= 4
    ensures LittleEndianValue(b) == Word(b[0], b[1], b[2], b[3]) + 0x1_0000_0000 * LittleEndianValue(b[4..])
  {
    var t := b[1..];
    var u := t[1..];
    var v := u[1..];
    LowByte(b); LowByte(t); LowByte(u); LowByte(v);
    hide LittleEndianValue;
    assert t[0] == b[1] && u[0] == b[2] && v[0] == b[3];
    assert v[1..] == b[4..];
  }

  lemma LowByte(b: seq<byte>)
    requires b != []
    ensures LittleEndianValue(b) == b[0] + 256 * LittleEndianValue(b[1..])
  {}

  lemma FourByteValue(b: seq<byte>)
    requires |b| == 4
    ensures LittleEndianValue(b) == Word(b[0], b[1], b[2], b[3])
  {
    FourMore(b);
  }

  lemma EightByteValue(b: seq<byte>)
    requires |b| == 8
    ensures LittleEndianValue(b) == Word(b[0], b[1], b[2], b[3]) + 0x1_0000_0000 * Word(b[4], b[5], b[6], b[7])
  {
    hide LittleEndianValue;
    FourMore(b);
    FourByteValue(b[4..]);
  }

  // ---------------------------------------------------------------- streams

  /** pb_istream_t over a buffer. `end` is where the enclosing window ends. */
  class IStream {
    const buf: seq<byte>
    ghost const end: nat
    var state: nat
    var bytesLeft: nat

    ghost predicate Valid()
      reads this
    {
      state + bytesLeft <= end <= |buf|
    }

    /** The bytes this stream may still read. */
    ghost function Unread(): (w: seq<byte>)
      requires Valid()
      reads this
      ensures |w| == bytesLeft
    {
      buf[state..state + bytesLeft]
    }

    /** The bytes from the position to the end of the enclosing window. */
    ghost function Tape(): (t: seq<byte>)
      requires Valid()
      reads this
      ensures |t| >= bytesLeft
    {
      buf[state..end]
    }

    /** The stream stands before `rest`, and its window still ends at `stop`. */
    ghost predicate At(rest: seq<byte>, stop: nat)
      reads this
    {
      Valid() && Unread() == rest && state + bytesLeft == stop
    }

    lemma WindowIsUnread()
      requires Valid()
      ensures Window(Tape(), bytesLeft) == Unread()
    {}

    /** A read inside the window, seen from the enclosing window. */
    twostate lemma TapeAfter(rest: seq<byte>)
      requires old(Valid()) && At(rest, old(state + bytesLeft)) && Suffix(rest, old(Unread()))
      ensures Tape() == Tail(old(Tape()), old(bytesLeft), rest) && bytesLeft == |rest|
    {
      assert bytesLeft == |rest|;
    }

    /** pb_istream_from_buffer. */
    constructor (bytes: seq<byte>, size: nat)
      requires size <= |bytes|
      ensures Valid() && buf == bytes && bytesLeft == size && Tape() == bytes[..size]
    {
      buf, end, state, bytesLeft := bytes, size, 0, size;
    }

    /** The copy of the parent that pb_make_string_substream limits to `size` bytes. */
    constructor Limited(parent: IStream, size: nat)
      requires parent.Valid() && size <= parent.bytesLeft
      ensures Valid() && buf == parent.buf && end == state + size
      ensures state == parent.state && bytesLeft == size
    {
      buf, end, state, bytesLeft := parent.buf, parent.state + size, parent.state, size;
    }

    /** pb_readbyte. */
    method ReadByte() returns (ok: bool, b: byte)
      requires Valid()
      modifies this
      ensures ok <==> old(Unread()) != []
      ensures ok ==> b == old(Unread())[0] && At(old(Unread())[1..], old(state + bytesLeft))
      ensures !ok ==> At([], old(state + bytesLeft))
    {
      if bytesLeft == 0 {
        return false, 0;
      }
      b := buf[state];
      state := state + 1;
      bytesLeft := bytesLeft - 1;
      ok := true;
    }

    /** pb_read with the copy loop of buf_read. */
    method Read(count: nat) returns (ok: bool, bytes: seq<byte>)
      requires Valid()
      modifies this
      ensures ok <==> count <= |old(Unread())|
      ensures ok ==> bytes == old(Unread())[..count] && At(old(Unread())[count..], old(state + bytesLeft))
      ensures !ok ==> At(old(Unread()), old(state + bytesLeft))
    {
      if bytesLeft < count {
        return false, [];
      }
      bytes := [];
      while |bytes| < count
        invariant |bytes| <= count && bytes == buf[state..state + |bytes|]
      {
        bytes := bytes + [buf[state + |bytes|]];
      }
      state := state + count;
      bytesLeft := bytesLeft - count;
      ok := true;
    }

    /** pb_decode_varint32. */
    method DecodeVarint32() returns (ok: bool, dest: nat)
      requires Valid()
      modifies this
      ensures At(Varint32(old(Unread())).rest, old(state + bytesLeft))
      ensures ok <==> Varint32(old(Unread())).Ok?
      ensures ok ==> dest == Varint32(old(Unread())).value
    {
      hide Groups, Join, Pow128, Pow2;
      ghost var w := Unread();
      ghost var target := Groups(5, w);
      dest := 0;
      var b;
      ok, b := ReadByte();
      if !ok {
        JoinStops(5, 0, 0, w);
        JoinNone(target);
        return;
      }
      FirstGroup(5, w);
      if b < 128 {
        dest := b;
        ModSmall(b, TWO32);
        return;
      }
      ok, dest := DecodeMultibyte32(b, target);
    }

    /** The multibyte case of pb_decode_varint32, after its first byte. */
    method DecodeMultibyte32(first: byte, ghost target: Read<nat>) returns (ok: bool, dest: nat)
      requires Valid() && first >= 128 && target == Join(first - 128, 1, Groups(4, Unread()))
      modifies this
      ensures At(target.rest, old(state + bytesLeft))
      ensures ok <==> target.Ok?
      ensures ok ==> dest == target.value % TWO32
    {
      hide Groups, Join, Pow128, Pow2, ShiftLeft, WithGroup;
      dest := 0;
      var b := first;
      var bitpos: nat, result: nat := 7, b % 128;
      ghost var acc: int, k: nat := first - 128, 1;
      ModSmall(acc, TWO32);
      while true
        invariant Valid() && state + bytesLeft == old(state + bytesLeft)
        invariant bitpos == 7 * k && 1 <= k <= 5 && result == acc % TWO32
        invariant target == Join(acc, k, Groups(5 - k, Unread()))
        decreases 5 - k
      {
        ghost var before := Unread();
        if bitpos >= 32 {
          JoinStops(5 - k, acc, k, before);
          return false, 0;
        }
        ok, b := ReadByte();
        if !ok {
          JoinStops(5 - k, acc, k, before);
          return;
        }
        NextGroup(5 - k, acc, k, before, TWO32);
        result := (result + ShiftLeft(b % 128, bitpos)) % TWO32;
        acc := WithGroup(acc, b, k);
        bitpos, k := bitpos + 7, k + 1;
        if b < 128 {
          dest := result;
          return;
        }
      }
    }

    /** pb_decode_varint. */
    method DecodeVarint() returns (ok: bool, dest: nat)
      requires Valid()
      modifies this
      ensures At(Varint64(old(Unread())).rest, old(state + bytesLeft))
      ensures ok <==> Varint64(old(Unread())).Ok?
      ensures ok ==> dest == Varint64(old(Unread())).value
    {
      hide Groups, Join, Pow128, Pow2, ShiftLeft, WithGroup;
      ghost var target := Groups(10, Unread());
      JoinNone(target);
      var bitpos: nat, result: nat, b := 0, 0, 0;
      ghost var acc: int, k: nat := 0, 0;
      dest := 0;
      while true
        invariant Valid() && state + bytesLeft == old(state + bytesLeft)
        invariant bitpos == 7 * k && k <= 10 && result == acc % TWO64
        invariant target == Join(acc, k, Groups(10 - k, Unread()))
        decreases 10 - k
      {
        ghost var before := Unread();
        if bitpos >= 64 {
          JoinStops(10 - k, acc, k, before);
          return false, 0;
        }
        ok, b := ReadByte();
        if !ok {
          JoinStops(10 - k, acc, k, before);
          return;
        }
        NextGroup(10 - k, acc, k, before, TWO64);
        result := (result + ShiftLeft(b % 128, bitpos)) % TWO64;
        acc := WithGroup(acc, b, k);
        bitpos, k := bitpos + 7, k + 1;
        if b < 128 {
          dest := result;
          return;
        }
      }
    }

    /** pb_skip_varint. */
    method SkipVarint() returns (ok: bool)
      requires Valid()
      modifies this
      ensures At(PbDecodeSpec.SkipVarint(old(Unread())).rest, old(state + bytesLeft))
      ensures ok <==> PbDecodeSpec.SkipVarint(old(Unread())).Ok?
    {
      var b;
      while true
        invariant Valid() && state + bytesLeft == old(state + bytesLeft)
        invariant PbDecodeSpec.SkipVarint(Unread()) == PbDecodeSpec.SkipVarint(old(Unread()))
        decreases bytesLeft
      {
        ok, b := ReadByte();
        if !ok || b < 128 {
          return;
        }
      }
    }

    /** pb_skip_string. */
    method SkipString() returns (ok: bool)
      requires Valid()
      modifies this
      ensures At(PbDecodeSpec.SkipField(WT_STRING, old(Unread())).rest, old(state + bytesLeft))
      ensures ok <==> PbDecodeSpec.SkipField(WT_STRING, old(Unread())).Ok?
    {
      hide Varint32;
      var length, bytes;
      ok, length := DecodeVarint32();
      if ok {
        ok, bytes := Read(length);
      }
    }

    /** pb_skip_field. */
    method SkipField(wt: nat) returns (ok: bool)
      requires Valid()
      modifies this
      ensures At(PbDecodeSpec.SkipField(wt, old(Unread())).rest, old(state + bytesLeft))
      ensures ok <==> PbDecodeSpec.SkipField(wt, old(Unread())).Ok?
    {
      hide Varint32, PbDecodeSpec.SkipVarint;
      var bytes;
      if wt == WT_VARINT {
        ok := SkipVarint();
      } else if wt == WT_64BIT {
        ok, bytes := Read(8);
      } else if wt == WT_STRING {
        ok := SkipString();
      } else if wt == WT_32BIT {
        ok, bytes := Read(4);
      } else {
        ok := false;
      }
    }

    /** pb_decode_tag. */
    method DecodeTag() returns (ok: bool, wt: nat, tag: nat, eof: bool)
      requires Valid()
      modifies this
      ensures var r := DecTag(old(Unread()));
        && (ok <==> r.Record?) && (eof <==> r.EndOfMessage?)
        && (ok ==> wt == r.wt && tag == r.tag < 0x2000_0000)
        && At(r.rest, old(state + bytesLeft))
    {
      hide Varint32;
      wt, tag, eof := 0, 0, false;
      var temp;
      ok, temp := DecodeVarint32();
      if !ok {
        if bytesLeft == 0 {
          eof := true;
        }
        return;
      }
      if temp == 0 {
        return false, 0, 0, true;
      }
      tag := temp / 8;
      wt := temp % 8;
    }

    // -------------------------------------------------------------- single values

    /** pb_decode_svarint. */
    method DecodeSvarint() returns (ok: bool, dest: int)
      requires Valid()
      modifies this
      ensures At(Varint64(old(Unread())).rest, old(state + bytesLeft))
      ensures ok <==> Varint64(old(Unread())).Ok?
      ensures ok ==> dest == UnZigZag(Varint64(old(Unread())).value)
    {
      hide Varint64, ToSigned;
      dest := 0;
      var value;
      ok, value := DecodeVarint();
      if ok {
        if value % 2 == 1 {
          dest := ToSigned(64, TWO64 - 1 - value / 2);
        } else {
          dest := ToSigned(64, value / 2);
        }
      }
    }

    /** pb_decode_fixed32. */
    method DecodeFixed32() returns (ok: bool, n: nat)
      requires Valid()
      modifies this
      ensures var r := DecFixed(4, old(Unread()));
        At(r.rest, old(state + bytesLeft)) && (ok <==> r.Ok?) && (ok ==> r.value == Num(n))
    {
      hide LittleEndianValue;
      var b;
      ok, b := Read(4);
      if !ok {
        return false, 0;
      }
      FourByteValue(b);
      n := Word(b[0], b[1], b[2], b[3]);
    }

    /** pb_decode_fixed64. */
    method DecodeFixed64() returns (ok: bool, n: nat)
      requires Valid()
      modifies this
      ensures var r := DecFixed(8, old(Unread()));
        At(r.rest, old(state + bytesLeft)) && (ok <==> r.Ok?) && (ok ==> r.value == Num(n))
    {
      hide LittleEndianValue;
      var b;
      ok, b := Read(8);
      if !ok {
        return false, 0;
      }
      EightByteValue(b);
      n := Word(b[0], b[1], b[2], b[3]) + 0x1_0000_0000 * Word(b[4], b[5], b[6], b[7]);
    }

    /** pb_dec_varint. */
    method DecVarint(f: Field) returns (ok: bool, v: Value)
      requires Valid() && f.ltype.IntT?
      modifies this
      ensures var r := DecScalar(f, old(Unread()));
        At(r.rest, old(state + bytesLeft)) && (ok <==> r.Ok?) && (ok ==> v == r.value)
    {
      hide Varint64, ToSigned;
      v := Num(0);
      var value;
      ok, value := DecodeVarint();
      if !ok {
        return;
      }
      var svalue := if f.dataSize == 8 then ToSigned(64, value) else ToSigned(32, value);
      var clamped;
      if f.dataSize == 8 {
        clamped := svalue;
        ToSignedInRange(64, value);
        ToSignedInRange(64, svalue);
      } else if f.dataSize == 4 {
        clamped := ToSigned(32, svalue);
      } else if f.dataSize == 2 {
        clamped := ToSigned(16, svalue);
      } else if f.dataSize == 1 {
        clamped := ToSigned(8, svalue);
      } else {
        return false, v;
      }
      if clamped != svalue {
        return false, v;
      }
      v := Num(clamped);
    }

    /** pb_dec_uvarint. */
    method DecUvarint(f: Field) returns (ok: bool, v: Value)
      requires Valid() && f.ltype.UIntT?
      modifies this
      ensures var r := DecScalar(f, old(Unread()));
        At(r.rest, old(state + bytesLeft)) && (ok <==> r.Ok?) && (ok ==> v == r.value)
    {
      hide Varint64, Pow2;
      Pow2Widths();
      v := Num(0);
      var value;
      ok, value := DecodeVarint();
      if !ok {
        return;
      }
      var clamped;
      if f.dataSize == 8 {
        clamped := value;
        ModSmall(value, TWO64);
      } else if f.dataSize == 4 {
        clamped := value % TWO32;
      } else if f.dataSize == 2 {
        clamped := value % 0x1_0000;
      } else if f.dataSize == 1 {
        clamped := value % 0x100;
      } else {
        return false, v;
      }
      if clamped != value {
        return false, v;
      }
      v := Num(clamped);
    }

    /** pb_dec_svarint. */
    method DecSvarint(f: Field) returns (ok: bool, v: Value)
      requires Valid() && f.ltype.SIntT?
      modifies this
      ensures var r := DecScalar(f, old(Unread()));
        At(r.rest, old(state + bytesLeft)) && (ok <==> r.Ok?) && (ok ==> v == r.value)
    {
      hide Varint64, ToSigned, Pow2;
      v := Num(0);
      var value;
      ok, value := DecodeSvarint();
      if !ok {
        return;
      }
      var clamped;
      if f.dataSize == 8 {
        clamped := value;
        UnZigZagInRange(Varint64(old(Unread())).value);
        ToSignedInRange(64, value);
      } else if f.dataSize == 4 {
        clamped := ToSigned(32, value);
      } else if f.dataSize == 2 {
        clamped := ToSigned(16, value);
      } else if f.dataSize == 1 {
        clamped := ToSigned(8, value);
      } else {
        return false, v;
      }
      if clamped != value {
        return false, v;
      }
      v := Num(clamped);
    }

    /** pb_dec_bytes. */
    method DecBytes(f: Field) returns (ok: bool, v: Value)
      requires Valid() && f.ltype.BytesT?
      modifies this
      ensures var r := DecScalar(f, old(Unread()));
        At(r.rest, old(state + bytesLeft)) && (ok <==> r.Ok?) && (ok ==> v == r.value)
    {
      hide Varint32;
      v := Data([]);
      var size, bytes;
      ok, size := DecodeVarint32();
      if !ok {
        return;
      }
      if size > PB_SIZE_MAX {
        return false, v;
      }
      var allocSize := size + BYTES_HEADER;
      if allocSize > f.dataSize {
        return false, v;
      }
      ok, bytes := Read(size);
      v := Data(bytes);
    }

    /** pb_dec_string. */
    method DecString(f: Field) returns (ok: bool, v: Value)
      requires Valid() && f.ltype.StringT?
      modifies this
      ensures var r := DecScalar(f, old(Unread()));
        At(r.rest, old(state + bytesLeft)) && (ok <==> r.Ok?) && (ok ==> v == r.value)
    {
      hide Varint32;
      v := Text([]);
      var size, bytes;
      ok, size := DecodeVarint32();
      if !ok {
        return;
      }
      var allocSize := (size + 1) % TWO32;
      if allocSize < size {
        return false, v;
      }
      if allocSize > f.dataSize {
        return false, v;
      }
      ok, bytes := Read(size);
      v := Text(bytes);
    }

    /** The scalar entries of PB_DECODERS. */
    method DecodeScalar(f: Field) returns (ok: bool, v: Value)
      requires Valid() && !f.ltype.SubT? && !f.ltype.ExtT?
      modifies this
      ensures var r := DecScalar(f, old(Unread()));
        At(r.rest, old(state + bytesLeft)) && (ok <==> r.Ok?) && (ok ==> v == r.value)
    {
      var n: nat;
      match f.ltype {
        case IntT => ok, v := DecVarint(f);
        case UIntT => ok, v := DecUvarint(f);
        case SIntT => ok, v := DecSvarint(f);
        case Fix32T => ok, n := DecodeFixed32(); v := Num(n);
        case Fix64T => ok, n := DecodeFixed64(); v := Num(n);
        case BytesT => ok, v := DecBytes(f);
        case StringT => ok, v := DecString(f);
      }
    }

    // -------------------------------------------------------------- substreams

    /** pb_make_string_substream. */
    method MakeSubstream() returns (ok: bool, sub: IStream)
      requires Valid()
      modifies this
      ensures Valid() && (ok <==> SubWindow(old(Tape()), old(bytesLeft)).Split?)
      ensures !ok ==> SubWindow(old(Tape()), old(bytesLeft)) == NoSplit(Tape(), bytesLeft)
      ensures ok ==> sub.Valid() && fresh(sub) && sub.buf == buf && sub.end <= end
      ensures ok ==> SubWindow(old(Tape()), old(bytesLeft)) == Split(sub.Tape(), buf[sub.end..end], bytesLeft)
      ensures ok ==> sub.bytesLeft == |sub.Tape()| < old(bytesLeft) && sub.end + bytesLeft <= end
    {
      hide Varint32, Groups;
      WindowIsUnread();
      Varint32Suffix(Unread());
      var size;
      ok, size := DecodeVarint32();
      sub := this;
      TapeAfter(Varint32(old(Unread())).rest);
      if !ok {
        return;
      }
      if bytesLeft < size {
        return false, this;
      }
      sub := new IStream.Limited(this, size);
      assert Tape()[..size] == sub.Tape() && Tape()[size..] == buf[sub.end..end];
      bytesLeft := bytesLeft - size;
    }

    /** pb_close_string_substream: the parent goes on where the substream stopped. */
    method CloseSubstream(sub: IStream)
      requires Valid() && sub.Valid() && sub.buf == buf && sub.end <= end && sub.end + bytesLeft <= end
      modifies this
      ensures Valid() && bytesLeft == old(bytesLeft)
      ensures Tape() == sub.Tape() + buf[sub.end..end]
    {
      state := sub.state;
    }

    /** pb_dec_submessage. */
    method DecodeSubmessage(f: Field, start: seq<Slot>) returns (ok: bool, slots: seq<Slot>)
      requires Valid() && FieldOk(f) && f.ltype.SubT? && Shaped(f.ltype.fields, start)
      requires f.htype.Oneof? ==> start == SubStart(f, Msg(start))
      modifies this
      ensures var r := DecItem(f, old(Tape()), old(bytesLeft), Msg(start));
        && Valid() && Tape() == r.tape && bytesLeft == r.left
        && (ok <==> r.GoodItem?) && (ok ==> r.value == Msg(slots))
      decreases bytesLeft, 0
    {
      hide SubWindow, DecLoop, Shaped;
      var fields := f.ltype.fields;
      slots := start;
      var sub;
      ok, sub := MakeSubstream();
      if !ok {
        return;
      }
      if f.htype.Repeated? {
        ok, slots := sub.Decode(fields, start);
      } else {
        ok, slots := sub.DecodeNoInit(fields, start);
      }
      CloseSubstream(sub);
    }

    /** The field decoder chosen by PB_DECODERS. */
    method DecodeItem(f: Field, prior: Value) returns (ok: bool, v: Value)
      requires Valid() && FieldOk(f)
      requires f.ltype.SubT? ==> ValueShaped(f, prior)
      requires f.ltype.SubT? && f.htype.Oneof? ==> prior == Msg(SubStart(f, prior))
      modifies this
      ensures var r := DecItem(f, old(Tape()), old(bytesLeft), prior);
        && Valid() && Tape() == r.tape && bytesLeft == r.left
        && (ok <==> r.GoodItem?) && (ok ==> v == r.value)
      decreases bytesLeft, 1
    {
      hide DecScalar, SubWindow, DecLoop;
      v := prior;
      if f.ltype.SubT? {
        var slots;
        ok, slots := DecodeSubmessage(f, prior.slots);
        v := Msg(slots);
      } else {
        WindowIsUnread();
        DecScalarSuffix(f, Unread());
        ok, v := DecodeScalar(f);
        TapeAfter(DecScalar(f, old(Unread())).rest);
      }
    }

    /** The packed branch of decode_static_field. */
    method DecodePacked(f: Field, s: Slot) returns (ok: bool, s': Slot)
      requires Valid() && FieldOk(f) && Packable(f) && f.htype.Repeated? && SlotShaped(f, s)
      modifies this
      ensures var r := DecSlot(f, WT_STRING, old(Tape()), old(bytesLeft), s);
        && Valid() && Tape() == r.tape && bytesLeft == r.left
        && (ok <==> r.Put?) && (ok ==> s' == r.slot)
    {
      hide SubWindow, DecScalar;
      s' := s;
      var substream;
      ok, substream := MakeSubstream();
      if !ok {
        return;
      }
      ghost var inner := substream.Unread();
      assert inner == substream.Tape();
      var status := true;
      while substream.bytesLeft > 0 && s'.size < f.arraySize
        invariant substream.Valid() && substream.state + substream.bytesLeft == substream.end
        invariant SlotShaped(f, s') && status
        invariant DecPacked(f, substream.Unread(), s') == DecPacked(f, inner, s)
        decreases substream.bytesLeft
        modifies substream
      {
        var v;
        DecScalarShrinks(f, substream.Unread());
        ghost var w := substream.Unread();
        status, v := substream.DecodeScalar(f);
        if !status {
          assert DecPacked(f, inner, s) == PackStops(substream.Unread());
          break;
        }
        DecScalarShaped(f, w);
        s' := Slot(s'.size + 1, s'.items[s'.size := v]);
      }
      assert substream.Unread() == substream.Tape();
      CloseSubstream(substream);
      if substream.bytesLeft != 0 {
        return false, s';
      }
      ok := status;
    }

    /** decode_static_field. */
    method DecodeStaticField(f: Field, wt: nat, s: Slot) returns (ok: bool, s': Slot)
      requires Valid() && FieldOk(f) && SlotShaped(f, s)
      modifies this
      ensures var r := DecSlot(f, wt, old(Tape()), old(bytesLeft), s);
        && Valid() && Tape() == r.tape && bytesLeft == r.left
        && (ok <==> r.Put?) && (ok ==> s' == r.slot)
      decreases bytesLeft, 2
    {
      hide DecItem, DecScalar, SubWindow;
      s' := s;
      var v;
      match f.htype {
        case Required =>
          ok, v := DecodeItem(f, s.items[0]);
          s' := s.(items := [v]);
        case Optional =>
          ok, v := DecodeItem(f, s.items[0]);
          s' := Slot(1, [v]);
        case Repeated =>
          if wt == WT_STRING && Packable(f) {
            ok, s' := DecodePacked(f, s);
            return;
          }
          if s.size >= f.arraySize {
            return false, s;
          }
          ok, v := DecodeItem(f, s.items[s.size]);
          s' := Slot(s.size + 1, s.items[s.size := v]);
        case Oneof =>
          var prior := s.items[0];
          if f.ltype.SubT? {
            ZeroMessageShaped(f.ltype.fields);
            var start := SetToDefaults(f.ltype.fields, ZeroMessage(f.ltype.fields));
            OneofStart(f, s.items[0], Msg(start));
            prior := Msg(start);
            OneofItem(f, Tape(), bytesLeft, prior, s.items[0]);
          }
          ok, v := DecodeItem(f, prior);
          s' := Slot(f.tag, [v]);
      }
    }

    // -------------------------------------------------------------- messages

    /** A tag without a field: the search for extension fields, then pb_skip_field. */
    method SkipRecord(iter: FieldIter, wt: nat, tag: nat, extensionRangeStart: nat)
      returns (ok: bool, extensionRangeStart': nat)
      requires Valid() && iter.Valid() && Descriptor(iter.start) && tag < 0x2000_0000
      modifies this, iter
      ensures iter.Valid()
      ensures At(PbDecodeSpec.SkipField(wt, old(Unread())).rest, old(state + bytesLeft))
      ensures ok <==> PbDecodeSpec.SkipField(wt, old(Unread())).Ok?
    {
      hide PbDecodeSpec.SkipField;
      extensionRangeStart' := extensionRangeStart;
      if tag >= extensionRangeStart {
        NoExtensions(iter.start);
        var found, _ := FindExtensionField(iter);
        if !found {
          extensionRangeStart' := TWO32 - 1;
        }
        assert tag < extensionRangeStart';
      }
      ok := SkipField(wt);
    }

    /** A tag with a field: its required bit, then decode_static_field. */
    method StoreRecord(iter: FieldIter, wt: nat, slots: seq<Slot>, fieldsSeen: seq<nat>, ghost seen: set<nat>)
      returns (ok: bool, slots': seq<Slot>, fieldsSeen': seq<nat>)
      requires Valid() && iter.Valid() && iter.pos < |iter.start|
      requires Descriptor(iter.start) && Shaped(iter.start, slots) && Tracks(iter.start, fieldsSeen, seen)
      requires |slots| == |iter.start|
      requires FieldOk(iter.start[iter.pos]) && SlotShaped(iter.start[iter.pos], PbTypes.At(iter.start, slots, iter.pos))
      modifies this
      ensures var r := DecSlot(iter.start[iter.pos], wt, old(Tape()), old(bytesLeft), PbTypes.At(iter.start, slots, iter.pos));
        && Valid() && Tape() == r.tape && bytesLeft == r.left
        && (ok <==> r.Put?) && (ok ==> slots' == slots[SlotOf(iter.start, iter.pos) := r.slot])
      ensures Tracks(iter.start, fieldsSeen', seen + {iter.pos})
      decreases bytesLeft, 3
    {
      hide DecSlot, Tracks, Shaped;
      var fields, i := iter.start, iter.pos;
      slots', fieldsSeen' := slots, fieldsSeen;
      if fields[i].htype.Required? {
        TracksRequired(fields, fieldsSeen, seen, i);
        iter.AtPosition();
      } else {
        TracksOther(fields, fieldsSeen, seen, i);
      }
      if fields[i].htype.Required? && iter.requiredFieldIndex < 64 {
        TracksWords(fields, fieldsSeen, seen);
        fieldsSeen' := Mark(fieldsSeen, iter.requiredFieldIndex);
      }
      var j := SlotOf(fields, i);
      var s;
      ok, s := DecodeStaticField(fields[i], wt, slots[j]);
      slots' := slots[j := s];
    }

    /** A turn of the loop for a record without a field. */
    method SkipTurn(iter: FieldIter, wt: nat, tag: nat, extensionRangeStart: nat,
                    slots: seq<Slot>, ghost seen: set<nat>, ghost target: Outcome, ghost drained: bool)
      returns (ok: bool, extensionRangeStart': nat)
      requires Valid() && iter.Valid() && Descriptor(iter.start) && Shaped(iter.start, slots)
      requires tag < 0x2000_0000 && IndexOf(iter.start, tag).None? && !(iter.start == [] && tag == 0)
      requires target == Undrain(AfterTag(iter.start, tag, wt, Tape(), bytesLeft, slots, seen), drained)
      modifies this, iter
      ensures Valid() && iter.Valid() && bytesLeft <= old(bytesLeft)
      ensures !ok ==> target == Bad(Tape(), bytesLeft)
      ensures ok ==> target == Undrain(DecLoop(iter.start, Tape(), bytesLeft, slots, seen), drained)
    {
      hide DecLoop, PbDecodeSpec.SkipField, Shaped, Descriptor;
      WindowIsUnread();
      SkipFieldSuffix(wt, Unread());
      ok, extensionRangeStart' := SkipRecord(iter, wt, tag, extensionRangeStart);
      TapeAfter(PbDecodeSpec.SkipField(wt, old(Unread())).rest);
    }

    /** A message type without fields: the terminator entry reads as a required integer of no known
        width. */
    method TerminatorTurn(wt: nat, slots: seq<Slot>, ghost seen: set<nat>, ghost target: Outcome, ghost drained: bool)
      returns (ok: bool)
      requires Valid() && Descriptor([]) && Shaped([], slots)
      requires target == Undrain(AfterTag([], 0, wt, Tape(), bytesLeft, slots, seen), drained)
      modifies this
      ensures Valid() && !ok && target == Bad(Tape(), bytesLeft)
    {
      hide DecLoop, Shaped, Descriptor, Varint64;
      WindowIsUnread();
      Varint64Suffix(Unread());
      NoWidth(TERMINATOR, Unread());
      var v;
      ok, v := DecVarint(TERMINATOR);
      TapeAfter(Varint64(old(Unread())).rest);
    }

    /** A turn of the loop for a record with a field. */
    method StoreTurn(iter: FieldIter, wt: nat, tag: nat, slots: seq<Slot>, fieldsSeen: seq<nat>,
                     ghost seen: set<nat>, ghost target: Outcome, ghost drained: bool)
      returns (ok: bool, slots': seq<Slot>, fieldsSeen': seq<nat>, ghost drained': bool)
      requires Valid() && iter.Valid() && Descriptor(iter.start) && Shaped(iter.start, slots)
      requires Tracks(iter.start, fieldsSeen, seen)
      requires iter.pos < |iter.start| && IndexOf(iter.start, tag) == Some(iter.pos)
      requires target == Undrain(AfterTag(iter.start, tag, wt, Tape(), bytesLeft, slots, seen), drained)
      modifies this
      ensures Valid() && bytesLeft <= old(bytesLeft)
      ensures !ok ==> target == Bad(Tape(), bytesLeft)
      ensures ok ==> Shaped(iter.start, slots') && Tracks(iter.start, fieldsSeen', seen + {iter.pos})
      ensures ok ==> target == Undrain(DecLoop(iter.start, Tape(), bytesLeft, slots', seen + {iter.pos}), drained')
      decreases bytesLeft, 4
    {
      hide DecLoop, DecSlot, AfterTag, Shaped, Tracks, Descriptor;
      var fields, i := iter.start, iter.pos;
      TagStores(fields, tag, wt, Tape(), bytesLeft, slots, seen);
      ghost var p := DecSlot(fields[i], wt, Tape(), bytesLeft, PbTypes.At(fields, slots, i));
      ok, slots', fieldsSeen' := StoreRecord(iter, wt, slots, fieldsSeen, seen);
      drained' := drained && p.Put? && p.drained;
    }

    /** One turn of the loop of pb_decode_noinit. */
    method DecodeRecord(iter: FieldIter, slots: seq<Slot>, fieldsSeen: seq<nat>, extensionRangeStart: nat,
                        ghost seen: set<nat>, ghost target: Outcome, ghost drained: bool)
      returns (turn: Turn, slots': seq<Slot>, fieldsSeen': seq<nat>, extensionRangeStart': nat,
               ghost seen': set<nat>, ghost drained': bool)
      requires Valid() && bytesLeft > 0
      requires iter.Valid() && Descriptor(iter.start) && Shaped(iter.start, slots)
      requires Tracks(iter.start, fieldsSeen, seen)
      requires target == Undrain(DecLoop(iter.start, Tape(), bytesLeft, slots, seen), drained)
      modifies this, iter
      ensures Valid() && iter.Valid()
      ensures turn == Failed ==> target == Bad(Tape(), bytesLeft)
      ensures turn != Failed ==> Shaped(iter.start, slots') && Tracks(iter.start, fieldsSeen', seen')
      ensures turn == Next ==> bytesLeft < old(bytesLeft)
      ensures turn == Next ==> target == Undrain(DecLoop(iter.start, Tape(), bytesLeft, slots', seen'), drained')
      ensures turn == EndOfLoop ==> target == Undrain(Finish(iter.start, slots', Tape(), bytesLeft, seen'), drained')
      decreases bytesLeft, 4
    {
      hide DecLoop, AfterTag, DecTag, Shaped, Tracks, Finish, Descriptor;
      var fields := iter.start;
      slots', fieldsSeen', extensionRangeStart' := slots, fieldsSeen, extensionRangeStart;
      seen', drained' := seen, drained;
      WindowIsUnread();
      LoopTagged(fields, Tape(), bytesLeft, slots, seen);
      DecTagSuffix(Unread());
      var ok, wt, tag, eof := DecodeTag();
      TapeAfter(DecTag(old(Unread())).rest);
      if !ok {
        turn := if eof then EndOfLoop else Failed;
        return;
      }
      label tagged:
      var found, steps := iter.Find(tag);
      UnreadKept@tagged();
      FoundIsIndex(fields, old@tagged(iter.pos), tag, steps);
      if !found {
        ok, extensionRangeStart' := SkipTurn(iter, wt, tag, extensionRangeStart, slots, seen, target, drained);
      } else if fields == [] {
        ok := TerminatorTurn(wt, slots, seen, target, drained);
      } else {
        seen' := seen + {iter.pos};
        ok, slots', fieldsSeen', drained' := StoreTurn(iter, wt, tag, slots, fieldsSeen, seen, target, drained);
      }
      turn := if ok then Next else Failed;
    }

    twostate lemma UnreadKept()
      requires old(Valid()) && unchanged(this)
      ensures Valid() && Tape() == old(Tape()) && Unread() == old(Unread())
    {}

    /** pb_decode_noinit. */
    method DecodeNoInit(fields: seq<Field>, start: seq<Slot>) returns (ok: bool, slots: seq<Slot>)
      requires Valid() && Descriptor(fields) && Shaped(fields, start)
      modifies this
      ensures var r := DecLoop(fields, old(Tape()), old(bytesLeft), start, {});
        && Valid() && Tape() == r.tape && bytesLeft == r.left
        && (ok <==> r.Good?) && (ok ==> slots == r.slots)
        && (ok && r.drained ==> state + bytesLeft == old(state + bytesLeft))
      ensures old(state) <= state && bytesLeft <= old(bytesLeft) && state + bytesLeft <= old(state + bytesLeft)
      decreases bytesLeft, 5
    {
      hide DecLoop, Shaped, Tracks, AllRequired;
      LoopMoved(fields, Tape(), bytesLeft, start, {});
      DescriptorTags(fields);
      var fieldsSeen, extensionRangeStart := [0, 0], 0;
      var iter := new FieldIter(fields, 0);
      slots := start;
      ghost var seen, drained := {}, true;
      ghost var target := DecLoop(fields, Tape(), bytesLeft, start, {});
      TracksNothing(fields);
      var turn := Next;
      while bytesLeft != 0
        invariant iter.Valid() && fresh(iter) && iter.start == fields
        invariant Valid() && Shaped(fields, slots) && Tracks(fields, fieldsSeen, seen)
        invariant target == Undrain(DecLoop(fields, Tape(), bytesLeft, slots, seen), drained)
        invariant turn == Next && bytesLeft <= old(bytesLeft)
        decreases bytesLeft
      {
        turn, slots, fieldsSeen, extensionRangeStart, seen, drained :=
          DecodeRecord(iter, slots, fieldsSeen, extensionRangeStart, seen, target, drained);
        if turn == Failed {
          return false, slots;
        }
        if turn == EndOfLoop {
          break;
        }
      }
      if turn == Next { LoopEnds(fields, Tape(), slots, seen); }
      assert target == Undrain(Finish(fields, slots, Tape(), bytesLeft, seen), drained);
      label done:
      ok := CheckRequired(iter, fieldsSeen, seen);
      UnreadKept@done();
    }

    /** pb_decode. */
    method Decode(fields: seq<Field>, dest: seq<Slot>) returns (ok: bool, slots: seq<Slot>)
      requires Valid() && Descriptor(fields) && Shaped(fields, dest)
      modifies this
      ensures Shaped(fields, Defaults(fields, dest))
      ensures var r := DecLoop(fields, old(Tape()), old(bytesLeft), Defaults(fields, dest), {});
        && Valid() && Tape() == r.tape && bytesLeft == r.left
        && (ok <==> r.Good?) && (ok ==> slots == r.slots)
        && (ok && r.drained ==> state + bytesLeft == old(state + bytesLeft))
      ensures old(state) <= state && bytesLeft <= old(bytesLeft) && state + bytesLeft <= old(state + bytesLeft)
      decreases bytesLeft, 6
    {
      DefaultsShaped(fields, dest);
      var init := SetToDefaults(fields, dest);
      ok, slots := DecodeNoInit(fields, init);
    }
  }

  /** How a turn of the decode loop ends. */
  datatype Turn = Next | EndOfLoop | Failed

  // ---------------------------------------------------------------- the loop, case by case

  /** The rest of a turn, once the tag was read: the stream is (u, m). */
  ghost function AfterTag(fields: seq<Field>, tag: nat, wt: nat, u: seq<byte>, m: nat,
                          slots: seq<Slot>, seen: set<nat>): Outcome
    requires Descriptor(fields) && Shaped(fields, slots) && m <= |u|
  {
    match IndexOf(fields, tag)
    case None =>
      if fields == [] && tag == 0 then
        var v := Varint64(Window(u, m));
        Bad(Tail(u, m, v.rest), |v.rest|)
      else
        var k := SkipField(wt, Window(u, m));
        if k.Fail? then Bad(Tail(u, m, k.rest), |k.rest|)
        else DecLoop(fields, Tail(u, m, k.rest), |k.rest|, slots, seen)
    case Some(i) =>
      FieldAt(fields, slots, i);
      match DecSlot(fields[i], wt, u, m, PbTypes.At(fields, slots, i))
      case BadSlot(tape, left) => Bad(tape, left)
      case Put(s, tape, left, d) =>
        ShapedUpdate(fields, slots, i, s);
        Undrain(DecLoop(fields, tape, left, slots[SlotOf(fields, i) := s], seen + {i}), d)
  }

  lemma FieldAt(fields: seq<Field>, slots: seq<Slot>, i: nat)
    requires Descriptor(fields) && Shaped(fields, slots) && i < |fields|
    ensures |slots| == |fields| && FieldOk(fields[i]) && SlotShaped(fields[i], PbTypes.At(fields, slots, i))
  {}

  lemma LoopEnds(fields: seq<Field>, t: seq<byte>, slots: seq<Slot>, seen: set<nat>)
    requires Descriptor(fields) && Shaped(fields, slots)
    ensures DecLoop(fields, t, 0, slots, seen) == Finish(fields, slots, t, 0, seen)
  {}

  lemma LoopTagged(fields: seq<Field>, t: seq<byte>, n: nat, slots: seq<Slot>, seen: set<nat>)
    requires Descriptor(fields) && Shaped(fields, slots) && 0 < n <= |t|
    ensures var g := DecTag(Window(t, n));
      var u, m := Tail(t, n, g.rest), |g.rest|;
      DecLoop(fields, t, n, slots, seen) ==
        if g.BadTag? then Bad(u, m)
        else if g.EndOfMessage? then Finish(fields, slots, u, m, seen)
        else AfterTag(fields, g.tag, g.wt, u, m, slots, seen)
  {
    hide DecSlot, DecTag, PbDecodeSpec.SkipField, Varint64, Finish;
  }

  lemma TagStores(fields: seq<Field>, tag: nat, wt: nat, u: seq<byte>, m: nat, slots: seq<Slot>, seen: set<nat>)
    requires Descriptor(fields) && Shaped(fields, slots) && m <= |u| && IndexOf(fields, tag).Some?
    ensures var i := IndexOf(fields, tag).value;
      && |slots| == |fields| && FieldOk(fields[i]) && SlotShaped(fields[i], PbTypes.At(fields, slots, i))
      && var p := DecSlot(fields[i], wt, u, m, PbTypes.At(fields, slots, i));
         var a := AfterTag(fields, tag, wt, u, m, slots, seen);
         && (p.BadSlot? ==> a == Bad(p.tape, p.left))
         && (p.Put? ==> Shaped(fields, slots[SlotOf(fields, i) := p.slot])
                        && a == Undrain(DecLoop(fields, p.tape, p.left, slots[SlotOf(fields, i) := p.slot],
                                                seen + {i}), p.drained))
  {
    hide DecSlot, DecLoop;
    var i := IndexOf(fields, tag).value;
    FieldAt(fields, slots, i);
    var p := DecSlot(fields[i], wt, u, m, PbTypes.At(fields, slots, i));
    if p.Put? { ShapedUpdate(fields, slots, i, p.slot); }
  }

  lemma NoWidth(f: Field, w: seq<byte>)
    requires f.ltype.IntT? && !IntWidth(f.dataSize)
    ensures DecScalar(f, w) == Fail(Varint64(w).rest)
  {
    hide Varint64;
  }

  /** What a search says about the descriptor, wherever it started. */
  lemma FoundIsIndex(fields: seq<Field>, pos: nat, tag: nat, steps: nat)
    requires Descriptor(fields) && (pos == 0 || pos < |fields|)
    requires steps <= |fields| || fields == []
    requires fields != [] ==> forall k :: 0 <= k < steps ==> !Matches(fields[Around(|fields|, pos, k)], tag)
    ensures fields != [] && steps < |fields| && Matches(fields[Around(|fields|, pos, steps)], tag)
        ==> IndexOf(fields, tag) == Some(Around(|fields|, pos, steps))
    ensures fields != [] && steps == |fields| ==> IndexOf(fields, tag).None?
    ensures fields == [] ==> IndexOf(fields, tag).None?
  {
    if fields != [] && steps < |fields| && Matches(fields[Around(|fields|, pos, steps)], tag) {
      IndexOfTag(fields, Around(|fields|, pos, steps));
    }
    if fields != [] && steps == |fields| {
      FindComplete(fields, pos, tag);
      NoExtensions(fields);
      IndexMatches(fields, tag);
    }
  }

  lemma IndexMatches(fields: seq<Field>, tag: nat)
    requires forall i :: 0 <= i < |fields| ==> !fields[i].ltype.ExtT?
    ensures IndexOf(fields, tag).Some? ==> exists i :: 0 <= i < |fields| && Matches(fields[i], tag)
  {
    if IndexOf(fields, tag).Some? { assert Matches(fields[IndexOf(fields, tag).value], tag); }
  }

  lemma NoExtensions(fields: seq<Field>)
    requires Descriptor(fields)
    ensures forall i :: 0 <= i < |fields| ==> !fields[i].ltype.ExtT?
  {
    forall i | 0 <= i < |fields| ensures !fields[i].ltype.ExtT? { assert FieldOk(fields[i]); }
  }

  lemma DescriptorTags(fields: seq<Field>)
    requires Descriptor(fields)
    ensures forall i :: 0 <= i < |fields| ==> fields[i].tag != 0
  {
    forall i | 0 <= i < |fields| ensures fields[i].tag != 0 { assert FieldOk(fields[i]); }
  }

  lemma TracksWords(fields: seq<Field>, words: seq<nat>, seen: set<nat>)
    requires RequiredFits(fields) && Tracks(fields, words, seen)
    ensures Words(words)
  {}

  lemma OneofStart(f: Field, a: Value, b: Value)
    requires FieldOk(f) && f.ltype.SubT? && f.htype.Oneof?
    ensures Shaped(f.ltype.fields, ZeroMessage(f.ltype.fields))
    ensures SubStart(f, a) == SubStart(f, b) == Defaults(f.ltype.fields, ZeroMessage(f.ltype.fields))
  {
    hide Defaults, ZeroMessage, Shaped;
    ZeroMessageShaped(f.ltype.fields);
  }

  lemma OneofItem(f: Field, t: seq<byte>, n: nat, a: Value, b: Value)
    requires FieldOk(f) && f.ltype.SubT? && f.htype.Oneof? && n <= |t|
    ensures DecItem(f, t, n, a) == DecItem(f, t, n, b)
  {
    OneofStart(f, a, b);
  }

  // ---------------------------------------------------------------- walks over the descriptor

  /** find_extension_field: the first extension field in cyclic order, after at most one full turn;
      without one the iterator is back where it started. */
  method FindExtensionField(iter: FieldIter) returns (found: bool, ghost steps: nat)
    requires iter.Valid()
    modifies iter
    ensures iter.Valid()
    ensures found ==> Entry(iter.start, iter.pos).ltype.ExtT?
    ensures iter.start != [] ==>
      && steps <= |iter.start|
      && iter.pos == Around(|iter.start|, old(iter.pos), steps)
      && (forall k :: 0 <= k < steps ==> !iter.start[Around(|iter.start|, old(iter.pos), k)].ltype.ExtT?)
      && (found <==> steps < |iter.start|)
    ensures iter.start == [] ==> !found && iter.pos == old(iter.pos)
  {
    var start := iter.pos;
    ghost var n := |iter.start|;
    steps := 0;
    while true
      invariant iter.Valid() && steps <= n
      invariant n > 0 ==> steps < n && iter.pos == Around(n, start, steps)
      invariant n > 0 ==> forall k :: 0 <= k < steps ==> !iter.start[Around(n, start, k)].ltype.ExtT?
      invariant n == 0 ==> iter.pos == start && steps == 0
      decreases n + 1 - steps
    {
      if Entry(iter.start, iter.pos).ltype.ExtT? {
        return true, steps;
      }
      var _ := iter.Next();
      steps := steps + 1;
      if iter.pos == start {
        return false, steps;
      }
    }
  }

  /** pb_field_set_to_default on a static field. */
  method SetFieldToDefault(f: Field, s: Slot) returns (s': Slot)
    requires FieldOk(f) && SlotShaped(f, s)
    ensures s' == DefaultSlot(f, s)
    decreases f, 1
  {
    var initData := true;
    s' := s;
    if f.htype.Optional? {
      s' := s'.(size := 0);
    } else if f.htype.Repeated? || f.htype.Oneof? {
      s' := s'.(size := 0);
      initData := false;
    }
    if initData {
      var v;
      if f.ltype.SubT? {
        assert ValueShaped(f, s.items[0]);
        var slots := SetToDefaults(f.ltype.fields, s.items[0].slots);
        v := Msg(slots);
      } else if f.dflt.Some? {
        v := f.dflt.value;
      } else {
        v := ZeroValue(f);
      }
      s' := s'.(items := [v]);
    }
  }

  /** pb_message_set_to_defaults, field by field in the storage they share. */
  method SetToDefaults(fields: seq<Field>, dest: seq<Slot>) returns (slots: seq<Slot>)
    requires Descriptor(fields) && Shaped(fields, dest)
    ensures slots == Defaults(fields, dest)
    decreases fields, 2
  {
    DescriptorTags(fields);
    slots := dest;
    if fields == [] {
      return;
    }
    var iter := new FieldIter(fields, 0);
    ghost var n := 0;
    while true
      invariant iter.Valid() && iter.start == fields && iter.pos == n < |fields| == |slots|
      invariant PartDefaults(fields, dest, slots, n)
      decreases |fields| - n
    {
      assert FieldOk(fields[n]) && SlotShaped(fields[n], At(fields, dest, n));
      DefaultsStep(fields, dest, slots, n);
      var j := SlotOf(fields, iter.pos);
      var s := SetFieldToDefault(fields[iter.pos], slots[j]);
      slots := slots[j := s];
      n := n + 1;
      var more := iter.Next();
      if !more {
        assert slots == Defaults(fields, dest);
        return;
      }
    }
  }

  /** The first `n` fields are set. */
  ghost predicate PartDefaults(fields: seq<Field>, dest: seq<Slot>, slots: seq<Slot>, n: nat)
    requires Shaped(fields, dest)
  {
    && |slots| == |fields|
    && forall k :: 0 <= k < |fields| ==>
         slots[k] == if k < n && SlotOf(fields, k) == k then Defaults(fields, dest)[k] else dest[k]
  }

  /** Marking a oneof empty once for each of its members is the same as once. */
  lemma DefaultsStep(fields: seq<Field>, dest: seq<Slot>, slots: seq<Slot>, n: nat)
    requires Descriptor(fields) && Shaped(fields, dest) && n < |fields|
    requires PartDefaults(fields, dest, slots, n)
    ensures var j := SlotOf(fields, n);
      && SlotShaped(fields[n], slots[j])
      && PartDefaults(fields, dest, slots[j := DefaultSlot(fields[n], slots[j])], n + 1)
  {
    hide DefaultSlot, SlotShaped, Defaults, Shaped;
    var j := SlotOf(fields, n);
    DefaultsAt(fields, dest, n);
    DefaultsAt(fields, dest, j);
    assert SlotShaped(fields[n], At(fields, dest, n));
    assert FieldOk(fields[n]);
    LeaderIsItsOwn(fields, n);
    if fields[n].htype.Oneof? {
      assert SlotShaped(fields[j], At(fields, dest, j));
      MarkedEmpty(fields[j], dest[j]);
      MarkedEmpty(fields[n], dest[j]);
      MarkedEmpty(fields[n], dest[j].(size := 0));
    }
  }

  lemma DefaultsAt(fields: seq<Field>, dest: seq<Slot>, k: nat)
    requires Shaped(fields, dest) && k < |fields|
    ensures |dest| == |fields| && SlotShaped(fields[k], At(fields, dest, k))
    ensures SlotOf(fields, k) == k ==> Defaults(fields, dest)[k] == DefaultSlot(fields[k], dest[k])
  {
    assert SlotShaped(fields[k], At(fields, dest, k));
  }

  lemma MarkedEmpty(f: Field, s: Slot)
    requires f.htype.Oneof? && f.tag != 0 && SlotShaped(f, s)
    ensures DefaultSlot(f, s) == s.(size := 0)
    ensures SlotShaped(f, s.(size := 0))
  {}

  lemma AllRequiredMeans(fields: seq<Field>, seen: set<nat>)
    ensures AllRequired(fields, seen) <==> forall i :: 0 <= i < |fields| && fields[i].htype.Required? ==> i in seen
  {}

  /** The walk to the last field that counts the required ones. */
  method CountRequired(iter: FieldIter) returns (reqFieldCount: nat)
    requires iter.Valid()
    modifies iter
    ensures iter.Valid() && reqFieldCount == RequiredBefore(iter.start, |iter.start|)
  {
    var fields := iter.start;
    reqFieldCount := iter.requiredFieldIndex;
    var lastType := Entry(fields, iter.pos).htype;
    iter.AtPosition();
    var more := iter.Next();
    while more
      invariant iter.Valid() && iter.start == fields
      invariant more ==> iter.pos < |fields|
      invariant !more ==> iter.pos == 0
      invariant !more && fields != [] ==>
        reqFieldCount == RequiredBefore(fields, |fields| - 1) && lastType == fields[|fields| - 1].htype
      invariant fields == [] ==> !more && reqFieldCount == 0
      decreases if more then |fields| - iter.pos else 0
    {
      reqFieldCount, lastType := iter.requiredFieldIndex, Entry(fields, iter.pos).htype;
      iter.AtPosition();
      more := iter.Next();
    }
    if lastType.Required? && Entry(fields, iter.pos).tag != 0 {
      reqFieldCount := reqFieldCount + 1;
    }
  }

  /** The check at the end of pb_decode_noinit: count the required fields by walking to the end,
      then compare the words. */
  method CheckRequired(iter: FieldIter, fieldsSeen: seq<nat>, ghost seen: set<nat>) returns (ok: bool)
    requires iter.Valid() && RequiredFits(iter.start) && Tracks(iter.start, fieldsSeen, seen)
    modifies iter
    ensures ok <==> AllRequired(iter.start, seen)
  {
    hide Marked, Tracks, LowOnes, AllRequired;
    var fields := iter.start;
    AllRequiredMeans(fields, seen);
    TracksWords(fields, fieldsSeen, seen);
    TracksAll(fields, fieldsSeen, seen);
    var reqFieldCount := CountRequired(iter);
    ok := true;
    if reqFieldCount > 0 {
      var i := 0;
      while i < reqFieldCount / 32
        invariant i <= reqFieldCount / 32 && forall k :: 0 <= k < i ==> fieldsSeen[k] == LowOnes(32)
      {
        if fieldsSeen[i] != LowOnes(32) {
          return false;
        }
        i := i + 1;
      }
      if fieldsSeen[reqFieldCount / 32] != LowOnes(reqFieldCount % 32) {
        return false;
      }
    }
  }

  // ---------------------------------------------------------------- a whole buffer

  /** Decoding the first `size` bytes of a buffer. */
  method DecodeFromBuffer(buffer: seq<byte>, size: nat, fields: seq<Field>, dest: seq<Slot>)
    returns (ok: bool, slots: seq<Slot>)
    requires size <= |buffer| && Descriptor(fields) && Shaped(fields, dest)
    ensures ok <==> DecMessage(fields, buffer[..size], dest).Good?
    ensures ok ==> slots == DecMessage(fields, buffer[..size], dest).slots
  {
    var stream := new IStream(buffer, size);
    ok, slots := stream.Decode(fields, dest);
  }

  lemma UnZigZagInRange(u: nat)
    requires u < TWO64
    ensures -Pow2(63) <= UnZigZag(u) < Pow2(63)
  {
    ToSignedInRange(64, TWO64 - 1 - u / 2);
    ToSignedInRange(64, u / 2);
  }
}
