/** The text cJSON prints, character by character: how each text grows when a character, a digit, an item
    or a member is added at the end. */
module JsonLayout {
  import opened JsonSpec

  // ---------------------------------------------------------------- strings and numbers

  /** The escapes. */
  lemma EscapeIs(c: char)
    ensures Escape(c) ==
      if c == '\"' then ['\\', '\"'] else if c == '\\' then ['\\', '\\']
      else if c as int == 8 then ['\\', 'b'] else if c as int == 12 then ['\\', 'f']
      else if c as int == 10 then ['\\', 'n'] else if c as int == 13 then ['\\', 'r']
      else if c as int == 9 then ['\\', 't']
      else if c as int < 32 then ['\\', 'u', '0', '0', "01"[c as int / 16], "0123456789abcdef"[c as int % 16]]
      else [c]
  {
    if c as int < 32 {
      LowHex(c as int % 16);
      LowHex(c as int / 16);
      hide HexDigit;
    }
  }

  lemma LowHex(d: nat)
    requires d < 16
    ensures HexDigit(d) == "0123456789abcdef"[d]
    ensures d < 2 ==> HexDigit(d) == "01"[d]
  {
    if d < 4 {} else if d < 8 {} else if d < 12 {} else {}
  }

  lemma {:induction false} EscapeAllMore(s: string, c: char)
    ensures EscapeAll(s + [c]) == EscapeAll(s) + Escape(c)
  {
    hide Escape;
    if s == "" {
      assert s + [c] == [c] && [c][1..] == "";
    } else {
      assert (s + [c])[1..] == s[1..] + [c];
      EscapeAllMore(s[1..], c);
    }
  }

  /** A string in quotes. */
  lemma QuoteGrows(s: string, c: char)
    ensures Quote("") == "\"\""
    ensures var q := Quote(s); Quote(s + [c]) == q[..|q| - 1] + Escape(c) + "\""
  {
    hide Escape;
    EscapeAllMore(s, c);
    assert Quote(s)[..|Quote(s)| - 1] == "\"" + EscapeAll(s);
  }

  /** Decimal numbers: no leading zeros, a minus before the digits. */
  lemma DecimalGrows(n: int, d: nat)
    requires n >= 0 && d < 10
    ensures Dec(d) == ["0123456789"[d]]
    ensures n > 0 ==> Dec(10 * n + d) == Dec(n) + ["0123456789"[d]] && Dec(-n) == "-" + Dec(n)
  {
    assert Digit(d) == "0123456789"[d];
  }

  /** The texts without parts. A number whose double part is zero prints as zero. */
  lemma ScalarsAre(i: int, d: real, s: string, depth: nat, fmt: bool)
    ensures Print(Null, depth, fmt) == "null" && Print(False, depth, fmt) == "false" && Print(True, depth, fmt) == "true"
    ensures Print(Num(i, d), depth, fmt) == if d == 0.0 then "0" else Dec(i)
    ensures Print(Str(s), depth, fmt) == Quote(s)
  {}

  // ---------------------------------------------------------------- arrays

  lemma {:induction false} ItemsMore(items: seq<Json>, x: Json, k: nat, depth: nat, fmt: bool)
    requires k <= |items|
    ensures PrintItems(items + [x], k, depth, fmt)
         == PrintItems(items, k, depth, fmt) + (if k < |items| then Comma(fmt) else "") + Print(x, depth + 1, fmt)
    decreases |items| - k
  {
    hide Print, Comma;
    if k == |items| {
      assert PrintItems(items + [x], k + 1, depth, fmt) == "";
    } else {
      ItemsMore(items, x, k + 1, depth, fmt);
    }
  }

  lemma EmptyText(depth: nat, fmt: bool)
    ensures Print(Arr([]), depth, fmt) == "[]"
    ensures Print(Obj([]), depth, fmt)
      == if fmt then "{\n" + Tabs(if depth == 0 then 0 else depth - 1) + "}" else "{}"
  {}

  lemma ArrayText(items: seq<Json>, depth: nat, fmt: bool)
    requires items != []
    ensures Print(Arr(items), depth, fmt) == "[" + PrintItems(items, 0, depth, fmt) + "]"
  {
    hide PrintItems;
  }

  lemma ItemsOne(x: Json, depth: nat, fmt: bool)
    ensures PrintItems([x], 0, depth, fmt) == Print(x, depth + 1, fmt)
  {
    hide Print;
    assert PrintItems([x], 1, depth, fmt) == "";
  }

  /** An array is printed on one line, a comma and, if formatted, a space before each further item. */
  lemma ArrayGrows(items: seq<Json>, x: Json, depth: nat, fmt: bool)
    ensures Print(Arr([]), depth, fmt) == "[]"
    ensures Print(Arr([x]), depth, fmt) == "[" + Print(x, depth + 1, fmt) + "]"
    ensures items != [] ==>
      var p := Print(Arr(items), depth, fmt);
      Print(Arr(items + [x]), depth, fmt) == p[..|p| - 1] + (if fmt then ", " else ",") + Print(x, depth + 1, fmt) + "]"
  {
    hide Print, PrintItems;
    EmptyText(depth, fmt);
    ArrayText([x], depth, fmt);
    ItemsOne(x, depth, fmt);
    if items != [] {
      var p := Print(Arr(items), depth, fmt);
      ArrayText(items, depth, fmt);
      ArrayText(items + [x], depth, fmt);
      ItemsMore(items, x, 0, depth, fmt);
      assert p[..|p| - 1] == "[" + PrintItems(items, 0, depth, fmt);
    }
  }

  // ---------------------------------------------------------------- objects

  /** A member on its line. */
  lemma MemberIs(m: Member, depth: nat)
    ensures PrintMember(m, depth, false) == Quote(m.name) + ":" + Print(m.value, depth, false)
    ensures PrintMember(m, depth, true) == Tabs(depth) + Quote(m.name) + ":\t" + Print(m.value, depth, true)
  {
    hide Print, Quote;
  }

  lemma TabsAre(n: nat)
    ensures |Tabs(n)| == n && forall k :: 0 <= k < n ==> Tabs(n)[k] as int == 9
  {}

  /** The members from number `k` on without the break behind the last one. */
  function Lines(members: seq<Member>, k: nat, depth: nat, fmt: bool): string
    requires k < |members|
    decreases |members| - k
  {
    PrintMember(members[k], depth, fmt)
    + if k + 1 == |members| then "" else "," + Break(fmt) + Lines(members, k + 1, depth, fmt)
  }

  lemma {:induction false} LinesAre(members: seq<Member>, k: nat, depth: nat, fmt: bool)
    requires k < |members|
    ensures PrintMembers(members, k, depth, fmt) == Lines(members, k, depth, fmt) + Break(fmt)
    decreases |members| - k
  {
    hide PrintMember, Break;
    if k + 1 == |members| {
      assert PrintMembers(members, k + 1, depth, fmt) == "";
    } else {
      LinesAre(members, k + 1, depth, fmt);
    }
  }

  lemma {:induction false} LinesMore(members: seq<Member>, x: Member, k: nat, depth: nat, fmt: bool)
    requires k < |members|
    ensures Lines(members + [x], k, depth, fmt)
         == Lines(members, k, depth, fmt) + ("," + Break(fmt) + PrintMember(x, depth, fmt))
    decreases |members| - k
  {
    hide PrintMember, Break;
    if k + 1 == |members| {
      assert Lines(members + [x], k + 1, depth, fmt) == PrintMember(x, depth, fmt);
    } else {
      LinesMore(members, x, k + 1, depth, fmt);
    }
  }

  /** What closes an object at a depth. */
  function Closing(depth: nat, fmt: bool): string {
    if fmt then "\n" + Tabs(depth) + "}" else "}"
  }

  lemma ObjectText(members: seq<Member>, depth: nat, fmt: bool)
    requires members != []
    ensures Print(Obj(members), depth, fmt) == "{" + Break(fmt) + Lines(members, 0, depth + 1, fmt) + Closing(depth, fmt)
  {
    LinesAre(members, 0, depth + 1, fmt);
    hide PrintMembers, Lines;
  }

  /** An object stands on one line, or has its members on lines of their own, one tab deeper than the
      brace that closes it. */
  lemma ObjectGrows(members: seq<Member>, x: Member, depth: nat, fmt: bool)
    ensures Print(Obj([]), depth, fmt)
      == if fmt then "{\n" + Tabs(if depth == 0 then 0 else depth - 1) + "}" else "{}"
    ensures Print(Obj([x]), depth, false) == "{" + Quote(x.name) + ":" + Print(x.value, depth + 1, false) + "}"
    ensures Print(Obj([x]), depth, true)
      == "{\n" + Tabs(depth + 1) + Quote(x.name) + ":\t" + Print(x.value, depth + 1, true) + "\n" + Tabs(depth) + "}"
    ensures members != [] ==>
      var p := Print(Obj(members), depth, false);
      Print(Obj(members + [x]), depth, false)
        == p[..|p| - 1] + "," + Quote(x.name) + ":" + Print(x.value, depth + 1, false) + "}"
    ensures members != [] ==>
      var p := Print(Obj(members), depth, true);
      && |p| >= depth + 2
      && Print(Obj(members + [x]), depth, true)
        == p[..|p| - depth - 2] + ",\n" + Tabs(depth + 1) + Quote(x.name) + ":\t" + Print(x.value, depth + 1, true)
          + "\n" + Tabs(depth) + "}"
  {
    hide Print, PrintMember, PrintMembers, Lines, Quote, Tabs;
    EmptyText(depth, fmt);
    OneMember(x, depth);
    if members != [] {
      MoreUnformatted(members, x, depth);
      MoreFormatted(members, x, depth);
    }
  }

  lemma OneMember(x: Member, depth: nat)
    ensures Print(Obj([x]), depth, false) == "{" + Quote(x.name) + ":" + Print(x.value, depth + 1, false) + "}"
    ensures Print(Obj([x]), depth, true)
      == "{\n" + Tabs(depth + 1) + Quote(x.name) + ":\t" + Print(x.value, depth + 1, true) + "\n" + Tabs(depth) + "}"
  {
    hide Print, PrintMember, Quote, Tabs;
    MemberIs(x, depth + 1);
    ObjectText([x], depth, false);
    ObjectText([x], depth, true);
  }

  lemma MoreUnformatted(members: seq<Member>, x: Member, depth: nat)
    requires members != []
    ensures var p := Print(Obj(members), depth, false);
      Print(Obj(members + [x]), depth, false)
        == p[..|p| - 1] + "," + Quote(x.name) + ":" + Print(x.value, depth + 1, false) + "}"
  {
    hide Print, PrintMember, Quote, Lines;
    MemberIs(x, depth + 1);
    ObjectText(members, depth, false);
    ObjectText(members + [x], depth, false);
    LinesMore(members, x, 0, depth + 1, false);
    var p := Print(Obj(members), depth, false);
    assert p[..|p| - 1] == "{" + "" + Lines(members, 0, depth + 1, false);
  }

  lemma Inserted(head: string, body: string, more: string, tail: string)
    ensures var p := head + body + tail;
      |p| >= |tail| && head + (body + more) + tail == p[..|p| - |tail|] + more + tail
  {
    assert (head + body + tail)[..|head + body|] == head + body;
  }

  lemma RegroupMember(a: string, t: string, q: string, v: string, u: string)
    ensures a + ("," + "\n" + (t + q + ":\t" + v)) + ("\n" + u + "}") == a + ",\n" + t + q + ":\t" + v + "\n" + u + "}"
  {}

  lemma MoreFormatted(members: seq<Member>, x: Member, depth: nat)
    requires members != []
    ensures var p := Print(Obj(members), depth, true);
      && |p| >= depth + 2
      && Print(Obj(members + [x]), depth, true)
        == p[..|p| - depth - 2] + ",\n" + Tabs(depth + 1) + Quote(x.name) + ":\t" + Print(x.value, depth + 1, true)
          + "\n" + Tabs(depth) + "}"
  {
    hide Print, PrintMember, Quote, Lines, Tabs;
    MemberIs(x, depth + 1);
    ObjectText(members, depth, true);
    ObjectText(members + [x], depth, true);
    LinesMore(members, x, 0, depth + 1, true);
    var p := Print(Obj(members), depth, true);
    var head, body, more := "{" + "\n", Lines(members, 0, depth + 1, true), "," + "\n" + PrintMember(x, depth + 1, true);
    Inserted(head, body, more, Closing(depth, true));
    RegroupMember(p[..|p| - depth - 2], Tabs(depth + 1), Quote(x.name), Print(x.value, depth + 1, true), Tabs(depth));
  }
}
