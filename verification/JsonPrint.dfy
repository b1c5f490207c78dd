/** The two printers of cJSON.c: blocks allocated to size, and one growing buffer. */
module JsonPrint {
  import opened JsonSpec

  // ---------------------------------------------------------------- what can be printed

  /** Strings end at their NUL, and numbers print as ints. */
  ghost predicate Renderable(t: Json) {
    match t
    case Num(i, d) => Printable(i, d) && INT_MIN <= i <= INT_MAX
    case Str(s) => '\0' !in s
    case Arr(items) => forall k :: 0 <= k < |items| ==> Renderable(items[k])
    case Obj(members) => forall k :: 0 <= k < |members| ==> '\0' !in members[k].name && Renderable(members[k].value)
    case _ => true
  }

  lemma {:induction false} DecNatFits(n: nat, digits: nat, bound: nat)
    requires digits >= 1 && n < bound && bound == Ten(digits)
    ensures |DecNat(n)| <= digits && '\0' !in DecNat(n)
  {
    if n >= 10 { DecNatFits(n / 10, digits - 1, Ten(digits - 1)); }
  }

  function Ten(k: nat): (r: nat)
    ensures r >= 1
  {
    if k == 0 then 1 else 10 * Ten(k - 1)
  }

  /** The 21 bytes allocated for a number are enough for any int. */
  lemma NumberFits(i: int)
    requires INT_MIN <= i <= INT_MAX
    ensures |Dec(i)| + 1 <= 21 && '\0' !in Dec(i)
  {
    assert Ten(10) == 100_0000_0000;
    DecNatFits(if i < 0 then -i else i, 10, Ten(10));
  }

  lemma EscapeNoNul(c: char)
    requires c != '\0'
    ensures '\0' !in Escape(c)
  {}

  lemma {:induction false} EscapeAllNoNul(s: string)
    requires '\0' !in s
    ensures '\0' !in EscapeAll(s)
  {
    hide Escape;
    if s != "" {
      EscapeNoNul(s[0]);
      EscapeAllNoNul(s[1..]);
    }
  }

  lemma QuoteNoNul(s: string)
    requires '\0' !in s
    ensures '\0' !in Quote(s)
  {
    hide EscapeAll;
    EscapeAllNoNul(s);
  }

  lemma {:induction false} PrintNoNul(t: Json, depth: nat, fmt: bool)
    requires Renderable(t)
    ensures '\0' !in Print(t, depth, fmt)
    decreases t, 1
  {
    match t {
      case Num(i, d) => NumberFits(i);
      case Str(s) => hide Quote; QuoteNoNul(s);
      case Arr(items) => hide PrintItems; ItemsNoNul(items, 0, depth, fmt);
      case Obj(members) => hide PrintMembers; MembersNoNul(members, 0, depth + 1, fmt);
      case _ =>
    }
  }

  lemma {:induction false} ItemsNoNul(items: seq<Json>, k: nat, depth: nat, fmt: bool)
    requires Renderable(Arr(items)) && k <= |items|
    ensures '\0' !in PrintItems(items, k, depth, fmt)
    decreases items, |items| - k
  {
    hide Print;
    if k < |items| {
      PrintNoNul(items[k], depth + 1, fmt);
      ItemsNoNul(items, k + 1, depth, fmt);
    }
  }

  lemma {:induction false} MembersNoNul(members: seq<Member>, k: nat, depth: nat, fmt: bool)
    requires Renderable(Obj(members)) && k <= |members|
    ensures '\0' !in PrintMembers(members, k, depth, fmt)
    decreases members, |members| - k
  {
    hide Print, Quote;
    if k < |members| {
      QuoteNoNul(members[k].name);
      PrintNoNul(members[k].value, depth, fmt);
      MembersNoNul(members, k + 1, depth, fmt);
    }
  }

  // ---------------------------------------------------------------- strings

  predicate Special(c: char) {
    c < ' ' || c == '\"' || c == '\\'
  }

  lemma PlainChar(c: char)
    ensures !Special(c) ==> Escape(c) == [c]
    ensures Special(c) ==> Escape(c)[0] == '\\'
  {}

  lemma {:induction false} NothingToEscape(s: string)
    requires forall k :: 0 <= k < |s| ==> !Special(s[k])
    ensures EscapeAll(s) == s
  {
    hide Escape;
    if s != "" {
      PlainChar(s[0]);
      NothingToEscape(s[1..]);
      assert [s[0]] + s[1..] == s;
    }
  }

  lemma {:induction false} EscapeAppend(s: string, k: nat)
    requires k < |s|
    ensures EscapeAll(s[..k + 1]) == EscapeAll(s[..k]) + Escape(s[k])
  {
    hide Escape;
    if k == 0 {
      assert s[..1][1..] == "" && s[..0] == "";
      assert EscapeAll(s[..1]) == Escape(s[0]) + "";
      assert "" + Escape(s[0]) == Escape(s[0]) + "";
    } else {
      var t := s[1..];
      assert s[..k + 1][1..] == t[..k] && s[..k][1..] == t[..k - 1];
      EscapeAppend(t, k - 1);
      assert Escape(s[0]) + (EscapeAll(t[..k - 1]) + Escape(t[k - 1]))
          == Escape(s[0]) + EscapeAll(t[..k - 1]) + Escape(t[k - 1]);
    }
  }

  /** The characters strchr looks for before the length loop adds the size of a \u escape. */
  predicate ShortEscape(c: char) {
    c in "\"\\\n\r\t" || c == BACKSPACE || c == FORMFEED
  }

  /** The two counting loops of print_string_ptr: whether anything is escaped, and the length between
      the quotes. */
  method QuotedLength(s: string) returns (flag: bool, len: nat)
    requires '\0' !in s
    ensures len == |EscapeAll(s)|
    ensures !flag ==> EscapeAll(s) == s
  {
    flag := false;
    var i := 0;
    while i < |s|
      invariant i <= |s| && (!flag ==> forall k :: 0 <= k < i ==> !Special(s[k]))
    {
      if ('\0' < s[i] < ' ') || s[i] == '\"' || s[i] == '\\' {
        flag := true;
      }
      i := i + 1;
    }
    if !flag {
      NothingToEscape(s);
      return flag, |s|;
    }
    len, i := 0, 0;
    while i < |s|
      invariant i <= |s| && len == |EscapeAll(s[..i])|
    {
      EscapeAppend(s, i);
      len := len + 1;
      if ShortEscape(s[i]) {
        len := len + 1;
      } else if s[i] < ' ' {
        len := len + 5;
      }
      i := i + 1;
    }
    assert s[..i] == s;
  }

  /** Writes `s` from `at` on. */
  method CopyAt(out: array<char>, at: nat, s: string)
    requires at + |s| <= out.Length
    modifies out
    ensures out[..] == old(out[..])[..at] + s + old(out[..])[at + |s|..]
  {
    var i := 0;
    while i < |s|
      invariant i <= |s|
      invariant forall k :: 0 <= k < out.Length ==>
        out[k] == if at <= k < at + i then s[k - at] else old(out[k])
    {
      out[at + i] := s[i];
      i := i + 1;
    }
  }

  /** A memory with `text` written at `at`. */
  ghost function Spliced(was: string, at: nat, text: string): (r: string)
    requires at + |text| <= |was|
    ensures |r| == |was|
  {
    was[..at] + text + was[at + |text|..]
  }

  /** One more piece behind what was written at `at`. */
  method Append(out: array<char>, ghost was: string, ghost at: nat, ghost done: string, ptr: nat, piece: string)
    returns (ptr': nat)
    requires ptr == at + |done| && ptr + |piece| <= out.Length == |was|
    requires out[..] == Spliced(was, at, done)
    modifies out
    ensures ptr' == at + |done + piece| && out[..] == Spliced(was, at, done + piece)
  {
    CopyAt(out, ptr, piece);
    ptr' := ptr + |piece|;
  }

  /** The writing part of print_string_ptr: into `len` + 3 bytes at `at`. */
  method WriteQuoted(out: array<char>, at: nat, s: string, flag: bool, len: nat)
    requires '\0' !in s && len == |EscapeAll(s)| && (!flag ==> EscapeAll(s) == s)
    requires at + len + 3 <= out.Length
    modifies out
    ensures |Quote(s)| == len + 2 && out[..] == Spliced(old(out[..]), at, Quote(s) + "\0")
  {
    hide EscapeAll, Spliced;
    ghost var was := out[..];
    NothingWritten(was, at);
    if !flag {
      var _ := Append(out, was, at, "", at, "\"" + s + "\"" + "\0");
      assert "" + ("\"" + s + "\"" + "\0") == Quote(s) + "\0";
      return;
    }
    var ptr := Append(out, was, at, "", at, "\"");
    var i := 0;
    EscapeStart(s);
    ghost var done := "\"" + EscapeAll(s[..i]);
    assert "" + "\"" == done;
    while i < |s|
      invariant i <= |s| && done == "\"" + EscapeAll(s[..i]) && |EscapeAll(s[..i])| <= len
      invariant ptr == at + |done| && out[..] == Spliced(was, at, done)
    {
      EscapeAppend(s, i);
      EscapePrefix(s, i + 1);
      var piece := Escape(s[i]);
      ptr := Append(out, was, at, done, ptr, piece);
      assert done + piece == "\"" + (EscapeAll(s[..i]) + piece);
      done := done + piece;
      i := i + 1;
    }
    assert s[..i] == s;
    var _ := Append(out, was, at, done, ptr, "\"\0");
    assert done + "\"\0" == Quote(s) + "\0";
  }

  lemma NothingWritten(was: string, at: nat)
    requires at <= |was|
    ensures Spliced(was, at, "") == was
  {}

  lemma EscapeStart(s: string)
    ensures EscapeAll(s[..0]) == ""
  {}

  lemma {:induction false} EscapePrefix(s: string, k: nat)
    requires k <= |s|
    ensures |EscapeAll(s[..k])| <= |EscapeAll(s)|
    decreases |s| - k
  {
    hide EscapeAll;
    if k < |s| {
      EscapeAppend(s, k);
      EscapePrefix(s, k + 1);
    } else {
      assert s[..k] == s;
    }
  }

  // ---------------------------------------------------------------- one block for each value

  /** A block just large enough for a text and its NUL, and the text read from it. */
  method Allocated(size: nat, text: string) returns (r: string)
    requires |text| + 1 <= size
    ensures r == text
  {
    var out := new char[size];
    CopyAt(out, 0, text + "\0");
    r := out[..|text|];
    assert r == (text + "\0")[..|text|];
  }

  /** print_number. */
  method PrintNumber(i: int, d: real) returns (r: string)
    requires Renderable(Num(i, d))
    ensures r == NumberText(i, d)
  {
    if d == 0.0 {
      r := Allocated(2, "0");
    } else {
      NumberFits(i);
      r := Allocated(21, Dec(i));
    }
  }

  /** print_string_ptr without a buffer. */
  method PrintString(s: string) returns (r: string)
    requires '\0' !in s
    ensures r == Quote(s)
  {
    hide EscapeAll;
    var flag, len := QuotedLength(s);
    var out := new char[len + 3];
    WriteQuoted(out, 0, s, flag, len);
    r := out[..len + 2];
    assert out[..] == Quote(s) + "\0";
  }

  /** print_value without a buffer. */
  method PrintValue(t: Json, depth: nat, fmt: bool) returns (r: string)
    requires Renderable(t)
    ensures r == Print(t, depth, fmt)
    decreases t, 2
  {
    hide PrintItems, PrintMembers;
    match t {
      case Null => r := Allocated(5, "null");
      case False => r := Allocated(6, "false");
      case True => r := Allocated(5, "true");
      case Num(i, d) => r := PrintNumber(i, d);
      case Str(s) => r := PrintString(s);
      case Arr(items) => r := PrintArray(items, depth, fmt);
      case Obj(members) => r := PrintObject(members, depth, fmt);
    }
  }

  // ---------------------------------------------------------------- arrays

  /** What print_array adds to its length for the items from number `k` on. */
  function ItemsRoom(items: seq<Json>, k: nat, depth: nat, fmt: bool): (n: nat)
    requires k <= |items|
    decreases |items| - k
  {
    if k == |items| then 0
    else |Print(items[k], depth + 1, fmt)| + 2 + (if fmt then 1 else 0) + ItemsRoom(items, k + 1, depth, fmt)
  }

  lemma {:induction false} ItemsFit(items: seq<Json>, k: nat, depth: nat, fmt: bool)
    requires k <= |items|
    ensures |PrintItems(items, k, depth, fmt)| <= ItemsRoom(items, k, depth, fmt)
    decreases |items| - k
  {
    hide Print;
    if k < |items| { ItemsFit(items, k + 1, depth, fmt); }
  }

  lemma ItemsStep(items: seq<Json>, k: nat, depth: nat, fmt: bool, done: string)
    requires k < |items|
    ensures var sep := if k + 1 < |items| then Comma(fmt) else "";
      done + PrintItems(items, k, depth, fmt)
      == done + Print(items[k], depth + 1, fmt) + sep + PrintItems(items, k + 1, depth, fmt)
  {
    hide Print;
    Join4(done, Print(items[k], depth + 1, fmt), if k + 1 < |items| then Comma(fmt) else "",
      PrintItems(items, k + 1, depth, fmt));
  }

  lemma Join4(a: string, b: string, c: string, d: string)
    ensures a + (b + c + d) == a + b + c + d
  {}

  /** print_array without a buffer: the composed text always fits the length added up before. */
  method PrintArray(items: seq<Json>, depth: nat, fmt: bool) returns (r: string)
    requires Renderable(Arr(items))
    ensures r == Print(Arr(items), depth, fmt)
    decreases items, 1
  {
    hide PrintItems, ItemsRoom;
    if |items| == 0 {
      r := Allocated(3, "[]");
      return;
    }
    var entries, len := PrintEntries(items, depth, fmt);
    ItemsFit(items, 0, depth, fmt);
    r := ComposeArray(items, entries, len, depth, fmt);
  }

  /** The loop that prints the items and adds up the length. */
  method PrintEntries(items: seq<Json>, depth: nat, fmt: bool) returns (entries: seq<string>, len: nat)
    requires Renderable(Arr(items))
    ensures |entries| == |items| && forall k :: 0 <= k < |items| ==> entries[k] == Print(items[k], depth + 1, fmt)
    ensures len == 5 + ItemsRoom(items, 0, depth, fmt)
    decreases items, 0
  {
    hide Print;
    entries, len := [], 5;
    var i := 0;
    while i < |items|
      invariant i == |entries| <= |items|
      invariant forall k :: 0 <= k < i ==> entries[k] == Print(items[k], depth + 1, fmt)
      invariant len + ItemsRoom(items, i, depth, fmt) == 5 + ItemsRoom(items, 0, depth, fmt)
    {
      var ret := PrintValue(items[i], depth + 1, fmt);
      entries := entries + [ret];
      len := len + |ret| + 2 + if fmt then 1 else 0;
      i := i + 1;
    }
  }

  /** The composing half of print_array. */
  method ComposeArray(items: seq<Json>, entries: seq<string>, len: nat, depth: nat, fmt: bool) returns (r: string)
    requires items != [] && |entries| == |items|
    requires forall k :: 0 <= k < |items| ==> entries[k] == Print(items[k], depth + 1, fmt)
    requires |PrintItems(items, 0, depth, fmt)| + 3 <= len
    ensures r == Print(Arr(items), depth, fmt)
  {
    hide PrintItems, Spliced;
    var out := new char[len];
    ghost var was, whole := out[..], "[" + PrintItems(items, 0, depth, fmt);
    NothingWritten(was, 0);
    var ptr := Append(out, was, 0, "", 0, "[");
    ghost var done := "[";
    assert "" + "[" == done;
    var i := 0;
    while i < |items|
      invariant i <= |items| && ptr == |done| <= |whole| && out[..] == Spliced(was, 0, done)
      invariant done + PrintItems(items, i, depth, fmt) == whole
    {
      ItemsStep(items, i, depth, fmt, done);
      ptr := Append(out, was, 0, done, ptr, entries[i]);
      done := done + entries[i];
      if i != |items| - 1 {
        ptr := Append(out, was, 0, done, ptr, Comma(fmt));
        done := done + Comma(fmt);
      } else {
        assert done + "" == done;
      }
      i := i + 1;
    }
    NoItems(items, depth, fmt);
    assert done + "" == done;
    ptr := Append(out, was, 0, done, ptr, "]\0");
    assert done + "]\0" == (done + "]") + "\0";
    r := TextOf(out, was, done + "]", ptr);
  }

  lemma NoItems(items: seq<Json>, depth: nat, fmt: bool)
    ensures PrintItems(items, |items|, depth, fmt) == ""
  {}

  /** The text of a block whose NUL was just written. */
  method TextOf(out: array<char>, ghost was: string, ghost text: string, ptr: nat) returns (r: string)
    requires ptr == |text| + 1 <= |was| && out[..] == Spliced(was, 0, text + "\0")
    ensures r == text
  {
    r := out[..ptr - 1];
    assert r == out[..][..ptr - 1];
  }

  // ---------------------------------------------------------------- objects

  /** What print_object adds to its length for the members from number `k` on. */
  function MembersRoom(members: seq<Member>, k: nat, depth: nat, fmt: bool): (n: nat)
    requires k <= |members|
    decreases |members| - k
  {
    if k == |members| then 0
    else
      |Print(members[k].value, depth, fmt)| + |Quote(members[k].name)| + 2 + (if fmt then 2 + depth else 0)
      + MembersRoom(members, k + 1, depth, fmt)
  }

  lemma {:induction false} MembersFit(members: seq<Member>, k: nat, depth: nat, fmt: bool)
    requires k <= |members|
    ensures |PrintMembers(members, k, depth, fmt)| <= MembersRoom(members, k, depth, fmt)
    decreases |members| - k
  {
    hide Print, Quote;
    if k < |members| { MembersFit(members, k + 1, depth, fmt); }
  }

  /** The pieces of one member's line. */
  lemma MembersStep(members: seq<Member>, k: nat, depth: nat, fmt: bool, done: string)
    requires k < |members|
    ensures done + PrintMembers(members, k, depth, fmt) ==
      done + (if fmt then Tabs(depth) else "") + Quote(members[k].name) + (if fmt then ":\t" else ":")
      + Print(members[k].value, depth, fmt) + (if k + 1 < |members| then "," else "") + Break(fmt)
      + PrintMembers(members, k + 1, depth, fmt)
  {
    hide Print, Quote;
    Join8(done, if fmt then Tabs(depth) else "", Quote(members[k].name), if fmt then ":\t" else ":",
      Print(members[k].value, depth, fmt), if k + 1 < |members| then "," else "", Break(fmt),
      PrintMembers(members, k + 1, depth, fmt));
  }

  lemma Join8(a: string, b: string, c: string, d: string, e: string, f: string, g: string, h: string)
    ensures a + (((b + c) + d + e) + f + g + h) == a + b + c + d + e + f + g + h
  {}

  /** print_object without a buffer. */
  method PrintObject(members: seq<Member>, depth: nat, fmt: bool) returns (r: string)
    requires Renderable(Obj(members))
    ensures r == Print(Obj(members), depth, fmt)
    decreases members, 1
  {
    hide PrintMembers, MembersRoom;
    if |members| == 0 {
      r := Allocated(if fmt then depth + 4 else 3, EmptyObject(depth, fmt));
      return;
    }
    var names, entries, len := PrintMemberEntries(members, depth + 1, fmt);
    MembersFit(members, 0, depth + 1, fmt);
    r := ComposeObject(members, names, entries, len, depth + 1, fmt);
  }

  /** The loop that prints names and values and adds up the length. */
  method PrintMemberEntries(members: seq<Member>, depth: nat, fmt: bool)
    returns (names: seq<string>, entries: seq<string>, len: nat)
    requires Renderable(Obj(members))
    ensures |names| == |entries| == |members|
    ensures forall k :: 0 <= k < |members| ==> names[k] == Quote(members[k].name)
    ensures forall k :: 0 <= k < |members| ==> entries[k] == Print(members[k].value, depth, fmt)
    ensures len == 7 + (if fmt then depth else 0) + MembersRoom(members, 0, depth, fmt)
    decreases members, 0
  {
    hide Print, Quote;
    names, entries, len := [], [], 7;
    if fmt {
      len := len + depth;
    }
    ghost var base := len;
    var i := 0;
    while i < |members|
      invariant i == |entries| == |names| <= |members|
      invariant forall k :: 0 <= k < i ==> names[k] == Quote(members[k].name)
      invariant forall k :: 0 <= k < i ==> entries[k] == Print(members[k].value, depth, fmt)
      invariant len + MembersRoom(members, i, depth, fmt) == base + MembersRoom(members, 0, depth, fmt)
    {
      var str := PrintString(members[i].name);
      var ret := PrintValue(members[i].value, depth, fmt);
      names, entries := names + [str], entries + [ret];
      len := len + |ret| + |str| + 2 + if fmt then 2 + depth else 0;
      i := i + 1;
    }
  }

  /** The composing half of print_object. */
  method ComposeObject(members: seq<Member>, names: seq<string>, entries: seq<string>, len: nat, depth: nat, fmt: bool)
    returns (r: string)
    requires depth > 0 && members != [] && |names| == |entries| == |members|
    requires forall k :: 0 <= k < |members| ==> names[k] == Quote(members[k].name)
    requires forall k :: 0 <= k < |members| ==> entries[k] == Print(members[k].value, depth, fmt)
    requires 7 + (if fmt then depth else 0) + |PrintMembers(members, 0, depth, fmt)| <= len
    ensures r == Print(Obj(members), depth - 1, fmt)
  {
    hide PrintMembers, Spliced, Tabs;
    var out := new char[len];
    var open := "{" + Break(fmt);
    ghost var was, whole := out[..], open + PrintMembers(members, 0, depth, fmt);
    NothingWritten(was, 0);
    var ptr := Append(out, was, 0, "", 0, open);
    ghost var done := open;
    assert "" + open == done;
    var i := 0;
    while i < |members|
      invariant i <= |members| && ptr == |done| <= |whole| && out[..] == Spliced(was, 0, done)
      invariant done + PrintMembers(members, i, depth, fmt) == whole
    {
      ptr, done := ComposeMember(out, was, done, whole, ptr, members, i, names[i], entries[i], depth, fmt);
      i := i + 1;
    }
    NoMembers(members, depth, fmt);
    assert done + "" == done;
    var close := (if fmt then Tabs(depth - 1) else "") + "}" + "\0";
    ptr := Append(out, was, 0, done, ptr, close);
    ghost var text := done + (if fmt then Tabs(depth - 1) else "") + "}";
    assert done + close == text + "\0";
    r := TextOf(out, was, text, ptr);
  }

  lemma NoMembers(members: seq<Member>, depth: nat, fmt: bool)
    ensures PrintMembers(members, |members|, depth, fmt) == ""
  {}

  /** One turn of the composing loop. */
  method ComposeMember(out: array<char>, ghost was: string, ghost done: string, ghost whole: string, ptr: nat,
                       members: seq<Member>, i: nat, name: string, entry: string, depth: nat, fmt: bool)
    returns (ptr': nat, ghost done': string)
    requires i < |members| && name == Quote(members[i].name) && entry == Print(members[i].value, depth, fmt)
    requires ptr == |done| <= |whole| <= out.Length == |was| && out[..] == Spliced(was, 0, done)
    requires done + PrintMembers(members, i, depth, fmt) == whole
    modifies out
    ensures ptr' == |done'| && |done'| <= |whole| && out[..] == Spliced(was, 0, done')
    ensures done' + PrintMembers(members, i + 1, depth, fmt) == whole
  {
    hide PrintMembers, Print, Quote, Spliced;
    MembersStep(members, i, depth, fmt, done);
    ptr', done' := ptr, done;
    if fmt {
      ptr' := Append(out, was, 0, done', ptr', Tabs(depth));
      done' := done' + Tabs(depth);
    } else {
      assert done' + "" == done';
    }
    ptr' := Append(out, was, 0, done', ptr', name);
    done' := done' + name;
    ptr' := Append(out, was, 0, done', ptr', if fmt then ":\t" else ":");
    done' := done' + if fmt then ":\t" else ":";
    ptr' := Append(out, was, 0, done', ptr', entry);
    done' := done' + entry;
    if i != |members| - 1 {
      ptr' := Append(out, was, 0, done', ptr', ",");
      done' := done' + ",";
    } else {
      assert done' + "" == done';
    }
    if fmt {
      ptr' := Append(out, was, 0, done', ptr', "\n");
      done' := done' + "\n";
    } else {
      assert done' + "" == done';
    }
  }

  /** cJSON_Print and cJSON_PrintUnformatted. */
  method PrintAllocated(t: Json, fmt: bool) returns (r: string)
    requires Renderable(t)
    ensures r == Print(t, 0, fmt)
  {
    r := PrintValue(t, 0, fmt);
  }
}
