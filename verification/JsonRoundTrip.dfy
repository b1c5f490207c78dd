/** Parsing what was printed gives the tree back. */
module JsonRoundTrip {
  import opened JsonSpec

  // ---------------------------------------------------------------- which trees

  /** Strings without NUL and ints other than the most negative, which overflows while it is parsed. */
  ghost predicate Plain(t: Json) {
    match t
    case Num(i, d) => INT_MIN < i <= INT_MAX && d == i as real
    case Str(s) => '\0' !in s
    case Arr(items) => forall k :: 0 <= k < |items| ==> Plain(items[k])
    case Obj(members) => forall k :: 0 <= k < |members| ==> '\0' !in members[k].name && Plain(members[k].value)
    case _ => true
  }

  /** The tree with the double parts cleared: the integer parser leaves them at zero. */
  function Erase(t: Json): (r: Json) {
    match t
    case Num(i, d) => Num(i, 0.0)
    case Arr(items) => Arr(seq(|items|, k requires 0 <= k < |items| => Erase(items[k])))
    case Obj(members) =>
      Obj(seq(|members|, k requires 0 <= k < |members| => Member(members[k].name, Erase(members[k].value))))
    case _ => t
  }

  function EraseFrom(items: seq<Json>, k: nat): (r: seq<Json>)
    requires k <= |items|
    ensures |r| == |items| - k
    decreases |items| - k
  {
    if k == |items| then [] else [Erase(items[k])] + EraseFrom(items, k + 1)
  }

  function EraseMembers(members: seq<Member>, k: nat): (r: seq<Member>)
    requires k <= |members|
    ensures |r| == |members| - k
    decreases |members| - k
  {
    if k == |members| then [] else [Member(members[k].name, Erase(members[k].value))] + EraseMembers(members, k + 1)
  }

  lemma {:induction false} EraseItem(items: seq<Json>, k: nat, j: nat)
    requires k <= j < |items|
    ensures EraseFrom(items, k)[j - k] == Erase(items[j])
    decreases |items| - k
  {
    hide Erase;
    if j > k { EraseItem(items, k + 1, j); }
  }

  lemma {:induction false} EraseMember(members: seq<Member>, k: nat, j: nat)
    requires k <= j < |members|
    ensures EraseMembers(members, k)[j - k] == Member(members[j].name, Erase(members[j].value))
    decreases |members| - k
  {
    hide Erase;
    if j > k { EraseMember(members, k + 1, j); }
  }

  lemma ErasedArray(items: seq<Json>)
    ensures Erase(Arr(items)) == Arr(EraseFrom(items, 0))
  {
    var es := EraseFrom(items, 0);
    forall j | 0 <= j < |items| ensures es[j] == Erase(items[j]) { EraseItem(items, 0, j); }
    assert Erase(Arr(items)).items == es;
  }

  lemma ErasedObject(members: seq<Member>)
    ensures Erase(Obj(members)) == Obj(EraseMembers(members, 0))
  {
    var es := EraseMembers(members, 0);
    forall j | 0 <= j < |members| ensures es[j] == Member(members[j].name, Erase(members[j].value)) {
      EraseMember(members, 0, j);
    }
    assert Erase(Obj(members)).members == es;
  }

  // ---------------------------------------------------------------- numbers

  lemma DigitBack(d: nat)
    requires d < 10
    ensures IsDigit(Digit(d)) && DigitValue(Digit(d)) == d && (Digit(d) == '0' <==> d == 0)
  {}

  predicate NoDigit(z: string) {
    z == "" || !IsDigit(z[0])
  }

  lemma {:induction false} RunBack(n: nat, z: string)
    ensures Run(DecNat(n) + z, 0) == Run(z, n)
  {
    if n < 10 {
      DigitBack(n);
      assert (DecNat(n) + z)[1..] == z;
    } else {
      DigitBack(n % 10);
      var rest := [Digit(n % 10)] + z;
      assert DecNat(n) + z == DecNat(n / 10) + rest;
      RunBack(n / 10, rest);
      assert rest[1..] == z;
    }
  }

  /** No printed number starts with a zero but zero itself. */
  lemma {:induction false} LeadingDigit(n: nat)
    ensures IsDigit(DecNat(n)[0]) && (DecNat(n)[0] == '0' <==> n == 0)
  {
    if n < 10 { DigitBack(n); } else { LeadingDigit(n / 10); }
  }

  lemma NumberBack(n: int, z: string)
    requires INT_MIN < n <= INT_MAX && NoDigit(z)
    ensures var s := Dec(n) + z;
      (s[0] == '-' || IsDigit(s[0])) && ParseNumber(s) == Got(n, z)
  {
    var m := if n < 0 then -n else n;
    var digits := DecNat(m) + z;
    LeadingDigit(m);
    RunBack(m, z);
    if n < 0 { assert (Dec(n) + z)[1..] == digits; }
    if m == 0 { assert digits[1..] == z; }
  }

  // ---------------------------------------------------------------- strings

  lemma HexBack(n: nat)
    requires 0 < n < 32
    ensures Hex4("00" + [HexDigit(n / 16), HexDigit(n % 16)]) == n
  {}

  lemma CharBack(c: char, z: string)
    requires c != '\0'
    ensures var s := Escape(c) + z;
      s[0] != '\"' && ParseChar(s) == Got([c], z)
  {
    var s := Escape(c) + z;
    if |Escape(c)| == 6 {
      var n := c as int;
      HexBack(n);
      assert s[2..6] == "00" + [HexDigit(n / 16), HexDigit(n % 16)];
      assert s[6..] == z;
    } else if |Escape(c)| == 2 {
      assert s[2..] == z;
    } else {
      assert s[1..] == z;
    }
  }

  lemma {:induction false} CharsBack(s: string, z: string)
    requires '\0' !in s
    ensures ParseChars(EscapeAll(s) + "\"" + z) == Got(s, z)
  {
    if s == "" {
      assert (EscapeAll(s) + "\"" + z)[1..] == z;
    } else {
      hide Escape, ParseChar;
      var rest := EscapeAll(s[1..]) + "\"" + z;
      assert EscapeAll(s) + "\"" + z == Escape(s[0]) + rest;
      CharBack(s[0], rest);
      CharsBack(s[1..], z);
      assert [s[0]] + s[1..] == s;
    }
  }

  lemma StringBack(s: string, z: string)
    requires '\0' !in s
    ensures ParseString(Quote(s) + z) == Got(s, z)
  {
    hide ParseChars, EscapeAll;
    CharsBack(s, z);
    assert (Quote(s) + z)[1..] == EscapeAll(s) + "\"" + z;
  }

  // ---------------------------------------------------------------- space

  predicate AllSpace(w: string) {
    forall k :: 0 <= k < |w| ==> Space(w[k])
  }

  lemma {:induction false} SkipSpace(w: string, s: string)
    requires AllSpace(w) && s != "" && !Space(s[0])
    ensures Skip(w + s) == s
  {
    if w == "" {
      assert w + s == s;
    } else {
      assert (w + s)[1..] == w[1..] + s;
      SkipSpace(w[1..], s);
    }
  }

  lemma SkipNothing(s: string)
    requires s == "" || !Space(s[0])
    ensures Skip(s) == s
  {}

  /** The first character tells which branch of parse_value is taken; no printed value starts with
      space, a closing bracket or a digit it does not own. */
  lemma FirstChar(t: Json, depth: nat, fmt: bool)
    requires Plain(t)
    ensures var c := Print(t, depth, fmt)[0];
      && !Space(c) && c != ']' && c != '}' && c != ','
      && (t.Num? <==> c == '-' || IsDigit(c))
  {
    match t {
      case Num(i, d) =>
        LeadingDigit(if i < 0 then -i else i);
      case _ =>
    }
  }

  // ---------------------------------------------------------------- values

  /** A text may follow a value unless it prolongs a number. */
  predicate Follows(t: Json, z: string) {
    t.Num? ==> NoDigit(z)
  }

  lemma WordBack(word: string, z: string)
    ensures StartsWith(word + z, word) && (word + z)[|word|..] == z
  {}

  lemma NotWord(s: string)
    requires s != "" && s[0] != 'n' && s[0] != 'f' && s[0] != 't'
    ensures !StartsWith(s, "null") && !StartsWith(s, "false") && !StartsWith(s, "true")
  {}

  lemma {:induction false} ValueBack(t: Json, depth: nat, fmt: bool, z: string)
    requires Plain(t) && Follows(t, z)
    ensures ParseValue(Print(t, depth, fmt) + z) == Got(Erase(t), z)
    decreases t, 1
  {
    var s := Print(t, depth, fmt) + z;
    match t {
      case Null => WordBack("null", z);
      case False => WordBack("false", z); assert !StartsWith(s, "null") by { assert s[0] == 'f'; }
      case True => WordBack("true", z);
        assert !StartsWith(s, "null") && !StartsWith(s, "false") by { assert s[0] == 't'; }
      case Num(i, d) => NumberValueBack(i, d, depth, fmt, z);
      case Str(str) => StringBack(str, z); NotWord(s);
      case Arr(items) => ArrayBack(items, depth, fmt, z);
      case Obj(members) => ObjectBack(members, depth, fmt, z);
    }
  }

  lemma NumberValueBack(i: int, d: real, depth: nat, fmt: bool, z: string)
    requires Plain(Num(i, d)) && NoDigit(z)
    ensures ParseValue(Print(Num(i, d), depth, fmt) + z) == Got(Erase(Num(i, d)), z)
  {
    if d == 0.0 { assert i == 0; assert NumberText(i, d) == Dec(0); }
    NumberBack(i, z);
    NotWord(Dec(i) + z);
  }

  // ---------------------------------------------------------------- arrays

  lemma EmptyArray(w: string, z: string)
    requires AllSpace(w)
    ensures ParseValue("[" + w + ("]" + z)) == Got(Arr([]), z)
  {
    var s := "[" + w + ("]" + z);
    NotWord(s);
    assert s[1..] == w + ("]" + z);
    SkipSpace(w, "]" + z);
    assert ("]" + z)[1..] == z;
  }

  lemma FullArray(body: string)
    requires body != "" && !Space(body[0]) && body[0] != ']'
    ensures ParseValue("[" + body) ==
      (var g := ParseItems(body); if g.Fail? then Fail else Got(Arr(g.value), g.rest))
  {
    hide ParseItems;
    var s := "[" + body;
    NotWord(s);
    assert s[1..] == body;
    SkipNothing(body);
  }

  /** One item and a comma, or one item and the bracket. */
  lemma ItemThenMore(s: string, v: Json, gap: string, more: string)
    requires s != "" && !Space(s[0]) && ParseValue(s) == Got(v, "," + (gap + more))
    requires AllSpace(gap) && more != "" && !Space(more[0])
    ensures ParseItems(s) ==
      (var h := ParseItems(more); if h.Fail? then Fail else Got([v] + h.value, h.rest))
  {
    hide ParseValue;
    var after := "," + (gap + more);
    SkipNothing(s);
    SkipNothing(after);
    assert after[1..] == gap + more;
    SkippedItems(gap, more);
  }

  lemma ItemThenEnd(s: string, v: Json, z: string)
    requires s != "" && !Space(s[0]) && ParseValue(s) == Got(v, "]" + z)
    ensures ParseItems(s) == Got([v], z)
  {
    hide ParseValue;
    SkipNothing(s);
    SkipNothing("]" + z);
    assert ("]" + z)[1..] == z;
  }

  /** Space before the items does not matter. */
  lemma SkippedItems(gap: string, s: string)
    requires AllSpace(gap) && s != "" && !Space(s[0])
    ensures ParseItems(gap + s) == ParseItems(s)
  {
    hide ParseValue, Skip;
    SkipSpace(gap, s);
    SkipNothing(s);
  }

  lemma ItemsUnfold(items: seq<Json>, k: nat, depth: nat, fmt: bool, z: string)
    requires k < |items|
    ensures var first := Print(items[k], depth + 1, fmt);
      PrintItems(items, k, depth, fmt) + z ==
        if k + 1 == |items| then first + z
        else first + ("," + ((if fmt then " " else "") + (PrintItems(items, k + 1, depth, fmt) + z)))
  {
    hide Print;
    var first := Print(items[k], depth + 1, fmt);
    if k + 1 < |items| {
      var gap, rest := if fmt then " " else "", PrintItems(items, k + 1, depth, fmt);
      assert Comma(fmt) == "," + gap;
      assert first + Comma(fmt) + rest + z == first + ("," + (gap + (rest + z)));
    } else {
      assert PrintItems(items, k + 1, depth, fmt) == "";
    }
  }

  lemma ItemsStart(items: seq<Json>, k: nat, depth: nat, fmt: bool, z: string)
    requires Plain(Arr(items)) && k < |items|
    ensures var b := PrintItems(items, k, depth, fmt) + z;
      b != "" && !Space(b[0]) && b[0] != ']'
  {
    hide Print, PrintItems, Space;
    ItemsUnfold(items, k, depth, fmt, z);
    FirstChar(items[k], depth + 1, fmt);
  }

  lemma {:induction false} ItemsBack(items: seq<Json>, k: nat, depth: nat, fmt: bool, z: string)
    requires Plain(Arr(items)) && k < |items|
    ensures ParseItems(PrintItems(items, k, depth, fmt) + ("]" + z)) == Got(EraseFrom(items, k), z)
    decreases items, |items| - k
  {
    hide Print, PrintItems, ParseItems, ParseValue, Space, Erase;
    ItemsUnfold(items, k, depth, fmt, "]" + z);
    ItemsStart(items, k, depth, fmt, "]" + z);
    var s := PrintItems(items, k, depth, fmt) + ("]" + z);
    if k + 1 == |items| {
      assert NoDigit("]" + z);
      ValueBack(items[k], depth + 1, fmt, "]" + z);
      ItemThenEnd(s, Erase(items[k]), z);
      assert EraseFrom(items, k) == [Erase(items[k])];
    } else {
      var gap := if fmt then " " else "";
      var more := PrintItems(items, k + 1, depth, fmt) + ("]" + z);
      assert NoDigit("," + (gap + more));
      ValueBack(items[k], depth + 1, fmt, "," + (gap + more));
      ItemsStart(items, k + 1, depth, fmt, "]" + z);
      Gaps(fmt, 0);
      ItemThenMore(s, Erase(items[k]), gap, more);
      ItemsBack(items, k + 1, depth, fmt, z);
    }
  }

  lemma Gaps(fmt: bool, n: nat)
    ensures AllSpace(if fmt then " " else "") && AllSpace(if fmt then "\t" else "") && AllSpace(Break(fmt))
    ensures AllSpace(if fmt then Tabs(n) else "") && AllSpace(Break(fmt) + if fmt then Tabs(n) else "")
  {}

  lemma {:induction false} ArrayBack(items: seq<Json>, depth: nat, fmt: bool, z: string)
    requires Plain(Arr(items))
    ensures ParseValue(Print(Arr(items), depth, fmt) + z) == Got(Erase(Arr(items)), z)
    decreases items, |items| + 1
  {
    hide PrintItems, ParseItems, ParseValue, Erase;
    ErasedArray(items);
    if items == [] {
      assert "[]" + z == "[" + "" + ("]" + z);
      EmptyArray("", z);
    } else {
      var body := PrintItems(items, 0, depth, fmt) + ("]" + z);
      assert Print(Arr(items), depth, fmt) + z == "[" + body;
      ItemsStart(items, 0, depth, fmt, "]" + z);
      ItemsBack(items, 0, depth, fmt, z);
      FullArray(body);
    }
  }

  // ---------------------------------------------------------------- objects

  lemma EmptyObjectBack(w: string, z: string)
    requires AllSpace(w)
    ensures ParseValue("{" + w + ("}" + z)) == Got(Obj([]), z)
  {
    var s := "{" + w + ("}" + z);
    NotWord(s);
    assert s[1..] == w + ("}" + z);
    SkipSpace(w, "}" + z);
    assert ("}" + z)[1..] == z;
  }

  lemma FullObject(gap: string, body: string)
    requires AllSpace(gap) && body != "" && body[0] == '\"'
    ensures ParseValue("{" + (gap + body)) ==
      (var g := ParseMembers(body); if g.Fail? then Fail else Got(Obj(g.value), g.rest))
  {
    hide ParseMembers;
    var s := "{" + (gap + body);
    NotWord(s);
    assert s[1..] == gap + body;
    SkipSpace(gap, body);
  }

  lemma MemberThenMore(s: string, m: Member, gap: string, more: string)
    requires ParseMember(s) == Got(m, "," + (gap + more))
    requires AllSpace(gap) && more != "" && more[0] == '\"'
    ensures ParseMembers(s) ==
      (var h := ParseMembers(more); if h.Fail? then Fail else Got([m] + h.value, h.rest))
  {
    hide ParseMember;
    var after := "," + (gap + more);
    SkipNothing(after);
    assert after[1..] == gap + more;
    SkippedMembers(gap, more);
  }

  lemma MemberThenEnd(s: string, m: Member, gap: string, z: string)
    requires ParseMember(s) == Got(m, gap + ("}" + z)) && AllSpace(gap)
    ensures ParseMembers(s) == Got([m], z)
  {
    hide ParseMember;
    SkipSpace(gap, "}" + z);
    assert ("}" + z)[1..] == z;
  }

  lemma SkippedMembers(gap: string, s: string)
    requires AllSpace(gap) && s != "" && !Space(s[0])
    ensures ParseMembers(gap + s) == ParseMembers(s)
  {
    hide Skip;
    SkippedMember(gap, s);
  }

  lemma SkippedMember(gap: string, s: string)
    requires AllSpace(gap) && s != "" && !Space(s[0])
    ensures ParseMember(gap + s) == ParseMember(s)
  {
    hide ParseString, ParseValue, Skip;
    SkipSpace(gap, s);
    SkipNothing(s);
  }

  /** A member without its indentation. */
  function MemberText(m: Member, depth: nat, fmt: bool): (r: string)
    ensures r != "" && r[0] == '\"'
  {
    Quote(m.name) + (if fmt then ":\t" else ":") + Print(m.value, depth, fmt)
  }

  lemma MemberStep(name: string, gap: string, value: string, v: Json, z: string)
    requires '\0' !in name && AllSpace(gap) && value != "" && !Space(value[0])
    requires ParseValue(value) == Got(v, z)
    ensures ParseMember(Quote(name) + (":" + (gap + value))) == Got(Member(name, v), z)
  {
    hide ParseValue, ParseString, Quote;
    var after := ":" + (gap + value);
    QuoteStart(name);
    SkipNothing(Quote(name) + after);
    StringBack(name, after);
    SkipNothing(after);
    assert after[1..] == gap + value;
    SkipSpace(gap, value);
  }

  lemma QuoteStart(name: string)
    ensures Quote(name) != "" && Quote(name)[0] == '\"'
  {}

  lemma {:induction false} MemberBack(m: Member, depth: nat, fmt: bool, z: string)
    requires '\0' !in m.name && Plain(m.value) && Follows(m.value, z)
    ensures ParseMember(MemberText(m, depth, fmt) + z) == Got(Member(m.name, Erase(m.value)), z)
    decreases m, 0
  {
    hide ParseValue, ParseMember, Print, Quote, Erase, Space;
    var gap := if fmt then "\t" else "";
    var value := Print(m.value, depth, fmt) + z;
    var colon := if fmt then ":\t" else ":";
    assert colon == ":" + gap;
    assert Quote(m.name) + colon + Print(m.value, depth, fmt) + z == Quote(m.name) + (":" + (gap + value));
    FirstChar(m.value, depth, fmt);
    ValueBack(m.value, depth, fmt, z);
    Gaps(fmt, 0);
    MemberStep(m.name, gap, value, Erase(m.value), z);
  }

  /** The members from number `k` on, without the indentation of the first. */
  function MembersText(members: seq<Member>, k: nat, depth: nat, fmt: bool): (r: string)
    requires k < |members|
  {
    MemberText(members[k], depth, fmt) + (if k + 1 < |members| then "," else "") + Break(fmt)
    + PrintMembers(members, k + 1, depth, fmt)
  }

  lemma MembersIndented(members: seq<Member>, k: nat, depth: nat, fmt: bool)
    requires k < |members|
    ensures PrintMembers(members, k, depth, fmt) == (if fmt then Tabs(depth) else "") + MembersText(members, k, depth, fmt)
  {
    hide Print, Quote;
    var indent, m := if fmt then Tabs(depth) else "", members[k];
    assert PrintMember(m, depth, fmt) == indent + MemberText(m, depth, fmt);
  }

  lemma Regroup(a: string, b: string, c: string, d: string, e: string, f: string)
    ensures a + b + c + (d + e) + f == a + (b + ((c + d) + (e + f)))
  {}

  lemma RegroupObject(a: string, b: string, c: string, d: string, e: string, f: string, g: string)
    ensures a + b + (c + d) + e + f + g == a + ((b + c) + (d + (e + (f + g))))
  {}

  lemma MembersUnfold(members: seq<Member>, k: nat, depth: nat, fmt: bool, z: string)
    requires k < |members|
    ensures MembersText(members, k, depth, fmt) + z ==
      MemberText(members[k], depth, fmt)
      + (if k + 1 == |members| then Break(fmt) + z
         else "," + ((Break(fmt) + if fmt then Tabs(depth) else "") + (MembersText(members, k + 1, depth, fmt) + z)))
  {
    hide MemberText;
    var first := MemberText(members[k], depth, fmt);
    if k + 1 < |members| {
      hide PrintMembers;
      MembersIndented(members, k + 1, depth, fmt);
      var b, indent, rest := Break(fmt), if fmt then Tabs(depth) else "", MembersText(members, k + 1, depth, fmt);
      Regroup(first, ",", b, indent, rest, z);
    } else {
      assert PrintMembers(members, k + 1, depth, fmt) == "";
      assert first + "" + Break(fmt) + "" + z == first + (Break(fmt) + z);
    }
  }

  lemma {:induction false} MembersBack(members: seq<Member>, k: nat, depth: nat, fmt: bool, close: string, z: string)
    requires Plain(Obj(members)) && k < |members| && AllSpace(Break(fmt) + close)
    ensures ParseMembers(MembersText(members, k, depth, fmt) + (close + ("}" + z))) == Got(EraseMembers(members, k), z)
    decreases members, |members| - k
  {
    hide MemberText, MembersText, ParseMembers, ParseMember, Erase;
    var z' := close + ("}" + z);
    var m := members[k];
    MembersUnfold(members, k, depth, fmt, z');
    var s := MembersText(members, k, depth, fmt) + z';
    var erased := Member(m.name, Erase(m.value));
    if k + 1 == |members| {
      assert Break(fmt) + z' == (Break(fmt) + close) + ("}" + z);
      SpaceNoDigit(Break(fmt) + close, "}" + z);
      MemberBack(m, depth, fmt, Break(fmt) + z');
      MemberThenEnd(s, erased, Break(fmt) + close, z);
      assert EraseMembers(members, k) == [erased];
    } else {
      var gap := Break(fmt) + if fmt then Tabs(depth) else "";
      var more := MembersText(members, k + 1, depth, fmt) + z';
      assert NoDigit("," + (gap + more));
      MemberBack(m, depth, fmt, "," + (gap + more));
      MembersTextStart(members, k + 1, depth, fmt);
      Gaps(fmt, depth);
      MemberThenMore(s, erased, gap, more);
      MembersBack(members, k + 1, depth, fmt, close, z);
    }
  }

  lemma SpaceNoDigit(w: string, z: string)
    requires AllSpace(w) && NoDigit(z)
    ensures NoDigit(w + z)
  {
    if w != "" { assert Space(w[0]); }
  }

  lemma MembersTextStart(members: seq<Member>, k: nat, depth: nat, fmt: bool)
    requires k < |members|
    ensures MembersText(members, k, depth, fmt) != "" && MembersText(members, k, depth, fmt)[0] == '\"'
  {
    hide PrintMembers;
  }

  lemma {:induction false} ObjectBack(members: seq<Member>, depth: nat, fmt: bool, z: string)
    requires Plain(Obj(members))
    ensures ParseValue(Print(Obj(members), depth, fmt) + z) == Got(Erase(Obj(members)), z)
    decreases members, |members| + 1
  {
    hide MembersText, ParseMembers, ParseValue, PrintMembers, Erase;
    ErasedObject(members);
    Gaps(fmt, if depth == 0 then 0 else depth - 1);
    if members == [] {
      var w := if fmt then "\n" + Tabs(if depth == 0 then 0 else depth - 1) else "";
      assert EmptyObject(depth, fmt) + z == "{" + w + ("}" + z);
      EmptyObjectBack(w, z);
    } else {
      var close, indent := if fmt then Tabs(depth) else "", if fmt then Tabs(depth + 1) else "";
      var body := MembersText(members, 0, depth + 1, fmt) + (close + ("}" + z));
      MembersIndented(members, 0, depth + 1, fmt);
      RegroupObject("{", Break(fmt), indent, MembersText(members, 0, depth + 1, fmt), close, "}", z);
      MembersTextStart(members, 0, depth + 1, fmt);
      Gaps(fmt, depth);
      Gaps(fmt, depth + 1);
      MembersBack(members, 0, depth + 1, fmt, close, z);
      FullObject(Break(fmt) + indent, body);
    }
  }

  // ---------------------------------------------------------------- the theorems

  /** For every tree, formatted or not: the printed text parses to the same tree and nothing is left, so
      the text is accepted with and without the end-of-text check. */
  lemma RoundTrip(t: Json, fmt: bool, requireEnd: bool)
    requires Plain(t)
    ensures Parse(Print(t, 0, fmt), requireEnd) == Got(Erase(t), "")
  {
    var s := Print(t, 0, fmt);
    FirstChar(t, 0, fmt);
    SkipNothing(s);
    assert s + "" == s;
    ValueBack(t, 0, fmt, "");
  }

  /** The integer parser does not set the double part, and the printer looks at it first: a number that
      was parsed prints as zero. It prints as it was parsed only if it is zero. */
  lemma ParsedNumberPrintsZero(s: string, depth: nat, fmt: bool)
    requires ParseValue(s).Got? && ParseValue(s).value.Num?
    ensures Print(ParseValue(s).value, depth, fmt) == "0"
    ensures Print(ParseValue(s).value, depth, fmt) == Dec(ParseValue(s).value.valueint)
       <==> ParseValue(s).value.valueint == 0
  {
    var n := ParseValue(s).value.valueint;
    LeadingDigit(if n < 0 then -n else n);
  }

  // ---------------------------------------------------------------- printing a parsed tree

  /** Every number in the tree is zero. */
  ghost predicate AllZero(t: Json) {
    match t
    case Num(i, d) => i == 0
    case Arr(items) => forall k :: 0 <= k < |items| ==> AllZero(items[k])
    case Obj(members) => forall k :: 0 <= k < |members| ==> AllZero(members[k].value)
    case _ => true
  }

  /** The tree with zeros for all numbers. */
  function Zeroed(t: Json): (r: Json) {
    match t
    case Num(i, d) => Num(0, 0.0)
    case Arr(items) => Arr(seq(|items|, k requires 0 <= k < |items| => Zeroed(items[k])))
    case Obj(members) =>
      Obj(seq(|members|, k requires 0 <= k < |members| => Member(members[k].name, Zeroed(members[k].value))))
    case _ => t
  }

  lemma {:induction false} ZeroedFacts(t: Json)
    requires Plain(t)
    ensures Plain(Zeroed(t)) && Erase(Zeroed(t)) == Zeroed(t)
    ensures AllZero(t) ==> Zeroed(t) == t
    ensures Erase(t) == Zeroed(t) ==> AllZero(t)
  {
    match t {
      case Arr(items) => ZeroedItems(items);
      case Obj(members) => ZeroedMembers(members);
      case _ =>
    }
  }

  lemma {:induction false} ZeroedItems(items: seq<Json>)
    requires Plain(Arr(items))
    ensures var t := Arr(items);
      && Plain(Zeroed(t)) && Erase(Zeroed(t)) == Zeroed(t)
      && (AllZero(t) ==> Zeroed(t) == t) && (Erase(t) == Zeroed(t) ==> AllZero(t))
  {
    var t := Arr(items);
    forall k | 0 <= k < |items|
      ensures Plain(Zeroed(items[k])) && Erase(Zeroed(items[k])) == Zeroed(items[k])
      ensures AllZero(items[k]) ==> Zeroed(items[k]) == items[k]
      ensures Erase(items[k]) == Zeroed(items[k]) ==> AllZero(items[k])
    {
      ZeroedFacts(items[k]);
    }
    assert Erase(Zeroed(t)).items == Zeroed(t).items;
    if AllZero(t) { assert Zeroed(t).items == items; }
    if Erase(t) == Zeroed(t) {
      forall k | 0 <= k < |items| ensures AllZero(items[k]) {
        assert Erase(t).items[k] == Zeroed(t).items[k];
      }
    }
  }

  lemma {:induction false} ZeroedMembers(members: seq<Member>)
    requires Plain(Obj(members))
    ensures var t := Obj(members);
      && Plain(Zeroed(t)) && Erase(Zeroed(t)) == Zeroed(t)
      && (AllZero(t) ==> Zeroed(t) == t) && (Erase(t) == Zeroed(t) ==> AllZero(t))
  {
    var t := Obj(members);
    forall k | 0 <= k < |members|
      ensures Plain(Zeroed(members[k].value)) && Erase(Zeroed(members[k].value)) == Zeroed(members[k].value)
      ensures AllZero(members[k].value) ==> Zeroed(members[k].value) == members[k].value
      ensures Erase(members[k].value) == Zeroed(members[k].value) ==> AllZero(members[k].value)
    {
      ZeroedFacts(members[k].value);
    }
    assert Erase(Zeroed(t)).members == Zeroed(t).members;
    if AllZero(t) { assert Zeroed(t).members == members; }
    if Erase(t) == Zeroed(t) {
      forall k | 0 <= k < |members| ensures AllZero(members[k].value) {
        assert Erase(t).members[k] == Zeroed(t).members[k];
      }
    }
  }

  /** Without their double parts all numbers print as zeros. */
  lemma {:induction false} PrintErased(t: Json, depth: nat, fmt: bool)
    ensures Print(Erase(t), depth, fmt) == Print(Zeroed(t), depth, fmt)
    decreases t, 1
  {
    match t {
      case Arr(items) => PrintErasedItems(items, 0, depth, fmt);
      case Obj(members) => PrintErasedMembers(members, 0, depth + 1, fmt);
      case _ =>
    }
  }

  lemma {:induction false} PrintErasedItems(items: seq<Json>, k: nat, depth: nat, fmt: bool)
    requires k <= |items|
    ensures PrintItems(Erase(Arr(items)).items, k, depth, fmt) == PrintItems(Zeroed(Arr(items)).items, k, depth, fmt)
    decreases items, |items| - k
  {
    hide Print;
    if k < |items| {
      PrintErased(items[k], depth + 1, fmt);
      PrintErasedItems(items, k + 1, depth, fmt);
    }
  }

  lemma {:induction false} PrintErasedMembers(members: seq<Member>, k: nat, depth: nat, fmt: bool)
    requires k <= |members|
    ensures PrintMembers(Erase(Obj(members)).members, k, depth, fmt)
         == PrintMembers(Zeroed(Obj(members)).members, k, depth, fmt)
    decreases members, |members| - k
  {
    hide Print, Quote;
    if k < |members| {
      PrintErased(members[k].value, depth, fmt);
      PrintErasedMembers(members, k + 1, depth, fmt);
    }
  }

  /** So printing what was parsed from a printed tree reproduces the text exactly when the tree holds no
      number but zero. */
  lemma ReprintIsSame(t: Json, fmt: bool)
    requires Plain(t)
    ensures var g := Parse(Print(t, 0, fmt), true);
      g.Got? && (Print(g.value, 0, fmt) == Print(t, 0, fmt) <==> AllZero(t))
  {
    RoundTrip(t, fmt, true);
    ZeroedFacts(t);
    PrintErased(t, 0, fmt);
    RoundTrip(Zeroed(t), fmt, true);
    hide Print, Erase, Zeroed, Parse;
  }

  /** The number one, printed and parsed, prints as zero. */
  lemma OneReprintsZero(fmt: bool)
    ensures Print(Num(1, 1.0), 0, fmt) == "1" && Parse("1", true) == Got(Num(1, 0.0), "")
    ensures Print(Num(1, 0.0), 0, fmt) == "0"
  {
    assert Dec(1) == "1";
    RoundTrip(Num(1, 1.0), fmt, true);
  }

  // ---------------------------------------------------------------- transcoding

  /** A UTF-8 sequence read back. */
  function Utf8Value(r: string): int
    requires 1 <= |r| <= 4
  {
    if |r| == 1 then r[0] as int
    else if |r| == 2 then (r[0] as int - 0xC0) * 64 + (r[1] as int - 0x80)
    else if |r| == 3 then ((r[0] as int - 0xE0) * 64 + (r[1] as int - 0x80)) * 64 + (r[2] as int - 0x80)
    else (((r[0] as int - 0xF0) * 64 + (r[1] as int - 0x80)) * 64 + (r[2] as int - 0x80)) * 64 + (r[3] as int - 0x80)
  }

  /** The bytes written for a code unit, or for a surrogate pair, are the UTF-8 form of the code point:
      they read back to it, each within the range of its place. */
  lemma Utf8Back(u: nat)
    requires u < 0x11_0000
    ensures Utf8Value(Utf8(u)) == u
    ensures forall k :: 1 <= k < |Utf8(u)| ==> 0x80 <= Utf8(u)[k] as int < 0xC0
    ensures |Utf8(u)| == (if u < 0x80 then 1 else if u < 0x800 then 2 else if u < 0x1_0000 then 3 else 4)
  {
    var q := u / 64;
    var p := q / 64;
    assert u / 4096 == p && u / 0x4_0000 == p / 64;
    var c, r := Utf8(u), u % 64;
    if 0x80 <= u < 0x800 {
      assert c[0] as int == 0xC0 + q && c[1] as int == 0x80 + r;
    } else if 0x800 <= u < 0x1_0000 {
      assert c[0] as int == 0xE0 + p && c[1] as int == 0x80 + q % 64 && c[2] as int == 0x80 + r;
    } else if u >= 0x1_0000 {
      assert c[0] as int == 0xF0 + p / 64 && c[1] as int == 0x80 + p % 64;
      assert c[2] as int == 0x80 + q % 64 && c[3] as int == 0x80 + r;
    }
  }

  /** A code unit as an escape. */
  function EscapeUnit(u: nat): (r: string)
    requires u < 0x1_0000
    ensures |r| == 6
  {
    ['\\', 'u', HexDigit(u / 4096), HexDigit(u / 256 % 16), HexDigit(u / 16 % 16), HexDigit(u % 16)]
  }

  lemma UnitBack(u: nat)
    requires u < 0x1_0000
    ensures Hex4(EscapeUnit(u)[2..6]) == u
  {
    var d := EscapeUnit(u)[2..6];
    HexDigitBack(u / 4096);
    HexDigitBack(u / 256 % 16);
    HexDigitBack(u / 16 % 16);
    HexDigitBack(u % 16);
    FourDigits(u);
    hide HexDigit, HexValue;
  }

  lemma FourDigits(u: nat)
    requires u < 0x1_0000
    ensures u == ((u / 4096 * 16 + u / 256 % 16) * 16 + u / 16 % 16) * 16 + u % 16
  {
    var a, b := u / 16, u / 256;
    assert b == a / 16 && u / 4096 == b / 16;
  }

  lemma HexDigitBack(d: nat)
    requires d < 16
    ensures HexValue(HexDigit(d)) == d
  {}

  /** A code point as one escape, or as the two of a surrogate pair. */
  function EscapePoint(p: nat): string
    requires p < 0x11_0000
  {
    if p < 0x1_0000 then EscapeUnit(p)
    else EscapeUnit(0xD800 + (p - 0x1_0000) / 0x400) + EscapeUnit(0xDC00 + (p - 0x1_0000) % 0x400)
  }

  /** Every code point but zero and the surrogates comes back from its escape as its UTF-8 bytes. */
  lemma PointBack(p: nat, z: string)
    requires 0 < p < 0x11_0000 && !(0xD800 <= p <= 0xDFFF)
    ensures var g := Unicode(EscapePoint(p) + z);
      g == Got(Utf8(p), z) && Utf8Value(g.value) == p
  {
    hide Hex4, Utf8, HexDigit;
    Utf8Back(p);
    var s := EscapePoint(p) + z;
    if p < 0x1_0000 {
      UnitBack(p);
      assert s[2..6] == EscapeUnit(p)[2..6] && s[6..] == z;
    } else {
      var u, v := 0xD800 + (p - 0x1_0000) / 0x400, 0xDC00 + (p - 0x1_0000) % 0x400;
      SurrogatePair(u, v);
      UnitBack(u);
      UnitBack(v);
      assert s[2..6] == EscapeUnit(u)[2..6] && s[8..12] == EscapeUnit(v)[2..6] && s[12..] == z;
    }
  }

  /** The pair formula covers exactly the code points past the basic plane. */
  lemma SurrogatePair(u: nat, v: nat)
    requires 0xD800 <= u <= 0xDBFF && 0xDC00 <= v <= 0xDFFF
    ensures var p := 0x1_0000 + u % 0x400 * 0x400 + v % 0x400;
      0x1_0000 <= p < 0x11_0000 && u == 0xD800 + (p - 0x1_0000) / 0x400 && v == 0xDC00 + (p - 0x1_0000) % 0x400
  {}
}
