/** The parser of cJSON.c over positions in a text. The text ends where the C string has its NUL. */
module JsonParse {
  import opened JsonRoom
  import opened JsonSpec

  /** A step that stops at `pos'` with `value` is what `g` says of the text from its start. */
  ghost predicate Agrees<T>(g: Got<T>, ok: bool, value: T, text: string, pos': nat) {
    && (ok <==> g.Got?)
    && (ok ==> value == g.value && pos' <= |text| && text[pos'..] == g.rest)
  }

  // ---------------------------------------------------------------- continuing a list

  /** What a list parser still does after `items` when the text goes on with `v`. */
  function MoreItems(items: seq<Json>, v: string): (r: Got<seq<Json>>) {
    if v != "" && v[0] == ',' then
      var h := ParseItems(v[1..]);
      if h.Fail? then Fail else Got(items + h.value, h.rest)
    else if v != "" && v[0] == ']' then Got(items, v[1..])
    else Fail
  }

  lemma FirstItem(s: string)
    ensures var g := ParseValue(Skip(s));
      ParseItems(s) == if g.Fail? then Fail else MoreItems([g.value], Skip(g.rest))
  {}

  lemma NextItem(items: seq<Json>, v: string)
    requires v != "" && v[0] == ','
    ensures var g := ParseValue(Skip(v[1..]));
      MoreItems(items, v) == if g.Fail? then Fail else MoreItems(items + [g.value], Skip(g.rest))
  {
    hide ParseValue, Skip;
    FirstItem(v[1..]);
    var g := ParseValue(Skip(v[1..]));
    if g.Got? {
      var w := Skip(g.rest);
      if w != "" && w[0] == ',' && ParseItems(w[1..]).Got? {
        var h := ParseItems(w[1..]);
        assert items + ([g.value] + h.value) == items + [g.value] + h.value;
      }
    }
  }

  function MoreMembers(members: seq<Member>, v: string): (r: Got<seq<Member>>) {
    if v != "" && v[0] == ',' then
      var h := ParseMembers(v[1..]);
      if h.Fail? then Fail else Got(members + h.value, h.rest)
    else if v != "" && v[0] == '}' then Got(members, v[1..])
    else Fail
  }

  lemma FirstMember(s: string)
    ensures var g := ParseMember(s);
      ParseMembers(s) == if g.Fail? then Fail else MoreMembers([g.value], Skip(g.rest))
  {}

  lemma NextMember(members: seq<Member>, v: string)
    requires v != "" && v[0] == ','
    ensures var g := ParseMember(v[1..]);
      MoreMembers(members, v) == if g.Fail? then Fail else MoreMembers(members + [g.value], Skip(g.rest))
  {
    hide ParseMember, Skip;
    FirstMember(v[1..]);
    var g := ParseMember(v[1..]);
    if g.Got? {
      var w := Skip(g.rest);
      if w != "" && w[0] == ',' && ParseMembers(w[1..]).Got? {
        var h := ParseMembers(w[1..]);
        assert members + ([g.value] + h.value) == members + [g.value] + h.value;
      }
    }
  }

  function MoreChars(out: string, s: string): (r: Got<string>) {
    var g := ParseChars(s);
    if g.Fail? then Fail else Got(out + g.value, g.rest)
  }

  lemma NextChar(out: string, s: string)
    requires s != "" && s[0] != '\"'
    ensures var g := ParseChar(s);
      MoreChars(out, s) == if g.Fail? then Fail else MoreChars(out + g.value, g.rest)
  {
    hide ParseChar;
    var g := ParseChar(s);
    if g.Got? && ParseChars(g.rest).Got? {
      var h := ParseChars(g.rest);
      assert out + (g.value + h.value) == out + g.value + h.value;
    }
  }

  // ---------------------------------------------------------------- scalars

  /** skip. */
  method SkipSpace(text: string, pos: nat) returns (pos': nat)
    requires pos <= |text|
    ensures pos <= pos' <= |text| && text[pos'..] == Skip(text[pos..])
  {
    pos' := pos;
    while pos' < |text| && '\0' < text[pos'] <= ' '
      invariant pos <= pos' <= |text| && Skip(text[pos'..]) == Skip(text[pos..])
    {
      assert text[pos'..][1..] == text[pos' + 1..];
      pos' := pos' + 1;
    }
  }

  /** The digit loop of parse_number. */
  method DigitsAt(text: string, pos: nat) returns (n: nat, pos': nat)
    requires pos <= |text|
    ensures pos <= pos' <= |text| && Run(text[pos..], 0) == (n, text[pos'..])
  {
    n, pos' := 0, pos;
    while pos' < |text| && '0' <= text[pos'] <= '9'
      invariant pos <= pos' <= |text| && Run(text[pos'..], n) == Run(text[pos..], 0)
    {
      assert text[pos'..][1..] == text[pos' + 1..];
      n := 10 * n + DigitValue(text[pos']);
      pos' := pos' + 1;
    }
  }

  /** parse_number. */
  method ParseNumberAt(text: string, pos: nat) returns (n: int, pos': nat)
    requires pos < |text| && (text[pos] == '-' || IsDigit(text[pos]))
    ensures pos < pos' <= |text|
    ensures ParseNumber(text[pos..]) == Got(n, text[pos'..])
  {
    hide Run, ToInt;
    n, pos' := 0, pos;
    var sign := 1;
    if text[pos'] == '-' {
      sign := -1;
      pos' := pos' + 1;
      assert text[pos..][1..] == text[pos'..];
    }
    if pos' < |text| && text[pos'] == '0' {
      assert text[pos'..][1..] == text[pos' + 1..];
      pos' := pos' + 1;
    }
    if pos' < |text| && '1' <= text[pos'] <= '9' {
      var m;
      RunMoves(text[pos'..]);
      m, pos' := DigitsAt(text, pos');
      n := m;
    }
    n := ToInt(sign * n);
  }

  lemma RunMoves(s: string)
    requires s != "" && IsDigit(s[0])
    ensures |Run(s, 0).1| < |s|
  {}

  /** The `\u` case of parse_string: `pos` is at the backslash. */
  method ParseUnicodeAt(text: string, pos: nat) returns (ok: bool, out: string, pos': nat)
    requires pos + 2 <= |text|
    ensures Agrees(Unicode(text[pos..]), ok, out, text, pos') && (ok ==> pos < pos')
  {
    hide Hex4, Utf8;
    ok, out, pos' := true, "", pos + 6;
    if |text| < pos + 6 {
      return false, "", pos;
    }
    var s := text[pos..];
    assert s[6..] == text[pos + 6..];
    var uc := Hex4(text[pos + 2..pos + 6]);
    assert s[2..6] == text[pos + 2..pos + 6];
    if (0xDC00 <= uc <= 0xDFFF) || uc == 0 {
      return;
    }
    if 0xD800 <= uc <= 0xDBFF {
      if |text| < pos + 8 || text[pos + 6] != '\\' || text[pos + 7] != 'u' {
        return;
      }
      if |text| < pos + 12 {
        return false, "", pos;
      }
      var uc2 := Hex4(text[pos + 8..pos + 12]);
      assert s[8..12] == text[pos + 8..pos + 12] && s[12..] == text[pos + 12..];
      pos' := pos + 12;
      if uc2 < 0xDC00 || uc2 > 0xDFFF {
        return;
      }
      uc := 0x1_0000 + uc % 0x400 * 0x400 + uc2 % 0x400;
    }
    out := Utf8(uc);
  }

  /** parse_string. The text with its NUL fits the block of `len` + 1 bytes when every escape is
      whole. */
  method ParseStringAt(text: string, pos: nat) returns (ok: bool, out: string, pos': nat)
    requires pos <= |text|
    ensures Agrees(ParseString(text[pos..]), ok, out, text, pos') && (ok ==> pos < pos')
    ensures pos < |text| && text[pos] == '\"' && Sound(text[pos + 1..]) ==> ok && |out| <= Room(text[pos + 1..])
  {
    hide Unicode, ParseChars, Sound, Room, AfterQuote;
    out, pos' := "", pos;
    if pos >= |text| || text[pos] != '\"' {
      return false, "", pos;
    }
    pos' := pos + 1;
    assert text[pos..][1..] == text[pos + 1..];
    ghost var body := text[pos + 1..];
    var len := CountRoom(text, pos + 1);
    if Sound(body) { TextFits(body); }
    MoreNone(body);
    while pos' < |text| && text[pos'] != '\"'
      invariant pos < pos' <= |text|
      invariant MoreChars(out, text[pos'..]) == ParseChars(body)
    {
      ghost var s := text[pos'..];
      NextChar(out, s);
      if text[pos'] != '\\' {
        assert s[1..] == text[pos' + 1..];
        out := out + [text[pos']];
        pos' := pos' + 1;
      } else if pos' + 1 >= |text| {
        return false, "", pos;
      } else if text[pos' + 1] == 'u' {
        var part;
        ok, part, pos' := ParseUnicodeAt(text, pos');
        if !ok {
          return false, "", pos;
        }
        out := out + part;
      } else {
        assert s[2..] == text[pos' + 2..];
        out := out + [Unescaped(text[pos' + 1])];
        pos' := pos' + 2;
      }
    }
    CharsEnd(text[pos'..]);
    if pos' < |text| {
      assert text[pos'..][1..] == text[pos' + 1..];
      pos' := pos' + 1;
    }
    ok := true;
    assert out + "" == out;
  }

  lemma MoreNone(s: string)
    ensures MoreChars("", s) == ParseChars(s)
  {
    if ParseChars(s).Got? { assert "" + ParseChars(s).value == ParseChars(s).value; }
  }

  lemma CharsEnd(s: string)
    ensures s == "" ==> ParseChars(s) == Got("", "")
    ensures s != "" && s[0] == '\"' ==> ParseChars(s) == Got("", s[1..])
  {}

  // ---------------------------------------------------------------- values

  lemma FirstOfWord(s: string, word: string)
    requires StartsWith(s, word) && word != ""
    ensures s != "" && s[0] == word[0]
  {
    assert s[0] == s[..|word|][0];
  }

  lemma ValueCases(s: string)
    ensures StartsWith(s, "null") ==> ParseValue(s) == Got(Null, s[4..])
    ensures StartsWith(s, "false") ==> ParseValue(s) == Got(False, s[5..])
    ensures StartsWith(s, "true") ==> ParseValue(s) == Got(True, s[4..])
    ensures s == "" ==> ParseValue(s) == Fail
  {
    if StartsWith(s, "null") { FirstOfWord(s, "null"); }
    if StartsWith(s, "false") { FirstOfWord(s, "false"); }
    if StartsWith(s, "true") { FirstOfWord(s, "true"); }
    hide StartsWith;
  }

  lemma ScalarCases(s: string)
    requires s != "" && !StartsWith(s, "null") && !StartsWith(s, "false") && !StartsWith(s, "true")
    ensures s[0] == '\"' ==>
      ParseValue(s) == (var g := ParseString(s); if g.Fail? then Fail else Got(Str(g.value), g.rest))
    ensures s[0] == '-' || IsDigit(s[0]) ==>
      ParseValue(s) == (var g := ParseNumber(s); Got(Num(g.value, 0.0), g.rest))
  {
    hide StartsWith, ParseString, ParseNumber;
  }

  /** What stands behind an opening bracket, and behind an opening brace. */
  function ArrayOf(v: string): Got<Json> {
    if v != "" && v[0] == ']' then Got(Arr([]), v[1..])
    else
      var g := ParseItems(v);
      if g.Fail? then Fail else Got(Arr(g.value), g.rest)
  }

  function ObjectOf(v: string): Got<Json> {
    if v != "" && v[0] == '}' then Got(Obj([]), v[1..])
    else
      var g := ParseMembers(v);
      if g.Fail? then Fail else Got(Obj(g.value), g.rest)
  }

  /** The brackets, and everything that starts no value. */
  lemma ListCases(s: string)
    requires s != "" && !StartsWith(s, "null") && !StartsWith(s, "false") && !StartsWith(s, "true")
    requires s[0] != '\"' && s[0] != '-' && !IsDigit(s[0])
    ensures s[0] == '[' ==> ParseValue(s) == ArrayOf(Skip(s[1..]))
    ensures s[0] == '{' ==> ParseValue(s) == ObjectOf(Skip(s[1..]))
    ensures s[0] != '[' && s[0] != '{' ==> ParseValue(s) == Fail
  {
    hide ParseItems, ParseMembers, Skip, StartsWith;
  }

  /** parse_value. */
  method ParseValueAt(text: string, pos: nat) returns (ok: bool, t: Json, pos': nat)
    requires pos <= |text|
    ensures Agrees(ParseValue(text[pos..]), ok, t, text, pos') && (ok ==> pos < pos')
    decreases |text| - pos, 1
  {
    hide ParseValue, ParseString, ParseNumber, ParseItems, ParseMembers;
    var s := text[pos..];
    ok, t, pos' := true, Null, pos;
    ValueCases(s);
    if StartsWith(s, "null") {
      assert s[4..] == text[pos + 4..];
      return true, Null, pos + 4;
    }
    if StartsWith(s, "false") {
      assert s[5..] == text[pos + 5..];
      return true, False, pos + 5;
    }
    if StartsWith(s, "true") {
      assert s[4..] == text[pos + 4..];
      return true, True, pos + 4;
    }
    if pos >= |text| {
      return false, Null, pos;
    }
    ScalarCases(s);
    if text[pos] == '\"' {
      var str;
      ok, str, pos' := ParseStringAt(text, pos);
      t := Str(str);
    } else if text[pos] == '-' || ('0' <= text[pos] <= '9') {
      var n;
      n, pos' := ParseNumberAt(text, pos);
      t := Num(n, 0.0);
    } else {
      ListCases(s);
      if text[pos] == '[' {
        ok, t, pos' := ParseArrayAt(text, pos);
      } else if text[pos] == '{' {
        ok, t, pos' := ParseObjectAt(text, pos);
      } else {
        ok := false;
      }
    }
  }

  /** parse_array: a loop over the commas, each item linked behind the last. */
  method ParseArrayAt(text: string, pos: nat) returns (ok: bool, t: Json, pos': nat)
    requires pos < |text| && text[pos] == '['
    ensures Agrees(ArrayOf(Skip(text[pos + 1..])), ok, t, text, pos') && (ok ==> pos < pos')
    decreases |text| - pos, 0
  {
    hide ParseValue, ParseItems, Skip;
    ok, t := true, Arr([]);
    pos' := SkipSpace(text, pos + 1);
    var start := pos';
    if pos' < |text| && text[pos'] == ']' {
      assert text[pos'..][1..] == text[pos' + 1..];
      pos' := pos' + 1;
      return;
    }
    FirstItem(text[start..]);
    var child;
    pos' := SkipSpace(text, pos');
    ok, child, pos' := ParseValueAt(text, pos');
    if !ok {
      return;
    }
    pos' := SkipSpace(text, pos');
    var items := [child];
    while pos' < |text| && text[pos'] == ','
      invariant pos < pos' <= |text|
      invariant ParseItems(text[start..]) == MoreItems(items, text[pos'..])
      decreases |text| - pos'
    {
      NextItem(items, text[pos'..]);
      assert text[pos'..][1..] == text[pos' + 1..];
      pos' := SkipSpace(text, pos' + 1);
      ok, child, pos' := ParseValueAt(text, pos');
      if !ok {
        return;
      }
      pos' := SkipSpace(text, pos');
      items := items + [child];
    }
    t := Arr(items);
    if pos' < |text| && text[pos'] == ']' {
      assert text[pos'..][1..] == text[pos' + 1..];
      return true, t, pos' + 1;
    }
    ok := false;
  }

  /** A name, a colon and a value, as both places of parse_object read them. */
  method ParseMemberAt(text: string, pos: nat) returns (ok: bool, m: Member, pos': nat)
    requires pos <= |text|
    ensures Agrees(ParseMember(text[pos..]), ok, m, text, pos') && (ok ==> pos < pos')
    decreases |text| - pos, 1
  {
    hide ParseValue, ParseString, Skip;
    m := Member("", Null);
    var name, value;
    pos' := SkipSpace(text, pos);
    ok, name, pos' := ParseStringAt(text, pos');
    if !ok {
      return;
    }
    pos' := SkipSpace(text, pos');
    if pos' >= |text| || text[pos'] != ':' {
      return false, m, pos';
    }
    assert text[pos'..][1..] == text[pos' + 1..];
    pos' := SkipSpace(text, pos' + 1);
    ok, value, pos' := ParseValueAt(text, pos');
    m := Member(name, value);
  }

  /** parse_object. */
  method ParseObjectAt(text: string, pos: nat) returns (ok: bool, t: Json, pos': nat)
    requires pos < |text| && text[pos] == '{'
    ensures Agrees(ObjectOf(Skip(text[pos + 1..])), ok, t, text, pos') && (ok ==> pos < pos')
    decreases |text| - pos, 0
  {
    hide ParseMember, ParseMembers, Skip;
    ok, t := true, Obj([]);
    pos' := SkipSpace(text, pos + 1);
    var start := pos';
    if pos' < |text| && text[pos'] == '}' {
      assert text[pos'..][1..] == text[pos' + 1..];
      pos' := pos' + 1;
      return;
    }
    FirstMember(text[start..]);
    var child;
    ok, child, pos' := ParseMemberAt(text, pos');
    if !ok {
      return;
    }
    pos' := SkipSpace(text, pos');
    var members := [child];
    while pos' < |text| && text[pos'] == ','
      invariant pos < pos' <= |text|
      invariant ParseMembers(text[start..]) == MoreMembers(members, text[pos'..])
      decreases |text| - pos'
    {
      NextMember(members, text[pos'..]);
      assert text[pos'..][1..] == text[pos' + 1..];
      ok, child, pos' := ParseMemberAt(text, pos' + 1);
      if !ok {
        return;
      }
      pos' := SkipSpace(text, pos');
      members := members + [child];
    }
    t := Obj(members);
    if pos' < |text| && text[pos'] == '}' {
      assert text[pos'..][1..] == text[pos' + 1..];
      return true, t, pos' + 1;
    }
    ok := false;
  }

  /** cJSON_ParseWithOpts. */
  method ParseWithOpts(text: string, requireEnd: bool) returns (ok: bool, t: Json, end: nat)
    ensures Agrees(Parse(text, requireEnd), ok, t, text, end)
  {
    hide ParseValue, Skip;
    assert text[0..] == text;
    var start := SkipSpace(text, 0);
    ok, t, end := ParseValueAt(text, start);
    if !ok {
      return;
    }
    if requireEnd {
      end := SkipSpace(text, end);
      if end < |text| {
        ok := false;
      }
    }
  }
}
