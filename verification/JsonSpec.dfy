/** The text cJSON prints for a tree and the tree it parses from a text, as functions. */
module JsonSpec {

  /** A cJSON item with its children in order. In this build a number has an int and a double part
      and only the int part is parsed. */
  datatype Json =
    | Null | False | True
    | Num(valueint: int, valuedouble: real)
    | Str(s: string)
    | Arr(items: seq<Json>)
    | Obj(members: seq<Member>)
  datatype Member = Member(name: string, value: Json)

  const INT_MAX: int := 0x7FFF_FFFF
  const INT_MIN: int := -0x8000_0000
  /** DBL_EPSILON. */
  const EPSILON: real := 1.0 / 4503599627370496.0

  const BACKSPACE: char := '\U{0008}'
  const FORMFEED: char := '\U{000C}'
  const TAB: char := '\t'
  const NEWLINE: char := '\n'

  // ---------------------------------------------------------------- numbers

  function Digit(d: nat): (c: char)
    requires d < 10
  {
    '0' + d as char
  }

  predicate IsDigit(c: char) {
    '0' <= c <= '9'
  }

  /** "%d" of a number that is not negative. */
  function DecNat(n: nat): (r: string)
    ensures |r| >= 1
  {
    if n < 10 then [Digit(n)] else DecNat(n / 10) + [Digit(n % 10)]
  }

  function Dec(n: int): (r: string)
    ensures |r| >= 1
  {
    if n < 0 then "-" + DecNat(-n) else DecNat(n)
  }

  predicate Close(i: int, d: real) {
    -EPSILON <= i as real - d <= EPSILON
  }

  /** print_number looks at the double first. Doubles that are no int print as floating point, which is
      not part of this model. */
  predicate Printable(i: int, d: real) {
    d == 0.0 || (Close(i, d) && INT_MIN as real <= d <= INT_MAX as real)
  }

  function NumberText(i: int, d: real): (r: string)
    ensures |r| >= 1
  {
    if d == 0.0 then "0" else Dec(i)
  }

  // ---------------------------------------------------------------- strings

  function HexDigit(d: nat): char
    requires d < 16
  {
    if d < 10 then '0' + d as char else 'a' + (d - 10) as char
  }

  /** One character as print_string_ptr writes it. */
  function Escape(c: char): (r: string)
    ensures 1 <= |r| <= 6
  {
    if c == '\"' || c == '\\' then ['\\', c]
    else if c == BACKSPACE then "\\b"
    else if c == FORMFEED then "\\f"
    else if c == NEWLINE then "\\n"
    else if c == '\r' then "\\r"
    else if c == TAB then "\\t"
    else if c < ' ' then ['\\', 'u', '0', '0', HexDigit(c as int / 16), HexDigit(c as int % 16)]
    else [c]
  }

  function EscapeAll(s: string): string {
    if s == "" then "" else Escape(s[0]) + EscapeAll(s[1..])
  }

  function Quote(s: string): (r: string)
    ensures |r| >= 2
  {
    "\"" + EscapeAll(s) + "\""
  }

  // ---------------------------------------------------------------- printing

  function Tabs(n: nat): (r: string)
    ensures |r| == n
  {
    seq(n, _ => TAB)
  }

  function Comma(fmt: bool): string {
    if fmt then ", " else ","
  }

  /** The text of a value at a nesting depth. An empty object keeps its line break, and is closed one tab
      to the left of its members' place. */
  function Print(t: Json, depth: nat, fmt: bool): (r: string)
    ensures |r| >= 1
    decreases t
  {
    match t
    case Null => "null"
    case False => "false"
    case True => "true"
    case Num(i, d) => NumberText(i, d)
    case Str(s) => Quote(s)
    case Arr(items) => if items == [] then "[]" else "[" + PrintItems(items, 0, depth, fmt) + "]"
    case Obj(members) =>
      if members == [] then EmptyObject(depth, fmt)
      else "{" + Break(fmt) + PrintMembers(members, 0, depth + 1, fmt) + (if fmt then Tabs(depth) else "") + "}"
  }

  function Break(fmt: bool): string {
    if fmt then "\n" else ""
  }

  function EmptyObject(depth: nat, fmt: bool): (r: string)
    ensures |r| >= 1
  {
    "{" + (if fmt then "\n" + Tabs(if depth == 0 then 0 else depth - 1) else "") + "}"
  }

  /** The items from number `k` on. */
  function PrintItems(items: seq<Json>, k: nat, depth: nat, fmt: bool): (r: string)
    requires k <= |items|
    decreases items, |items| - k
  {
    if k == |items| then ""
    else
      Print(items[k], depth + 1, fmt) + (if k + 1 < |items| then Comma(fmt) else "")
      + PrintItems(items, k + 1, depth, fmt)
  }

  /** One member with the indentation before it. */
  function PrintMember(m: Member, depth: nat, fmt: bool): string
    decreases m
  {
    (if fmt then Tabs(depth) else "") + Quote(m.name) + (if fmt then ":\t" else ":") + Print(m.value, depth, fmt)
  }

  /** The members from number `k` on, each with the line it stands on. */
  function PrintMembers(members: seq<Member>, k: nat, depth: nat, fmt: bool): (r: string)
    requires k <= |members|
    decreases members, |members| - k
  {
    if k == |members| then ""
    else
      PrintMember(members[k], depth, fmt) + (if k + 1 < |members| then "," else "") + Break(fmt)
      + PrintMembers(members, k + 1, depth, fmt)
  }

  // ---------------------------------------------------------------- parsing

  /** A parse step: the value and the text not read, or the failure the code reports. */
  datatype Got<+T> = Fail | Got(value: T, rest: string)

  predicate Space(c: char) {
    '\0' < c <= ' '
  }

  /** skip. */
  function Skip(s: string): (r: string)
    ensures |r| <= |s| && (r != "" ==> !Space(r[0]))
  {
    if s != "" && Space(s[0]) then Skip(s[1..]) else s
  }

  function DigitValue(c: char): (d: nat)
    requires IsDigit(c)
    ensures d < 10
  {
    c as int - '0' as int
  }

  /** The digit loop: the number so far, extended by the digits that follow. */
  function Run(s: string, n: nat): (r: (nat, string))
    ensures |r.1| <= |s|
    decreases |s|
  {
    if s != "" && IsDigit(s[0]) then Run(s[1..], 10 * n + DigitValue(s[0])) else (n, s)
  }

  /** What an int holds of a number. C leaves the overflow undefined; the model wraps. */
  function ToInt(n: int): (r: int)
    ensures INT_MIN <= r <= INT_MAX
    ensures INT_MIN <= n <= INT_MAX ==> r == n
  {
    (n + 0x8000_0000) % 0x1_0000_0000 - 0x8000_0000
  }

  /** parse_number of the integer build: one leading zero is skipped and no digits at all mean zero. */
  function ParseNumber(s: string): (r: Got<int>)
    requires s != "" && (s[0] == '-' || IsDigit(s[0]))
    ensures r.Got? && |r.rest| < |s|
  {
    var negative := s[0] == '-';
    var s1 := if negative then s[1..] else s;
    var s2 := if s1 != "" && s1[0] == '0' then s1[1..] else s1;
    var (n, rest) := if s2 != "" && '1' <= s2[0] <= '9' then Run(s2, 0) else (0, s2);
    var m: int := n;
    Got(ToInt(if negative then -m else m), rest)
  }

  function HexValue(c: char): (d: int)
    ensures -1 <= d < 16
  {
    if '0' <= c <= '9' then c as int - '0' as int
    else if 'A' <= c <= 'F' then 10 + c as int - 'A' as int
    else if 'a' <= c <= 'f' then 10 + c as int - 'a' as int
    else -1
  }

  /** parse_hex4: zero for anything that is not four hexadecimal digits. */
  function Hex4(s: string): (u: nat)
    requires |s| >= 4
    ensures u < 0x1_0000
  {
    var a, b, c, d := HexValue(s[0]), HexValue(s[1]), HexValue(s[2]), HexValue(s[3]);
    if a < 0 || b < 0 || c < 0 || d < 0 then 0 else ((a * 16 + b) * 16 + c) * 16 + d
  }

  /** The bytes of a code point, lead byte first. */
  function Utf8(u: nat): (r: string)
    requires u < 0x11_0000
    ensures 1 <= |r| <= 4
  {
    if u < 0x80 then [u as char]
    else if u < 0x800 then [(0xC0 + u / 64) as char, (0x80 + u % 64) as char]
    else if u < 0x1_0000 then [(0xE0 + u / 4096) as char, (0x80 + u / 64 % 64) as char, (0x80 + u % 64) as char]
    else [(0xF0 + u / 0x4_0000) as char, (0x80 + u / 4096 % 64) as char, (0x80 + u / 64 % 64) as char, (0x80 + u % 64) as char]
  }

  /** The escape after `\u`: what it stands for and how many characters it takes, the backslash and the u
      included. A code unit that is invalid, or a high one without its low one, stands for nothing.
      Fail is an escape that runs past the end of the text. */
  function Unicode(s: string): (r: Got<string>)
    requires |s| >= 2
    ensures r.Got? ==> |r.rest| < |s|
  {
    if |s| < 6 then Fail
    else
      var u := Hex4(s[2..6]);
      if u == 0 || 0xDC00 <= u <= 0xDFFF then Got("", s[6..])
      else if !(0xD800 <= u <= 0xDBFF) then Got(Utf8(u), s[6..])
      else if |s| < 8 || s[6] != '\\' || s[7] != 'u' then Got("", s[6..])
      else if |s| < 12 then Fail
      else
        var v := Hex4(s[8..12]);
        if !(0xDC00 <= v <= 0xDFFF) then Got("", s[12..])
        else Got(Utf8(0x1_0000 + u % 0x400 * 0x400 + v % 0x400), s[12..])
  }

  function Unescaped(c: char): char {
    if c == 'b' then BACKSPACE
    else if c == 'f' then FORMFEED
    else if c == 'n' then NEWLINE
    else if c == 'r' then '\r'
    else if c == 't' then TAB
    else c
  }

  /** One character or escape of a string body. */
  function ParseChar(s: string): (r: Got<string>)
    requires s != ""
    ensures r.Got? ==> |r.rest| < |s|
  {
    if s[0] != '\\' then Got([s[0]], s[1..])
    else if |s| < 2 then Fail
    else if s[1] == 'u' then Unicode(s)
    else Got([Unescaped(s[1])], s[2..])
  }

  /** The body of a string up to its closing quote; the end of the text closes it too. */
  function ParseChars(s: string): (r: Got<string>)
    ensures r.Got? ==> |r.rest| <= |s|
    decreases |s|
  {
    if s == "" then Got("", "")
    else if s[0] == '\"' then Got("", s[1..])
    else
      match ParseChar(s)
      case Fail => Fail
      case Got(c, rest) =>
        match ParseChars(rest)
        case Fail => Fail
        case Got(cs, rest') => Got(c + cs, rest')
  }

  /** parse_string. */
  function ParseString(s: string): (r: Got<string>)
    ensures r.Got? ==> |r.rest| < |s|
  {
    if s == "" || s[0] != '\"' then Fail else ParseChars(s[1..])
  }

  predicate StartsWith(s: string, word: string) {
    |word| <= |s| && s[..|word|] == word
  }

  /** parse_value. */
  function ParseValue(s: string): (r: Got<Json>)
    ensures r.Got? ==> |r.rest| < |s|
    decreases |s|, 0
  {
    if StartsWith(s, "null") then Got(Null, s[4..])
    else if StartsWith(s, "false") then Got(False, s[5..])
    else if StartsWith(s, "true") then Got(True, s[4..])
    else if s == "" then Fail
    else if s[0] == '\"' then
      var g := ParseString(s);
      if g.Fail? then Fail else Got(Str(g.value), g.rest)
    else if s[0] == '-' || IsDigit(s[0]) then
      var g := ParseNumber(s);
      Got(Num(g.value, 0.0), g.rest)
    else if s[0] == '[' then
      var v := Skip(s[1..]);
      if v != "" && v[0] == ']' then Got(Arr([]), v[1..])
      else
        var g := ParseItems(v);
        if g.Fail? then Fail else Got(Arr(g.value), g.rest)
    else if s[0] == '{' then
      var v := Skip(s[1..]);
      if v != "" && v[0] == '}' then Got(Obj([]), v[1..])
      else
        var g := ParseMembers(v);
        if g.Fail? then Fail else Got(Obj(g.value), g.rest)
    else Fail
  }

  /** The items of an array and its closing bracket. */
  function ParseItems(s: string): (r: Got<seq<Json>>)
    ensures r.Got? ==> |r.rest| < |s|
    decreases |s|, 1
  {
    var g := ParseValue(Skip(s));
    if g.Fail? then Fail
    else
      var v := Skip(g.rest);
      if v != "" && v[0] == ',' then
        var h := ParseItems(v[1..]);
        if h.Fail? then Fail else Got([g.value] + h.value, h.rest)
      else if v != "" && v[0] == ']' then Got([g.value], v[1..])
      else Fail
  }

  /** One name and its value. */
  function ParseMember(s: string): (r: Got<Member>)
    ensures r.Got? ==> |r.rest| < |s|
    decreases |s|, 1
  {
    var n := ParseString(Skip(s));
    if n.Fail? then Fail
    else
      var v := Skip(n.rest);
      if v == "" || v[0] != ':' then Fail
      else
        var g := ParseValue(Skip(v[1..]));
        if g.Fail? then Fail else Got(Member(n.value, g.value), g.rest)
  }

  /** The members of an object and its closing brace. */
  function ParseMembers(s: string): (r: Got<seq<Member>>)
    ensures r.Got? ==> |r.rest| < |s|
    decreases |s|, 2
  {
    var g := ParseMember(s);
    if g.Fail? then Fail
    else
      var v := Skip(g.rest);
      if v != "" && v[0] == ',' then
        var h := ParseMembers(v[1..]);
        if h.Fail? then Fail else Got([g.value] + h.value, h.rest)
      else if v != "" && v[0] == '}' then Got([g.value], v[1..])
      else Fail
  }

  /** cJSON_ParseWithOpts. */
  function Parse(s: string, requireEnd: bool): (r: Got<Json>)
  {
    var g := ParseValue(Skip(s));
    if g.Fail? then Fail
    else if requireEnd && Skip(g.rest) != "" then Fail
    else if requireEnd then Got(g.value, "") else g
  }
}
