/** A grammar of the texts cJSON accepts, white space, spelling and all, and the tree each text stands
    for. The parser accepts exactly these texts and gives exactly these trees. */
module JsonGrammar {
  import opened JsonSpec
  import opened JsonRoundTrip

  // ---------------------------------------------------------------- hexadecimal digits

  /** A digit of either case. */
  predicate IsHex(c: char, d: nat) {
    d < 16 && (c == "0123456789abcdef"[d] || c == "0123456789ABCDEF"[d])
  }

  lemma HexDigitIs(c: char, d: nat)
    requires IsHex(c, d)
    ensures HexValue(c) == d
  {
    if d < 4 {} else if d < 8 {} else if d < 12 {} else {}
  }

  lemma HexValueIs(c: char)
    ensures HexValue(c) >= 0 ==> IsHex(c, HexValue(c))
    ensures HexValue(c) < 0 <==> c !in "0123456789abcdefABCDEF"
  {
  }

  /** Four characters and the digits they are, or none if one of them is no digit. */
  predicate Spells(h: string, digits: seq<nat>) {
    && |h| == 4
    && if digits == [] then exists k :: 0 <= k < 4 && h[k] !in "0123456789abcdefABCDEF"
       else |digits| == 4 && IsHex(h[0], digits[0]) && IsHex(h[1], digits[1]) && IsHex(h[2], digits[2]) && IsHex(h[3], digits[3])
  }

  function Unit(digits: seq<nat>): nat {
    if |digits| != 4 then 0 else 4096 * digits[0] + 256 * digits[1] + 16 * digits[2] + digits[3]
  }

  lemma UnitIs(h: string, digits: seq<nat>)
    requires Spells(h, digits)
    ensures Hex4(h) == Unit(digits)
  {
    hide HexValue, IsHex;
    if digits == [] {
      var k :| 0 <= k < 4 && h[k] !in "0123456789abcdefABCDEF";
      HexValueIs(h[k]);
    } else {
      HexDigitIs(h[0], digits[0]); HexDigitIs(h[1], digits[1]); HexDigitIs(h[2], digits[2]); HexDigitIs(h[3], digits[3]);
    }
  }

  lemma SpelledSomehow(h: string) returns (digits: seq<nat>)
    requires |h| == 4
    ensures Spells(h, digits)
  {
    hide HexValue, IsHex;
    HexValueIs(h[0]); HexValueIs(h[1]); HexValueIs(h[2]); HexValueIs(h[3]);
    if HexValue(h[0]) < 0 || HexValue(h[1]) < 0 || HexValue(h[2]) < 0 || HexValue(h[3]) < 0 {
      digits := [];
    } else {
      digits := [HexValue(h[0]), HexValue(h[1]), HexValue(h[2]), HexValue(h[3])];
    }
  }

  // ---------------------------------------------------------------- strings

  /** A piece of a string body: a character, an escape of one character, an escape of one code unit, or
      a high code unit and the escape behind it. */
  datatype Piece =
    | Raw(c: char)
    | Escaped(c: char)
    | Single(h: string, digits: seq<nat>)
    | Pair(h: string, digits: seq<nat>, h2: string, digits2: seq<nat>)

  function PieceText(p: Piece): (r: string) {
    match p
    case Raw(c) => [c]
    case Escaped(c) => ['\\', c]
    case Single(h, _) => ['\\', 'u'] + h
    case Pair(h, _, h2, _) => ['\\', 'u'] + h + (['\\', 'u'] + h2)
  }

  ghost predicate PieceGood(p: Piece) {
    match p
    case Raw(c) => c != '\"' && c != '\\'
    case Escaped(c) => c != 'u'
    case Single(h, d) => Spells(h, d)
    case Pair(h, d, h2, d2) => Spells(h, d) && Spells(h2, d2) && 0xD800 <= Unit(d) <= 0xDBFF
  }

  /** What a piece stands for. Code units that are zero, no digits or surrogates without a partner stand
      for nothing. */
  function PieceMeans(p: Piece): string
    requires PieceGood(p)
  {
    match p
    case Raw(c) => [c]
    case Escaped(c) =>
      if c == 'b' then ['\U{0008}'] else if c == 'f' then ['\U{000C}'] else if c == 'n' then ['\U{000A}']
      else if c == 'r' then ['\U{000D}'] else if c == 't' then ['\U{0009}'] else [c]
    case Single(h, d) =>
      if Unit(d) == 0 || 0xD800 <= Unit(d) <= 0xDFFF then "" else Utf8(Unit(d))
    case Pair(h, d, h2, d2) =>
      if 0xDC00 <= Unit(d2) <= 0xDFFF then Utf8(0x1_0000 + (Unit(d) - 0xD800) * 1024 + (Unit(d2) - 0xDC00)) else ""
  }

  /** A high code unit stands alone only where no escape of a code unit follows. */
  predicate PieceFits(p: Piece, z: string) {
    p.Single? && 0xD800 <= Unit(p.digits) <= 0xDBFF ==> |z| < 2 || z[0] != '\\' || z[1] != 'u'
  }

  lemma UnitSmall(h: string, d: seq<nat>)
    requires Spells(h, d)
    ensures Unit(d) < 0x1_0000
  {
    UnitIs(h, d);
  }

  lemma SingleRead(h: string, d: seq<nat>, z: string)
    requires Spells(h, d) && PieceFits(Single(h, d), z)
    ensures Unicode(['\\', 'u'] + h + z) == Got(PieceMeans(Single(h, d)), z)
  {
    hide Utf8, Hex4, Unit;
    UnitIs(h, d);
    UnitSmall(h, d);
    var s := ['\\', 'u'] + h + z;
    assert |h| == 4;
    assert s[2..6] == h && s[6..] == z;
  }

  lemma PairRead(h: string, d: seq<nat>, h2: string, d2: seq<nat>, z: string)
    requires PieceGood(Pair(h, d, h2, d2))
    ensures Unicode(PieceText(Pair(h, d, h2, d2)) + z) == Got(PieceMeans(Pair(h, d, h2, d2)), z)
  {
    hide Utf8, Hex4, Unit;
    UnitIs(h, d);
    UnitIs(h2, d2);
    PairParts(h, h2, z);
    if 0xDC00 <= Unit(d2) <= 0xDFFF { SurrogateSum(Unit(d), Unit(d2)); }
  }

  lemma PairParts(h: string, h2: string, z: string)
    requires |h| == |h2| == 4
    ensures var s := ['\\', 'u'] + h + (['\\', 'u'] + h2) + z;
      |s| == 12 + |z| && s[2..6] == h && s[6] == '\\' && s[7] == 'u' && s[8..12] == h2 && s[12..] == z
  {}

  lemma SurrogateSum(u: nat, v: nat)
    requires 0xD800 <= u <= 0xDBFF && 0xDC00 <= v <= 0xDFFF
    ensures u % 0x400 == u - 0xD800 && v % 0x400 == v - 0xDC00
  {}

  /** A piece is read as what it stands for. */
  lemma PieceRead(p: Piece, z: string)
    requires PieceGood(p) && PieceFits(p, z)
    ensures var s := PieceText(p) + z;
      s != "" && s[0] != '\"' && ParseChar(s) == Got(PieceMeans(p), z)
  {
    hide Unicode, Unit;
    var s := PieceText(p) + z;
    match p {
      case Raw(c) => assert s[1..] == z;
      case Escaped(c) => assert s[2..] == z;
      case Single(h, d) => SingleRead(h, d, z);
      case Pair(h, d, h2, d2) => PairRead(h, d, h2, d2, z);
    }
  }

  /** The same letter in either case. */
  predicate SameLetter(c: char, d: char) {
    c == d || ('a' <= c <= 'f' && c as int - d as int == 32) || ('a' <= d <= 'f' && d as int - c as int == 32)
  }

  /** The case of the digits of an escape does not matter. */
  lemma CaseIgnored(h: string, h2: string, z: string)
    requires |h| == |h2| == 4 && forall k :: 0 <= k < 4 ==> SameLetter(h[k], h2[k])
    ensures Unicode(['\\', 'u'] + h + z) == Unicode(['\\', 'u'] + h2 + z)
  {
    hide HexValue, SameLetter, Utf8;
    SameDigit(h[0], h2[0]); SameDigit(h[1], h2[1]); SameDigit(h[2], h2[2]); SameDigit(h[3], h2[3]);
    var s, s2 := ['\\', 'u'] + h + z, ['\\', 'u'] + h2 + z;
    assert s[2..6] == h && s2[2..6] == h2 && s[6..] == s2[6..] == z;
    assert Hex4(h) == Hex4(h2);
    hide Hex4;
    if |z| >= 6 { assert s[8..12] == z[2..6] == s2[8..12] && s[12..] == z[6..] == s2[12..]; }
  }

  lemma SameDigit(c: char, d: char)
    requires SameLetter(c, d)
    ensures HexValue(c) == HexValue(d)
  {}

  function HexDigits(u: nat): (d: seq<nat>)
    requires u < 0x1_0000
  {
    [u / 4096, u / 256 % 16, u / 16 % 16, u % 16]
  }

  lemma UnitOfDigits(u: nat)
    requires u < 0x1_0000
    ensures Unit(HexDigits(u)) == u
  {
    FourDigits(u);
  }

  /** Every code point but zero and the surrogates comes back from every spelling of its escape. */
  lemma SpelledPointBack(p: nat, h: string, h2: string, z: string)
    requires 0 < p < 0x11_0000 && !(0xD800 <= p <= 0xDFFF)
    requires p < 0x1_0000 ==> Spells(h, HexDigits(p))
    requires p >= 0x1_0000 ==>
      && Spells(h, HexDigits(0xD800 + (p - 0x1_0000) / 0x400)) && Spells(h2, HexDigits(0xDC00 + (p - 0x1_0000) % 0x400))
    ensures Unicode(['\\', 'u'] + h + ((if p < 0x1_0000 then "" else ['\\', 'u'] + h2) + z)) == Got(Utf8(p), z)
  {
    hide Utf8, Hex4, Unit, HexDigits, Unicode, Spells;
    if p < 0x1_0000 {
      UnitOfDigits(p);
      SingleRead(h, HexDigits(p), z);
      assert "" + z == z;
    } else {
      var u, v := 0xD800 + (p - 0x1_0000) / 0x400, 0xDC00 + (p - 0x1_0000) % 0x400;
      UnitOfDigits(u);
      UnitOfDigits(v);
      PairRead(h, HexDigits(u), h2, HexDigits(v), z);
      assert ['\\', 'u'] + h + (['\\', 'u'] + h2) + z == ['\\', 'u'] + h + ((['\\', 'u'] + h2) + z);
    }
  }

  function BodyText(ps: seq<Piece>): string {
    if ps == [] then "" else PieceText(ps[0]) + BodyText(ps[1..])
  }

  function BodyMeans(ps: seq<Piece>): string
    requires forall k :: 0 <= k < |ps| ==> PieceGood(ps[k])
  {
    if ps == [] then "" else PieceMeans(ps[0]) + BodyMeans(ps[1..])
  }

  /** A string body and what ends it: a quote, or the end of the whole text. */
  ghost predicate BodyGood(ps: seq<Piece>, closed: bool)
    decreases ps
  {
    ps == [] || (PieceGood(ps[0]) && PieceFits(ps[0], BodyText(ps[1..]) + Close(closed)) && BodyGood(ps[1..], closed))
  }

  function Close(closed: bool): string {
    if closed then "\"" else ""
  }

  lemma {:induction false} BodyPieces(ps: seq<Piece>, closed: bool)
    requires BodyGood(ps, closed)
    ensures forall k :: 0 <= k < |ps| ==> PieceGood(ps[k])
  {
    hide PieceGood, PieceFits;
    if ps != [] {
      BodyPieces(ps[1..], closed);
      forall k | 0 <= k < |ps| ensures PieceGood(ps[k]) {
        if k > 0 { assert ps[k] == ps[1..][k - 1]; }
      }
    }
  }

  lemma CharThenRest(s: string, c: string, rest: string)
    requires s != "" && s[0] != '\"' && ParseChar(s) == Got(c, rest) && ParseChars(rest).Got?
    ensures ParseChars(s) == Got(c + ParseChars(rest).value, ParseChars(rest).rest)
  {
    hide ParseChar;
  }

  lemma BodyEnds(closed: bool, z: string)
    requires closed || z == ""
    ensures ParseChars(Close(closed) + z) == Got("", z)
  {
    if closed { assert (Close(closed) + z)[1..] == z; }
  }

  lemma {:induction false} BodyRead(ps: seq<Piece>, closed: bool, z: string)
    requires BodyGood(ps, closed) && (closed || z == "")
    ensures (forall k :: 0 <= k < |ps| ==> PieceGood(ps[k]))
    ensures ParseChars(BodyText(ps) + (Close(closed) + z)) == Got(BodyMeans(ps), z)
  {
    hide PieceGood, PieceFits, PieceText, PieceMeans, ParseChar, ParseChars;
    BodyPieces(ps, closed);
    var s := BodyText(ps) + (Close(closed) + z);
    if ps == [] {
      BodyEnds(closed, z);
      assert s == Close(closed) + z;
    } else {
      var rest := BodyText(ps[1..]) + (Close(closed) + z);
      assert s == PieceText(ps[0]) + rest;
      FitsMore(ps[0], BodyText(ps[1..]) + Close(closed), z, closed);
      assert BodyText(ps[1..]) + Close(closed) + z == rest;
      PieceRead(ps[0], rest);
      BodyRead(ps[1..], closed, z);
      CharThenRest(s, PieceMeans(ps[0]), rest);
    }
  }

  /** What fits before the end of the string fits before what comes after the string too. */
  lemma FitsMore(p: Piece, a: string, z: string, closed: bool)
    requires PieceFits(p, a) && (if closed then a != "" && a[|a| - 1] == '\"' else z == "")
    ensures PieceFits(p, a + z)
  {
    if !closed { assert a + z == a; }
  }

  /** Every character or escape that is read is a piece. */
  lemma PieceFound(s: string) returns (p: Piece)
    requires s != "" && s[0] != '\"' && ParseChar(s).Got?
    ensures PieceGood(p) && PieceFits(p, ParseChar(s).rest) && s == PieceText(p) + ParseChar(s).rest
  {
    if s[0] != '\\' {
      p := Raw(s[0]);
    } else if s[1] != 'u' {
      p := Escaped(s[1]);
    } else {
      p := EscapeFound(s);
    }
  }

  lemma EscapeFound(s: string) returns (p: Piece)
    requires |s| >= 2 && s[0] == '\\' && s[1] == 'u' && Unicode(s).Got?
    ensures PieceGood(p) && PieceFits(p, Unicode(s).rest) && s == PieceText(p) + Unicode(s).rest
  {
    hide Utf8, Hex4, Unit, Spells;
    var d := SpelledSomehow(s[2..6]);
    UnitIs(s[2..6], d);
    if 0xD800 <= Unit(d) <= 0xDBFF && |s| >= 8 && s[6] == '\\' && s[7] == 'u' {
      var d2 := SpelledSomehow(s[8..12]);
      p := Pair(s[2..6], d, s[8..12], d2);
      assert s[..2] == ['\\', 'u'] && s[6..8] == ['\\', 'u'];
      assert s == s[..2] + s[2..6] + (s[6..8] + s[8..12]) + s[12..];
    } else {
      p := Single(s[2..6], d);
      assert s[..2] == ['\\', 'u'];
      assert s == s[..2] + s[2..6] + s[6..];
    }
  }

  /** Every string body that is read consists of pieces. */
  lemma {:induction false} BodyFound(s: string) returns (ps: seq<Piece>, closed: bool)
    requires ParseChars(s).Got?
    ensures BodyGood(ps, closed) && (closed || ParseChars(s).rest == "")
    ensures s == BodyText(ps) + (Close(closed) + ParseChars(s).rest)
    decreases |s|
  {
    hide ParseChar, PieceGood, PieceFits, PieceText;
    if s == "" {
      ps, closed := [], false;
    } else if s[0] == '\"' {
      ps, closed := [], true;
    } else {
      var rest := ParseChar(s).rest;
      var p := PieceFound(s);
      ps, closed := BodyFound(rest);
      var z := ParseChars(rest).rest;
      FitsLess(p, BodyText(ps) + Close(closed), z, closed);
      assert ([p] + ps)[1..] == ps;
      assert BodyText(ps) + Close(closed) + z == rest;
      assert PieceText(p) + (BodyText(ps) + (Close(closed) + z)) == PieceText(p) + BodyText(ps) + (Close(closed) + z);
      ps := [p] + ps;
    }
  }

  lemma FitsLess(p: Piece, a: string, z: string, closed: bool)
    requires PieceFits(p, a + z) && (if closed then a != "" && a[|a| - 1] == '\"' else z == "")
    ensures PieceFits(p, a)
  {
    if !closed { assert a + z == a; }
  }

  // ---------------------------------------------------------------- numbers

  lemma DigitIs(c: char)
    ensures IsDigit(c) <==> c in "0123456789"
    ensures '1' <= c <= '9' <==> c in "123456789"
    ensures IsDigit(c) <==> c == '0' || '1' <= c <= '9'
  {}

  predicate AllDigits(d: string) {
    forall k :: 0 <= k < |d| ==> d[k] in "0123456789"
  }

  function Decimal(d: string): int {
    if d == "" then 0 else 10 * Decimal(d[..|d| - 1]) + (d[|d| - 1] as int - '0' as int)
  }

  lemma DigitsLess(d: string)
    requires AllDigits(d) && d != ""
    ensures AllDigits(d[..|d| - 1]) && IsDigit(d[|d| - 1])
  {
    DigitIs(d[|d| - 1]);
  }

  lemma DigitsMore(c: char, d: string)
    requires IsDigit(c) && AllDigits(d)
    ensures AllDigits([c] + d)
  {
    DigitIs(c);
  }

  lemma NoDigits()
    ensures AllDigits("")
  {}

  lemma RunOne(c: char, z: string, n: nat)
    requires IsDigit(c)
    ensures Run([c] + z, n) == Run(z, 10 * n + (c as int - '0' as int))
  {
    assert ([c] + z)[1..] == z;
  }

  lemma {:induction false} RunDigits(d: string, z: string)
    requires AllDigits(d)
    ensures Decimal(d) >= 0 && Run(d + z, 0) == Run(z, Decimal(d))
  {
    hide AllDigits, Run;
    if d == "" {
      assert d + z == z;
    } else {
      var k := |d| - 1;
      DigitsLess(d);
      assert d + z == d[..k] + ([d[k]] + z);
      RunDigits(d[..k], [d[k]] + z);
      RunOne(d[k], z, Decimal(d[..k]));
    }
  }

  lemma {:induction false} DigitsFound(s: string, n: nat) returns (d: string)
    ensures AllDigits(d) && s == d + Run(s, n).1 && NoDigit(Run(s, n).1)
    ensures if s != "" && IsDigit(s[0]) then d != "" && d[0] == s[0] else d == ""
    decreases |s|
  {
    hide AllDigits;
    if s != "" && IsDigit(s[0]) {
      var more := DigitsFound(s[1..], 10 * n + DigitValue(s[0]));
      DigitsMore(s[0], more);
      d := [s[0]] + more;
      assert s == [s[0]] + s[1..];
    } else {
      NoDigits();
      d := "";
    }
  }

  function Sign(minus: bool): string {
    if minus then "-" else ""
  }

  function Zero(zero: bool): string {
    if zero then "0" else ""
  }

  /** A sign, one zero and digits that do not start with one, each of which may be missing. */
  predicate NumberGood(minus: bool, zero: bool, digits: string) {
    AllDigits(digits) && (digits != "" ==> digits[0] != '0') && (minus || zero || digits != "")
  }

  /** What may follow: nothing that would prolong the number. */
  predicate NumberFits(zero: bool, digits: string, z: string) {
    z == "" || z[0] !in (if digits == "" && zero then "123456789" else "0123456789")
  }

  function NumberMeans(minus: bool, digits: string): int {
    ToInt(if minus then -Decimal(digits) else Decimal(digits))
  }

  /** Numbers are taken modulo 2^32. */
  lemma ToIntIs(n: int)
    ensures -0x8000_0000 <= ToInt(n) < 0x8000_0000 && (n - ToInt(n)) % 0x1_0000_0000 == 0
  {}

  /** parse_number behind the sign. */
  function Magnitude(s: string): (nat, string) {
    var s2 := if s != "" && s[0] == '0' then s[1..] else s;
    if s2 != "" && '1' <= s2[0] <= '9' then Run(s2, 0) else (0, s2)
  }

  lemma ParseNumberIs(minus: bool, s: string)
    requires var t := Sign(minus) + s; t != "" && (t[0] == '-' || IsDigit(t[0])) && (minus || t[0] != '-')
    ensures var (n, rest) := Magnitude(s);
      ParseNumber(Sign(minus) + s) == Got(ToInt(if minus then -(n as int) else n), rest)
  {
    hide ToInt, Run;
    var t := Sign(minus) + s;
    if minus { assert t[1..] == s; } else { assert t == s; }
  }

  lemma MagnitudeRead(zero: bool, digits: string, z: string)
    requires NumberGood(true, zero, digits) && NumberFits(zero, digits, z)
    ensures Decimal(digits) >= 0 && Magnitude(Zero(zero) + (digits + z)) == (Decimal(digits), z)
  {
    hide Run, Decimal, AllDigits;
    var s1 := Zero(zero) + (digits + z);
    RunDigits(digits, z);
    if zero { assert s1[1..] == digits + z; } else { assert s1 == digits + z; }
    if digits == "" {
      assert digits + z == z;
      EmptyDecimal();
      if z != "" { DigitIs(z[0]); }
    } else {
      FirstDigit(digits);
      RunStops(z, Decimal(digits));
    }
  }

  lemma EmptyDecimal()
    ensures Decimal("") == 0
  {}

  lemma FirstDigit(digits: string)
    requires AllDigits(digits) && digits != "" && digits[0] != '0'
    ensures '1' <= digits[0] <= '9'
  {
    DigitIs(digits[0]);
  }

  lemma RunStops(z: string, n: nat)
    requires NumberFits(false, "", z)
    ensures Run(z, n) == (n, z)
  {
    if z != "" { DigitIs(z[0]); }
  }

  lemma NumberRead(minus: bool, zero: bool, digits: string, z: string)
    requires NumberGood(minus, zero, digits) && NumberFits(zero, digits, z)
    ensures var s := Sign(minus) + (Zero(zero) + (digits + z));
      && s != "" && (s[0] == '-' || IsDigit(s[0]))
      && ParseNumber(s) == Got(NumberMeans(minus, digits), z)
  {
    hide ToInt, ParseNumber, Magnitude, AllDigits, Decimal;
    MagnitudeRead(zero, digits, z);
    if digits != "" { FirstDigit(digits); }
    ParseNumberIs(minus, Zero(zero) + (digits + z));
  }

  lemma MagnitudeFound(s: string) returns (zero: bool, digits: string)
    ensures var z := Magnitude(s).1;
      && AllDigits(digits) && (digits != "" ==> digits[0] != '0') && NumberFits(zero, digits, z)
      && s == Zero(zero) + (digits + z)
  {
    hide AllDigits;
    zero := s != "" && s[0] == '0';
    var s2 := if zero then s[1..] else s;
    if s2 != "" && '1' <= s2[0] <= '9' {
      digits := DigitsFound(s2, 0);
      hide Run;
    } else {
      digits := "";
      NoDigits();
    }
    var z := Magnitude(s).1;
    if z != "" { DigitIs(z[0]); }
  }

  lemma NumberFound(s: string) returns (minus: bool, zero: bool, digits: string)
    requires s != "" && (s[0] == '-' || IsDigit(s[0]))
    ensures var z := ParseNumber(s).rest;
      && NumberGood(minus, zero, digits) && NumberFits(zero, digits, z)
      && s == Sign(minus) + (Zero(zero) + (digits + z))
  {
    hide ToInt, ParseNumber, Magnitude, AllDigits;
    minus := s[0] == '-';
    var s1 := if minus then s[1..] else s;
    assert s == Sign(minus) + s1;
    ParseNumberIs(minus, s1);
    zero, digits := MagnitudeFound(s1);
    if !minus { MagnitudeShrinks(s1); }
  }

  lemma MagnitudeShrinks(s: string)
    requires s != "" && IsDigit(s[0])
    ensures |Magnitude(s).1| < |s|
  {}

  // ---------------------------------------------------------------- values

  /** White space: every character up to the space but NUL, which ends the text. */
  predicate Blank(w: string) {
    forall k :: 0 <= k < |w| ==> 1 <= w[k] as int <= 32
  }

  lemma BlankIsSpace(w: string)
    ensures Blank(w) <==> AllSpace(w)
  {
    if Blank(w) {
      forall k | 0 <= k < |w| ensures Space(w[k]) { SpaceIs(w[k]); }
    }
    if AllSpace(w) {
      forall k | 0 <= k < |w| ensures 1 <= w[k] as int <= 32 { SpaceIs(w[k]); }
    }
  }

  lemma SpaceIs(c: char)
    ensures Space(c) <==> 1 <= c as int <= 32
  {}

  /** A text with its layout: white space wherever it may stand, and every choice of spelling. */
  datatype Laid =
    | Word(t: Json)
    | Number(minus: bool, zero: bool, digits: string)
    | Text(body: seq<Piece>, closed: bool)
    | NoItems(gap: string)
    | Items(items: LaidItems)
    | NoMembers(gap: string)
    | Members(members: LaidMembers)
  datatype LaidItems =
    | LastItem(before: string, value: Laid, after: string)
    | NextItem(before: string, value: Laid, after: string, rest: LaidItems)
  datatype LaidMembers =
    | LastMember(member: LaidMember, after: string)
    | NextMember(member: LaidMember, after: string, rest: LaidMembers)
  datatype LaidMember = LaidMember(before: string, name: seq<Piece>, colon: string, gap: string, value: Laid)

  /** The characters of a text. */
  function Lay(l: Laid): string {
    match l
    case Word(t) => if t.Null? then "null" else if t.False? then "false" else "true"
    case Number(minus, zero, digits) => Sign(minus) + (Zero(zero) + digits)
    case Text(body, closed) => "\"" + (BodyText(body) + Close(closed))
    case NoItems(gap) => "[" + (gap + "]")
    case Items(items) => "[" + LayItems(items)
    case NoMembers(gap) => "{" + (gap + "}")
    case Members(members) => "{" + LayMembers(members)
  }

  function LayItems(i: LaidItems): string {
    match i
    case LastItem(b, v, a) => b + (Lay(v) + (a + "]"))
    case NextItem(b, v, a, rest) => b + (Lay(v) + (a + ("," + LayItems(rest))))
  }

  function LayMember(m: LaidMember): string {
    m.before + ("\"" + (BodyText(m.name) + ("\"" + (m.colon + (":" + (m.gap + Lay(m.value)))))))
  }

  function LayMembers(m: LaidMembers): string {
    match m
    case LastMember(m, a) => LayMember(m) + (a + "}")
    case NextMember(m, a, rest) => LayMember(m) + (a + ("," + LayMembers(rest)))
  }

  /** Layout is white space only, and strings inside a value are closed. */
  ghost predicate Good(l: Laid) {
    match l
    case Word(t) => t.Null? || t.False? || t.True?
    case Number(minus, zero, digits) => NumberGood(minus, zero, digits)
    case Text(body, closed) => BodyGood(body, closed)
    case NoItems(gap) => Blank(gap)
    case Items(items) => GoodItems(items)
    case NoMembers(gap) => Blank(gap)
    case Members(members) => GoodMembers(members)
  }

  predicate Closed(l: Laid) {
    l.Text? ==> l.closed
  }

  ghost predicate GoodItems(i: LaidItems) {
    match i
    case LastItem(b, v, a) => Blank(b) && Blank(a) && Good(v) && Closed(v)
    case NextItem(b, v, a, rest) => Blank(b) && Blank(a) && Good(v) && Closed(v) && GoodItems(rest)
  }

  ghost predicate GoodMember(m: LaidMember) {
    Blank(m.before) && BodyGood(m.name, true) && Blank(m.colon) && Blank(m.gap) && Good(m.value) && Closed(m.value)
  }

  ghost predicate GoodMembers(m: LaidMembers) {
    match m
    case LastMember(m, a) => GoodMember(m) && Blank(a)
    case NextMember(m, a, rest) => GoodMember(m) && Blank(a) && GoodMembers(rest)
  }

  /** What may follow a text without becoming part of it. */
  predicate Fits(l: Laid, z: string) {
    match l
    case Number(minus, zero, digits) => NumberFits(zero, digits, z)
    case Text(body, closed) => closed || z == ""
    case _ => true
  }

  /** The tree a text stands for. */
  ghost function Tree(l: Laid): Json
    requires Good(l)
  {
    match l
    case Word(t) => t
    case Number(minus, zero, digits) => Num(NumberMeans(minus, digits), 0.0)
    case Text(body, closed) => BodyPieces(body, closed); Str(BodyMeans(body))
    case NoItems(gap) => Arr([])
    case Items(items) => Arr(TreeItems(items))
    case NoMembers(gap) => Obj([])
    case Members(members) => Obj(TreeMembers(members))
  }

  ghost function TreeItems(i: LaidItems): seq<Json>
    requires GoodItems(i)
  {
    match i
    case LastItem(b, v, a) => [Tree(v)]
    case NextItem(b, v, a, rest) => [Tree(v)] + TreeItems(rest)
  }

  ghost function TreeMember(m: LaidMember): Member
    requires GoodMember(m)
  {
    BodyPieces(m.name, true);
    Member(BodyMeans(m.name), Tree(m.value))
  }

  ghost function TreeMembers(m: LaidMembers): seq<Member>
    requires GoodMembers(m)
  {
    match m
    case LastMember(m, a) => [TreeMember(m)]
    case NextMember(m, a, rest) => [TreeMember(m)] + TreeMembers(rest)
  }

  // ---------------------------------------------------------------- every text is read

  lemma LayStarts(l: Laid)
    requires Good(l)
    ensures Lay(l) != "" && !Space(Lay(l)[0]) && Lay(l)[0] != ']' && Lay(l)[0] != '}'
  {
    if l.Number? && l.digits != "" {
      FirstDigit(l.digits);
    }
  }

  lemma SkipGap(w: string, s: string)
    requires Blank(w) && (s == "" || !Space(s[0]))
    ensures Skip(w + s) == s
  {
    BlankIsSpace(w);
    if s == "" { SkipAll(w); assert w + s == w; } else { SkipSpace(w, s); }
  }

  lemma {:induction false} SkipAll(w: string)
    requires Blank(w)
    ensures Skip(w) == ""
  {
    if w != "" {
      SpaceIs(w[0]);
      SkipAll(w[1..]);
    }
  }

  lemma StringRead(body: seq<Piece>, closed: bool, z: string)
    requires BodyGood(body, closed) && (closed || z == "")
    ensures (forall k :: 0 <= k < |body| ==> PieceGood(body[k]))
    ensures ParseString("\"" + (BodyText(body) + (Close(closed) + z))) == Got(BodyMeans(body), z)
  {
    hide ParseChars, PieceGood;
    BodyRead(body, closed, z);
    var s := "\"" + (BodyText(body) + (Close(closed) + z));
    assert s[1..] == BodyText(body) + (Close(closed) + z);
  }

  lemma Spaced(w: string, z: string, l: Laid)
    requires Blank(w) && z != "" && (z[0] == ',' || z[0] == ']' || z[0] == '}') && Closed(l)
    ensures Fits(l, w + z) && Skip(w + z) == z
  {
    SkipGap(w, z);
    if w != "" { assert 1 <= w[0] as int <= 32; }
  }

  lemma ItemsSkip(s: string)
    ensures ParseItems(Skip(s)) == ParseItems(s)
  {
    hide ParseValue, Skip;
    SkipNothing(Skip(s));
  }

  lemma MembersSkip(s: string)
    ensures ParseMembers(Skip(s)) == ParseMembers(s)
  {
    hide ParseValue, ParseString, Skip;
    SkipNothing(Skip(s));
  }

  lemma ArrayRead(s: string)
    requires Skip(s) != "" && Skip(s)[0] != ']'
    ensures ParseValue("[" + s) == (var g := ParseItems(s); if g.Fail? then Fail else Got(Arr(g.value), g.rest))
  {
    ItemsSkip(s);
    hide ParseItems, Skip;
    NotWord("[" + s);
    assert ("[" + s)[1..] == s;
  }

  lemma ObjectRead(s: string)
    requires Skip(s) != "" && Skip(s)[0] != '}'
    ensures ParseValue("{" + s) == (var g := ParseMembers(s); if g.Fail? then Fail else Got(Obj(g.value), g.rest))
  {
    MembersSkip(s);
    hide ParseMembers, Skip;
    NotWord("{" + s);
    assert ("{" + s)[1..] == s;
  }

  lemma WordRead(t: Json, z: string)
    requires t.Null? || t.False? || t.True?
    ensures ParseValue(Lay(Word(t)) + z) == Got(t, z)
  {
    ValueBack(t, 0, false, z);
  }

  lemma NumberTextRead(minus: bool, zero: bool, digits: string, z: string)
    requires NumberGood(minus, zero, digits) && NumberFits(zero, digits, z)
    ensures ParseValue(Sign(minus) + (Zero(zero) + digits) + z) == Got(Num(NumberMeans(minus, digits), 0.0), z)
  {
    hide ParseNumber, NumberGood, NumberFits, NumberMeans;
    NumberRead(minus, zero, digits, z);
    var s := Sign(minus) + (Zero(zero) + digits) + z;
    assert s == Sign(minus) + (Zero(zero) + (digits + z));
    NotWord(s);
  }

  lemma TextRead(body: seq<Piece>, closed: bool, z: string)
    requires BodyGood(body, closed) && (closed || z == "")
    ensures ParseValue("\"" + (BodyText(body) + Close(closed)) + z) == Got(Tree(Text(body, closed)), z)
  {
    hide ParseString, BodyGood, BodyText, BodyMeans, PieceGood;
    StringRead(body, closed, z);
    var s := "\"" + (BodyText(body) + Close(closed)) + z;
    assert s == "\"" + (BodyText(body) + (Close(closed) + z));
    NotWord(s);
  }

  /** An item and what ends it. */
  lemma ItemRead(b: string, text: string, v: Json, a: string, z: string)
    requires Blank(b) && Blank(a) && text != "" && !Space(text[0])
    requires z != "" && (z[0] == ',' || z[0] == ']') && ParseValue(text + (a + z)) == Got(v, a + z)
    ensures var s := b + (text + (a + z));
      if z[0] == ']' then ParseItems(s) == Got([v], z[1..])
      else ParseItems(s) == (var h := ParseItems(z[1..]); if h.Fail? then Fail else Got([v] + h.value, h.rest))
  {
    hide ParseValue, Skip;
    SkipGap(b, text + (a + z));
    SkipGap(a, z);
  }

  lemma MemberRead(m: LaidMember, v: Json, z: string)
    requires GoodMember(m) && ParseValue(Lay(m.value) + z) == Got(v, z)
    ensures (forall k :: 0 <= k < |m.name| ==> PieceGood(m.name[k]))
    ensures ParseMember(LayMember(m) + z) == Got(Member(BodyMeans(m.name), v), z)
  {
    hide ParseValue, ParseString, Skip, BodyGood, BodyText, BodyMeans, PieceGood, Lay;
    var value := Lay(m.value) + z;
    var after := ":" + (m.gap + value);
    var name := "\"" + (BodyText(m.name) + ("\"" + (m.colon + after)));
    assert LayMember(m) + z == m.before + name;
    SkipGap(m.before, name);
    assert Close(true) == "\"";
    StringRead(m.name, true, m.colon + after);
    SkipGap(m.colon, after);
    assert after[1..] == m.gap + value;
    LayStarts(m.value);
    SkipGap(m.gap, value);
  }

  lemma MembersRead(s: string, m: Member, a: string, z: string)
    requires Blank(a) && z != "" && (z[0] == ',' || z[0] == '}') && ParseMember(s) == Got(m, a + z)
    ensures if z[0] == '}' then ParseMembers(s) == Got([m], z[1..])
      else ParseMembers(s) == (var h := ParseMembers(z[1..]); if h.Fail? then Fail else Got([m] + h.value, h.rest))
  {
    hide ParseMember, Skip;
    SkipGap(a, z);
  }

  /** What follows an item, its white space aside. */
  function ItemsEnd(i: LaidItems, z: string): string {
    if i.LastItem? then "]" + z else "," + (LayItems(i.rest) + z)
  }

  lemma LayItemsIs(i: LaidItems, z: string)
    ensures var end := ItemsEnd(i, z);
      && LayItems(i) + z == i.before + (Lay(i.value) + (i.after + end))
      && end != "" && end[0] == (if i.LastItem? then ']' else ',')
      && end[1..] == if i.LastItem? then z else LayItems(i.rest) + z
  {
    hide Lay;
    if i.LastItem? {} else {}
  }

  lemma LaidItemsStart(i: LaidItems, z: string)
    requires GoodItems(i)
    ensures var v := Skip(LayItems(i) + z); v != "" && v[0] != ']'
  {
    hide Skip, Lay, LayItems, ItemsEnd;
    LayItemsIs(i, z);
    LayStarts(i.value);
    SkipGap(i.before, Lay(i.value) + (i.after + ItemsEnd(i, z)));
  }

  lemma LaidMembersStart(m: LaidMembers, z: string)
    requires GoodMembers(m)
    ensures var v := Skip(LayMembers(m) + z); v != "" && v[0] != '}'
  {
    hide Skip, BodyText, Lay;
    var b := m.member.before;
    var rest := (LayMembers(m) + z)[|b|..];
    assert LayMembers(m) + z == b + rest;
    SkipGap(b, rest);
  }

  lemma NoItemsRead(gap: string, z: string)
    requires Blank(gap)
    ensures ParseValue("[" + (gap + "]") + z) == Got(Arr([]), z)
    ensures ParseValue("{" + (gap + "}") + z) == Got(Obj([]), z)
  {
    hide ParseValue;
    BlankIsSpace(gap);
    EmptyArray(gap, z);
    EmptyObjectBack(gap, z);
    assert "[" + (gap + "]") + z == "[" + gap + ("]" + z);
    assert "{" + (gap + "}") + z == "{" + gap + ("}" + z);
  }

  lemma ItemsRead(items: LaidItems, g: seq<Json>, z: string)
    requires GoodItems(items) && ParseItems(LayItems(items) + z) == Got(g, z)
    ensures ParseValue("[" + LayItems(items) + z) == Got(Arr(g), z)
  {
    LaidItemsStart(items, z);
    hide ParseItems, ParseValue, LayItems, Skip, GoodItems;
    assert "[" + LayItems(items) + z == "[" + (LayItems(items) + z);
    ArrayRead(LayItems(items) + z);
  }

  lemma AllMembersRead(members: LaidMembers, g: seq<Member>, z: string)
    requires GoodMembers(members) && ParseMembers(LayMembers(members) + z) == Got(g, z)
    ensures ParseValue("{" + LayMembers(members) + z) == Got(Obj(g), z)
  {
    LaidMembersStart(members, z);
    hide ParseMembers, ParseValue, LayMembers, Skip, GoodMembers;
    assert "{" + LayMembers(members) + z == "{" + (LayMembers(members) + z);
    ObjectRead(LayMembers(members) + z);
  }

  /** A well-formed text parses to its tree, and stops where it ends. */
  lemma {:induction false} TextParses(l: Laid, z: string)
    requires Good(l) && Fits(l, z)
    ensures ParseValue(Lay(l) + z) == Got(Tree(l), z)
    decreases l
  {
    hide ParseValue, ParseItems, ParseMembers, BodyGood, BodyText, NumberGood, NumberFits, NumberMeans;
    match l {
      case Word(t) => WordRead(t, z);
      case Number(minus, zero, digits) => NumberTextRead(minus, zero, digits, z);
      case Text(body, closed) => TextRead(body, closed, z);
      case NoItems(gap) => NoItemsRead(gap, z);
      case Items(items) => ItemsParse(items, z); ItemsRead(items, TreeItems(items), z);
      case NoMembers(gap) => NoItemsRead(gap, z);
      case Members(members) => MembersParse(members, z); AllMembersRead(members, TreeMembers(members), z);
    }
  }

  lemma {:induction false} ItemsParse(i: LaidItems, z: string)
    requires GoodItems(i)
    ensures ParseItems(LayItems(i) + z) == Got(TreeItems(i), z)
    decreases i
  {
    hide ParseItems, ParseValue, Lay, LayItems, ItemsEnd, Fits, Skip, Blank;
    var end := ItemsEnd(i, z);
    LayItemsIs(i, z);
    LayStarts(i.value);
    Spaced(i.after, end, i.value);
    TextParses(i.value, i.after + end);
    ItemRead(i.before, Lay(i.value), Tree(i.value), i.after, end);
    if i.NextItem? { ItemsParse(i.rest, z); }
  }

  lemma {:induction false} MembersParse(m: LaidMembers, z: string)
    requires GoodMembers(m)
    ensures ParseMembers(LayMembers(m) + z) == Got(TreeMembers(m), z)
    decreases m
  {
    hide ParseMembers, ParseMember, ParseValue, LayMember, BodyMeans;
    var a := m.after;
    var end := if m.LastMember? then "}" + z else "," + (LayMembers(m.rest) + z);
    var s := LayMember(m.member) + (a + end);
    Spaced(a, end, m.member.value);
    TextParses(m.member.value, a + end);
    MemberRead(m.member, Tree(m.member.value), a + end);
    MembersRead(s, TreeMember(m.member), a, end);
    match m {
      case LastMember(_, _) =>
        assert LayMembers(m) + z == s && end[1..] == z;
      case NextMember(_, _, rest) =>
        MembersParse(rest, z);
        assert LayMembers(m) + z == s && end[1..] == LayMembers(rest) + z;
    }
  }

  // ---------------------------------------------------------------- nothing else is read

  lemma {:induction false} SkipFound(s: string) returns (w: string)
    ensures Blank(w) && s == w + Skip(s)
  {
    if s != "" && Space(s[0]) {
      SpaceIs(s[0]);
      w := SkipFound(s[1..]);
      assert s == [s[0]] + s[1..];
      w := [s[0]] + w;
    } else {
      w := "";
    }
  }

  lemma StringFound(s: string) returns (body: seq<Piece>, closed: bool)
    requires ParseString(s).Got?
    ensures BodyGood(body, closed) && (closed || ParseString(s).rest == "")
    ensures s == "\"" + (BodyText(body) + (Close(closed) + ParseString(s).rest))
  {
    hide ParseChars, BodyGood, BodyText;
    body, closed := BodyFound(s[1..]);
    assert s == "\"" + s[1..];
  }

  lemma WordFound(s: string, word: string)
    requires StartsWith(s, word)
    ensures s == word + s[|word|..]
  {}

  lemma ArrayGot(s: string)
    requires s != "" && s[0] == '[' && ParseValue(s).Got?
    ensures var r, v := ParseValue(s).rest, Skip(s[1..]);
      v == "]" + r || (ParseItems(s[1..]).Got? && ParseItems(s[1..]).rest == r)
  {
    ItemsSkip(s[1..]);
    NotWord(s);
    hide ParseItems, Skip;
  }

  lemma ObjectGot(s: string)
    requires s != "" && s[0] == '{' && ParseValue(s).Got?
    ensures var r, v := ParseValue(s).rest, Skip(s[1..]);
      v == "}" + r || (ParseMembers(s[1..]).Got? && ParseMembers(s[1..]).rest == r)
  {
    MembersSkip(s[1..]);
    NotWord(s);
    hide ParseMembers, Skip;
  }

  lemma ScalarGot(s: string)
    requires s != "" && s[0] != '[' && s[0] != '{' && ParseValue(s).Got?
    ensures var r := ParseValue(s).rest;
      || s == "null" + r || s == "false" + r || s == "true" + r
      || (s[0] == '\"' && ParseString(s).Got? && ParseString(s).rest == r)
      || ((s[0] == '-' || IsDigit(s[0])) && ParseNumber(s).rest == r)
  {
    hide ParseString, ParseNumber;
    if s[0] == '\"' || s[0] == '-' || IsDigit(s[0]) { NotWord(s); }
  }

  lemma ScalarFound(s: string) returns (l: Laid)
    requires s != "" && s[0] != '[' && s[0] != '{' && ParseValue(s).Got?
    ensures var r := ParseValue(s).rest;
      Good(l) && Fits(l, r) && s == Lay(l) + r
  {
    hide ParseValue, ParseString, ParseNumber, BodyGood, BodyText, NumberGood, NumberFits;
    ScalarGot(s);
    var r := ParseValue(s).rest;
    if s == "null" + r { l := Word(Null); }
    else if s == "false" + r { l := Word(False); }
    else if s == "true" + r { l := Word(True); }
    else if s[0] == '\"' {
      var body, closed := StringFound(s);
      l := Text(body, closed);
      assert "\"" + (BodyText(body) + (Close(closed) + r)) == "\"" + (BodyText(body) + Close(closed)) + r;
    } else {
      var minus, zero, digits := NumberFound(s);
      l := Number(minus, zero, digits);
      assert Sign(minus) + (Zero(zero) + (digits + r)) == Sign(minus) + (Zero(zero) + digits) + r;
    }
  }

  /** Whatever is read is a well-formed text, and what is left may follow it. */
  lemma {:induction false} ParsedIsText(s: string) returns (l: Laid)
    requires ParseValue(s).Got?
    ensures Good(l) && Fits(l, ParseValue(s).rest) && s == Lay(l) + ParseValue(s).rest
    decreases |s|, 3
  {
    NothingFails(s);
    hide ParseValue, Good, Lay, Fits;
    if s[0] == '[' { l := ArrayFound(s); } else if s[0] == '{' { l := ObjectFound(s); } else { l := ScalarFound(s); }
  }

  lemma {:induction false} ArrayFound(s: string) returns (l: Laid)
    requires s != "" && s[0] == '[' && ParseValue(s).Got?
    ensures Good(l) && Fits(l, ParseValue(s).rest) && s == Lay(l) + ParseValue(s).rest
    decreases |s|, 2
  {
    hide ParseValue, ParseItems, Skip, Blank, GoodItems, LayItems;
    var r := ParseValue(s).rest;
    assert s == "[" + s[1..];
    ArrayGot(s);
    if Skip(s[1..]) == "]" + r {
      var w := SkipFound(s[1..]);
      l := NoItems(w);
      assert "[" + (w + ("]" + r)) == Lay(l) + r;
    } else {
      var items := ItemsFound(s[1..]);
      l := Items(items);
      assert "[" + (LayItems(items) + r) == Lay(l) + r;
    }
  }

  lemma {:induction false} ObjectFound(s: string) returns (l: Laid)
    requires s != "" && s[0] == '{' && ParseValue(s).Got?
    ensures Good(l) && Fits(l, ParseValue(s).rest) && s == Lay(l) + ParseValue(s).rest
    decreases |s|, 2
  {
    hide ParseValue, ParseMembers, Skip, Blank, GoodMembers, LayMembers;
    var r := ParseValue(s).rest;
    assert s == "{" + s[1..];
    ObjectGot(s);
    if Skip(s[1..]) == "}" + r {
      var w := SkipFound(s[1..]);
      l := NoMembers(w);
      assert "{" + (w + ("}" + r)) == Lay(l) + r;
    } else {
      var members := MembersFound(s[1..]);
      l := Members(members);
      assert "{" + (LayMembers(members) + r) == Lay(l) + r;
    }
  }

  lemma NothingFails(s: string)
    requires ParseValue(s).Got?
    ensures s != ""
  {}

  lemma {:induction false} ItemsFound(s: string) returns (i: LaidItems)
    requires ParseItems(s).Got?
    ensures GoodItems(i) && s == LayItems(i) + ParseItems(s).rest
    decreases |s|, 4
  {
    hide ParseValue, Skip, Good, Lay;
    var b := SkipFound(s);
    var value := ParsedIsText(Skip(s));
    var g := ParseValue(Skip(s));
    var a := SkipFound(g.rest);
    var v := Skip(g.rest);
    if v[0] == ',' {
      var rest := ItemsFound(v[1..]);
      i := NextItem(b, value, a, rest);
      assert v == "," + v[1..];
      LayItemsIs(i, ParseItems(s).rest);
    } else {
      i := LastItem(b, value, a);
      assert v == "]" + v[1..];
      LayItemsIs(i, ParseItems(s).rest);
    }
  }

  lemma {:induction false} MemberFound(s: string) returns (m: LaidMember)
    requires ParseMember(s).Got?
    ensures GoodMember(m) || !Closed(m.value)
    ensures var r := ParseMember(s).rest;
      Blank(m.before) && BodyGood(m.name, true) && Blank(m.colon) && Blank(m.gap) && Good(m.value)
      && Fits(m.value, r) && s == LayMember(m) + r
    decreases |s|, 4
  {
    hide ParseValue, ParseString, Skip, Good, Lay, BodyGood, BodyText;
    var before := SkipFound(s);
    var n := ParseString(Skip(s));
    var name, closed := StringFound(Skip(s));
    var colon := SkipFound(n.rest);
    var v := Skip(n.rest);
    var gap := SkipFound(v[1..]);
    var value := ParsedIsText(Skip(v[1..]));
    m := LaidMember(before, name, colon, gap, value);
    assert v == ":" + v[1..];
    var r := ParseMember(s).rest;
    assert v[1..] == gap + (Lay(value) + r);
    assert LayMember(m) + r == before + ("\"" + (BodyText(name) + ("\"" + (colon + (":" + (gap + (Lay(value) + r)))))));
  }

  lemma {:induction false} MembersFound(s: string) returns (m: LaidMembers)
    requires ParseMembers(s).Got?
    ensures GoodMembers(m) && s == LayMembers(m) + ParseMembers(s).rest
    decreases |s|, 5
  {
    hide ParseValue, ParseMember, Skip, Good, LayMember, GoodMember;
    var member := MemberFound(s);
    var g := ParseMember(s);
    var a := SkipFound(g.rest);
    var v := Skip(g.rest);
    if v[0] == ',' {
      var rest := MembersFound(v[1..]);
      m := NextMember(member, a, rest);
      assert v == "," + v[1..];
    } else {
      m := LastMember(member, a);
      assert v == "}" + v[1..];
    }
  }

  // ---------------------------------------------------------------- the whole text

  /** The texts cJSON_ParseWithOpts accepts are the well-formed ones with white space before, and after
      if the end is asked for; it gives their tree. */
  lemma AcceptsTexts(w: string, l: Laid, z: string, requireEnd: bool)
    requires Blank(w) && Good(l) && Fits(l, z) && (requireEnd ==> Blank(z))
    ensures Parse(w + (Lay(l) + z), requireEnd) == Got(Tree(l), if requireEnd then "" else z)
  {
    hide ParseValue, Skip, Lay, Fits;
    LayStarts(l);
    SkipGap(w, Lay(l) + z);
    TextParses(l, z);
    if requireEnd { SkipAll(z); }
  }

  lemma AcceptsNothingElse(s: string, requireEnd: bool) returns (w: string, l: Laid, z: string)
    requires Parse(s, requireEnd).Got?
    ensures Blank(w) && Good(l) && Fits(l, z) && (requireEnd ==> Blank(z))
    ensures s == w + (Lay(l) + z) && Parse(s, requireEnd).value == Tree(l)
  {
    hide ParseValue, Skip, Good, Lay, Fits, Tree;
    w := SkipFound(s);
    l := ParsedIsText(Skip(s));
    z := ParseValue(Skip(s)).rest;
    TextParses(l, z);
    if requireEnd {
      var v := SkipFound(z);
      assert v + "" == v;
    }
  }
}
