/** nrf_fprintf_format.c: number and string formatting through a small buffer that is flushed when
    full. */
module Fprintf {
  import opened Division

  const UINT_WRAP: nat := 0x1_0000_0000

  datatype Flags = Flags(leftJustify: bool, padZero: bool, printSign: bool)

  // ---------------------------------------------------------------- digits

  function Pow(base: nat, n: nat): (p: nat)
    requires base >= 1
    ensures p >= 1
  {
    if n == 0 then 1 else PowPositive(base, Pow(base, n - 1)); base * Pow(base, n - 1)
  }

  lemma PowPositive(a: int, b: int)
    requires a >= 1 && b >= 1
    ensures a * b >= 1 && a * b >= b
  {}

  function Digit(d: nat): (c: char)
    ensures c != '\n'
  {
    if d < 10 then '0' + d as char else if d < 16 then 'A' + (d - 10) as char else '?'
  }

  function DigitValue(c: char): int {
    if '0' <= c <= '9' then c as int - '0' as int else c as int - 'A' as int + 10
  }

  /** The least number of digits of `v`. */
  function Count(v: nat, base: nat): (n: nat)
    requires base >= 2
    ensures n >= 1
    decreases v
  {
    if v < base then 1 else DivSmaller(v, base); 1 + Count(v / base, base)
  }

  lemma DivSmaller(v: nat, base: nat)
    requires base >= 2 && v >= base
    ensures v / base < v && v / base >= 1
  {
    Quotient(v, base, 1);
    Halves(v / base, base, v % base, v);
  }

  lemma Halves(q: int, base: int, r: int, v: int)
    requires base >= 2 && q >= 1 && r >= 0 && v == q * base + r
    ensures q < v
  {
    MulMono(2, base, q);
  }

  /** The last `n` digits of `v`, highest first. */
  function Digits(v: nat, base: nat, n: nat): (r: string)
    requires base >= 1
    ensures |r| == n
    decreases n
  {
    if n == 0 then ""
    else
      var p := Pow(base, n - 1);
      [Digit(v / p)] + Digits(v % p, base, n - 1)
  }

  lemma Divide(v: nat, base: nat, p: nat) returns (d: nat, r: nat)
    requires p >= 1 && v < p * base
    ensures d == v / p && r == v % p && v == d * p + r && d < base && r < p
  {
    Quotient(v, p, base);
    Quotient(v, p, 0);
    d, r := v / p, v % p;
  }

  /** The number a string of digits stands for, read from the left. */
  function Read(s: string, base: nat, acc: int): int
    decreases |s|
  {
    if s == "" then acc else Read(s[1..], base, acc * base + DigitValue(s[0]))
  }

  lemma {:induction false} DigitsReadBack(v: nat, base: nat, n: nat, acc: int)
    requires 2 <= base <= 16 && v < Pow(base, n)
    ensures Read(Digits(v, base, n), base, acc) == acc * Pow(base, n) + v
    decreases n, 1
  {
    if n > 0 {
      hide Digits, Read, Pow;
      var d, r, p := SplitOff(v, base, n);
      ReadStep(d, r, p, base, n, acc);
    }
  }

  /** The first digit is the quotient by the highest weight, the others are the digits of the remainder. */
  lemma SplitOff(v: nat, base: nat, n: nat) returns (d: nat, r: nat, p: nat)
    requires 2 <= base <= 16 && n > 0 && v < Pow(base, n)
    ensures p == Pow(base, n - 1) && Pow(base, n) == p * base && v == d * p + r && d < base && r < p
    ensures d == v / p
    ensures Digits(v, base, n) == [Digit(d)] + Digits(r, base, n - 1)
  {
    PowUp(base, n - 1);
    hide Pow, Digit, Digits;
    p := Pow(base, n - 1);
    d, r := Divide(v, base, p);
    Unfolded(v, base, n, d, r);
  }

  lemma Unfolded(v: nat, base: nat, n: nat, d: nat, r: nat)
    requires base >= 1 && n > 0 && d == v / Pow(base, n - 1) && r == v % Pow(base, n - 1)
    ensures Digits(v, base, n) == [Digit(d)] + Digits(r, base, n - 1)
  {
    hide Pow, Digit;
  }

  lemma ReadStep(d: nat, r: nat, p: nat, base: nat, n: nat, acc: int)
    requires 2 <= base <= 16 && n > 0 && d < base && r < p && p == Pow(base, n - 1)
    ensures Read([Digit(d)] + Digits(r, base, n - 1), base, acc) == acc * (p * base) + (d * p + r)
    decreases n, 0
  {
    DigitsReadBack(r, base, n - 1, acc * base + d);
    Horner(acc, base, d, p, r);
    FirstDigit(d, Digits(r, base, n - 1), base, acc);
    hide Pow, Digits, Digit, Read;
  }

  lemma FirstDigit(d: nat, rest: string, base: nat, acc: int)
    requires d < 16
    ensures Read([Digit(d)] + rest, base, acc) == Read(rest, base, acc * base + d)
  {
    assert ([Digit(d)] + rest)[1..] == rest;
  }

  lemma Horner(acc: int, base: int, d: int, p: int, r: int)
    ensures (acc * base + d) * p + r == acc * (p * base) + (d * p + r)
  {}

  lemma PowUp(base: nat, n: nat)
    requires base >= 1
    ensures Pow(base, n + 1) == Pow(base, n) * base
  {}

  /** The digit count is the least power of the base above the value. */
  lemma {:induction false} CountIsLeast(v: nat, base: nat)
    requires base >= 2
    ensures v < Pow(base, Count(v, base))
    ensures Count(v, base) > 1 ==> Pow(base, Count(v, base) - 1) <= v
    decreases v
  {
    if v >= base {
      DivSmaller(v, base);
      CountIsLeast(v / base, base);
      var n := Count(v / base, base);
      PowUp(base, n);
      PowUp(base, n - 1);
      Quotient(v, base, Pow(base, n));
      Quotient(v, base, Pow(base, n - 1));
    }
  }

  lemma {:induction false} PowGrows(base: nat, m: nat, n: nat)
    requires base >= 1 && m <= n
    ensures Pow(base, m) <= Pow(base, n)
  {
    if m < n { PowGrows(base, m, n - 1); PowPositive(base, Pow(base, n - 1)); }
  }

  /** The precisions the printers are safe for: ten decimal or eight hexadecimal digits. */
  lemma PrecisionFits(base: nat, numDigits: nat)
    requires base == 10 || base == 16
    ensures numDigits <= 1 || Pow(base, numDigits - 1) < UINT_WRAP <==> numDigits <= if base == 10 then 10 else 8
  {
    assert Pow(10, 4) == 10_000 && Pow(10, 8) == 100_000_000 && Pow(10, 10) == 10_000_000_000;
    assert Pow(10, 9) == 1_000_000_000;
    assert Pow(16, 4) == 0x1_0000 && Pow(16, 7) == 0x1000_0000 && Pow(16, 8) == UINT_WRAP;
    var most := if base == 10 then 10 else 8;
    if 1 < numDigits <= most { PowGrows(base, numDigits - 1, most - 1); }
    if numDigits > most { PowGrows(base, most, numDigits - 1); }
  }

  function Max(a: int, b: int): int { if a < b then b else a }

  /** How many digits are printed. */
  function DigitWidth(v: nat, base: nat, numDigits: nat): (n: nat)
    requires base >= 2
    ensures n >= 1
  {
    Max(Count(v, base), numDigits)
  }

  lemma WideEnough(v: nat, base: nat, numDigits: nat)
    requires base >= 2
    ensures v < Pow(base, DigitWidth(v, base, numDigits))
  {
    CountIsLeast(v, base);
    PowGrows(base, Count(v, base), DigitWidth(v, base, numDigits));
  }

  // ---------------------------------------------------------------- what is printed

  function Fill(c: char, n: int): (r: string)
    ensures |r| == Max(n, 0)
  {
    seq(Max(n, 0), _ => c)
  }

  function Body(v: nat, base: nat, numDigits: nat): (r: string)
    requires 2 <= base <= 16
    ensures |r| == DigitWidth(v, base, numDigits)
  {
    WideEnough(v, base, numDigits);
    Digits(v, base, DigitWidth(v, base, numDigits))
  }

  function UnsignedText(v: nat, base: nat, numDigits: nat, fieldWidth: nat, flags: Flags): string
    requires 2 <= base <= 16
  {
    var body := Body(v, base, numDigits);
    var gap := fieldWidth - |body|;
    if flags.leftJustify then body + Fill(' ', gap)
    else Fill(if flags.padZero && numDigits == 0 then '0' else ' ', gap) + body
  }

  function Sign(v: int, flags: Flags): (r: string)
    ensures |r| <= 1
  {
    if v < 0 then "-" else if flags.printSign then "+" else ""
  }

  function Abs(v: int): nat { if v < 0 then -v else v }

  function IntText(v: int, base: nat, numDigits: nat, fieldWidth: nat, flags: Flags): string
    requires 2 <= base <= 16
  {
    var body, sign := Body(Abs(v), base, numDigits), Sign(v, flags);
    var gap := fieldWidth - |sign| - |body|;
    if flags.leftJustify then sign + body + Fill(' ', gap)
    else if flags.padZero && numDigits == 0 then sign + Fill('0', gap) + body
    else Fill(' ', gap) + sign + body
  }

  /** The digits read back to the value, as many as the precision or the value needs. */
  lemma BodyReadsBack(v: nat, base: nat, numDigits: nat)
    requires 2 <= base <= 16
    ensures Read(Body(v, base, numDigits), base, 0) == v
    ensures |Body(v, base, numDigits)| == Max(Count(v, base), numDigits)
  {
    WideEnough(v, base, numDigits);
    DigitsReadBack(v, base, DigitWidth(v, base, numDigits), 0);
  }

  /** The total length is the field width, or sign and digits when they need more. */
  lemma TotalLength(v: int, u: nat, base: nat, numDigits: nat, fieldWidth: nat, flags: Flags)
    requires 2 <= base <= 16
    ensures |UnsignedText(u, base, numDigits, fieldWidth, flags)| == Max(fieldWidth, DigitWidth(u, base, numDigits))
    ensures |IntText(v, base, numDigits, fieldWidth, flags)|
         == Max(fieldWidth, |Sign(v, flags)| + DigitWidth(Abs(v), base, numDigits))
  {}

  /** Zero padding never separates the sign from the digits, and a padded number still reads back: the
      zeros are leading digits. */
  lemma {:induction false} ZerosReadAway(n: nat, s: string, base: nat)
    ensures Read(Fill('0', n) + s, base, 0) == Read(s, base, 0)
    decreases n
  {
    if n == 0 {
      assert Fill('0', 0) + s == s;
    } else {
      assert (Fill('0', n) + s)[1..] == Fill('0', n - 1) + s;
      ZerosReadAway(n - 1, s, base);
    }
  }

  // ---------------------------------------------------------------- the context

  class Context {
    const ioBuffer: array<char>
    var ioBufferCnt: nat
    /** NRF_FPRINTF_FLAG_AUTOMATIC_CR_ON_LF. */
    const crOnLf: bool
    /** Everything fwrite was given. */
    var written: string

    ghost predicate Valid()
      reads this
    {
      ioBufferCnt < ioBuffer.Length
    }

    /** What was printed so far, flushed or not. */
    ghost function Printed(): string
      requires Valid()
      reads this, ioBuffer
    {
      written + ioBuffer[..ioBufferCnt]
    }

    constructor (size: nat, crOnLf: bool)
      requires size > 0
      ensures Valid() && Printed() == "" && fresh(ioBuffer) && ioBuffer.Length == size && this.crOnLf == crOnLf
    {
      ioBuffer := new char[size];
      ioBufferCnt, written := 0, "";
      this.crOnLf := crOnLf;
    }

    /** nrf_fprintf_buffer_flush. */
    method Flush()
      requires ioBufferCnt <= ioBuffer.Length && ioBuffer.Length > 0
      modifies this
      ensures Valid() && ioBufferCnt == 0 && written == old(written + ioBuffer[..ioBufferCnt])
    {
      if ioBufferCnt == 0 {
        assert written + ioBuffer[..0] == written;
        return;
      }
      written := written + ioBuffer[..ioBufferCnt];
      ioBufferCnt := 0;
    }

    /** The characters one character becomes. */
    function Expanded(c: char): string {
      if crOnLf && c == '\n' then "\r\n" else [c]
    }

    /** buffer_add, once the carriage return is in. */
    method PutChar(c: char)
      requires Valid()
      modifies this, ioBuffer
      ensures Valid() && Printed() == old(Printed()) + [c]
    {
      ghost var was := Printed();
      ioBuffer[ioBufferCnt] := c;
      ioBufferCnt := ioBufferCnt + 1;
      assert written + ioBuffer[..ioBufferCnt] == was + [c];
      if ioBufferCnt >= ioBuffer.Length {
        Flush();
      }
    }

    /** buffer_add. */
    method Add(c: char)
      requires Valid()
      modifies this, ioBuffer
      ensures Valid() && Printed() == old(Printed()) + Expanded(c)
    {
      if crOnLf && c == '\n' {
        ghost var was := Printed();
        PutChar('\r');
        PutChar(c);
        assert was + ['\r'] + ['\n'] == was + "\r\n";
      } else {
        PutChar(c);
      }
    }

    /** The padding loops: the field width counts down to the width of the text. */
    method Pad(c: char, fieldWidth: nat, width: nat) returns (fieldWidth': nat)
      requires Valid() && c != '\n'
      modifies this, ioBuffer
      ensures Valid() && Printed() == old(Printed()) + Fill(c, fieldWidth - width)
      ensures fieldWidth' == if width < fieldWidth then width else fieldWidth
    {
      fieldWidth' := fieldWidth;
      ghost var was := Printed();
      assert was + Fill(c, 0) == was;
      while fieldWidth' != 0 && width < fieldWidth'
        invariant Valid() && fieldWidth' <= fieldWidth && (width < fieldWidth ==> width <= fieldWidth')
        invariant width >= fieldWidth ==> fieldWidth' == fieldWidth
        invariant Printed() == was + Fill(c, fieldWidth - fieldWidth')
      {
        assert Fill(c, fieldWidth - fieldWidth') + [c] == Fill(c, fieldWidth - (fieldWidth' - 1));
        fieldWidth' := fieldWidth' - 1;
        Add(c);
      }
      if width >= fieldWidth { assert Fill(c, fieldWidth - width) == Fill(c, 0); }
    }

    /** The counting loop both printers start with. */
    method ActualWidth(v: nat, base: nat, numDigits: nat) returns (width: nat)
      requires base >= 2
      ensures width == DigitWidth(v, base, numDigits)
    {
      var value: nat := v;
      width := 1;
      while value >= base
        invariant width + Count(value, base) == 1 + Count(v, base)
      {
        DivSmaller(value, base);
        value := value / base;
        width := width + 1;
      }
      if numDigits > width {
        width := numDigits;
      }
    }

    /** The loop that finds the weight of the highest digit. It does not overflow as long as the
        precision alone does not make it. */
    method HighestWeight(v: nat, base: nat, numDigits: nat) returns (value: nat)
      requires 2 <= base && v < UINT_WRAP
      requires numDigits > 1 ==> Pow(base, numDigits - 1) < UINT_WRAP
      ensures value == Pow(base, DigitWidth(v, base, numDigits) - 1) < UINT_WRAP
    {
      value := 1;
      var left := numDigits;
      ghost var k := 0;
      CountIsLeast(v, base);
      ghost var width := DigitWidth(v, base, numDigits);
      while true
        invariant k < width && value == Pow(base, k) < UINT_WRAP
        invariant left > 1 ==> left + k == numDigits
        invariant left <= 1 ==> k + 1 >= numDigits
        decreases width - k
      {
        if left > 1 {
          left := left - 1;
          PowGrows(base, k + 1, numDigits - 1);
        } else {
          WeightFound(v, base, k);
          var div := v / value;
          if div < base {
            return;
          }
        }
        value := value * base;
        k := k + 1;
        assert value == Pow(base, k);
      }
    }

    /** unsigned_print. */
    method UnsignedPrint(v: nat, base: nat, numDigits: nat, fieldWidth: nat, flags: Flags)
      requires Valid() && v < UINT_WRAP && 2 <= base <= 16
      requires numDigits > 1 ==> Pow(base, numDigits - 1) < UINT_WRAP
      modifies this, ioBuffer
      ensures Valid() && Printed() == old(Printed()) + UnsignedText(v, base, numDigits, fieldWidth, flags)
    {
      hide Digits, Pow;
      ghost var was := Printed();
      var width := ActualWidth(v, base, numDigits);
      var field := fieldWidth;
      if !flags.leftJustify && field != 0 {
        var c := if flags.padZero && numDigits == 0 then '0' else ' ';
        field := Pad(c, field, width);
      } else {
        assert was + "" == was;
      }
      ghost var before := Printed();
      var value := HighestWeight(v, base, numDigits);
      WideEnough(v, base, numDigits);
      OutputDigits(v, value, base, width);
      ghost var body := Body(v, base, numDigits);
      assert Printed() == before + body;
      if flags.leftJustify && field != 0 {
        field := Pad(' ', field, width);
      }
      UnsignedPieces(was, v, base, numDigits, fieldWidth, flags);
    }

    /** The do-while loop that prints the digits. */
    method OutputDigits(v: nat, weight: nat, base: nat, ghost n: nat)
      requires Valid() && 2 <= base <= 16 && n >= 1 && weight == Pow(base, n - 1) && v < Pow(base, n)
      modifies this, ioBuffer
      ensures Valid() && Printed() == old(Printed()) + Digits(v, base, n)
    {
      hide Digits, Pow, Digit;
      var value: nat, rest: nat := weight, v;
      ghost var k, done, was := n, "", Printed();
      assert was + done == was;
      while true
        invariant Valid() && 1 <= k <= n && value == Pow(base, k - 1) && rest < Pow(base, k)
        invariant done + Digits(rest, base, k) == Digits(v, base, n) && Printed() == was + done
        decreases k
      {
        ghost var d, r, p := SplitOff(rest, base, k);
        var div := rest / value;
        NextDigit(was, done, Digit(d), Digits(r, base, k - 1));
        rest := rest - div * value;
        Add(Digit(div));
        done := done + [Digit(div)];
        WeightDown(base, k - 1);
        k := k - 1;
        value := value / base;
        if value == 0 {
          NoDigits(done, rest, base);
          return;
        }
      }
    }

    /** int_print, for every int but the most negative, whose negation overflows. */
    method IntPrint(v: int, base: nat, numDigits: nat, fieldWidth: nat, flags: Flags)
      requires Valid() && -0x8000_0000 < v < 0x8000_0000 && 2 <= base <= 16
      requires numDigits > 1 ==> Pow(base, numDigits - 1) < UINT_WRAP
      modifies this, ioBuffer
      ensures Valid() && Printed() == old(Printed()) + IntText(v, base, numDigits, fieldWidth, flags)
    {
      hide Digits, Pow, Body;
      ghost var was := Printed();
      var width := ActualWidth(if v < 0 then -v else v, base, numDigits);
      var field := fieldWidth;
      if field > 0 && (v < 0 || flags.printSign) {
        field := field - 1;
      }
      ghost var inner := field;
      if (!flags.padZero || numDigits != 0) && !flags.leftJustify && field != 0 {
        field := Pad(' ', field, width);
      } else {
        assert was + "" == was;
      }
      ghost var first := Printed();
      if v < 0 {
        Add('-');
      } else if flags.printSign {
        Add('+');
      } else {
        assert first + "" == first;
      }
      ghost var second := Printed();
      if flags.padZero && !flags.leftJustify && numDigits == 0 && field != 0 {
        field := Pad('0', field, width);
      } else {
        assert second + "" == second;
      }
      ghost var third := Printed();
      UnsignedPrint(if v < 0 then -v else v, base, numDigits, field, flags);
      IntPieces(was, first, second, third, inner, field, v, base, numDigits, fieldWidth, flags);
    }

    /** string_print. */
    method StringPrint(s: string, fieldWidth: nat, flags: Flags)
      requires Valid()
      modifies this, ioBuffer
      ensures Valid() && Printed() == old(Printed()) +
        (if flags.leftJustify then ExpandedAll(s) + Fill(' ', fieldWidth - |s|)
         else Fill(' ', fieldWidth - |s|) + ExpandedAll(s))
    {
      ghost var was := Printed();
      if flags.leftJustify {
        PutString(s);
        var _ := Pad(' ', fieldWidth, |s|);
        assert was + ExpandedAll(s) + Fill(' ', fieldWidth - |s|) == was + (ExpandedAll(s) + Fill(' ', fieldWidth - |s|));
      } else {
        var _ := Pad(' ', fieldWidth, |s|);
        PutString(s);
        assert was + Fill(' ', fieldWidth - |s|) + ExpandedAll(s) == was + (Fill(' ', fieldWidth - |s|) + ExpandedAll(s));
      }
    }

    function ExpandedAll(s: string): string {
      if s == "" then "" else ExpandedAll(s[..|s| - 1]) + Expanded(s[|s| - 1])
    }

    method PutString(s: string)
      requires Valid()
      modifies this, ioBuffer
      ensures Valid() && Printed() == old(Printed()) + ExpandedAll(s)
    {
      ghost var was := Printed();
      var i := 0;
      assert was + ExpandedAll(s[..0]) == was;
      while i < |s|
        invariant i <= |s| && Valid() && Printed() == was + ExpandedAll(s[..i])
      {
        assert s[..i + 1][..i] == s[..i];
        assert was + ExpandedAll(s[..i]) + Expanded(s[i]) == was + ExpandedAll(s[..i + 1]);
        Add(s[i]);
        i := i + 1;
      }
      assert s[..i] == s;
    }
  }

  /** The loop has gone far enough exactly when the weight is that of the highest digit. */
  lemma WeightFound(v: nat, base: nat, k: nat)
    requires base >= 2 && k < Max(Count(v, base), k + 1)
    ensures v / Pow(base, k) < base <==> Count(v, base) <= k + 1
    ensures v / Pow(base, k) >= base ==> base * Pow(base, k) <= v
  {
    hide Count;
    CountIsLeast(v, base);
    PowUp(base, k);
    Quotient(v, Pow(base, k), base);
    hide Pow;
    if Count(v, base) <= k + 1 {
      PowGrows(base, Count(v, base), k + 1);
    } else {
      PowGrows(base, k + 1, Count(v, base) - 1);
    }
  }

  lemma NextDigit(was: string, done: string, c: char, tail: string)
    ensures done + ([c] + tail) == (done + [c]) + tail
    ensures was + done + [c] == was + (done + [c])
  {}

  lemma NoDigits(done: string, rest: nat, base: nat)
    requires base >= 1
    ensures done + Digits(rest, base, 0) == done
  {}

  /** Dividing the weight by the base gives the next one, and nought after the last. */
  lemma WeightDown(base: nat, k: nat)
    requires base >= 2
    ensures Pow(base, k) / base == (if k == 0 then 0 else Pow(base, k - 1))
  {
    if k > 0 { DivUnique(Pow(base, k), base, Pow(base, k - 1), 0); } else { DivUnique(1, base, 0, 1); }
  }

  lemma UnsignedPieces(was: string, v: nat, base: nat, numDigits: nat, fieldWidth: nat, flags: Flags)
    requires 2 <= base <= 16
    ensures var body := Body(v, base, numDigits);
      var gap := fieldWidth - |body|;
      var c := if flags.padZero && numDigits == 0 then '0' else ' ';
      && was + UnsignedText(v, base, numDigits, fieldWidth, flags)
         == (if flags.leftJustify then was + body + Fill(' ', gap) else was + Fill(c, gap) + body)
      && (fieldWidth == 0 ==> was + body + "" == was + body && Fill(' ', gap) == "" && Fill(c, gap) == "")
  {
    hide Body;
    var body := Body(v, base, numDigits);
    var gap := fieldWidth - |body|;
    assert was + body + Fill(' ', gap) == was + (body + Fill(' ', gap));
    var c := if flags.padZero && numDigits == 0 then '0' else ' ';
    assert was + Fill(c, gap) + body == was + (Fill(c, gap) + body);
  }

  lemma IntPieces(was: string, first: string, second: string, third: string, inner: nat, field: nat,
                  v: int, base: nat, numDigits: nat, fieldWidth: nat, flags: Flags)
    requires 2 <= base <= 16
    requires inner == if fieldWidth > 0 && Sign(v, flags) != "" then fieldWidth - 1 else fieldWidth
    requires var width := DigitWidth(Abs(v), base, numDigits);
      var spaces := (!flags.padZero || numDigits != 0) && !flags.leftJustify;
      var zeros := flags.padZero && !flags.leftJustify && numDigits == 0;
      && first == was + (if spaces then Fill(' ', inner - width) else "")
      && second == first + Sign(v, flags)
      && third == second + (if zeros then Fill('0', inner - width) else "")
      && field == if (spaces || zeros) && width < inner then width else inner
    ensures third + UnsignedText(Abs(v), base, numDigits, field, flags)
         == was + IntText(v, base, numDigits, fieldWidth, flags)
  {
    hide Body, Fill, Sign;
    var body, sign := Body(Abs(v), base, numDigits), Sign(v, flags);
    var gap := inner - |body|;
    if flags.leftJustify {
      Joined(was, "", sign, "", body + Fill(' ', gap));
      assert sign + (body + Fill(' ', gap)) == sign + body + Fill(' ', gap);
    } else {
      assert Fill(' ', field - |body|) == "" && Fill('0', field - |body|) == "";
      assert "" + body == body;
      if flags.padZero && numDigits == 0 {
        Joined(was, "", sign, Fill('0', gap), body);
      } else {
        Joined(was, Fill(' ', gap), sign, "", body);
      }
    }
  }

  lemma Joined(was: string, spaces: string, sign: string, zeros: string, rest: string)
    ensures was + spaces + sign + zeros + rest == was + (spaces + sign + zeros + rest)
    ensures spaces == "" ==> spaces + sign + zeros + rest == sign + zeros + rest
    ensures zeros == "" ==> spaces + sign + zeros + rest == spaces + sign + rest
    ensures spaces == "" && zeros == "" ==> spaces + sign + zeros + rest == sign + rest
  {
    assert "" + sign == sign;
    assert spaces + sign + "" == spaces + sign;
  }
}
