/** What is printed, piece by piece and digit by digit. */
module FprintfLaws {
  import opened Division
  import opened Fprintf

  /** The number a list of digits stands for. */
  function Value(ds: seq<nat>, base: nat): nat {
    if ds == [] then 0 else Value(ds[..|ds| - 1], base) * base + ds[|ds| - 1]
  }

  /** The characters of a list of digits. */
  predicate Spelled(text: string, ds: seq<nat>, base: nat) {
    && |text| == |ds| && base <= 16
    && forall i :: 0 <= i < |ds| ==> ds[i] < base && text[i] == "0123456789ABCDEF"[ds[i]]
  }

  predicate AllAre(s: string, c: char) {
    forall i :: 0 <= i < |s| ==> s[i] == c
  }

  lemma DigitIs(d: nat)
    requires d < 16
    ensures Digit(d) == "0123456789ABCDEF"[d]
  {
    if d < 4 {} else if d < 8 {} else if d < 12 {} else {}
  }

  lemma FillIs(c: char, n: int)
    ensures AllAre(Fill(c, n), c)
  {}

  lemma {:induction false} ValueFront(d: nat, ds: seq<nat>, base: nat)
    requires base >= 1
    ensures Value([d] + ds, base) == d * Pow(base, |ds|) + Value(ds, base)
  {
    var all := [d] + ds;
    if ds == [] {
      assert all[..0] == [] && Pow(base, 0) == 1;
    } else {
      var k := |ds| - 1;
      assert all[..|all| - 1] == [d] + ds[..k];
      ValueFront(d, ds[..k], base);
      PowUp(base, k);
      Spread(d, Pow(base, k), Value(ds[..k], base), base);
    }
  }

  lemma Spread(d: int, p: int, v: int, base: int)
    ensures (d * p + v) * base == d * (p * base) + v * base
  {}

  /** The digits of the text, all of them below the base, stand for the value. */
  lemma {:induction false} DigitsAre(v: nat, base: nat, n: nat) returns (ds: seq<nat>)
    requires 2 <= base <= 16 && v < Pow(base, n)
    ensures Spelled(Digits(v, base, n), ds, base) && |ds| == n && Value(ds, base) == v
    ensures n >= 1 ==> (ds[0] == 0 <==> v < Pow(base, n - 1))
  {
    if n == 0 {
      ds := [];
      assert Pow(base, 0) == 1;
    } else {
      hide Digits, Digit, Pow, Value, Spelled;
      var d, r, p := SplitOff(v, base, n);
      var more := DigitsAre(r, base, n - 1);
      ds := [d] + more;
      SpelledFront(d, Digits(r, base, n - 1), more, base);
      SpelledLength(Digits(r, base, n - 1), more, base);
      ValueFront(d, more, base);
      LeadingZero(d, p, r);
    }
  }

  lemma SpelledFront(d: nat, text: string, ds: seq<nat>, base: nat)
    requires Spelled(text, ds, base) && d < base
    ensures Spelled([Digit(d)] + text, [d] + ds, base)
  {
    DigitIs(d);
  }

  lemma LeadingZero(d: nat, p: nat, r: nat)
    requires r < p
    ensures d == 0 <==> d * p + r < p
  {
    if d >= 1 { MulMono(1, d, p); }
  }

  /** The digits printed: at least as many as the precision asks for, more only for a number that needs
      them, which then has no leading zero. */
  lemma BodyIs(v: nat, base: nat, numDigits: nat) returns (ds: seq<nat>)
    requires 2 <= base <= 16
    ensures Spelled(Body(v, base, numDigits), ds, base) && Value(ds, base) == v
    ensures |ds| >= 1 && |ds| >= numDigits && (|ds| > 1 && |ds| > numDigits ==> ds[0] != 0)
  {
    hide Digits, Pow, Count;
    WideEnough(v, base, numDigits);
    ds := DigitsAre(v, base, DigitWidth(v, base, numDigits));
    CountIsLeast(v, base);
  }

  /** An int: spaces, the sign, zeros, the digits, spaces; and no more of them than the field asks for.
      Left-justified text is filled behind with spaces. Zeros fill between sign and digits if asked for
      and no precision is given. Otherwise spaces fill in front. */
  lemma IntLayout(v: int, base: nat, numDigits: nat, fieldWidth: nat, flags: Flags)
    returns (before: string, sign: string, zeros: string, digits: string, after: string, ds: seq<nat>)
    requires 2 <= base <= 16
    ensures IntText(v, base, numDigits, fieldWidth, flags) == before + sign + zeros + digits + after
    ensures AllAre(before, ' ') && AllAre(zeros, '0') && AllAre(after, ' ')
    ensures sign == if v < 0 then "-" else if flags.printSign then "+" else ""
    ensures Spelled(digits, ds, base) && Value(ds, base) == (if v < 0 then -v else v)
    ensures |ds| >= 1 && |ds| >= numDigits && (|ds| > 1 && |ds| > numDigits ==> ds[0] != 0)
    ensures var gap := if |sign| + |ds| < fieldWidth then fieldWidth - |sign| - |ds| else 0;
      if flags.leftJustify then |after| == gap && before == zeros == ""
      else if flags.padZero && numDigits == 0 then |zeros| == gap && before == after == ""
      else |before| == gap && zeros == after == ""
  {
    hide Body, Fill, Value, Spelled, AllAre;
    ds := BodyIs(Abs(v), base, numDigits);
    sign, digits := Sign(v, flags), Body(Abs(v), base, numDigits);
    SpelledLength(digits, ds, base);
    var gap := fieldWidth - |sign| - |digits|;
    FillIs(' ', gap);
    FillIs('0', gap);
    FillIs(' ', 0);
    FillIs('0', 0);
    before, zeros, after := "", "", "";
    EmptyAre();
    if flags.leftJustify {
      after := Fill(' ', gap);
      assert "" + sign + "" + digits + after == sign + digits + after;
    } else if flags.padZero && numDigits == 0 {
      zeros := Fill('0', gap);
      assert "" + sign + zeros + digits + "" == sign + zeros + digits;
    } else {
      before := Fill(' ', gap);
      assert before + sign + "" + digits + "" == before + sign + digits;
    }
  }

  lemma SpelledLength(text: string, ds: seq<nat>, base: nat)
    requires Spelled(text, ds, base)
    ensures |text| == |ds|
  {}

  lemma EmptyAre()
    ensures AllAre("", ' ') && AllAre("", '0')
  {}

  /** An unsigned number: the same without a sign. */
  lemma UnsignedLayout(v: nat, base: nat, numDigits: nat, fieldWidth: nat, flags: Flags)
    returns (before: string, digits: string, after: string, ds: seq<nat>)
    requires 2 <= base <= 16
    ensures UnsignedText(v, base, numDigits, fieldWidth, flags) == before + digits + after
    ensures AllAre(before, if flags.padZero && numDigits == 0 then '0' else ' ') && AllAre(after, ' ')
    ensures Spelled(digits, ds, base) && Value(ds, base) == v
    ensures |ds| >= 1 && |ds| >= numDigits && (|ds| > 1 && |ds| > numDigits ==> ds[0] != 0)
    ensures var gap := if |ds| < fieldWidth then fieldWidth - |ds| else 0;
      if flags.leftJustify then |after| == gap && before == "" else |before| == gap && after == ""
  {
    hide Body, Fill, Value, Spelled, AllAre;
    ds := BodyIs(v, base, numDigits);
    digits := Body(v, base, numDigits);
    SpelledLength(digits, ds, base);
    var gap, c := fieldWidth - |digits|, if flags.padZero && numDigits == 0 then '0' else ' ';
    FillIs(' ', gap);
    FillIs(c, gap);
    EmptyAre();
    if flags.leftJustify {
      before, after := "", Fill(' ', gap);
      assert "" + digits + after == digits + after;
    } else {
      before, after := Fill(c, gap), "";
      assert before + digits + "" == before + digits;
    }
  }

  /** Line feeds get their carriage return in front when asked for; all else is printed as it is. */
  lemma ExpandedIs(context: Context, s: string, c: char)
    ensures context.ExpandedAll(s + [c])
      == context.ExpandedAll(s) + (if context.crOnLf && c as int == 10 then ['\U{000D}', '\U{000A}'] else [c])
    ensures context.ExpandedAll("") == ""
  {
    assert (s + [c])[..|s|] == s;
  }
}
