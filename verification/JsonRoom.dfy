/** The block parse_string allocates. A first loop counts the characters up to the closing quote, an
    escape as one; a second loop writes the text. They follow escapes differently: after `\u` the
    first one skips one character and the second one takes four. */
module JsonRoom {
  import opened JsonSpec

  /** What the first loop counts in a string body. The block is one byte larger, for the NUL. */
  function Room(s: string): (len: nat)
    decreases |s|
  {
    if s == "" || s[0] == '\"' then 0
    else if s[0] == '\\' then 1 + (if |s| == 1 then 0 else Room(s[2..]))
    else 1 + Room(s[1..])
  }

  /** The text behind the quote at which the first loop stops. */
  function AfterQuote(s: string): string
    decreases |s|
  {
    if s == "" then "" else if s[0] == '\"' then s[1..]
    else if s[0] == '\\' then (if |s| == 1 then "" else AfterQuote(s[2..]))
    else AfterQuote(s[1..])
  }

  predicate PlainChar(c: char) {
    c != '\"' && c != '\\'
  }

  /** Every escape is whole: four characters follow a `\u`, none of them a quote or a backslash. */
  predicate Sound(s: string)
    decreases |s|
  {
    if s == "" || s[0] == '\"' then true
    else if s[0] != '\\' then Sound(s[1..])
    else if |s| == 1 then false
    else if s[1] != 'u' then Sound(s[2..])
    else
      && |s| >= 6 && PlainChar(s[2]) && PlainChar(s[3]) && PlainChar(s[4]) && PlainChar(s[5])
      && Sound(s[6..])
  }

  lemma FourPlain(s: string)
    requires |s| >= 4 && PlainChar(s[0]) && PlainChar(s[1]) && PlainChar(s[2]) && PlainChar(s[3])
    ensures Room(s) == 4 + Room(s[4..]) && AfterQuote(s) == AfterQuote(s[4..])
  {
    OnePlain(s);
    OnePlain(s[1..]);
    assert s[1..][1..] == s[2..];
    OnePlain(s[2..]);
    assert s[2..][1..] == s[3..];
    OnePlain(s[3..]);
    assert s[3..][1..] == s[4..];
    hide Room, AfterQuote;
  }

  lemma OnePlain(s: string)
    requires s != "" && PlainChar(s[0])
    ensures Room(s) == 1 + Room(s[1..]) && AfterQuote(s) == AfterQuote(s[1..])
  {}

  lemma UnicodeRoom(s: string)
    requires |s| >= 6 && s[0] == '\\' && s[1] == 'u'
    requires PlainChar(s[2]) && PlainChar(s[3]) && PlainChar(s[4]) && PlainChar(s[5])
    ensures Room(s) == 5 + Room(s[6..]) && AfterQuote(s) == AfterQuote(s[6..])
  {
    FourPlain(s[2..]);
    assert s[2..][4..] == s[6..];
  }

  /** One character or escape: it is whole, it takes no more room than was counted for it, and what
      follows is whole again. */
  lemma CharFits(s: string)
    requires Sound(s) && s != "" && s[0] != '\"'
    ensures var g := ParseChar(s);
      g.Got? && Sound(g.rest) && |g.value| + Room(g.rest) <= Room(s) && AfterQuote(g.rest) == AfterQuote(s)
  {
    if s[0] == '\\' && s[1] == 'u' {
      UnicodeFits(s);
    }
  }

  lemma UnicodeFits(s: string)
    requires Sound(s) && |s| >= 2 && s[0] == '\\' && s[1] == 'u'
    ensures var g := Unicode(s);
      g.Got? && Sound(g.rest) && |g.value| + Room(g.rest) <= Room(s) && AfterQuote(g.rest) == AfterQuote(s)
  {
    UnicodeRoom(s);
    var r := s[6..];
    UnicodeCases(s);
    if |r| >= 2 && r[0] == '\\' && r[1] == 'u' {
      UnicodeRoom(r);
      assert r[6..] == s[12..] && Sound(s[12..]);
    }
    hide Unicode, Room, AfterQuote;
  }

  lemma UnicodeCases(s: string)
    requires |s| >= 6
    ensures var g := Unicode(s);
      && (!(|s| >= 8 && s[6] == '\\' && s[7] == 'u') || |s| >= 12 ==> g.Got?)
      && (g.Got? ==> (g.rest == s[6..] && |g.value| <= 4)
                     || (|s| >= 12 && s[6] == '\\' && s[7] == 'u' && g.rest == s[12..] && |g.value| <= 4))
  {
    hide Hex4, Utf8;
  }

  /** With whole escapes the second loop stops at the quote the first one found, and the text with its
      NUL fits the block. */
  lemma {:induction false} TextFits(s: string)
    requires Sound(s)
    ensures ParseChars(s).Got? && |ParseChars(s).value| <= Room(s) && ParseChars(s).rest == AfterQuote(s)
    decreases |s|
  {
    if s != "" && s[0] != '\"' {
      hide Sound, Room, AfterQuote, ParseChar;
      CharFits(s);
      TextFits(ParseChar(s).rest);
    }
  }

  /** A quote among the four characters: the second loop goes past it, and what it writes behind it was
      not counted. */
  lemma TextOverruns()
    ensures var s := "\\u\"abcdefgh";
      !Sound(s) && Room(s) == 1 && ParseChars(s) == Got("defgh", "")
  {
    var s := "\\u\"abcdefgh";
    assert s[2..] == "\"abcdefgh" && s[2..6] == "\"abc" && s[6..] == "defgh";
    assert Hex4("\"abc") == 0;
    assert Unicode(s) == Got("", "defgh");
    AllPlain("defgh");
    assert ParseChars(s).value == "" + "defgh" == "defgh";
  }

  lemma {:induction false} AllPlain(s: string)
    requires forall k :: 0 <= k < |s| ==> PlainChar(s[k])
    ensures ParseChars(s) == Got(s, "")
  {
    if s != "" {
      AllPlain(s[1..]);
      assert [s[0]] + s[1..] == s;
    }
  }

  // ---------------------------------------------------------------- exactly when the text fits

  ghost predicate Fits(s: string) {
    ParseChars(s).Got? && |ParseChars(s).value| <= Room(s)
  }

  /** A string body as the first loop sees it, up to its quote, with neither quote nor backslash among
      the characters of a `\u`, be they four or fewer. */
  predicate Body(b: string)
    decreases |b|
  {
    if b == "" then true
    else if b[0] == '\"' then false
    else if b[0] != '\\' then Body(b[1..])
    else if |b| == 1 then false
    else if b[1] != 'u' then Body(b[2..])
    else if |b| >= 6 then
      PlainChar(b[2]) && PlainChar(b[3]) && PlainChar(b[4]) && PlainChar(b[5]) && Body(b[6..])
    else forall k :: 2 <= k < |b| ==> PlainChar(b[k])
  }

  function Quoted(b: string, z: string): string {
    b + "\"" + z
  }

  lemma QuotedRest(b: string, z: string, k: nat)
    requires k <= |b|
    ensures Quoted(b, z)[k..] == Quoted(b[k..], z)
  {}

  lemma {:induction false} SoundExtends(b: string, z: string)
    requires Body(b) && Sound(b)
    ensures Sound(Quoted(b, z))
    decreases |b|
  {
    if b != "" {
      var k := if b[0] != '\\' then 1 else if b[1] != 'u' then 2 else 6;
      QuotedRest(b, z, k);
      SoundExtends(b[k..], z);
      assert forall j :: 0 <= j < |b| ==> Quoted(b, z)[j] == b[j];
    }
  }

  lemma {:induction false} BodyRoom(b: string, z: string)
    requires Body(b)
    ensures Room(Quoted(b, z)) <= |b|
    decreases |b|
  {
    var s := Quoted(b, z);
    assert forall j :: 0 <= j < |b| ==> s[j] == b[j];
    if b == "" {
    } else if b[0] == '\\' && b[1] == 'u' {
      if |b| >= 6 {
        UnicodeRoom(s);
        QuotedRest(b, z, 6);
        BodyRoom(b[6..], z);
      } else {
        QuotedRest(b, z, 2);
        PlainRoom(b[2..], z);
      }
    } else {
      var k := if b[0] == '\\' then 2 else 1;
      QuotedRest(b, z, k);
      BodyRoom(b[k..], z);
    }
  }

  lemma {:induction false} PlainRoom(b: string, z: string)
    requires forall k :: 0 <= k < |b| ==> PlainChar(b[k])
    ensures Room(Quoted(b, z)) == |b|
  {
    if b != "" {
      QuotedRest(b, z, 1);
      PlainRoom(b[1..], z);
    }
  }

  /** A `\u` that takes the quote: it stands for nothing, and the text goes on behind the quote. */
  lemma QuoteTaken(b: string, z: string)
    requires 2 <= |b| < 6 && b[0] == '\\' && b[1] == 'u' && |z| >= 4
    ensures Unicode(Quoted(b, z)) == Got("", z[5 - |b|..])
  {
    var s := Quoted(b, z);
    assert s[|b|] == '\"' && s[2..6][|b| - 2] == s[|b|];
    assert s[6..] == z[5 - |b|..];
  }

  /** A pair whose second `\u` takes the quote. */
  lemma QuoteTakenBySecond(b: string, z: string)
    requires 8 <= |b| < 12 && b[0] == '\\' && b[1] == 'u' && b[6] == '\\' && b[7] == 'u' && |z| >= 4
    ensures var g := Unicode(Quoted(b, z));
      g == Got("", z[11 - |b|..]) || (g.Got? && g.rest == Quoted(b[6..], z))
  {
    hide Utf8;
    var s := Quoted(b, z);
    QuotedRest(b, z, 6);
    assert s[|b|] == '\"' && s[8..12][|b| - 8] == s[|b|];
    assert s[12..] == z[11 - |b|..];
  }

  lemma ParseNext(s: string)
    requires s != "" && s[0] != '\"'
    ensures var g := ParseChar(s);
      g.Got? && ParseChars(g.rest).Got? ==>
        ParseChars(s).Got? && |ParseChars(s).value| >= |ParseChars(g.rest).value|
  {
    hide ParseChar;
  }

  lemma PlainTail(z: string, k: nat)
    requires k <= 3 && |z| >= 4 && forall j :: 0 <= j < |z| ==> PlainChar(z[j])
    ensures ParseChars(z[k..]).Got? && |ParseChars(z[k..]).value| >= |z| - 3
  {
    AllPlain(z[k..]);
  }

  /** After a `\u` that is not whole the second loop writes the tail behind the quote. */
  lemma {:induction false} BrokenRuns(b: string, z: string)
    requires Body(b) && !Sound(b) && |z| >= 4 && forall k :: 0 <= k < |z| ==> PlainChar(z[k])
    ensures ParseChars(Quoted(b, z)).Got? && |ParseChars(Quoted(b, z)).value| >= |z| - 3
    decreases |b|, 1
  {
    var s := Quoted(b, z);
    assert forall j :: 0 <= j < |b| ==> s[j] == b[j];
    ParseNext(s);
    if b[0] == '\\' && b[1] == 'u' {
      if |b| < 6 {
        QuoteTaken(b, z);
        PlainTail(z, 5 - |b|);
      } else {
        BrokenBehind(b, z);
      }
    } else {
      var k := if b[0] == '\\' then 2 else 1;
      QuotedRest(b, z, k);
      BrokenRuns(b[k..], z);
    }
  }

  lemma {:induction false} BrokenBehind(b: string, z: string)
    requires Body(b) && !Sound(b) && |z| >= 4 && forall k :: 0 <= k < |z| ==> PlainChar(z[k])
    requires |b| >= 6 && b[0] == '\\' && b[1] == 'u'
    ensures var g := Unicode(Quoted(b, z));
      g.Got? && ParseChars(g.rest).Got? && |ParseChars(g.rest).value| >= |z| - 3
    decreases |b|, 0
  {
    var s, r := Quoted(b, z), b[6..];
    assert forall j :: 0 <= j < |b| ==> s[j] == b[j];
    QuotedRest(b, z, 6);
    BrokenRuns(r, z);
    UnicodeCases(s);
    if |r| >= 2 && r[0] == '\\' && r[1] == 'u' {
      if |r| < 6 {
        QuoteTakenBySecond(b, z);
        PlainTail(z, if |b| < 12 then 11 - |b| else 0);
      } else {
        QuotedRest(b, z, 12);
        assert r[6..] == b[12..];
        BrokenRuns(b[12..], z);
      }
    } else {
      assert !(|s| >= 8 && s[6] == '\\' && s[7] == 'u');
    }
    hide Unicode, ParseChars;
  }

  /** Of such a body, the text fits its block whatever follows the quote, if and only if every `\u` has
      its four characters before the quote. */
  lemma FitsExactly(b: string)
    requires Body(b)
    ensures Sound(b) <==> forall z: string :: Fits(Quoted(b, z))
  {
    if Sound(b) {
      forall z: string ensures Fits(Quoted(b, z)) {
        SoundExtends(b, z);
        TextFits(Quoted(b, z));
      }
    } else {
      var z := seq(|b| + 4, _ => 'a');
      BrokenRuns(b, z);
      BodyRoom(b, z);
      assert !Fits(Quoted(b, z));
    }
  }

  /** Printed strings are whole, so what was printed always fits when it is parsed. */
  lemma {:induction false} PrintedSound(s: string, z: string)
    requires '\0' !in s
    ensures Sound(EscapeAll(s) + "\"" + z) && |s| <= Room(EscapeAll(s) + "\"" + z)
  {
    if s == "" {
      assert EscapeAll(s) + "\"" + z == "\"" + z;
    } else {
      hide Sound, Room, Escape;
      PrintedSound(s[1..], z);
      EscapeSound(s[0], EscapeAll(s[1..]) + "\"" + z);
      assert EscapeAll(s) + "\"" + z == Escape(s[0]) + (EscapeAll(s[1..]) + "\"" + z);
    }
  }

  lemma EscapeSound(c: char, z: string)
    requires Sound(z)
    ensures Sound(Escape(c) + z) && Room(Escape(c) + z) >= 1 + Room(z)
  {
    var e := Escape(c);
    var s := e + z;
    if |e| == 6 {
      assert s[6..] == z;
      UnicodeRoom(s);
    } else if |e| == 2 {
      assert s[2..] == z;
    } else {
      assert s[1..] == z;
    }
  }

  /** The first loop of parse_string, from behind the opening quote. */
  method CountRoom(text: string, start: nat) returns (len: nat)
    requires start <= |text|
    ensures len == Room(text[start..])
  {
    var pos := start;
    len := 0;
    while pos < |text| && text[pos] != '\"'
      invariant start <= pos <= |text| && len + Room(text[pos..]) == Room(text[start..])
    {
      len := len + 1;
      if text[pos] == '\\' {
        if pos + 1 == |text| {
          return;
        }
        assert text[pos..][2..] == text[pos + 2..];
        pos := pos + 2;
      } else {
        assert text[pos..][1..] == text[pos + 1..];
        pos := pos + 1;
      }
    }
  }
}
