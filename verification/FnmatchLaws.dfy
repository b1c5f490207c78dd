/** What each element of a pattern takes, on the characters of the pattern themselves. */
module FnmatchLaws {
  import opened Fnmatch

  // ---------------------------------------------------------------- single characters

  /** A character without a special meaning. */
  predicate Plain(c: char, noescape: bool) {
    c != '*' && c != '?' && c != '[' && (c != '\\' || noescape)
  }

  lemma EmptyPattern(s: string, f: Flags)
    ensures Matches("", s, f) <==> s == ""
  {}

  lemma PlainTakes(c: char, q: string, s: string, f: Flags)
    requires Plain(c, f.noescape)
    ensures Matches([c] + q, s, f) <==> s != "" && s[0] == c && Matches(q, s[1..], f)
  {
    NextMatches([c] + q, s, f);
    assert ([c] + q)[1..] == q;
    hide Matches;
  }

  lemma QuestionTakes(q: string, s: string, f: Flags)
    ensures Matches("?" + q, s, f) <==> s != "" && !(f.pathname && s[0] == '/') && Matches(q, s[1..], f)
  {
    NextMatches("?" + q, s, f);
    assert ("?" + q)[1..] == q;
    hide Matches;
  }

  lemma EscapeTakes(c: char, q: string, s: string, f: Flags)
    requires !f.noescape
    ensures Matches(['\\', c] + q, s, f) <==> s != "" && s[0] == c && Matches(q, s[1..], f)
  {
    NextMatches(['\\', c] + q, s, f);
    assert (['\\', c] + q)[2..] == q;
    hide Matches;
  }

  /** A star takes any run of characters, slashes only without FNM_PATHNAME. */
  lemma StarTakesRun(q: string, a: string, b: string, f: Flags)
    requires Matches(q, b, f) && (f.pathname ==> '/' !in a)
    ensures Matches("*" + q, a + b, f)
  {
    StarMatches("*" + q, a + b, f);
    hide Matches;
    assert ("*" + q)[1..] == q && (a + b)[|a|..] == b && (a + b)[..|a|] == a;
    assert Spans(a + b, |a|, f.pathname);
  }

  lemma StarTook(q: string, s: string, f: Flags) returns (a: string, b: string)
    requires Matches("*" + q, s, f)
    ensures s == a + b && Matches(q, b, f) && (f.pathname ==> '/' !in a)
  {
    StarMatches("*" + q, s, f);
    hide Matches;
    assert ("*" + q)[1..] == q;
    var k :| 0 <= k <= |s| && Spans(s, k, f.pathname) && Matches(q, s[k..], f);
    a, b := s[..k], s[k..];
  }

  /** A pattern without special characters matches itself and nothing else. */
  lemma {:induction false} PlainMatchesItself(p: string, s: string, f: Flags)
    requires forall k :: 0 <= k < |p| ==> Plain(p[k], f.noescape)
    ensures Matches(p, s, f) <==> s == p
  {
    if p == "" {
      EmptyPattern(s, f);
    } else {
      hide Matches;
      assert p == [p[0]] + p[1..];
      PlainTakes(p[0], p[1..], s, f);
      if s != "" {
        PlainMatchesItself(p[1..], s[1..], f);
        assert s == [s[0]] + s[1..];
      }
    }
  }

  function EscapeAll(t: string): string {
    if t == "" then "" else ['\\', t[0]] + EscapeAll(t[1..])
  }

  /** With every character escaped any text is a pattern for itself. */
  lemma {:induction false} EscapedMatchesItself(t: string, s: string, f: Flags)
    requires !f.noescape
    ensures Matches(EscapeAll(t), s, f) <==> s == t
  {
    if t == "" {
      EmptyPattern(s, f);
    } else {
      hide Matches;
      EscapeTakes(t[0], EscapeAll(t[1..]), s, f);
      if s != "" {
        EscapedMatchesItself(t[1..], s[1..], f);
        assert s == [s[0]] + s[1..] && t == [t[0]] + t[1..];
      }
    }
  }

  // ---------------------------------------------------------------- brackets

  /** A character in a bracket, with or without a backslash before it. */
  datatype Spelling = Spelling(c: char, escaped: bool)

  /** A single character, or a range of them. */
  datatype Part = One(one: Spelling) | Span(lo: Spelling, hi: Spelling)

  function Text(s: Spelling): (r: string)
    ensures r != ""
  {
    if s.escaped then ['\\', s.c] else [s.c]
  }

  function PartText(p: Part): (r: string)
    ensures r != ""
  {
    if p.One? then Text(p.one) else Text(p.lo) + ("-" + Text(p.hi))
  }

  function PartsText(ps: seq<Part>): string {
    if ps == [] then "" else PartText(ps[0]) + PartsText(ps[1..])
  }

  /** How a part may start: the first one with a closing bracket, none with a bare slash. */
  predicate Starts(s: Spelling, first: bool, noescape: bool) {
    if s.escaped then !noescape else s.c != '/' && (s.c != ']' || first) && (s.c != '\\' || noescape)
  }

  predicate Ends(s: Spelling, noescape: bool) {
    if s.escaped then !noescape else s.c != ']' && (s.c != '\\' || noescape)
  }

  /** No dash follows that would make a range of it. */
  predicate NoDash(z: string) {
    |z| < 2 || z[0] != '-' || z[1] == ']'
  }

  predicate PartGood(p: Part, first: bool, z: string, noescape: bool) {
    if p.One? then Starts(p.one, first, noescape) && NoDash(z) else Starts(p.lo, first, noescape) && Ends(p.hi, noescape)
  }

  /** The parts of a bracket before what follows it. */
  predicate PartsGood(ps: seq<Part>, first: bool, z: string, noescape: bool)
    decreases |ps|
  {
    ps == [] || (PartGood(ps[0], first, PartsText(ps[1..]) + z, noescape) && PartsGood(ps[1..], false, z, noescape))
  }

  predicate Holds(p: Part, c: char) {
    if p.One? then c == p.one.c else p.lo.c <= c <= p.hi.c
  }

  lemma FromText(s: Spelling, first: bool, z: string, noescape: bool)
    requires Starts(s, first, noescape)
    ensures Ranges(Text(s) + z, first, noescape) == RangeFrom(s.c, z, noescape)
  {
    var p := Text(s) + z;
    RangesCases(p, first, noescape);
    hide Ranges, RangeFrom;
    if s.escaped { assert p[2..] == z; } else { assert p[1..] == z; }
  }

  lemma OneRead(c: char, z: string, noescape: bool)
    requires NoDash(z)
    ensures RangeFrom(c, z, noescape) == WithRange(c, c, Ranges(z, false, noescape))
  {
    FromCases(c, z, noescape);
    hide RangeFrom, Ranges, WithRange;
  }

  lemma SpanRead(c: char, hi: Spelling, z: string, noescape: bool)
    requires Ends(hi, noescape)
    ensures RangeFrom(c, "-" + (Text(hi) + z), noescape) == WithRange(c, hi.c, Ranges(z, false, noescape))
  {
    var q := "-" + (Text(hi) + z);
    FromCases(c, q, noescape);
    hide RangeFrom, Ranges, WithRange;
    if hi.escaped { assert q[3..] == z; } else { assert q[2..] == z; }
  }

  function Range(p: Part): (char, char) {
    if p.One? then (p.one.c, p.one.c) else (p.lo.c, p.hi.c)
  }

  function RangesOf(ps: seq<Part>): seq<(char, char)> {
    if ps == [] then [] else [Range(ps[0])] + RangesOf(ps[1..])
  }

  lemma PartRead(p: Part, first: bool, z: string, noescape: bool)
    requires PartGood(p, first, z, noescape)
    ensures Ranges(PartText(p) + z, first, noescape) == WithRange(Range(p).0, Range(p).1, Ranges(z, false, noescape))
  {
    hide Ranges, RangeFrom, WithRange, Starts, Ends, NoDash;
    if p.One? {
      FromText(p.one, first, z, noescape);
      OneRead(p.one.c, z, noescape);
    } else {
      var more := "-" + (Text(p.hi) + z);
      assert PartText(p) + z == Text(p.lo) + more;
      FromText(p.lo, first, more, noescape);
      SpanRead(p.lo.c, p.hi, z, noescape);
    }
  }

  lemma BracketCloses(q: string, noescape: bool)
    ensures Ranges("]" + q, false, noescape) == Closed([], q)
  {
    RangesCases("]" + q, false, noescape);
    hide Ranges;
    assert ("]" + q)[1..] == q;
  }

  /** The ranges of a bracket are those of its parts. */
  lemma {:induction false} PartsRead(ps: seq<Part>, first: bool, q: string, noescape: bool)
    requires PartsGood(ps, first, "]" + q, noescape) && (first ==> ps != [])
    ensures Ranges(PartsText(ps) + ("]" + q), first, noescape) == Closed(RangesOf(ps), q)
    decreases |ps|
  {
    hide Ranges, PartGood, PartText, Range;
    if ps == [] {
      BracketCloses(q, noescape);
      assert "" + ("]" + q) == "]" + q;
    } else {
      var z := PartsText(ps[1..]) + ("]" + q);
      PartsRead(ps[1..], false, q, noescape);
      PartRead(ps[0], first, z, noescape);
      assert PartsText(ps) + ("]" + q) == PartText(ps[0]) + z;
    }
  }

  lemma {:induction false} InRangesOf(ps: seq<Part>, c: char)
    ensures InRanges(RangesOf(ps), c) <==> exists k :: 0 <= k < |ps| && Holds(ps[k], c)
  {
    if ps != [] {
      hide InRanges;
      RangesAre(Range(ps[0]).0, Range(ps[0]).1, RangesOf(ps[1..]), c);
      InRangesOf(ps[1..], c);
      if Holds(ps[0], c) { assert Holds(ps[0], c); }
      if k :| 0 <= k < |ps[1..]| && Holds(ps[1..][k], c) { assert Holds(ps[k + 1], c); }
      if k :| 0 <= k < |ps| && Holds(ps[k], c) { if k > 0 { assert Holds(ps[1..][k - 1], c); } }
    }
  }

  /** The bracket with its negation, and the pattern behind it. */
  function ClassText(negation: string, ps: seq<Part>, q: string): string {
    negation + (PartsText(ps) + ("]" + q))
  }

  lemma ClassRead(negation: string, ps: seq<Part>, q: string, noescape: bool)
    requires negation == "" || negation == "!" || negation == "^"
    requires ps != [] && PartsGood(ps, true, "]" + q, noescape)
    requires negation == "" ==> PartsText(ps) != "" && PartsText(ps)[0] != '!' && PartsText(ps)[0] != '^'
    ensures BracketAt(ClassText(negation, ps, q), noescape) == Closed(RangesOf(ps), q)
    ensures Negated(ClassText(negation, ps, q)) <==> negation != ""
  {
    hide Ranges, PartsText, PartsGood, RangesOf;
    PartsRead(ps, true, q, noescape);
    var body := PartsText(ps) + ("]" + q);
    var p := ClassText(negation, ps, q);
    BracketStart(p, noescape);
    if negation != "" { assert p[1..] == body; } else { assert p == body; }
  }

  /** A bracket takes one character that one of its parts holds, or none of them after an exclamation
      mark or a circumflex; with FNM_PATHNAME never a slash. */
  lemma ClassTakes(negation: string, ps: seq<Part>, q: string, s: string, f: Flags)
    requires negation == "" || negation == "!" || negation == "^"
    requires ps != [] && PartsGood(ps, true, "]" + q, f.noescape)
    requires negation == "" ==> PartsText(ps) != "" && PartsText(ps)[0] != '!' && PartsText(ps)[0] != '^'
    ensures Matches("[" + (negation + (PartsText(ps) + ("]" + q))), s, f) <==>
      && s != "" && !(f.pathname && s[0] == '/')
      && ((exists k :: 0 <= k < |ps| && Holds(ps[k], s[0])) <==> negation == "")
      && Matches(q, s[1..], f)
  {
    hide Matches, PartsText, PartsGood, RangesOf, InRanges, BracketAt, Holds, Next, Negated, ClassText;
    var p := "[" + ClassText(negation, ps, q);
    ClassIs(negation, ps, q);
    ClassRead(negation, ps, q, f.noescape);
    assert p[1..] == ClassText(negation, ps, q);
    BracketNext(p, f.noescape);
    NextMatches(p, s, f);
    if s != "" { InRangesOf(ps, s[0]); }
  }

  lemma ClassIs(negation: string, ps: seq<Part>, q: string)
    ensures ClassText(negation, ps, q) == negation + (PartsText(ps) + ("]" + q))
  {}

  /** A bracket that is never closed matches nothing. */
  lemma OpenBracketFails(b: string, s: string, f: Flags)
    requires ']' !in b && '/' !in b
    ensures !Matches("[" + b, s, f)
  {
    var p := "[" + b;
    assert p[1..] == b;
    if Negated(b) { RangesOpen(b[1..], true, f.noescape); } else { RangesOpen(b, true, f.noescape); }
    BracketStart(b, f.noescape);
    BracketNext(p, f.noescape);
    NextMatches(p, s, f);
    hide Matches, Ranges, BracketAt, Next;
  }

  lemma {:induction false} RangesOpen(p: string, need: bool, noescape: bool)
    requires ']' !in p && '/' !in p
    ensures Ranges(p, need, noescape).Open?
    decreases |p|, 0
  {
    RangesCases(p, need, noescape);
    hide Ranges, RangeFrom;
    if p != "" {
      if p[0] == '\\' && !noescape {
        if |p| >= 2 { FromOpen(p[1], p[2..], noescape); }
      } else {
        FromOpen(p[0], p[1..], noescape);
      }
    }
  }

  lemma {:induction false} FromOpen(c: char, q: string, noescape: bool)
    requires ']' !in q && '/' !in q
    ensures RangeFrom(c, q, noescape).Open?
    decreases |q|, 1
  {
    FromCases(c, q, noescape);
    hide Ranges, RangeFrom;
    if |q| >= 2 && q[0] == '-' {
      if q[1] == '\\' && !noescape {
        if |q| >= 3 { RangesOpen(q[3..], false, noescape); }
      } else {
        RangesOpen(q[2..], false, noescape);
      }
    } else {
      RangesOpen(q, false, noescape);
    }
  }

  /** A bracket cut short by a slash is a character like others. */
  lemma SlashedBracketTakes(b: string, q: string, s: string, f: Flags)
    requires forall k :: 0 <= k < |b| ==> b[k] != ']' && b[k] != '/' && b[k] != '-' && b[k] != '\\'
    ensures Matches("[" + (b + ("/" + q)), s, f) <==> s != "" && s[0] == '[' && Matches(b + ("/" + q), s[1..], f)
  {
    var more := b + ("/" + q);
    var p := "[" + more;
    assert p[1..] == more;
    if Negated(more) {
      assert more[1..] == b[1..] + ("/" + q);
      RangesSlashed(b[1..], q, true, f.noescape);
    } else {
      RangesSlashed(b, q, true, f.noescape);
    }
    BracketStart(more, f.noescape);
    BracketNext(p, f.noescape);
    NextMatches(p, s, f);
    hide Matches, Ranges, BracketAt, Next;
  }

  lemma {:induction false} RangesSlashed(b: string, q: string, need: bool, noescape: bool)
    requires forall k :: 0 <= k < |b| ==> b[k] != ']' && b[k] != '/' && b[k] != '-' && b[k] != '\\'
    ensures Ranges(b + ("/" + q), need, noescape).Slash?
    decreases |b|
  {
    var p := b + ("/" + q);
    RangesCases(p, need, noescape);
    if b != "" {
      FromCases(p[0], p[1..], noescape);
      assert p[1..] == b[1..] + ("/" + q);
      RangesSlashed(b[1..], q, false, noescape);
      hide Ranges, RangeFrom;
    }
  }

  // ---------------------------------------------------------------- what the matcher asks of a pattern

  lemma NextTail(p: string, noescape: bool)
    requires p != ""
    ensures var r := Next(p, noescape).1; |r| < |p| && r == p[|p| - |r|..]
  {
    if p[0] == '[' {
      BracketNext(p, noescape);
      if BracketAt(p[1..], noescape).Closed? { BracketTail(p[1..], noescape); }
      hide BracketAt;
    }
  }

  /** A pattern leads past its end only if it ends with a backslash that escapes. */
  lemma {:induction false} ProperUnlessBackslash(p: string, noescape: bool)
    requires noescape || p == "" || p[|p| - 1] != '\\'
    ensures Proper(p, noescape)
    decreases |p|
  {
    if p != "" {
      NextTail(p, noescape);
      NotDangling(p, noescape);
      hide Next;
      var r := Next(p, noescape).1;
      ProperUnlessBackslash(r, noescape);
    }
  }

  lemma NotDangling(p: string, noescape: bool)
    requires p != "" && (noescape || p[|p| - 1] != '\\')
    ensures !Next(p, noescape).0.Dangling?
  {
    if p[0] == '[' { BracketNext(p, noescape); hide BracketAt; }
  }

  /** The stars that another star does not follow. */
  function LastStars(p: string): nat {
    if p == "" then 0
    else LastStars(p[1..]) + if p[0] == '*' && (|p| == 1 || p[1] != '*') then 1 else 0
  }

  lemma {:induction false} StarsOfTail(p: string, k: nat)
    requires k <= |p|
    ensures LastStars(p[k..]) <= LastStars(p)
    decreases k
  {
    if k == 0 {
      assert p[0..] == p;
    } else {
      StarsOfTail(p[1..], k - 1);
      assert p[1..][k - 1..] == p[k..];
    }
  }

  /** The budget counts no more than those. */
  lemma {:induction false} RunsAtMostStars(p: string, noescape: bool)
    ensures Runs(p, noescape) <= LastStars(p)
    decreases |p|
  {
    if p != "" {
      NextTail(p, noescape);
      StarNext(p, noescape);
      hide Next;
      var r := Next(p, noescape).1;
      RunsAtMostStars(r, noescape);
      StarsOfTail(p, |p| - |r|);
    }
  }
}
