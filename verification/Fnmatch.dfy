/** fnmatch.c: the backtracking matcher against a declarative match relation. Flags modelled are
    FNM_PATHNAME and FNM_NOESCAPE. */
module Fnmatch {

  datatype Flags = Flags(pathname: bool, noescape: bool)

  const FNM_NOMATCH: int := 1
  const FNM_NORES: int := 3

  // ---------------------------------------------------------------- patterns

  /** What the next pattern element asks of one character. */
  datatype Token =
    | Star
    | Any
    | Lit(c: char)
    | Set(negate: bool, ranges: seq<(char, char)>)
    | Never
    /** A backslash that ends the pattern. */
    | Dangling

  /** A bracket expression after its opening: cut short by a slash, not closed, or its ranges and what
      follows the closing bracket. */
  datatype Bracket = Slash | Open | Closed(ranges: seq<(char, char)>, rest: string)

  function WithRange(lo: char, hi: char, b: Bracket): Bracket {
    if b.Closed? then Closed([(lo, hi)] + b.ranges, b.rest) else b
  }

  /** The ranges up to the closing bracket. `need` keeps a first bracket from closing. */
  function Ranges(p: string, need: bool, noescape: bool): (r: Bracket)
    ensures r.Closed? ==> |r.rest| < |p|
    decreases |p|, 0
  {
    if p == "" then Open
    else if p[0] == ']' && !need then Closed([], p[1..])
    else if p[0] == '/' then Slash
    else if p[0] == '\\' && !noescape then
      if |p| < 2 then Open else RangeFrom(p[1], p[2..], noescape)
    else RangeFrom(p[0], p[1..], noescape)
  }

  /** One character, or a range when a dash and an end follow. */
  function RangeFrom(c: char, q: string, noescape: bool): (r: Bracket)
    ensures r.Closed? ==> |r.rest| <= |q|
    decreases |q|, 1
  {
    if |q| >= 2 && q[0] == '-' && q[1] != ']' then
      if q[1] == '\\' && !noescape then
        if |q| < 3 then Open else WithRange(c, q[2], Ranges(q[3..], false, noescape))
      else WithRange(c, q[1], Ranges(q[2..], false, noescape))
    else WithRange(c, c, Ranges(q, false, noescape))
  }

  predicate Negated(p: string) {
    p != "" && (p[0] == '!' || p[0] == '^')
  }

  function BracketAt(p: string, noescape: bool): (r: Bracket)
    ensures r.Closed? ==> |r.rest| < |p|
  {
    if Negated(p) then Ranges(p[1..], true, noescape) else Ranges(p, true, noescape)
  }

  predicate InRanges(ranges: seq<(char, char)>, c: char) {
    exists k :: 0 <= k < |ranges| && ranges[k].0 <= c <= ranges[k].1
  }

  /** The first element of a pattern and the rest. */
  function Next(p: string, noescape: bool): (r: (Token, string))
    requires p != ""
    ensures |r.1| < |p|
  {
    if p[0] == '*' then (Star, p[1..])
    else if p[0] == '?' then (Any, p[1..])
    else if p[0] == '[' then
      match BracketAt(p[1..], noescape)
      case Slash => (Lit('['), p[1..])
      case Open => (Never, p[1..])
      case Closed(ranges, rest) => (Set(Negated(p[1..]), ranges), rest)
    else if p[0] == '\\' && !noescape then
      if |p| < 2 then (Dangling, "") else (Lit(p[1]), p[2..])
    else (Lit(p[0]), p[1..])
  }

  predicate Accepts(t: Token, c: char, pathname: bool) {
    match t
    case Any => !(pathname && c == '/')
    case Lit(d) => c == d
    case Set(negate, ranges) => !(pathname && c == '/') && InRanges(ranges, c) != negate
    case _ => false
  }

  predicate NoSlash(s: string) {
    '/' !in s
  }

  /** A star may take the first `k` characters. */
  predicate Spans(s: string, k: nat, pathname: bool) {
    k <= |s| && (pathname ==> NoSlash(s[..k]))
  }

  /** The match relation: every element takes one character it accepts, a star takes any run of
      characters, and with FNM_PATHNAME only a written slash takes a slash. */
  ghost predicate Matches(p: string, s: string, f: Flags)
    decreases |p|
  {
    if p == "" then s == ""
    else
      var (t, rest) := Next(p, f.noescape);
      if t.Star? then exists k :: 0 <= k <= |s| && Spans(s, k, f.pathname) && Matches(rest, s[k..], f)
      else s != "" && Accepts(t, s[0], f.pathname) && Matches(rest, s[1..], f)
  }

  /** No backslash ends the pattern: at the end of the text such a pattern leads past its NUL. */
  predicate Proper(p: string, noescape: bool)
    decreases |p|
  {
    p == "" || (!Next(p, noescape).0.Dangling? && Proper(Next(p, noescape).1, noescape))
  }

  /** The number of runs of stars. */
  function Runs(p: string, noescape: bool): (n: nat)
    decreases |p|
  {
    if p == "" then 0
    else
      var (t, rest) := Next(p, noescape);
      Runs(rest, noescape) + if t.Star? && !(rest != "" && rest[0] == '*') then 1 else 0
  }

  // ---------------------------------------------------------------- stars

  lemma StarNext(p: string, noescape: bool)
    requires p != ""
    ensures Next(p, noescape).0.Star? <==> p[0] == '*'
    ensures p[0] == '*' ==> Next(p, noescape).1 == p[1..]
  {}

  lemma StarMatches(p: string, s: string, f: Flags)
    requires p != "" && p[0] == '*'
    ensures Matches(p, s, f) <==> exists k :: 0 <= k <= |s| && Spans(s, k, f.pathname) && Matches(p[1..], s[k..], f)
  {}

  /** Two stars are as good as one. */
  lemma CollapseStars(p: string, s: string, f: Flags)
    requires |p| >= 2 && p[0] == '*' && p[1] == '*'
    ensures Matches(p, s, f) <==> Matches(p[1..], s, f)
  {
    hide Matches;
    var q := p[1..];
    StarMatches(p, s, f);
    if Matches(q, s, f) {
      assert s[0..] == s && Spans(s, 0, f.pathname);
    }
    if Matches(p, s, f) {
      var k :| 0 <= k <= |s| && Spans(s, k, f.pathname) && Matches(q, s[k..], f);
      StarMatches(q, s[k..], f);
      var j :| 0 <= j <= |s[k..]| && Spans(s[k..], j, f.pathname) && Matches(q[1..], s[k..][j..], f);
      assert s[k..][j..] == s[k + j..];
      assert s[..k + j] == s[..k] + s[k..][..j];
      assert Spans(s, k + j, f.pathname);
      StarMatches(q, s, f);
    }
  }

  /** A star that ends the pattern takes everything but a slash it may not take. */
  lemma TrailingStar(s: string, f: Flags)
    ensures Matches("*", s, f) <==> (f.pathname ==> NoSlash(s))
  {
    StarMatches("*", s, f);
    assert "*"[1..] == "";
    assert s[|s|..] == "" && s[..|s|] == s;
    if f.pathname ==> NoSlash(s) {
      assert Spans(s, |s|, f.pathname) && Matches("*"[1..], s[|s|..], f);
    }
    if Matches("*", s, f) {
      var k :| 0 <= k <= |s| && Spans(s, k, f.pathname) && Matches("*"[1..], s[k..], f);
      assert s[k..] == "" && k == |s|;
    }
  }

  lemma SlashFirst(p: string, s: string, f: Flags)
    requires p != "" && p[0] == '/' && Matches(p, s, f)
    ensures s != "" && s[0] == '/'
  {}

  lemma NoSlashAt(s: string, n: nat)
    requires n <= |s| && NoSlash(s[..n])
    ensures forall j :: 0 <= j < n ==> s[j] != '/'
  {
    forall j | 0 <= j < n ensures s[j] != '/' { assert s[j] == s[..n][j]; }
  }

  /** A star before a slash takes exactly the characters before the next slash. */
  lemma StarBeforeSlash(p: string, s: string, i: nat, f: Flags)
    requires |p| >= 2 && p[0] == '*' && p[1] == '/' && f.pathname
    requires i <= |s| && NoSlash(s[..i]) && (i < |s| ==> s[i] == '/')
    ensures Matches(p, s, f) <==> i < |s| && Matches(p[1..], s[i..], f)
  {
    hide Matches;
    StarMatches(p, s, f);
    NoSlashAt(s, i);
    if i < |s| && Matches(p[1..], s[i..], f) { assert Spans(s, i, true); }
    if Matches(p, s, f) {
      var k :| 0 <= k <= |s| && Spans(s, k, true) && Matches(p[1..], s[k..], f);
      SlashFirst(p[1..], s[k..], f);
      NoSlashAt(s, k);
    }
  }

  /** Behind a star, what is left of the pattern takes at least one character. */
  lemma NeedsCharacter(p: string, f: Flags)
    requires p != "" && p[0] != '*'
    ensures !Matches(p, "", f)
  {
    StarNext(p, f.noescape);
  }

  /** The attempts of the recursive case: the rest of the pattern at each place up to the first slash
      the star may not pass. */
  lemma NoPlace(p: string, s: string, n: nat, f: Flags)
    requires |p| >= 2 && p[0] == '*' && p[1] != '*' && n <= |s|
    requires forall k :: 0 <= k < n ==> !Matches(p[1..], s[k..], f)
    requires n == |s| || (f.pathname && n > 0 && s[n - 1] == '/')
    ensures !Matches(p, s, f)
  {
    hide Matches;
    StarMatches(p, s, f);
    NeedsCharacter(p[1..], f);
    assert s[|s|..] == "";
    forall k | 0 <= k <= |s| && Spans(s, k, f.pathname) ensures !Matches(p[1..], s[k..], f) {
      if f.pathname { NoSlashAt(s, k); }
    }
  }

  lemma StarTakes(p: string, s: string, k: nat, f: Flags)
    requires p != "" && p[0] == '*' && k <= |s| && Spans(s, k, f.pathname) && Matches(p[1..], s[k..], f)
    ensures Matches(p, s, f)
  {
    StarMatches(p, s, f);
  }

  lemma NextMatches(p: string, s: string, f: Flags)
    requires p != "" && p[0] != '*'
    ensures var (t, rest) := Next(p, f.noescape);
      Matches(p, s, f) <==> s != "" && Accepts(t, s[0], f.pathname) && Matches(rest, s[1..], f)
  {
    StarNext(p, f.noescape);
  }

  // ---------------------------------------------------------------- rangematch

  datatype Range = Mismatch | Literal | Behind(pos: nat)

  /** What rangematch returns for a bracket. */
  function Verdict(b: Bracket, negate: bool, ok: bool, c: char, p: string): Range {
    match b
    case Slash => Literal
    case Open => Mismatch
    case Closed(ranges, rest) =>
      if (ok || InRanges(ranges, c)) == negate || |rest| > |p| then Mismatch else Behind(|p| - |rest|)
  }

  lemma RangesAre(lo: char, hi: char, ranges: seq<(char, char)>, c: char)
    ensures InRanges([(lo, hi)] + ranges, c) <==> lo <= c <= hi || InRanges(ranges, c)
  {
    var all := [(lo, hi)] + ranges;
    if lo <= c <= hi { assert all[0].0 <= c <= all[0].1; }
    if InRanges(ranges, c) {
      var k :| 0 <= k < |ranges| && ranges[k].0 <= c <= ranges[k].1;
      assert all[k + 1].0 <= c <= all[k + 1].1;
    }
  }

  lemma VerdictStep(lo: char, hi: char, b: Bracket, negate: bool, ok: bool, c: char, p: string)
    ensures Verdict(WithRange(lo, hi, b), negate, ok, c, p) == Verdict(b, negate, ok || lo <= c <= hi, c, p)
  {
    if b.Closed? { RangesAre(lo, hi, b.ranges, c); }
    hide InRanges;
  }

  lemma Suffixes(p: string, i: nat, k: nat)
    requires i + k <= |p|
    ensures p[i..][k..] == p[i + k..]
  {}

  /** rangematch, on the pattern from `start`. */
  method RangeMatch(p: string, start: nat, test: char, noescape: bool) returns (r: Range)
    requires start <= |p|
    ensures r == Verdict(BracketAt(p[start..], noescape), Negated(p[start..]), false, test, p)
  {
    hide Verdict, WithRange, Ranges, RangeFrom, BracketAt;
    BracketStart(p[start..], noescape);
    var i := start;
    var negate := i < |p| && (p[i] == '!' || p[i] == '^');
    if negate {
      Suffixes(p, start, 1);
      i := i + 1;
    }
    ghost var whole := Verdict(BracketAt(p[start..], noescape), negate, false, test, p);
    var need, ok := true, false;
    while true
      invariant start <= i <= |p|
      invariant whole == Verdict(Ranges(p[i..], need, noescape), negate, ok, test, p)
      decreases |p| - i
    {
      ghost var q := p[i..];
      RangesCases(q, need, noescape);
      if i >= |p| {
        VerdictCases(Ranges(q, need, noescape), negate, ok, test, p);
        return Mismatch;
      }
      var c := p[i];
      i := i + 1;
      Suffixes(p, i - 1, 1);
      if c == ']' && !need {
        VerdictCases(Ranges(q, need, noescape), negate, ok, test, p);
        return if ok == negate then Mismatch else Behind(i);
      }
      if c == '/' {
        VerdictCases(Ranges(q, need, noescape), negate, ok, test, p);
        return Literal;
      }
      need := false;
      if c == '\\' && !noescape {
        if i >= |p| {
          VerdictCases(Open, negate, ok, test, p);
          return Mismatch;
        }
        c := p[i];
        i := i + 1;
        Suffixes(p, i - 2, 2);
      }
      var open;
      open, i, ok := RangeEnd(p, i, c, test, noescape, negate, ok, whole);
      if open {
        return Mismatch;
      }
    }
  }

  /** The second half of a turn: a single character, or a dash and the end of a range. */
  method RangeEnd(p: string, i: nat, c: char, test: char, noescape: bool, ghost negate: bool, ok: bool,
                  ghost whole: Range)
    returns (open: bool, i': nat, ok': bool)
    requires i <= |p| && whole == Verdict(RangeFrom(c, p[i..], noescape), negate, ok, test, p)
    ensures open ==> whole == Mismatch
    ensures !open ==> i <= i' <= |p| && whole == Verdict(Ranges(p[i'..], false, noescape), negate, ok', test, p)
  {
    hide Verdict, WithRange, Ranges, RangeFrom;
    open, i', ok' := false, i, ok;
    ghost var q := p[i..];
    FromCases(c, q, noescape);
    VerdictCases(Open, negate, ok, test, p);
    if i + 1 < |p| && p[i] == '-' && p[i + 1] != ']' {
      var c2 := p[i + 1];
      Suffixes(p, i, 2);
      i' := i + 2;
      if c2 == '\\' && !noescape {
        if i' >= |p| {
          return true, i', ok';
        }
        c2 := p[i'];
        i' := i' + 1;
        Suffixes(p, i, 3);
      }
      VerdictStep(c, c2, Ranges(p[i'..], false, noescape), negate, ok, test, p);
      if c <= test <= c2 {
        ok' := true;
      }
    } else {
      VerdictStep(c, c, Ranges(p[i'..], false, noescape), negate, ok, test, p);
      if c == test {
        ok' := true;
      }
    }
  }

  lemma BracketStart(p: string, noescape: bool)
    ensures BracketAt(p, noescape) == if Negated(p) then Ranges(p[1..], true, noescape) else Ranges(p, true, noescape)
  {}

  lemma RangesCases(q: string, need: bool, noescape: bool)
    ensures q == "" ==> Ranges(q, need, noescape) == Open
    ensures q != "" && q[0] == ']' && !need ==> Ranges(q, need, noescape) == Closed([], q[1..])
    ensures q != "" && q[0] == '/' ==> Ranges(q, need, noescape) == Slash
    ensures q == "\\" && !noescape ==> Ranges(q, need, noescape) == Open
    ensures |q| >= 2 && q[0] == '\\' && !noescape ==> Ranges(q, need, noescape) == RangeFrom(q[1], q[2..], noescape)
    ensures q != "" && !(q[0] == ']' && !need) && q[0] != '/' && (q[0] != '\\' || noescape) ==>
      Ranges(q, need, noescape) == RangeFrom(q[0], q[1..], noescape)
  {
    hide RangeFrom;
  }

  lemma FromCases(c: char, q: string, noescape: bool)
    ensures var dash := |q| >= 2 && q[0] == '-' && q[1] != ']';
      && (!dash ==> RangeFrom(c, q, noescape) == WithRange(c, c, Ranges(q, false, noescape)))
      && (dash && (q[1] != '\\' || noescape) ==>
           RangeFrom(c, q, noescape) == WithRange(c, q[1], Ranges(q[2..], false, noescape)))
      && (dash && q[1] == '\\' && !noescape && |q| < 3 ==> RangeFrom(c, q, noescape) == Open)
      && (dash && q[1] == '\\' && !noescape && |q| >= 3 ==>
           RangeFrom(c, q, noescape) == WithRange(c, q[2], Ranges(q[3..], false, noescape)))
  {
    hide Ranges, WithRange;
  }

  lemma VerdictCases(b: Bracket, negate: bool, ok: bool, c: char, p: string)
    ensures b.Open? ==> Verdict(b, negate, ok, c, p) == Mismatch
    ensures b.Slash? ==> Verdict(b, negate, ok, c, p) == Literal
    ensures b.Closed? && b.ranges == [] && |b.rest| <= |p| ==>
      Verdict(b, negate, ok, c, p) == if ok == negate then Mismatch else Behind(|p| - |b.rest|)
  {}

  // ---------------------------------------------------------------- one element

  predicate Tail(t: string, p: string) {
    |t| <= |p| && t == p[|p| - |t|..]
  }

  lemma {:induction false} RangesTail(p: string, need: bool, noescape: bool)
    requires Ranges(p, need, noescape).Closed?
    ensures Tail(Ranges(p, need, noescape).rest, p)
    decreases |p|, 0
  {
    hide RangeFrom;
    if !(p[0] == ']' && !need) {
      if p[0] == '\\' && !noescape { RangeFromTail(p[1], p[2..], noescape); }
      else { RangeFromTail(p[0], p[1..], noescape); }
    }
  }

  lemma {:induction false} RangeFromTail(c: char, q: string, noescape: bool)
    requires RangeFrom(c, q, noescape).Closed?
    ensures Tail(RangeFrom(c, q, noescape).rest, q)
    decreases |q|, 1
  {
    FromCases(c, q, noescape);
    hide RangeFrom, Ranges;
    if |q| >= 2 && q[0] == '-' && q[1] != ']' {
      RangesTail(if q[1] == '\\' && !noescape then q[3..] else q[2..], false, noescape);
    } else {
      RangesTail(q, false, noescape);
    }
  }

  lemma BracketTail(p: string, noescape: bool)
    requires BracketAt(p, noescape).Closed?
    ensures Tail(BracketAt(p, noescape).rest, p)
  {
    if Negated(p) { RangesTail(p[1..], true, noescape); } else { RangesTail(p, true, noescape); }
    hide Ranges;
  }

  /** Consuming an element keeps what is said of the pattern. */
  lemma NextKeeps(p: string, noescape: bool)
    requires p != "" && Proper(p, noescape)
    ensures var (t, rest) := Next(p, noescape);
      && !t.Dangling? && Proper(rest, noescape) && Runs(rest, noescape) <= Runs(p, noescape)
      && (p[0] == '*' && (rest == "" || rest[0] != '*') ==> Runs(p, noescape) == Runs(rest, noescape) + 1)
  {
    StarNext(p, noescape);
    hide Next;
  }

  lemma StarsKeep(p: string, noescape: bool)
    requires |p| >= 2 && p[0] == '*' && p[1] == '*' && Proper(p, noescape)
    ensures Proper(p[1..], noescape) && Runs(p[1..], noescape) == Runs(p, noescape)
  {
    StarNext(p, noescape);
    hide Next;
  }

  lemma BracketNext(p: string, noescape: bool)
    requires p != "" && p[0] == '['
    ensures var b := BracketAt(p[1..], noescape);
      Next(p, noescape) ==
        if b.Slash? then (Lit('['), p[1..]) else if b.Open? then (Never, p[1..])
        else (Set(Negated(p[1..]), b.ranges), b.rest)
  {
    hide BracketAt;
  }

  // ---------------------------------------------------------------- fnmatchx

  /** The invariant of a match in progress: what is left decides the whole. */
  ghost predicate Decides(p: string, s: string, q: string, t: string, f: Flags) {
    && (Matches(p, s, f) <==> Matches(q, t, f))
    && Proper(q, f.noescape) && Runs(q, f.noescape) <= Runs(p, f.noescape)
  }

  /** An element other than a star met a character, or none. */
  lemma Consumed(p: string, s: string, q: string, t: string, f: Flags)
    requires Decides(p, s, q, t, f) && q != "" && q[0] != '*'
    ensures var (tok, rest) := Next(q, f.noescape);
      && !tok.Dangling?
      && (t == "" || !Accepts(tok, t[0], f.pathname) ==> !Matches(p, s, f))
      && (t != "" && Accepts(tok, t[0], f.pathname) ==> Decides(p, s, rest, t[1..], f))
  {
    NextMatches(q, t, f);
    NextKeeps(q, f.noescape);
    hide Next, Matches, Accepts, Proper, Runs;
  }

  /** Collapse multiple stars: `pos` is at the first, `pos'` behind the last. */
  method SkipStars(p: string, pos: nat, ghost w: string, ghost s: string, ghost t: string, f: Flags) returns (pos': nat)
    requires pos < |p| && p[pos] == '*' && Decides(w, s, p[pos..], t, f)
    ensures pos < pos' <= |p| && p[pos' - 1] == '*' && (pos' < |p| ==> p[pos'] != '*')
    ensures Decides(w, s, p[pos' - 1..], t, f)
  {
    hide Matches, Proper, Runs;
    pos' := pos + 1;
    while pos' < |p| && p[pos'] == '*'
      invariant pos < pos' <= |p| && p[pos' - 1] == '*' && Decides(w, s, p[pos' - 1..], t, f)
    {
      ghost var q := p[pos' - 1..];
      assert q[1] == p[pos'] && q[1..] == p[pos'..];
      CollapseStars(q, t, f);
      StarsKeep(q, f.noescape);
      pos' := pos' + 1;
    }
  }

  /** strchr for a slash: the first one from `pos` on, or the end. */
  method FindSlash(s: string, pos: nat) returns (pos': nat)
    requires pos <= |s|
    ensures pos <= pos' <= |s| && (pos' < |s| ==> s[pos'] == '/') && NoSlash(s[pos..pos'])
  {
    pos' := pos;
    while pos' < |s| && s[pos'] != '/'
      invariant pos <= pos' <= |s| && NoSlash(s[pos..pos'])
    {
      assert s[pos..pos' + 1] == s[pos..pos'] + [s[pos']];
      pos' := pos' + 1;
    }
  }

  /** fnmatchx. Whatever the budget, 0 is a match and FNM_NOMATCH is none; FNM_NORES needs as many runs
      of stars as the budget. */
  method MatchAt(p: string, pos: nat, s: string, at: nat, f: Flags, recursion: nat) returns (r: int)
    requires pos <= |p| && at <= |s| && Proper(p[pos..], f.noescape)
    ensures r == 0 || r == FNM_NOMATCH || r == FNM_NORES
    ensures r == 0 ==> Matches(p[pos..], s[at..], f)
    ensures r == FNM_NOMATCH ==> !Matches(p[pos..], s[at..], f)
    ensures r == FNM_NORES ==> Runs(p[pos..], f.noescape) >= recursion
    decreases |p| - pos, 1
  {
    hide Matches, Proper, Runs, Next, Accepts, Decides;
    if recursion == 0 {
      return FNM_NORES;
    }
    ghost var whole, text := p[pos..], s[at..];
    var pi, si := pos, at;
    DecidesSelf(whole, text, f);
    while true
      invariant pos <= pi <= |p| && at <= si <= |s| && Decides(whole, text, p[pi..], s[si..], f)
      decreases |p| - pi
    {
      ghost var q, t := p[pi..], s[si..];
      if pi >= |p| {
        assert q == "";
        AtEnd(whole, text, t, f);
        return if si >= |s| then 0 else FNM_NOMATCH;
      }
      if p[pi] == '*' {
        pi := SkipStars(p, pi, whole, text, t, f);
        if pi < |p| && p[pi] == '/' && f.pathname {
          var slash := FindSlash(s, si);
          StarSlash(whole, text, p[pi - 1..], t, slash - si, f);
          assert p[pi - 1..][1..] == p[pi..] && s[si..slash] == t[..slash - si];
          if slash >= |s| {
            return FNM_NOMATCH;
          }
          assert t[slash - si..] == s[slash..];
          si := slash;
        } else {
          r := StarAt(p, pi, s, si, f, recursion - 1, whole, text);
          return;
        }
      } else {
        var ok;
        ok, pi := ElementAt(p, pi, s, si, f, whole, text);
        if !ok {
          return FNM_NOMATCH;
        }
        si := si + 1;
      }
    }
  }

  lemma DecidesSelf(p: string, s: string, f: Flags)
    requires Proper(p, f.noescape)
    ensures Decides(p, s, p, s, f)
  {
    hide Matches, Proper, Runs;
  }

  lemma AtEnd(p: string, s: string, t: string, f: Flags)
    requires Decides(p, s, "", t, f)
    ensures Matches(p, s, f) <==> t == ""
  {}

  /** The shortcut for a star before a slash. */
  lemma StarSlash(p: string, s: string, q: string, t: string, i: nat, f: Flags)
    requires Decides(p, s, q, t, f) && |q| >= 2 && q[0] == '*' && q[1] == '/' && f.pathname
    requires i <= |t| && NoSlash(t[..i]) && (i < |t| ==> t[i] == '/')
    ensures i == |t| ==> !Matches(p, s, f)
    ensures i < |t| ==> Decides(p, s, q[1..], t[i..], f)
  {
    StarBeforeSlash(q, t, i, f);
    StarNext(q, f.noescape);
    NextKeeps(q, f.noescape);
    hide Matches, Proper, Runs, Next;
  }

  /** A question mark, a bracket or a character: `ok` is whether the next character of the text is
      taken. */
  method ElementAt(p: string, pos: nat, s: string, at: nat, f: Flags, ghost whole: string, ghost text: string)
    returns (ok: bool, pos': nat)
    requires pos < |p| && at <= |s| && p[pos] != '*' && Decides(whole, text, p[pos..], s[at..], f)
    ensures !ok ==> !Matches(whole, text, f)
    ensures ok ==> at < |s| && pos < pos' <= |p| && Decides(whole, text, p[pos'..], s[at + 1..], f)
  {
    hide Decides, Matches, Verdict;
    ghost var q, t := p[pos..], s[at..];
    Consumed(whole, text, q, t, f);
    assert q[0] == p[pos] && q[1..] == p[pos + 1..];
    assert at < |s| ==> t[0] == s[at] && t[1..] == s[at + 1..];
    pos' := pos + 1;
    var c := p[pos];
    if c == '?' {
      ok := !(at >= |s|) && !(s[at] == '/' && f.pathname);
    } else if c == '[' {
      ok, pos' := BracketElement(p, pos, s, at, f);
    } else {
      if c == '\\' && !f.noescape {
        DanglingNext(q);
        c := p[pos'];
        pos' := pos' + 1;
        assert q[1] == c && q[2..] == p[pos'..];
      }
      ok := at < |s| && c == s[at];
    }
  }

  lemma DanglingNext(q: string)
    requires q != "" && q[0] == '\\' && !Next(q, false).0.Dangling?
    ensures |q| >= 2
  {}

  /** The bracket case. */
  method BracketElement(p: string, pos: nat, s: string, at: nat, f: Flags) returns (ok: bool, pos': nat)
    requires pos < |p| && at <= |s| && p[pos] == '['
    ensures ok <==> at < |s| && Accepts(Next(p[pos..], f.noescape).0, s[at], f.pathname)
    ensures ok ==> pos < pos' <= |p| && p[pos'..] == Next(p[pos..], f.noescape).1
  {
    hide Next, BracketAt, InRanges;
    ghost var q := p[pos..];
    pos' := pos + 1;
    assert q[1..] == p[pos'..];
    BracketNext(q, f.noescape);
    if at >= |s| {
      return false, pos';
    }
    if s[at] == '/' && f.pathname {
      return false, pos';
    }
    var r := RangeMatch(p, pos', s[at], f.noescape);
    if BracketAt(q[1..], f.noescape).Closed? { BracketTail(q[1..], f.noescape); }
    if r == Mismatch {
      return false, pos';
    }
    if r == Literal {
      if s[at] != '[' {
        return false, pos';
      }
    } else {
      pos' := r.pos;
    }
    ok := true;
  }

  /** A star that ends the pattern, and the recursion at every place otherwise. */
  method StarAt(p: string, pos: nat, s: string, at: nat, f: Flags, recursion: nat, ghost whole: string, ghost text: string)
    returns (r: int)
    requires 0 < pos <= |p| && at <= |s| && p[pos - 1] == '*' && (pos < |p| ==> p[pos] != '*')
    requires Decides(whole, text, p[pos - 1..], s[at..], f)
    ensures r == 0 || r == FNM_NOMATCH || r == FNM_NORES
    ensures r == 0 ==> Matches(whole, text, f)
    ensures r == FNM_NOMATCH ==> !Matches(whole, text, f)
    ensures r == FNM_NORES ==> Runs(whole, f.noescape) >= recursion + 1
    decreases |p| - pos, 2
  {
    hide Matches, Proper, Runs, Next;
    ghost var q, t := p[pos - 1..], s[at..];
    StarNext(q, f.noescape);
    NextKeeps(q, f.noescape);
    assert q[1..] == p[pos..];
    if pos >= |p| {
      assert q == "*";
      TrailingStar(t, f);
      if f.pathname {
        var slash := FindSlash(s, at);
        assert s[at..slash] == t[..slash - at];
        if slash == |s| { assert t[..slash - at] == t; } else { assert t[slash - at] == '/'; }
        return if slash >= |s| then 0 else FNM_NOMATCH;
      }
      return 0;
    }
    var si := at;
    while si < |s|
      invariant at <= si <= |s|
      invariant forall k {:trigger t[k..]} :: 0 <= k < si - at ==> !Matches(q[1..], t[k..], f)
      invariant f.pathname ==> NoSlash(s[at..si])
    {
      assert t[si - at..] == s[si..];
      var e := MatchAt(p, pos, s, si, f, recursion);
      if e != FNM_NOMATCH {
        if e == 0 {
          assert t[..si - at] == s[at..si];
          StarTakes(q, t, si - at, f);
        }
        return e;
      }
      if s[si] == '/' && f.pathname {
        assert t[si - at] == '/';
        NoPlace(q, t, si - at + 1, f);
        return FNM_NOMATCH;
      }
      assert s[at..si + 1] == s[at..si] + [s[si]];
      si := si + 1;
    }
    NoPlace(q, t, |t|, f);
    r := FNM_NOMATCH;
  }

  /** fnmatch: with at most 63 runs of stars the budget of 64 is never used up, and the result is 0
      exactly for a match. */
  method Match(pattern: string, text: string, f: Flags) returns (r: int)
    requires Proper(pattern, f.noescape)
    ensures r == 0 || r == FNM_NOMATCH || r == FNM_NORES
    ensures r == FNM_NORES ==> Runs(pattern, f.noescape) >= 64
    ensures Runs(pattern, f.noescape) <= 63 ==> (r == 0 <==> Matches(pattern, text, f)) && r != FNM_NORES
    ensures r != FNM_NORES ==> (r == 0 <==> Matches(pattern, text, f))
  {
    hide Matches, Proper, Runs;
    assert pattern[0..] == pattern && text[0..] == text;
    r := MatchAt(pattern, 0, text, 0, f, 64);
  }
}
