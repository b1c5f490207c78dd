/** The required-field bitset of pb_decode_noinit: two 32-bit words, as numbers below 2^32. */
module PbBits {
  import opened PbWire
  import opened PbTypes

  /** Bit `k` of a word. */
  predicate HasBit(w: nat, k: nat) {
    if k == 0 then w % 2 == 1 else HasBit(w / 2, k - 1)
  }

  /** `w | 1 << k`. */
  function OrBit(w: nat, k: nat): (r: nat) {
    if k == 0 then w - w % 2 + 1 else 2 * OrBit(w / 2, k - 1) + w % 2
  }

  /** `allbits >> (32 - n)` for n from 1 to 32. */
  function LowOnes(n: nat): (r: nat) {
    Pow2(n) - 1
  }

  lemma {:induction false} ZeroBits(k: nat)
    ensures !HasBit(0, k)
  {
    if k > 0 { ZeroBits(k - 1); }
  }

  /** Or-ing bit `k` in sets that bit and no other. */
  lemma {:induction false} SetBit(w: nat, k: nat, j: nat)
    ensures HasBit(OrBit(w, k), j) <==> j == k || HasBit(w, j)
  {
    if j > 0 && k > 0 {
      SetBit(w / 2, k - 1, j - 1);
      assert OrBit(w, k) / 2 == OrBit(w / 2, k - 1);
    } else if j > 0 {
      assert OrBit(w, 0) / 2 == w / 2;
    }
  }

  /** The new bit fits the word. */
  lemma {:induction false} OrBitFits(w: nat, k: nat, n: nat)
    requires k < n && w < Pow2(n)
    ensures OrBit(w, k) < Pow2(n)
  {
    Pow2Step(n - 1);
    if k > 0 { OrBitFits(w / 2, k - 1, n - 1); }
  }

  lemma {:induction false} LowBits(n: nat, k: nat)
    ensures HasBit(LowOnes(n), k) <==> k < n
  {
    if n == 0 {
      ZeroBits(k);
    } else if k > 0 {
      assert LowOnes(n) / 2 == LowOnes(n - 1);
      LowBits(n - 1, k - 1);
    }
  }

  /** Words below 2^n with the same `n` bits are the same. */
  lemma {:induction false} SameBits(u: nat, v: nat, n: nat)
    requires forall k: nat {:trigger HasBit(u, k)} {:trigger HasBit(v, k)} :: k < n ==> (HasBit(u, k) <==> HasBit(v, k))
    requires u < Pow2(n) && v < Pow2(n)
    ensures u == v
  {
    if n > 0 {
      forall k: nat {:trigger HasBit(u / 2, k)} {:trigger HasBit(v / 2, k)} | k < n - 1
        ensures HasBit(u / 2, k) <==> HasBit(v / 2, k)
      {
        assert HasBit(u, k + 1) <==> HasBit(v, k + 1);
      }
      SameBits(u / 2, v / 2, n - 1);
      assert HasBit(u, 0) <==> HasBit(v, 0);
    }
  }

  // ---------------------------------------------------------------- two words

  ghost predicate Words(words: seq<nat>) {
    |words| == 2 && words[0] < Pow2(32) && words[1] < Pow2(32)
  }

  predicate Marked(words: seq<nat>, b: nat)
    requires |words| == 2 && b < 64
  {
    HasBit(words[b / 32], b % 32)
  }

  function Mark(words: seq<nat>, b: nat): (r: seq<nat>)
    requires |words| == 2 && b < 64
  {
    words[b / 32 := OrBit(words[b / 32], b % 32)]
  }

  lemma MarkOne(words: seq<nat>, b: nat, c: nat)
    requires Words(words) && b < 64 && c < 64
    ensures Words(Mark(words, b))
    ensures Marked(Mark(words, b), c) <==> c == b || Marked(words, c)
  {
    OrBitFits(words[b / 32], b % 32, 32);
    if b / 32 == c / 32 { SetBit(words[b / 32], b % 32, c % 32); }
  }

  /** The comparison at the end of pb_decode_noinit for `count` required fields. */
  predicate FirstMarked(words: seq<nat>, count: nat)
    requires |words| == 2 && count < 64
  {
    && (count / 32 == 1 ==> words[0] == LowOnes(32))
    && (count > 0 ==> words[count / 32] == LowOnes(count % 32))
  }

  ghost predicate Filled(w: nat, n: nat) {
    forall k: nat :: k < n ==> HasBit(w, k)
  }

  /** A word without bits from `n` on equals the run of `n` ones exactly when it has all others. */
  lemma WordFull(w: nat, n: nat)
    requires n <= 32 && w < Pow2(32)
    requires forall k: nat :: n <= k < 32 ==> !HasBit(w, k)
    ensures w == LowOnes(n) <==> Filled(w, n)
  {
    hide LowOnes, Pow2;
    if w == LowOnes(n) {
      forall k: nat | k < n ensures HasBit(w, k) { LowBits(n, k); }
    } else if Filled(w, n) {
      forall k: nat | k < 32 ensures HasBit(w, k) <==> HasBit(LowOnes(n), k) { LowBits(n, k); }
      LowOnesFit(n, 32);
      SameBits(w, LowOnes(n), 32);
    }
  }

  lemma {:induction false} LowOnesFit(n: nat, m: nat)
    requires n <= m
    ensures LowOnes(n) < Pow2(m)
  {
    if n < m { LowOnesFit(n, m - 1); }
  }

  lemma WordOf(words: seq<nat>, q: nat, n: nat)
    requires Words(words) && q < 2 && n <= 32
    requires forall b: nat :: 32 * q + n <= b < 32 * q + 32 ==> !Marked(words, b)
    ensures words[q] == LowOnes(n) <==> forall b: nat :: 32 * q <= b < 32 * q + n ==> Marked(words, b)
  {
    hide LowOnes, Pow2;
    forall k: nat | n <= k < 32 ensures !HasBit(words[q], k) { MarkedIs(words, q, k); }
    WordFull(words[q], n);
    if Filled(words[q], n) {
      forall b: nat | 32 * q <= b < 32 * q + n ensures Marked(words, b) { MarkedIs(words, q, b - 32 * q); }
    } else {
      var k: nat :| k < n && !HasBit(words[q], k);
      MarkedIs(words, q, k);
    }
  }

  lemma MarkedIs(words: seq<nat>, q: nat, k: nat)
    requires |words| == 2 && q < 2 && k < 32
    ensures Marked(words, 32 * q + k) <==> HasBit(words[q], k)
  {}

  /** When no bit from `count` on is set, the comparison says that all bits below are. It needs
      count != 32: the C code shifts by 32 there. */
  lemma FirstMarkedMeans(words: seq<nat>, count: nat)
    requires Words(words) && count < 64 && count != 32
    requires forall b: nat :: count <= b < 64 ==> !Marked(words, b)
    ensures FirstMarked(words, count) <==> forall b: nat :: b < count ==> Marked(words, b)
  {
    hide Marked, LowOnes, Pow2;
    if count < 32 {
      WordOf(words, 0, count);
    } else {
      WordOf(words, 0, 32);
      WordOf(words, 1, count - 32);
    }
  }

  // ---------------------------------------------------------------- required fields

  lemma {:induction false} RequiredGrows(fields: seq<Field>, i: nat, j: nat)
    requires i <= j <= |fields|
    ensures RequiredBefore(fields, i) <= RequiredBefore(fields, j)
    ensures i < j && fields[i].htype.Required? ==> RequiredBefore(fields, i) < RequiredBefore(fields, j)
  {
    if i < j { RequiredGrows(fields, i, j - 1); }
  }

  lemma {:induction false} NthRequired(fields: seq<Field>, n: nat, b: nat) returns (i: nat)
    requires n <= |fields| && b < RequiredBefore(fields, n)
    ensures i < n && fields[i].htype.Required? && RequiredBefore(fields, i) == b
  {
    if fields[n - 1].htype.Required? && RequiredBefore(fields, n - 1) == b {
      i := n - 1;
    } else {
      i := NthRequired(fields, n - 1, b);
    }
  }

  /** The words hold exactly the required fields in `seen`. */
  ghost predicate Tracks(fields: seq<Field>, words: seq<nat>, seen: set<nat>)
    requires RequiredFits(fields)
  {
    && Words(words)
    && (forall i :: 0 <= i < |fields| && fields[i].htype.Required? ==>
          RequiredBefore(fields, i) < 64 && (Marked(words, RequiredBefore(fields, i)) <==> i in seen))
    && (forall b: nat :: RequiredBefore(fields, |fields|) <= b < 64 ==> !Marked(words, b))
  }

  lemma TracksNothing(fields: seq<Field>)
    requires RequiredFits(fields)
    ensures Tracks(fields, [0, 0], {})
  {
    forall i | 0 <= i < |fields| && fields[i].htype.Required?
      ensures RequiredBefore(fields, i) < 64 && !Marked([0, 0], RequiredBefore(fields, i))
    {
      RequiredGrows(fields, i, |fields|);
      ZeroBits(RequiredBefore(fields, i) % 32);
    }
    forall b: nat | b < 64 ensures !Marked([0, 0], b) { ZeroBits(b % 32); }
  }

  lemma TracksRequired(fields: seq<Field>, words: seq<nat>, seen: set<nat>, i: nat)
    requires RequiredFits(fields) && Tracks(fields, words, seen)
    requires i < |fields| && fields[i].htype.Required?
    ensures RequiredBefore(fields, i) < 64
    ensures Tracks(fields, Mark(words, RequiredBefore(fields, i)), seen + {i})
  {
    var b := RequiredBefore(fields, i);
    forall k | 0 <= k < |fields| && fields[k].htype.Required?
      ensures Marked(Mark(words, b), RequiredBefore(fields, k)) <==> k in seen + {i}
    {
      MarkOne(words, b, RequiredBefore(fields, k));
      if k < i { RequiredGrows(fields, k, i); } else if i < k { RequiredGrows(fields, i, k); }
    }
    RequiredGrows(fields, i, |fields|);
    MarkOne(words, b, b);
    forall c: nat | RequiredBefore(fields, |fields|) <= c < 64 ensures !Marked(Mark(words, b), c) {
      MarkOne(words, b, c);
    }
  }

  lemma TracksOther(fields: seq<Field>, words: seq<nat>, seen: set<nat>, i: nat)
    requires RequiredFits(fields) && Tracks(fields, words, seen)
    requires i < |fields| && !fields[i].htype.Required?
    ensures Tracks(fields, words, seen + {i})
  {}

  /** So the final comparison succeeds exactly when every required field was seen. */
  lemma TracksAll(fields: seq<Field>, words: seq<nat>, seen: set<nat>)
    requires RequiredFits(fields) && Tracks(fields, words, seen)
    ensures FirstMarked(words, RequiredBefore(fields, |fields|))
       <==> forall i :: 0 <= i < |fields| && fields[i].htype.Required? ==> i in seen
  {
    var count := RequiredBefore(fields, |fields|);
    FirstMarkedMeans(words, count);
    if forall i :: 0 <= i < |fields| && fields[i].htype.Required? ==> i in seen {
      forall b: nat | b < count ensures Marked(words, b) {
        var i := NthRequired(fields, |fields|, b);
      }
    } else {
      var i :| 0 <= i < |fields| && fields[i].htype.Required? && i !in seen;
      RequiredGrows(fields, i, |fields|);
      assert !Marked(words, RequiredBefore(fields, i));
    }
  }
}
