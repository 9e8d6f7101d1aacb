/**
 Carries as compositions of (propagate, generate) pairs.

 The composition is written with exclusive or, as the circuits compute it on bitwise shares; it is
 associative for all pairs, so any way of bracketing a run of positions gives the same pair.
 */
module Carries {
  import opened Ring
  import opened Words

  datatype PG = PG(p: bool, g: bool)

  /** The pair of two adjacent runs of positions. */
  function Op(hi: PG, lo: PG): PG {
    PG(hi.p && lo.p, hi.g != (hi.p && lo.g))
  }

  lemma OpAssoc(x: PG, y: PG, z: PG)
    ensures Op(x, Op(y, z)) == Op(Op(x, y), z)
  {
  }

  /** The pair of positions lo .. hi-1. */
  function Span(s: seq<PG>, lo: nat, hi: nat): PG
    requires lo < hi <= |s|
  {
    if hi == lo + 1 then s[lo] else Op(s[hi - 1], Span(s, lo, hi - 1))
  }

  lemma {:induction false} SpanSplit(s: seq<PG>, lo: nat, mid: nat, hi: nat)
    requires lo < mid < hi <= |s|
    ensures Span(s, lo, hi) == Op(Span(s, mid, hi), Span(s, lo, mid))
    decreases hi
  {
    if hi > mid + 1 {
      SpanSplit(s, lo, mid, hi - 1);
      OpAssoc(s[hi - 1], Span(s, mid, hi - 1), Span(s, lo, mid));
    }
  }

  // ---------- binary addition ----------

  function Majority(x: bool, y: bool, z: bool): bool {
    (x && y) || (x && z) || (y && z)
  }

  /** The carry into bit j of a + b + c. */
  function Carry(a: nat, b: nat, c: bool, j: nat): bool
    decreases j
  {
    if j == 0 then c else Carry(a / 2, b / 2, Majority(a % 2 == 1, b % 2 == 1, c), j - 1)
  }

  lemma {:induction false} CarryStep(a: nat, b: nat, c: bool, j: nat)
    ensures Carry(a, b, c, j + 1) == Majority(Bit(a, j), Bit(b, j), Carry(a, b, c, j))
    decreases j
  {
    if j > 0 {
      CarryStep(a / 2, b / 2, Majority(a % 2 == 1, b % 2 == 1, c), j - 1);
    }
  }

  /** The bits of a sum. */
  lemma {:induction false} SumBit(a: nat, b: nat, c: bool, j: nat)
    ensures Bit(a + b + ToNat(c), j) == ((Bit(a, j) != Bit(b, j)) != Carry(a, b, c, j))
    decreases j
  {
    if j > 0 {
      var c' := Majority(a % 2 == 1, b % 2 == 1, c);
      assert (a + b + ToNat(c)) / 2 == a / 2 + b / 2 + ToNat(c');
      SumBit(a / 2, b / 2, c', j - 1);
    }
  }

  /** The carry out of the low j bits says whether their sum reaches 2^j. */
  lemma {:induction false} CarryOverflow(a: nat, b: nat, c: bool, j: nat)
    ensures Carry(a, b, c, j) <==> a % Pow2(j) + b % Pow2(j) + ToNat(c) >= Pow2(j)
    decreases j
  {
    if j > 0 {
      CarryOverflow(a / 2, b / 2, Majority(a % 2 == 1, b % 2 == 1, c), j - 1);
      ModStep(a, j - 1);
      ModStep(b, j - 1);
    }
  }

  // ---------- carries are spans ----------

  /** s holds the propagate and generate pair of every position of a + b + c below k. */
  ghost predicate PairsOf(s: seq<PG>, a: nat, b: nat, c: bool, k: nat) {
    && |s| == k
    && (forall j :: 0 < j < k ==> s[j] == PG(Bit(a, j) != Bit(b, j), Bit(a, j) && Bit(b, j)))
    && (k > 0 ==> s[0].p == (Bit(a, 0) != Bit(b, 0)))
    && (k > 0 ==> s[0].g == ((Bit(a, 0) && Bit(b, 0)) != (c && (Bit(a, 0) != Bit(b, 0)))))
  }

  /** The pairs of a + b + c, with the carry in folded into the lowest one. */
  function AdderPairs(a: nat, b: nat, c: bool, k: nat): (s: seq<PG>)
    ensures |s| == k
  {
    seq(k, j requires 0 <= j < k => AdderPair(a, b, c, j))
  }

  function AdderPair(a: nat, b: nat, c: bool, j: nat): PG {
    var p, g := Bit(a, j) != Bit(b, j), Bit(a, j) && Bit(b, j);
    PG(p, if j == 0 then g != (c && p) else g)
  }

  lemma AdderPairsOf(a: nat, b: nat, c: bool, k: nat)
    ensures PairsOf(AdderPairs(a, b, c, k), a, b, c, k)
  {
  }

  /** The prefix of the pairs below j generates exactly the carry into bit j. */
  lemma AdderCarry(a: nat, b: nat, c: bool, k: nat, j: nat)
    requires 0 < j <= k
    ensures Span(AdderPairs(a, b, c, k), 0, j).g == Carry(a, b, c, j)
  {
    hide AdderPairs;
    AdderPairsOf(a, b, c, k);
    SpanIsCarry(AdderPairs(a, b, c, k), a, b, c, k, j);
  }

  lemma {:induction false} SpanIsCarry(s: seq<PG>, a: nat, b: nat, c: bool, k: nat, j: nat)
    requires PairsOf(s, a, b, c, k) && 0 < j <= k
    ensures Span(s, 0, j).g == Carry(a, b, c, j)
    decreases j
  {
    CarryStep(a, b, c, j - 1);
    if j > 1 {
      SpanIsCarry(s, a, b, c, k, j - 1);
    }
  }

  // ---------- one level of the tree ----------

  /** Neighbours combined; an odd last pair moves up unchanged. */
  function HalveRound(s: seq<PG>): (t: seq<PG>)
    ensures |t| == (|s| + 1) / 2
  {
    seq((|s| + 1) / 2, j requires 0 <= j < (|s| + 1) / 2 =>
      if 2 * j + 1 < |s| then Op(s[2 * j + 1], s[2 * j]) else s[2 * j])
  }

  lemma {:induction false} HalveSpan(s: seq<PG>, j: nat)
    requires 0 < j <= (|s| + 1) / 2
    ensures Span(HalveRound(s), 0, j) == Span(s, 0, if 2 * j <= |s| then 2 * j else |s|)
    decreases j
  {
    if j > 1 {
      HalveSpan(s, j - 1);
      if 2 * j <= |s| {
        OpAssoc(s[2 * j - 1], s[2 * j - 2], Span(s, 0, 2 * j - 2));
      }
    }
  }

  /** A level keeps the pair of the whole run. */
  lemma HalveKeepsTotal(s: seq<PG>)
    requires |s| > 0
    ensures Span(HalveRound(s), 0, |HalveRound(s)|) == Span(s, 0, |s|)
  {
    HalveSpan(s, (|s| + 1) / 2);
  }

  // ---------- one round of the prefix circuit ----------

  /** x lies in the upper half of its aligned block of size 2h. */
  predicate UpperHalf(x: nat, h: nat)
    requires h >= 1
  {
    x % (2 * h) >= h
  }

  /** The first position of the block of size h that contains x. */
  function BlockStart(x: nat, h: nat): nat
    requires h >= 1
  {
    x - x % h
  }

  /** Every position holds the pair of its block prefix, for blocks of size h. */
  ghost predicate BlockPrefixes(s: seq<PG>, t: seq<PG>, h: nat)
    requires h >= 1
  {
    && |t| == |s|
    && forall x :: 0 <= x < |s| ==> t[x] == Span(s, BlockStart(x, h), x + 1)
  }

  lemma ModDouble(x: nat, h: nat)
    requires h >= 1
    ensures x % (2 * h) == x % h + if UpperHalf(x, h) then h else 0
  {
    var q, m := x / (2 * h), x % (2 * h);
    assert x == (2 * h) * q + m;
    if m >= h {
      assert x == h * (2 * q + 1) + (m - h);
      DivModUnique(x, h, 2 * q + 1, m - h);
    } else {
      assert x == h * (2 * q) + m;
      DivModUnique(x, h, 2 * q, m);
    }
  }

  /** The last position of the lower half of x's block. */
  lemma LowerHalfEnd(x: nat, h: nat)
    requires h >= 1 && UpperHalf(x, h)
    ensures BlockStart(x, h) >= h && BlockStart(BlockStart(x, h) - 1, h) == BlockStart(x, 2 * h)
    ensures BlockStart(x, h) == BlockStart(x, 2 * h) + h
  {
    ModDouble(x, h);
    var q := x / (2 * h);
    assert x == (2 * h) * q + x % (2 * h);
    var mid := BlockStart(x, h);
    assert mid == (2 * h) * q + h;
    assert mid - 1 == h * (2 * q) + (h - 1);
    assert (2 * h) * q == h * (2 * q) >= 0;
    DivModUnique(mid - 1, h, 2 * q, h - 1);
  }

  /** One round: the upper half of every block takes in the pair of its lower half. */
  function PrefixRound(t: seq<PG>, h: nat): (t': seq<PG>)
    requires h >= 1
    ensures |t'| == |t|
  {
    seq(|t|, x requires 0 <= x < |t| => PrefixAt(t, x, h))
  }

  function PrefixAt(t: seq<PG>, x: nat, h: nat): PG
    requires h >= 1 && x < |t|
  {
    if UpperHalf(x, h) && BlockStart(x, h) >= 1 then Op(t[x], t[BlockStart(x, h) - 1]) else t[x]
  }

  lemma PrefixAtDoubles(s: seq<PG>, t: seq<PG>, x: nat, h: nat)
    requires h >= 1 && BlockPrefixes(s, t, h) && x < |s|
    ensures PrefixAt(t, x, h) == Span(s, BlockStart(x, 2 * h), x + 1)
  {
    ModDouble(x, h);
    if UpperHalf(x, h) {
      LowerHalfEnd(x, h);
      hide UpperHalf;
      var mid := BlockStart(x, h);
      assert t[mid - 1] == Span(s, BlockStart(mid - 1, h), mid);
      assert t[x] == Span(s, mid, x + 1);
      SpanSplit(s, BlockStart(x, 2 * h), mid, x + 1);
    }
  }

  /** A round doubles the blocks. */
  lemma PrefixRoundDoubles(s: seq<PG>, t: seq<PG>, h: nat)
    requires h >= 1 && BlockPrefixes(s, t, h)
    ensures BlockPrefixes(s, PrefixRound(t, h), 2 * h)
  {
    forall x | 0 <= x < |s| ensures PrefixRound(t, h)[x] == Span(s, BlockStart(x, 2 * h), x + 1) {
      PrefixAtDoubles(s, t, x, h);
    }
  }

  /** Blocks that reach past the end are prefixes of the whole. */
  lemma WholePrefix(s: seq<PG>, t: seq<PG>, h: nat, x: nat)
    requires h >= 1 && BlockPrefixes(s, t, h) && x < |s| <= h
    ensures t[x] == Span(s, 0, x + 1)
  {
    hide Span;
    DivModUnique(x, h, 0, x);
    assert BlockStart(x, h) == 0;
  }
}
