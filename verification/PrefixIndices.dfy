/**
 The index pairs of one round of `Rss_CircleOpL`.

 In the round with half-block size h, every position in the upper half of an aligned block of size 2h is
 paired with the last position of its lower half; block 0 comes last.
 */
module PrefixIndices {
  import opened Ring
  import opened Words
  import opened Carries

  /** ceil(log2(r)). */
  function CeilLog2(r: nat): nat {
    if r <= 1 then 0 else 1 + CeilLog2((r + 1) / 2)
  }

  lemma {:induction false} CeilLog2Bounds(r: nat)
    requires r >= 1
    ensures r <= Pow2(CeilLog2(r))
    ensures r > 1 ==> CeilLog2(r) >= 1 && Pow2(CeilLog2(r) - 1) < r
    decreases r
  {
    if r > 1 {
      CeilLog2Bounds((r + 1) / 2);
    }
  }

  /** The positions (a, b) combine in this round: b takes in the pair at a. */
  predicate Entry(a: nat, b: nat, h: nat)
    requires h >= 1
  {
    UpperHalf(b, h) && BlockStart(b, h) == a + 1
  }

  function BlockNumber(x: nat, h: nat): nat
    requires h >= 1
  {
    Quotient(x, 2 * h)
  }

  function MiddleOf(q: nat, h: nat): nat {
    2 * h * q + h
  }

  /** Position z of the upper half of block q. */
  lemma UpperPosition(q: nat, h: nat, z: nat)
    requires z < h
    ensures var x := MiddleOf(q, h) + z;
      UpperHalf(x, h) && BlockNumber(x, h) == q && BlockStart(x, h) == MiddleOf(q, h)
  {
    var x := MiddleOf(q, h) + z;
    DivModUnique(x, 2 * h, q, h + z);
    assert 2 * h * q == h * (2 * q);
    assert x == h * (2 * q + 1) + z;
    DivModUnique(x, h, 2 * q + 1, z);
  }

  /** Every position of an upper half is one of those. */
  lemma UpperOffset(x: nat, h: nat)
    requires h >= 1 && UpperHalf(x, h)
    ensures MiddleOf(BlockNumber(x, h), h) <= x < MiddleOf(BlockNumber(x, h), h) + h
  {
  }

  /** The entries one block contributes. */
  predicate FromBlock(b: nat, y: nat, r: nat, h: nat) {
    y <= b < y + h && b < r
  }

  /** The inner loop: the positions of one block that lie below r. */
  method BlockIndices(r: nat, r2: nat, y: nat, h: nat) returns (idx0: seq<nat>, idx1: seq<nat>)
    requires h >= 1 && 1 <= y && y + h <= r2 && r <= r2 && y < r2
    ensures |idx0| == |idx1|
    ensures forall e :: 0 <= e < |idx1| ==> idx0[e] == y - 1 && FromBlock(idx1[e], y, r, h)
    ensures forall e, f :: 0 <= e < f < |idx1| ==> idx1[e] < idx1[f]
    ensures forall b: nat :: FromBlock(b, y, r, h) ==> b in idx1
  {
    idx0, idx1 := [], [];
    for z := 1 to h + 1
      invariant |idx0| == |idx1|
      invariant forall e :: 0 <= e < |idx1| ==> idx0[e] == y - 1 && FromBlock(idx1[e], y, r, h) && idx1[e] < y + z - 1
      invariant forall e, f :: 0 <= e < f < |idx1| ==> idx1[e] < idx1[f]
      invariant forall b: nat :: FromBlock(b, y, r, h) && b < y + z - 1 ==> b in idx1
    {
      ModsUnneeded(y, z, r2);
      if y % r2 <= r && (y + z) % (r2 + 1) <= r {
        idx0 := idx0 + [y % r2 - 1];
        idx1 := idx1 + [(y + z) % (r2 + 1) - 1];
      }
    }
  }

  lemma ModsUnneeded(y: nat, z: nat, r2: nat)
    requires y < r2 && y + z <= r2
    ensures y % r2 == y && (y + z) % (r2 + 1) == y + z
  {
  }

  /** The index lists of a whole round. */
  ghost predicate RoundIndices(idx0: seq<nat>, idx1: seq<nat>, r: nat, h: nat)
    requires h >= 1
  {
    && |idx0| == |idx1|
    && (forall e :: 0 <= e < |idx1| ==> idx1[e] < r && Entry(idx0[e], idx1[e], h))
    && (forall e, f :: 0 <= e < f < |idx1| ==> idx1[e] != idx1[f])
    && (forall x :: 0 <= x < r && UpperHalf(x, h) ==> x in idx1)
  }

  /** What the first j blocks (1, 2, .., j) have contributed. */
  ghost predicate BlocksDone(idx0: seq<nat>, idx1: seq<nat>, r: nat, h: nat, blocks: set<nat>)
    requires h >= 1
  {
    && |idx0| == |idx1|
    && (forall e :: 0 <= e < |idx1| ==> idx1[e] < r && Entry(idx0[e], idx1[e], h) && BlockNumber(idx1[e], h) in blocks)
    && (forall e, f :: 0 <= e < f < |idx1| ==> idx1[e] != idx1[f])
    && (forall x :: 0 <= x < r && UpperHalf(x, h) && BlockNumber(x, h) in blocks ==> x in idx1)
  }

  lemma BlockEntry(b: nat, q: nat, r: nat, h: nat)
    requires h >= 1 && FromBlock(b, MiddleOf(q, h), r, h)
    ensures Entry(MiddleOf(q, h) - 1, b, h) && BlockNumber(b, h) == q
  {
    UpperPosition(q, h, b - MiddleOf(q, h));
  }

  /** Adding a block that is not there yet. */
  lemma AddBlock(idx0: seq<nat>, idx1: seq<nat>, new0: seq<nat>, new1: seq<nat>, r: nat, h: nat, blocks: set<nat>, q: nat)
    requires h >= 1 && BlocksDone(idx0, idx1, r, h, blocks) && q !in blocks
    requires |new0| == |new1|
    requires forall e :: 0 <= e < |new1| ==> new0[e] == MiddleOf(q, h) - 1 && FromBlock(new1[e], MiddleOf(q, h), r, h)
    requires forall e, f :: 0 <= e < f < |new1| ==> new1[e] < new1[f]
    requires forall b: nat :: FromBlock(b, MiddleOf(q, h), r, h) ==> b in new1
    ensures BlocksDone(idx0 + new0, idx1 + new1, r, h, blocks + {q})
  {
    hide Entry, BlockNumber, MiddleOf, UpperHalf;
    var a, b := idx0 + new0, idx1 + new1;
    forall e | 0 <= e < |b|
      ensures b[e] < r && Entry(a[e], b[e], h) && BlockNumber(b[e], h) in blocks + {q}
      ensures e >= |idx1| ==> BlockNumber(b[e], h) == q
    {
      if e >= |idx1| {
        BlockEntry(new1[e - |idx1|], q, r, h);
      }
    }
    forall x | 0 <= x < r && UpperHalf(x, h) && BlockNumber(x, h) in blocks + {q} ensures x in b {
      if BlockNumber(x, h) == q {
        UpperOffset(x, h);
        assert FromBlock(x, MiddleOf(q, h), r, h);
      } else {
        assert x in idx1;
      }
    }
  }

  /** y = (h + 2hj) mod r2 is the middle of block j, and of block 0 when j is the number of blocks. */
  lemma MiddleByMod(j: nat, m: nat, h: nat, r2: nat)
    requires h >= 1 && m >= 1 && 1 <= j <= m && r2 == 2 * h * m
    ensures (h + j * (2 * h)) % r2 == MiddleOf(if j == m then 0 else j, h)
    ensures MiddleOf(if j == m then 0 else j, h) + h <= r2
  {
    if j == m {
      assert h + j * (2 * h) == r2 * 1 + h;
      assert 2 * h * m >= 2 * h by { MulMono(2 * h, 1, m); }
      DivModUnique(h + j * (2 * h), r2, 1, h);
    } else {
      MulMono(2 * h, j + 1, m);
      assert 2 * h * (j + 1) == j * (2 * h) + 2 * h;
      DivModUnique(h + j * (2 * h), r2, 0, h + j * (2 * h));
    }
  }

  /** The index loops of round i, with h == 2^{i-1} and m == 2^{e-i} blocks. */
  method BuildIndices(r: nat, r2: nat, h: nat, m: nat) returns (idx0: seq<nat>, idx1: seq<nat>)
    requires h >= 1 && m >= 1 && r2 == 2 * h * m && r <= r2
    ensures RoundIndices(idx0, idx1, r, h)
  {
    idx0, idx1 := [], [];
    ghost var blocks: set<nat> := {};
    for j := 1 to m + 1
      invariant BlocksDone(idx0, idx1, r, h, blocks)
      invariant forall q :: q in blocks <==> (1 <= q < j && q < m) || (q == 0 && j == m + 1)
    {
      hide *;
      var y := Middle(j, m, h, r2);
      ghost var q := if j == m then 0 else j;
      var new0, new1 := BlockIndices(r, r2, y, h);
      AddBlock(idx0, idx1, new0, new1, r, h, blocks, q);
      idx0, idx1 := idx0 + new0, idx1 + new1;
      blocks := blocks + {q};
    }
    forall x | 0 <= x < r && UpperHalf(x, h) ensures x in idx1 {
      BlockBound(x, h, m, r2);
    }
  }

  method Middle(j: nat, m: nat, h: nat, r2: nat) returns (y: nat)
    requires h >= 1 && m >= 1 && 1 <= j <= m && r2 == 2 * h * m
    ensures y == MiddleOf(if j == m then 0 else j, h)
    ensures 1 <= y && y + h <= r2 && y < r2
  {
    MiddleByMod(j, m, h, r2);
    y := (h + j * (2 * h)) % r2;
    MiddlePositive(if j == m then 0 else j, h);
  }

  lemma MiddlePositive(q: nat, h: nat)
    requires h >= 1
    ensures MiddleOf(q, h) >= h
  {
  }

  lemma BlockBound(x: nat, h: nat, m: nat, r2: nat)
    requires h >= 1 && r2 == 2 * h * m && x < r2
    ensures BlockNumber(x, h) < m
  {
  }

  // ---------- the packed bits fit ----------

  /** Distinct numbers below r are at most r many. */
  lemma {:induction false} Pigeonhole(s: seq<nat>, r: nat)
    requires forall e :: 0 <= e < |s| ==> s[e] < r
    requires forall e, f :: 0 <= e < f < |s| ==> s[e] != s[f]
    ensures |s| <= r
    decreases r
  {
    if |s| > 0 {
      assert s[0] < r;
    }
    if r == 0 {
    } else if e :| 0 <= e < |s| && s[e] == r - 1 {
      var t := s[..e] + s[e + 1..];
      forall f | 0 <= f < |t| ensures t[f] < r - 1 {
        assert t[f] == s[if f < e then f else f + 1];
      }
      Pigeonhole(t, r - 1);
    } else {
      Pigeonhole(s, r - 1);
    }
  }

  /** A round has at most r/2 operations, so its 2 * op_r packed bits fit the r-bit buffers. */
  lemma OperationsFit(idx0: seq<nat>, idx1: seq<nat>, r: nat, h: nat)
    requires h >= 1 && RoundIndices(idx0, idx1, r, h)
    ensures 2 * |idx1| <= r
  {
    hide UpperHalf;
    var low := seq(|idx1|, e requires 0 <= e < |idx1| => if idx1[e] >= h then idx1[e] - h else 0);
    forall e | 0 <= e < |idx1| ensures low[e] == idx1[e] - h && !UpperHalf(low[e], h) && UpperHalf(idx1[e], h) {
      assert Entry(idx0[e], idx1[e], h);
      LowerPartner(idx1[e], h);
    }
    Pigeonhole(idx1 + low, r);
  }

  lemma LowerPartner(x: nat, h: nat)
    requires h >= 1 && UpperHalf(x, h)
    ensures x >= h && !UpperHalf(x - h, h)
  {
    var d := 2 * h;
    var q, t := x / d, x % d;
    DivSplit(x, d);
    DivModUnique(x - h, d, q, t - h);
  }

  /** Position h itself is an operation of its round, so no round is empty. */
  lemma RoundNotEmpty(idx0: seq<nat>, idx1: seq<nat>, r: nat, h: nat)
    requires h >= 1 && h < r && RoundIndices(idx0, idx1, r, h)
    ensures |idx1| >= 1
  {
    DivModUnique(h, 2 * h, 0, h);
    assert h in idx1;
  }
}
