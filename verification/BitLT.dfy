/**
 Comparison of a public number with a bitwise-shared one, by the carry out of a + ~b + 1.

 The carry is computed by a tree over (p, g) pairs: neighbours are combined level by level, and an odd
 last pair moves up unchanged.
 */
module BitLT {
  import opened Ring
  import opened Words
  import opened NodeNetworks
  import opened Sharings
  import opened Cluster
  import opened Multiplication
  import opened Carries
  import opened BitShares

  // ---------- operands of one level ----------

  /** First operand: p and g of the even positions, interleaved. */
  function EvenWord(p: nat, g: nat, even: nat): nat {
    Or(And(p, even), Wrap(And(g, even) * 2))
  }

  /** Second operand: p of the odd positions, twice. */
  function OddWord(p: nat, odd: nat): nat {
    Or(And(p, odd) / 2, And(p, odd))
  }

  lemma EvenWordBits(p: nat, g: nat, r: nat, j: nat)
    requires 2 * j + 1 < r < W
    ensures Bit(EvenWord(p, g, EvenMask(r)), 2 * j) == Bit(p, 2 * j)
    ensures Bit(EvenWord(p, g, EvenMask(r)), 2 * j + 1) == Bit(g, 2 * j)
  {
    hide Bit, And, Or, Wrap, EvenMask;
    var e := EvenMask(r);
    var x, y := And(p, e), And(g, e);
    forall i | 2 * j - 1 <= i <= 2 * j + 1 && i >= 0
      ensures Bit(x, i) == (Bit(p, i) && i % 2 == 0) && Bit(y, i) == (Bit(g, i) && i % 2 == 0)
    {
      MaskBits(r, i);
      BitAnd(p, e, i);
      BitAnd(g, e, i);
    }
    DoubleBit(y, 2 * j);
    DoubleBit(y, 2 * j + 1);
    BitOr(x, Wrap(y * 2), 2 * j);
    BitOr(x, Wrap(y * 2), 2 * j + 1);
  }

  lemma OddWordBits(p: nat, r: nat, j: nat)
    requires 2 * j + 1 < r < W
    ensures Bit(OddWord(p, OddMask(r)), 2 * j) == Bit(p, 2 * j + 1)
    ensures Bit(OddWord(p, OddMask(r)), 2 * j + 1) == Bit(p, 2 * j + 1)
  {
    hide Bit, And, Or, OddMask;
    var o := OddMask(r);
    var x := And(p, o);
    forall i | 2 * j <= i <= 2 * j + 2 && i < W
      ensures Bit(x, i) == (Bit(p, i) && i % 2 == 1 && i < r)
    {
      MaskBits(r, i);
      BitAnd(p, o, i);
    }
    NextBitUp(x, 2 * j);
    NextBitUp(x, 2 * j + 1);
    BitOr(x / 2, x, 2 * j);
    BitOr(x / 2, x, 2 * j + 1);
  }

  /** `CarryBuffer`, its first operand: the same bits one by one, into a cleared word. */
  function CarryWord(p: nat, g: nat, k: nat): nat {
    if k == 0 then 0
    else SetBit(SetBit(CarryWord(p, g, k - 1), 2 * k - 2, GetBit(p, 2 * k - 2)), 2 * k - 1, GetBit(g, 2 * k - 2))
  }

  lemma {:induction false} CarryWordBits(p: nat, g: nat, k: nat, j: nat)
    requires j < k
    ensures Bit(CarryWord(p, g, k), 2 * j) == Bit(p, 2 * j)
    ensures Bit(CarryWord(p, g, k), 2 * j + 1) == Bit(g, 2 * j)
    decreases k
  {
    hide Bit, SetBit;
    var x := CarryWord(p, g, k - 1);
    var y := SetBit(x, 2 * k - 2, GetBit(p, 2 * k - 2));
    forall i | 2 * j <= i <= 2 * j + 1
      ensures Bit(CarryWord(p, g, k), i) ==
        if i == 2 * k - 1 then Bit(g, 2 * k - 2) else if i == 2 * k - 2 then Bit(p, 2 * k - 2) else Bit(x, i)
    {
      BitSetBit(x, 2 * k - 2, GetBit(p, 2 * k - 2), i);
      BitSetBit(y, 2 * k - 1, GetBit(g, 2 * k - 2), i);
    }
    if j < k - 1 {
      CarryWordBits(p, g, k - 1, j);
    }
  }

  /** Its second operand: every odd bit of p, twice. */
  function CarryOddWord(p: nat, k: nat): nat {
    if k == 0 then 0
    else SetBit(SetBit(CarryOddWord(p, k - 1), 2 * k - 2, GetBit(p, 2 * k - 1)), 2 * k - 1, GetBit(p, 2 * k - 1))
  }

  lemma {:induction false} CarryOddWordBits(p: nat, k: nat, j: nat)
    requires j < k
    ensures Bit(CarryOddWord(p, k), 2 * j) == Bit(p, 2 * j + 1)
    ensures Bit(CarryOddWord(p, k), 2 * j + 1) == Bit(p, 2 * j + 1)
    decreases k
  {
    hide Bit, SetBit;
    var x := CarryOddWord(p, k - 1);
    var y := SetBit(x, 2 * k - 2, GetBit(p, 2 * k - 1));
    forall i | 2 * j <= i <= 2 * j + 1
      ensures Bit(CarryOddWord(p, k), i) == if 2 * k - 2 <= i <= 2 * k - 1 then Bit(p, 2 * k - 1) else Bit(x, i)
    {
      BitSetBit(x, 2 * k - 2, GetBit(p, 2 * k - 1), i);
      BitSetBit(y, 2 * k - 1, GetBit(p, 2 * k - 1), i);
    }
    if j < k - 1 {
      CarryOddWordBits(p, k - 1, j);
    }
  }

  /** The masked operands agree with the bit-by-bit ones on every bit that is read later. */
  lemma OptimalAgreesWithCarryBuffer(p: nat, g: nat, r: nat, i: nat)
    requires i < 2 * (r / 2) && r < W
    ensures Bit(EvenWord(p, g, EvenMask(r)), i) == Bit(CarryWord(p, g, r / 2), i)
    ensures Bit(OddWord(p, OddMask(r)), i) == Bit(CarryOddWord(p, r / 2), i)
  {
    hide Bit, EvenWord, OddWord, CarryWord, CarryOddWord, EvenMask, OddMask;
    EvenWordBits(p, g, r, i / 2);
    CarryWordBits(p, g, r / 2, i / 2);
    OddWordBits(p, r, i / 2);
    CarryOddWordBits(p, r / 2, i / 2);
  }

  /** `OptimalBuffer` on cleared buffers, with the tables of each party. */
  function EvenOperand(p: Sharing, g: Sharing, m: Public): Sharing {
    Three(Pair(EvenWord(p.p1.s0, g.p1.s0, m.p1), EvenWord(p.p1.s1, g.p1.s1, m.p1)),
          Pair(EvenWord(p.p2.s0, g.p2.s0, m.p2), EvenWord(p.p2.s1, g.p2.s1, m.p2)),
          Pair(EvenWord(p.p3.s0, g.p3.s0, m.p3), EvenWord(p.p3.s1, g.p3.s1, m.p3)))
  }

  function OddOperand(p: Sharing, m: Public): Sharing {
    Three(Pair(OddWord(p.p1.s0, m.p1), OddWord(p.p1.s1, m.p1)),
          Pair(OddWord(p.p2.s0, m.p2), OddWord(p.p2.s1, m.p2)),
          Pair(OddWord(p.p3.s0, m.p3), OddWord(p.p3.s1, m.p3)))
  }

  lemma EvenOperandBits(p: Sharing, g: Sharing, m: Public, r: nat, j: nat, lo: PG)
    requires 2 * j + 1 < r < W && Known(m, EvenMask(r)) && HasPair(p, g, 2 * j, lo)
    ensures HasBit(EvenOperand(p, g, m), 2 * j, lo.p) && HasBit(EvenOperand(p, g, m), 2 * j + 1, lo.g)
  {
    hide Bit, EvenWord, EvenMask;
    EvenWordBits(p.p1.s0, g.p1.s0, r, j);
    EvenWordBits(p.p1.s1, g.p1.s1, r, j);
    EvenWordBits(p.p2.s0, g.p2.s0, r, j);
    EvenWordBits(p.p2.s1, g.p2.s1, r, j);
    EvenWordBits(p.p3.s0, g.p3.s0, r, j);
    EvenWordBits(p.p3.s1, g.p3.s1, r, j);
  }

  lemma OddOperandBits(p: Sharing, m: Public, r: nat, j: nat, hi: bool)
    requires 2 * j + 1 < r < W && Known(m, OddMask(r)) && HasBit(p, 2 * j + 1, hi)
    ensures HasBit(OddOperand(p, m), 2 * j, hi) && HasBit(OddOperand(p, m), 2 * j + 1, hi)
  {
    hide Bit, OddWord, OddMask;
    OddWordBits(p.p1.s0, r, j);
    OddWordBits(p.p1.s1, r, j);
    OddWordBits(p.p2.s0, r, j);
    OddWordBits(p.p2.s1, r, j);
    OddWordBits(p.p3.s0, r, j);
    OddWordBits(p.p3.s1, r, j);
  }

  // ---------- reading the products back ----------

  const Cleared: Sharing := Three(Pair(0, 0), Pair(0, 0), Pair(0, 0))

  /** The packed products of one level, as bits. */
  lemma LevelProducts(row: seq<Sharing>, p: Sharing, g: Sharing, me: Public, mo: Public, r: nat, s: seq<PG>, j: nat)
    requires 2 * j + 1 < r == |s| && r < W && Known(me, EvenMask(r)) && Known(mo, OddMask(r))
    requires PackedAnd(row, EvenOperand(p, g, me), OddOperand(p, mo), r) && SharePairs(p, g, s)
    ensures j / 4 < |row|
    ensures HasBit(row[j / 4], 2 * j % 8, s[2 * j].p && s[2 * j + 1].p)
    ensures HasBit(row[j / 4], (2 * j + 1) % 8, s[2 * j].g && s[2 * j + 1].p)
  {
    hide BitAgreed, Parity, EvenOperand, OddOperand, EvenMask, OddMask, Known;
    var a, b := EvenOperand(p, g, me), OddOperand(p, mo);
    assert HasPair(p, g, 2 * j, s[2 * j]) && HasPair(p, g, 2 * j + 1, s[2 * j + 1]);
    EvenOperandBits(p, g, me, r, j, s[2 * j]);
    OddOperandBits(p, mo, r, j, s[2 * j + 1].p);
    assert 2 * j / 8 == j / 4 && (2 * j + 1) / 8 == j / 4;
    assert HasBit(row[2 * j / 8], 2 * j % 8, Parity(a, 2 * j) && Parity(b, 2 * j));
    assert HasBit(row[(2 * j + 1) / 8], (2 * j + 1) % 8, Parity(a, 2 * j + 1) && Parity(b, 2 * j + 1));
  }

  /** One position of the next level: bit j from the packed products and the old g. */
  lemma GatherStep(p': Sharing, g': Sharing, g: Sharing, byte: Sharing, j: nat, t: seq<PG>, lo: PG, hi: PG)
    requires j < |t| && t[j] == Op(hi, lo)
    requires forall m :: 0 <= m < j ==> HasPair(p', g', m, t[m])
    requires HasBit(byte, 2 * j % 8, lo.p && hi.p) && HasBit(byte, (2 * j + 1) % 8, lo.g && hi.p)
    requires HasBit(g, 2 * j + 1, hi.g)
    ensures
      var p2, g2 := CopyBit(p', j, byte, 2 * j % 8), XorBits(g', j, byte, (2 * j + 1) % 8, g, 2 * j + 1);
      forall m :: 0 <= m <= j ==> HasPair(p2, g2, m, t[m])
  {
    hide BitAgreed, Parity, CopyBit, XorBits;
    var p2, g2 := CopyBit(p', j, byte, 2 * j % 8), XorBits(g', j, byte, (2 * j + 1) % 8, g, 2 * j + 1);
    forall m | 0 <= m <= j ensures HasPair(p2, g2, m, t[m]) {
      CopiedBit(p', j, byte, 2 * j % 8, m);
      XoredBit(g', j, byte, (2 * j + 1) % 8, g, 2 * j + 1, m);
      if m < j {
        assert HasPair(p', g', m, t[m]);
      }
    }
  }

  /** The odd last pair moves up. */
  lemma MoveUp(p': Sharing, g': Sharing, p: Sharing, g: Sharing, n: nat, r: nat, t: seq<PG>, last: PG)
    requires n < |t| && t[n] == last && r >= 1
    requires forall m :: 0 <= m < n ==> HasPair(p', g', m, t[m])
    requires HasPair(p, g, r - 1, last)
    ensures
      var p2, g2 := CopyBit(p', n, p, r - 1), CopyBit(g', n, g, r - 1);
      forall m :: 0 <= m <= n ==> HasPair(p2, g2, m, t[m])
  {
    hide BitAgreed, Parity, CopyBit;
    var p2, g2 := CopyBit(p', n, p, r - 1), CopyBit(g', n, g, r - 1);
    forall m | 0 <= m <= n ensures HasPair(p2, g2, m, t[m]) {
      CopiedBit(p', n, p, r - 1, m);
      CopiedBit(g', n, g, r - 1, m);
      if m < n {
        assert HasPair(p', g', m, t[m]);
      }
    }
  }

  /** The rest of a level for one element: the next p and g from the packed products. */
  method Gather(p: Sharing, g: Sharing, row: seq<Sharing>, me: Public, mo: Public, r: nat, ghost s: seq<PG>)
    returns (p': Sharing, g': Sharing)
    requires 1 < r == |s| && r < W && Known(me, EvenMask(r)) && Known(mo, OddMask(r))
    requires PackedAnd(row, EvenOperand(p, g, me), OddOperand(p, mo), r) && SharePairs(p, g, s)
    ensures SharePairs(p', g', HalveRound(s))
  {
    ghost var t := HalveRound(s);
    hide HasPair, HasBit, CopyBit, XorBits, PackedAnd, HalveRound, Op, EvenOperand, OddOperand, Known, EvenMask, OddMask;
    p', g' := Cleared, Cleared;
    for j := 0 to r / 2
      invariant forall m :: 0 <= m < j ==> HasPair(p', g', m, t[m])
    {
      LevelProducts(row, p, g, me, mo, r, s, j);
      LevelPair(p, g, s, j);
      GatherStep(p', g', g, row[j / 4], j, t, s[2 * j], s[2 * j + 1]);
      p' := CopyBit(p', j, row[j / 4], 2 * j % 8);
      g' := XorBits(g', j, row[j / 4], (2 * j + 1) % 8, g, 2 * j + 1);
    }
    if r % 2 == 1 {
      LastPair(s);
      assert HasPair(p, g, r - 1, s[r - 1]);
      MoveUp(p', g', p, g, r / 2, r, t, s[r - 1]);
      p' := CopyBit(p', r / 2, p, r - 1);
      g' := CopyBit(g', r / 2, g, r - 1);
    }
  }

  lemma LevelPair(p: Sharing, g: Sharing, s: seq<PG>, j: nat)
    requires SharePairs(p, g, s) && 2 * j + 1 < |s|
    ensures HalveRound(s)[j] == Op(s[2 * j + 1], s[2 * j]) && HasBit(g, 2 * j + 1, s[2 * j + 1].g)
  {
  }

  lemma LastPair(s: seq<PG>)
    requires |s| % 2 == 1
    ensures HalveRound(s)[|s| / 2] == s[|s| - 1]
  {
  }

  // ---------- the tree ----------

  /** The tree-shaped evaluation the recursive version spells out. */
  function TreeFold(s: seq<PG>): PG
    requires |s| > 0
    decreases |s|
  {
    if |s| == 1 then s[0] else TreeFold(HalveRound(s))
  }

  /** The tree computes the pair of the whole run, for every length. */
  lemma {:induction false} TreeFoldIsSpan(s: seq<PG>)
    requires |s| > 0
    ensures TreeFold(s) == Span(s, 0, |s|)
    decreases |s|
  {
    if |s| > 1 {
      HalveKeepsTotal(s);
      TreeFoldIsSpan(HalveRound(s));
    }
  }

  /** Element i of p and g shares the pairs ss[i]. */
  ghost predicate AllPairs(p: array<Sharing>, g: array<Sharing>, ss: seq<seq<PG>>, r: nat)
    reads p, g
  {
    && p.Length == g.Length == |ss|
    && forall i :: 0 <= i < p.Length ==> |ss[i]| == r && SharePairs(p[i], g[i], ss[i])
  }

  /** One level over the whole vector. */
  ghost function HalveAllRounds(ss: seq<seq<PG>>): (tt: seq<seq<PG>>)
    ensures |tt| == |ss|
    ensures forall i :: 0 <= i < |ss| ==> tt[i] == HalveRound(ss[i])
  {
    seq(|ss|, i requires 0 <= i < |ss| => HalveRound(ss[i]))
  }

  /** One pass of the loop of `new_Rss_CarryOutAux`, and of the body of `Rss_CarryOutAux`: into new buffers. */
  method CarryLevel(p: array<Sharing>, g: array<Sharing>, r: nat, net: Net, ghost ss: seq<seq<PG>>)
    returns (p': array<Sharing>, g': array<Sharing>)
    requires InStep(net) && 1 < r <= net.p1.ring && 1 <= p.Length == g.Length
    requires AllPairs(p, g, ss, r)
    modifies net.p1, net.p2, net.p3
    ensures InStep(net) && Private(net) == old(Private(net))
    ensures fresh(p') && fresh(g') && p' != g' && AllPairs(p', g', HalveAllRounds(ss), (r + 1) / 2)
  {
    var me, mo := LevelMasks(net, r);
    hide *;
    var a, b := Operands(p, g, me, mo);
    var u := MultiplyPacked(a, b, r, net);
    forall i | 0 <= i < p.Length
      ensures PackedAnd(Row(u, i, BytesFor(r)), EvenOperand(p[i], g[i], me), OddOperand(p[i], mo), r)
    {
      assert PackedAnd(Row(u, i, BytesFor(r)), a[i], b[i], r);
    }
    p', g' := GatherAll(p, g, u, me, mo, r, ss);
  }

  /** The even and odd masks of every party's table. */
  method LevelMasks(net: Net, r: nat) returns (me: Public, mo: Public)
    requires InStep(net) && r <= net.p1.ring
    ensures Known(me, EvenMask(r)) && Known(mo, OddMask(r)) && r < W
  {
    hide EvenMask, OddMask;
    me := Three(net.p1.even[r], net.p2.even[r], net.p3.even[r]);
    mo := Three(net.p1.odd[r], net.p2.odd[r], net.p3.odd[r]);
  }

  method GatherAll(p: array<Sharing>, g: array<Sharing>, u: array<Sharing>, me: Public, mo: Public, r: nat,
                   ghost ss: seq<seq<PG>>)
    returns (p': array<Sharing>, g': array<Sharing>)
    requires 1 < r < W && Known(me, EvenMask(r)) && Known(mo, OddMask(r)) && AllPairs(p, g, ss, r)
    requires forall i :: 0 <= i < p.Length ==>
      PackedAnd(Row(u, i, BytesFor(r)), EvenOperand(p[i], g[i], me), OddOperand(p[i], mo), r)
    ensures fresh(p') && fresh(g') && p' != g' && AllPairs(p', g', HalveAllRounds(ss), (r + 1) / 2)
  {
    ghost var tt := HalveAllRounds(ss);
    hide SharePairs, PackedAnd, EvenOperand, OddOperand, EvenMask, OddMask, HalveRound, BytesFor, Known, HalveAllRounds, Row;
    p' := new Sharing[p.Length];
    g' := new Sharing[p.Length];
    for i := 0 to p.Length
      invariant forall m :: 0 <= m < i ==> SharePairs(p'[m], g'[m], tt[m])
      modifies p', g'
    {
      assert SharePairs(p[i], g[i], ss[i]) && |ss[i]| == r;
      var row := Row(u, i, BytesFor(r));
      assert PackedAnd(row, EvenOperand(p[i], g[i], me), OddOperand(p[i], mo), r);
      p'[i], g'[i] := Gather(p[i], g[i], row, me, mo, r, ss[i]);
    }
  }

  /** `OptimalBuffer` over the vector. */
  method Operands(p: array<Sharing>, g: array<Sharing>, me: Public, mo: Public)
    returns (a: array<Sharing>, b: array<Sharing>)
    requires p.Length == g.Length
    ensures fresh(a) && fresh(b) && a.Length == b.Length == p.Length
    ensures forall i :: 0 <= i < p.Length ==> a[i] == EvenOperand(p[i], g[i], me) && b[i] == OddOperand(p[i], mo)
  {
    hide *;
    a := new Sharing[p.Length];
    b := new Sharing[p.Length];
    for i := 0 to p.Length
      invariant forall m :: 0 <= m < i ==> a[m] == EvenOperand(p[m], g[m], me) && b[m] == OddOperand(p[m], mo)
      modifies a, b
    {
      a[i] := EvenOperand(p[i], g[i], me);
      b[i] := OddOperand(p[i], mo);
    }
  }

  /** The tree's result for every element. */
  ghost predicate TreeResult(res: Sharing, s: seq<PG>) {
    |s| > 0 && HasBit(res, 0, TreeFold(s).g)
  }

  /** Copies the buffers back for the next round. */
  method CopyPairs(p: array<Sharing>, g: array<Sharing>, p': array<Sharing>, g': array<Sharing>, r: nat, ghost ss: seq<seq<PG>>)
    requires p != g && p != g' && p.Length == |ss| && AllPairs(p', g', ss, r) && g.Length == |ss|
    modifies p, g
    ensures AllPairs(p, g, ss, r)
  {
    hide SharePairs;
    CopyVector(p, p');
    CopyVector(g, g');
    forall i | 0 <= i < p.Length ensures |ss[i]| == r && SharePairs(p[i], g[i], ss[i]) {
      assert SharePairs(old(p'[i]), old(g'[i]), ss[i]);
    }
  }

  /** `new_Rss_CarryOutAux`: the loop over levels, then bit 0 of g. */
  method NewCarryOutAux(res: array<Sharing>, p: array<Sharing>, g: array<Sharing>, k: nat, net: Net, ghost ss: seq<seq<PG>>)
    requires InStep(net) && 1 <= k <= net.p1.ring && 1 <= res.Length == p.Length && p != g && res != p && res != g
    requires AllPairs(p, g, ss, k)
    modifies res, p, g, net.p1, net.p2, net.p3
    ensures InStep(net) && Private(net) == old(Private(net))
    ensures forall i :: 0 <= i < res.Length ==> TreeResult(res[i], ss[i])
  {
    assert p.Length == g.Length == |ss|;
    hide *;
    var r := k;
    ghost var tt := ss;
    while r > 1
      invariant 1 <= r <= k && InStep(net) && Private(net) == old(Private(net))
      invariant AllPairs(p, g, tt, r) && |tt| == |ss|
      invariant SameFold(tt, ss)
      decreases r
    {
      var p', g' := CarryLevel(p, g, r, net, tt);
      CopyPairs(p, g, p', g', (r + 1) / 2, HalveAllRounds(tt));
      HalvedFold(tt, ss, p, g, r);
      tt := HalveAllRounds(tt);
      var newR := r / 2;
      if r % 2 == 1 {
        newR := newR + 1;
      }
      r := newR;
    }
    ReadBase(res, p, g, tt, ss);
  }

  /** `Rss_CarryOutAux`: the recursive version on its own buffers, with the same result. */
  method CarryOutAux(res: array<Sharing>, p: array<Sharing>, g: array<Sharing>, r: nat, net: Net, ghost ss: seq<seq<PG>>)
    requires InStep(net) && 1 <= r <= net.p1.ring && 1 <= res.Length == p.Length && res != p && res != g
    requires AllPairs(p, g, ss, r)
    modifies res, net.p1, net.p2, net.p3
    ensures InStep(net) && Private(net) == old(Private(net))
    ensures forall i :: 0 <= i < res.Length ==> TreeResult(res[i], ss[i])
    decreases r
  {
    assert p.Length == g.Length == |ss|;
    hide *;
    SameFoldRefl(ss);
    if r > 1 {
      var p', g' := CarryLevel(p, g, r, net, ss);
      HalvedFold(ss, ss, p', g', r);
      ghost var tt := HalveAllRounds(ss);
      CarryOutAux(res, p', g', (r + 1) / 2, net, tt);
      forall i | 0 <= i < res.Length ensures TreeResult(res[i], ss[i]) {
        FoldTransfer(res[i], tt, ss, i);
      }
    } else {
      ReadBase(res, p, g, ss, ss);
    }
  }

  /** Both evaluations of the tree agree element by element. */
  ghost predicate SameFold(tt: seq<seq<PG>>, ss: seq<seq<PG>>) {
    |tt| == |ss| && forall i :: 0 <= i < |ss| ==>
      (|ss[i]| > 0 ==> |tt[i]| > 0 && TreeFold(tt[i]) == TreeFold(ss[i]))
  }

  lemma SameFoldRefl(ss: seq<seq<PG>>)
    ensures SameFold(ss, ss)
  {
  }

  lemma HalvedFold(tt: seq<seq<PG>>, ss: seq<seq<PG>>, p: array<Sharing>, g: array<Sharing>, r: nat)
    requires r > 1 && SameFold(tt, ss) && AllPairs(p, g, HalveAllRounds(tt), (r + 1) / 2)
    requires forall i :: 0 <= i < |tt| ==> |tt[i]| == r
    ensures SameFold(HalveAllRounds(tt), ss)
  {
  }

  lemma FoldTransfer(res: Sharing, tt: seq<seq<PG>>, ss: seq<seq<PG>>, i: nat)
    requires SameFold(tt, ss) && i < |ss| && |ss[i]| > 0 && TreeResult(res, tt[i])
    ensures TreeResult(res, ss[i])
  {
  }

  /** The base case: bit 0 of res from bit 0 of g. */
  method ReadBase(res: array<Sharing>, p: array<Sharing>, g: array<Sharing>, ghost tt: seq<seq<PG>>, ghost ss: seq<seq<PG>>)
    requires res != p && res != g && res.Length == p.Length == g.Length == |ss|
    requires AllPairs(p, g, tt, 1) && SameFold(tt, ss) && forall i :: 0 <= i < |ss| ==> |ss[i]| > 0
    modifies res
    ensures forall i :: 0 <= i < res.Length ==> TreeResult(res[i], ss[i])
  {
    hide HasBit, CopyBit, SharePairs, TreeResult, SameFold;
    for i := 0 to res.Length
      invariant forall m :: 0 <= m < i ==> TreeResult(res[m], ss[m])
    {
      assert SharePairs(p[i], g[i], tt[i]) && |tt[i]| == 1;
      BaseBit(res[i], p[i], g[i], tt[i]);
      FoldTransfer(CopyBit(res[i], 0, g[i], 0), tt, ss, i);
      res[i] := CopyBit(res[i], 0, g[i], 0);
    }
  }

  lemma BaseBit(res: Sharing, p: Sharing, g: Sharing, t: seq<PG>)
    requires |t| == 1 && SharePairs(p, g, t)
    ensures TreeResult(CopyBit(res, 0, g, 0), t)
  {
    hide BitAgreed, Parity, CopyBit;
    assert HasPair(p, g, 0, t[0]);
    CopiedBit(res, 0, g, 0, 0);
  }

  // ---------- the initial pairs ----------

  /** -1 in the slots that count a public constant (share 2), 0 elsewhere. */
  function Ones(ai: nat): nat {
    if ai == 1 then Mask(W) else 0
  }

  /** (a & a1) ^ b on one word. */
  function PropagateWord(a: nat, ai: nat, b: nat): nat {
    Xor(And(a, Ones(ai)), b)
  }

  function Propagate(a: Public, b: Sharing): Sharing {
    Three(Pair(PropagateWord(a.p1, Ai.p1.s0, b.p1.s0), PropagateWord(a.p1, Ai.p1.s1, b.p1.s1)),
          Pair(PropagateWord(a.p2, Ai.p2.s0, b.p2.s0), PropagateWord(a.p2, Ai.p2.s1, b.p2.s1)),
          Pair(PropagateWord(a.p3, Ai.p3.s0, b.p3.s0), PropagateWord(a.p3, Ai.p3.s1, b.p3.s1)))
  }

  /** a & b. */
  function Generate(a: Public, b: Sharing): Sharing {
    Three(Pair(And(a.p1, b.p1.s0), And(a.p1, b.p1.s1)),
          Pair(And(a.p2, b.p2.s0), And(a.p2, b.p2.s1)),
          Pair(And(a.p3, b.p3.s0), And(a.p3, b.p3.s1)))
  }

  lemma PropagateWordBit(a: nat, ai: nat, b: nat, j: nat)
    requires j < W
    ensures Bit(PropagateWord(a, ai, b), j) == ((ai == 1 && Bit(a, j)) != Bit(b, j))
  {
    hide Bit, And, Xor, Mask;
    BitXor(And(a, Ones(ai)), b, j);
    BitAnd(a, Ones(ai), j);
    MaskBit(W, j);
    BitZero(j);
  }

  lemma PropagateBit(a: Public, v: nat, b: Sharing, j: nat)
    requires j < W && Known(a, v) && BitAgreed(b, j)
    ensures HasBit(Propagate(a, b), j, Bit(v, j) != Parity(b, j))
  {
    hide Bit, PropagateWord;
    PropagateWordBit(v, 1, b.p1.s0, j);
    PropagateWordBit(v, 0, b.p1.s1, j);
    PropagateWordBit(v, 0, b.p2.s0, j);
    PropagateWordBit(v, 0, b.p2.s1, j);
    PropagateWordBit(v, 0, b.p3.s0, j);
    PropagateWordBit(v, 1, b.p3.s1, j);
  }

  lemma GenerateBit(a: Public, v: nat, b: Sharing, j: nat)
    requires Known(a, v) && BitAgreed(b, j)
    ensures HasBit(Generate(a, b), j, Bit(v, j) && Parity(b, j))
  {
    hide Bit, And;
    BitAnd(v, b.p1.s0, j);
    BitAnd(v, b.p1.s1, j);
    BitAnd(v, b.p2.s0, j);
    BitAnd(v, b.p2.s1, j);
    BitAnd(v, b.p3.s0, j);
    BitAnd(v, b.p3.s1, j);
  }

  /** g with the carry in folded into bit 0. */
  function WithCarryIn(p: Sharing, g: Sharing): Sharing {
    XorBits(g, 0, g, 0, p, 0)
  }

  /** The circuit starts from the pairs of a + b + 1. */
  lemma InitialPairs(a: Public, v: nat, b: Sharing, w: nat, k: nat)
    requires k < W && Known(a, v)
    requires forall j :: 0 <= j < k ==> HasBit(b, j, Bit(w, j))
    ensures SharePairs(Propagate(a, b), WithCarryIn(Propagate(a, b), Generate(a, b)), AdderPairs(v, w, true, k))
  {
    var p, g := Propagate(a, b), Generate(a, b);
    var s := AdderPairs(v, w, true, k);
    hide Bit, BitAgreed, Parity, Propagate, Generate, XorBits, Known;
    forall j | 0 <= j < k ensures HasPair(p, WithCarryIn(p, g), j, s[j]) {
      assert HasBit(b, j, Bit(w, j));
      PropagateBit(a, v, b, j);
      GenerateBit(a, v, b, j);
      XoredBit(g, 0, g, 0, p, 0, j);
    }
  }

  /** `Rss_CarryOut`: bit 0 of res shares the carry out of a + b + 1 over k bits. */
  method CarryOut(res: array<Sharing>, a: array<Public>, b: array<Sharing>, k: nat, net: Net, ghost ws: seq<nat>)
    requires InStep(net) && 1 <= k <= net.p1.ring && 1 <= res.Length == a.Length == b.Length == |ws|
    requires forall i :: 0 <= i < a.Length ==> Known(a[i], a[i].p1)
    requires forall i, j :: 0 <= i < b.Length && 0 <= j < k ==> HasBit(b[i], j, Bit(ws[i], j))
    modifies res, net.p1, net.p2, net.p3
    ensures InStep(net) && Private(net) == old(Private(net))
    ensures forall i :: 0 <= i < res.Length ==> HasBit(res[i], 0, Carry(a[i].p1, ws[i], true, k))
  {
    RingBelowWord(net);
    hide *;
    var n := a.Length;
    ghost var ss := seq(n, i requires 0 <= i < n reads a => AdderPairs(a[i].p1, ws[i], true, k));
    var p, g := FirstPairs(a, b, k, ws, ss);
    NewCarryOutAux(res, p, g, k, net, ss);
    forall i | 0 <= i < n ensures HasBit(res[i], 0, Carry(a[i].p1, ws[i], true, k)) {
      TreeResultIsCarry(res[i], a[i].p1, ws[i], k);
    }
  }

  lemma RingBelowWord(net: Net)
    requires InStep(net)
    ensures net.p1.ring + 2 <= W
  {
  }

  lemma TreeResultIsCarry(res: Sharing, v: nat, w: nat, k: nat)
    requires k >= 1 && TreeResult(res, AdderPairs(v, w, true, k))
    ensures HasBit(res, 0, Carry(v, w, true, k))
  {
    hide HasBit, AdderPairs, TreeFold;
    TreeFoldIsSpan(AdderPairs(v, w, true, k));
    AdderCarry(v, w, true, k, k);
  }

  method FirstPairs(a: array<Public>, b: array<Sharing>, k: nat, ghost ws: seq<nat>, ghost ss: seq<seq<PG>>)
    returns (p: array<Sharing>, g: array<Sharing>)
    requires k < W && a.Length == b.Length == |ws| == |ss|
    requires forall i :: 0 <= i < a.Length ==> Known(a[i], a[i].p1) && ss[i] == AdderPairs(a[i].p1, ws[i], true, k)
    requires forall i, j :: 0 <= i < b.Length && 0 <= j < k ==> HasBit(b[i], j, Bit(ws[i], j))
    ensures fresh(p) && fresh(g) && p != g && AllPairs(p, g, ss, k)
  {
    hide Bit, SharePairs, AdderPairs, HasBit, Propagate, Generate, WithCarryIn, Known;
    p := new Sharing[a.Length];
    g := new Sharing[a.Length];
    for i := 0 to a.Length
      invariant forall m :: 0 <= m < i ==> |ss[m]| == k && SharePairs(p[m], g[m], ss[m])
      modifies p, g
    {
      p[i] := Propagate(a[i], b[i]);
      g[i] := Generate(a[i], b[i]);
      g[i] := WithCarryIn(p[i], g[i]);
      assert Known(a[i], a[i].p1) && ss[i] == AdderPairs(a[i].p1, ws[i], true, k);
      InitialPairs(a[i], a[i].p1, b[i], ws[i], k);
    }
  }

  // ---------- the comparison ----------

  /** b ^ b1: all bits flipped in the slots that hold share 2. */
  function Flip(b: Sharing): Sharing {
    Three(Pair(Xor(b.p1.s0, Mask(W)), Xor(b.p1.s1, 0)), Pair(Xor(b.p2.s0, 0), Xor(b.p2.s1, 0)),
          Pair(Xor(b.p3.s0, 0), Xor(b.p3.s1, Mask(W))))
  }

  lemma FlippedBit(b: Sharing, j: nat)
    requires j < W
    ensures BitAgreed(Flip(b), j) == BitAgreed(b, j) && Parity(Flip(b), j) == !Parity(b, j)
  {
    hide Bit, Xor, Mask;
    MaskBit(W, j);
    BitZero(j);
    BitXor(b.p1.s0, Mask(W), j);
    BitXor(b.p1.s1, 0, j);
    BitXor(b.p2.s0, 0, j);
    BitXor(b.p2.s1, 0, j);
    BitXor(b.p3.s0, 0, j);
    BitXor(b.p3.s1, Mask(W), j);
  }

  /** The sharing of the complement of b's k-bit secret. */
  lemma FlipIsComplement(b: Sharing, k: nat, j: nat)
    requires k < W && j < k && Agreed(b, k)
    ensures HasBit(Flip(b), j, Bit(Complement(XorValue(b, k), k), j))
  {
    hide Bit, XorSum, BitAgreed, Parity, Flip, Agreed, Complement;
    AgreedBit(b, k, j);
    FlippedBit(b, j);
    XorSumBit(b, j);
    BitMod(XorSum(b), k, j);
    CongMod(XorSum(b), k);
    ComplementIs(XorValue(b, k), k, j);
  }

  function Complement(v: nat, k: nat): nat {
    if v < Pow2(k) then Mask(k) - v else 0
  }

  lemma ComplementIs(v: nat, k: nat, j: nat)
    requires v < Pow2(k) && j < k
    ensures Bit(Complement(v, k), j) == !Bit(v, j)
  {
    hide Bit;
    ComplementBit(v, k, j);
  }

  /** a + ~b + 1 overflows k bits exactly when a is at least b. */
  lemma CarryIsNotLess(v: nat, b: nat, k: nat)
    requires b < Pow2(k)
    ensures Carry(v, Complement(b, k), true, k) <==> v % Pow2(k) >= b
  {
    CarryOverflow(v, Complement(b, k), true, k);
    ModSmall(Mask(k) - b, k);
  }

  /** The six words are single bits and share the bit v. */
  ghost predicate BitResult(x: Sharing, v: bool) {
    && x.p1.s0 < 2 && x.p1.s1 < 2 && x.p2.s0 < 2 && x.p2.s1 < 2 && x.p3.s0 < 2 && x.p3.s1 < 2
    && HasBit(x, 0, v)
  }

  /** GET_BIT(res, 0) ^ GET_BIT(b1, 0). */
  function Negate(x: Sharing): Sharing {
    Three(Pair(Xor(GetBit(x.p1.s0, 0), Ai.p1.s0), Xor(GetBit(x.p1.s1, 0), Ai.p1.s1)),
          Pair(Xor(GetBit(x.p2.s0, 0), Ai.p2.s0), Xor(GetBit(x.p2.s1, 0), Ai.p2.s1)),
          Pair(Xor(GetBit(x.p3.s0, 0), Ai.p3.s0), Xor(GetBit(x.p3.s1, 0), Ai.p3.s1)))
  }

  lemma NegatedBit(x: Sharing, v: bool)
    requires HasBit(x, 0, v)
    ensures BitResult(Negate(x), !v)
  {
  }

  /** `Rss_BitLT`: res shares the bit a < b, on the k-bit numbers a (public) and b (shared); res may be b. */
  method BitLT(res: array<Sharing>, a: array<Public>, b: array<Sharing>, k: nat, net: Net)
    requires InStep(net) && 1 <= k <= net.p1.ring && 1 <= res.Length == a.Length == b.Length
    requires forall i :: 0 <= i < a.Length ==> Known(a[i], a[i].p1) && Agreed(b[i], k)
    modifies res, net.p1, net.p2, net.p3
    ensures InStep(net) && Private(net) == old(Private(net))
    ensures forall i :: 0 <= i < res.Length ==> BitResult(res[i], a[i].p1 % Pow2(k) < XorValue(old(b[i]), k))
  {
    RingBelowWord(net);
    hide *;
    ghost var vs := seq(b.Length, i requires 0 <= i < b.Length reads b => XorValue(b[i], k));
    var b', ws := FlipAll(b, k);
    CarryOut(res, a, b', k, net, ws);
    forall i | 0 <= i < |ws| ensures vs[i] < Pow2(k) && ws[i] == Complement(vs[i], k) {
      XorValueBound(old(b[i]), k);
    }
    NegateAll(res, a, k, vs, ws);
  }

  /** The complemented sharing, and the numbers it shares. */
  method FlipAll(b: array<Sharing>, k: nat) returns (b': array<Sharing>, ghost ws: seq<nat>)
    requires k < W && forall i :: 0 <= i < b.Length ==> Agreed(b[i], k)
    ensures fresh(b') && b'.Length == b.Length == |ws|
    ensures forall i :: 0 <= i < |ws| ==> ws[i] == Complement(XorValue(b[i], k), k)
    ensures forall i, j :: 0 <= i < b'.Length && 0 <= j < k ==> HasBit(b'[i], j, Bit(ws[i], j))
  {
    hide *;
    b' := new Sharing[b.Length];
    ws := [];
    for i := 0 to b.Length
      invariant |ws| == i
      invariant forall m :: 0 <= m < i ==> ws[m] == Complement(XorValue(b[m], k), k) && b'[m] == Flip(b[m])
      modifies b'
    {
      b'[i] := Flip(b[i]);
      ws := ws + [Complement(XorValue(b[i], k), k)];
    }
    forall i, j | 0 <= i < b'.Length && 0 <= j < k ensures HasBit(b'[i], j, Bit(ws[i], j)) {
      FlipIsComplement(b[i], k, j);
    }
  }

  method NegateAll(res: array<Sharing>, a: array<Public>, k: nat, ghost vs: seq<nat>, ghost ws: seq<nat>)
    requires res.Length == a.Length == |vs| == |ws|
    requires forall i :: 0 <= i < |ws| ==> vs[i] < Pow2(k) && ws[i] == Complement(vs[i], k)
    requires forall i :: 0 <= i < res.Length ==> HasBit(res[i], 0, Carry(a[i].p1, ws[i], true, k))
    modifies res
    ensures forall i :: 0 <= i < res.Length ==> BitResult(res[i], a[i].p1 % Pow2(k) < vs[i])
  {
    hide *;
    for i := 0 to res.Length
      invariant forall m :: 0 <= m < i ==> BitResult(res[m], a[m].p1 % Pow2(k) < vs[m])
      invariant forall m :: i <= m < res.Length ==> HasBit(res[m], 0, Carry(a[m].p1, ws[m], true, k))
    {
      CarryIsNotLess(a[i].p1, vs[i], k);
      NegatedBit(res[i], Carry(a[i].p1, ws[i], true, k));
      res[i] := Negate(res[i]);
    }
  }

  lemma XorValueBound(b: Sharing, k: nat)
    ensures XorValue(b, k) < Pow2(k)
  {
  }
}
