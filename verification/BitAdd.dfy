/**
 The prefix adder on bitwise sharings.

 `Rss_CircleOpL` turns the (p, g) pairs of single positions into the pairs of all prefixes, in rounds
 over aligned blocks of doubling size, for ring sizes that need not be powers of two.
 */
module BitAdd {
  import opened Ring
  import opened Words
  import opened Sharings
  import opened Cluster
  import opened Multiplication
  import opened Carries
  import opened BitShares
  import opened PrefixIndices
  import BitLT

  // ---------- the operands of one round ----------

  /** The first n operations are packed: bits 2e and 2e+1 of a and b. */
  ghost predicate Packed(a: Sharing, b: Sharing, idx0: seq<nat>, idx1: seq<nat>, n: nat, t: seq<PG>) {
    && n <= |idx0| == |idx1|
    && (forall e :: 0 <= e < n ==> idx0[e] < |t| && idx1[e] < |t|)
    && (forall e :: 0 <= e < n ==> PackedAt(a, b, e, t[idx0[e]], t[idx1[e]]))
  }

  ghost predicate PackedAt(a: Sharing, b: Sharing, e: nat, lo: PG, hi: PG) {
    && HasBit(a, 2 * e, lo.p) && HasBit(a, 2 * e + 1, lo.g)
    && HasBit(b, 2 * e, hi.p) && HasBit(b, 2 * e + 1, hi.p)
  }

  /** Two SET_BITs into neighbouring bits 2n and 2n+1. */
  function CopyTwo(x: Sharing, n: nat, y: Sharing, i: nat, z: Sharing, j: nat): Sharing {
    CopyBit(CopyBit(x, 2 * n, y, i), 2 * n + 1, z, j)
  }

  lemma CopyTwoBits(x: Sharing, n: nat, y: Sharing, i: nat, z: Sharing, j: nat, u: bool, v: bool)
    requires HasBit(y, i, u) && HasBit(z, j, v)
    ensures HasBit(CopyTwo(x, n, y, i, z, j), 2 * n, u) && HasBit(CopyTwo(x, n, y, i, z, j), 2 * n + 1, v)
  {
    hide BitAgreed, Parity, CopyBit;
    CopiedBit(x, 2 * n, y, i, 2 * n);
    CopiedBit(CopyBit(x, 2 * n, y, i), 2 * n + 1, z, j, 2 * n);
    CopiedBit(CopyBit(x, 2 * n, y, i), 2 * n + 1, z, j, 2 * n + 1);
  }

  lemma CopyTwoKeeps(x: Sharing, n: nat, y: Sharing, i: nat, z: Sharing, j: nat, m: nat, v: bool)
    requires HasBit(x, m, v) && m < 2 * n
    ensures HasBit(CopyTwo(x, n, y, i, z, j), m, v)
  {
    hide BitAgreed, Parity, CopyBit;
    CopiedBit(x, 2 * n, y, i, m);
    CopiedBit(CopyBit(x, 2 * n, y, i), 2 * n + 1, z, j, m);
  }

  lemma PackStep(a: Sharing, b: Sharing, p: Sharing, g: Sharing, idx0: seq<nat>, idx1: seq<nat>, n: nat, t: seq<PG>)
    requires Packed(a, b, idx0, idx1, n, t) && n < |idx0| && idx0[n] < |t| && idx1[n] < |t| && SharePairs(p, g, t)
    ensures Packed(CopyTwo(a, n, p, idx0[n], g, idx0[n]), CopyTwo(b, n, p, idx1[n], p, idx1[n]), idx0, idx1, n + 1, t)
  {
    var lo, hi := t[idx0[n]], t[idx1[n]];
    var a2, b2 := CopyTwo(a, n, p, idx0[n], g, idx0[n]), CopyTwo(b, n, p, idx1[n], p, idx1[n]);
    assert HasPair(p, g, idx0[n], lo) && HasPair(p, g, idx1[n], hi);
    hide HasBit, CopyTwo;
    CopyTwoBits(a, n, p, idx0[n], g, idx0[n], lo.p, lo.g);
    CopyTwoBits(b, n, p, idx1[n], p, idx1[n], hi.p, hi.p);
    forall e | 0 <= e < n ensures PackedAt(a2, b2, e, t[idx0[e]], t[idx1[e]]) {
      assert PackedAt(a, b, e, t[idx0[e]], t[idx1[e]]);
      CopyTwoKeeps(a, n, p, idx0[n], g, idx0[n], 2 * e, t[idx0[e]].p);
      CopyTwoKeeps(a, n, p, idx0[n], g, idx0[n], 2 * e + 1, t[idx0[e]].g);
      CopyTwoKeeps(b, n, p, idx1[n], p, idx1[n], 2 * e, t[idx1[e]].p);
      CopyTwoKeeps(b, n, p, idx1[n], p, idx1[n], 2 * e + 1, t[idx1[e]].p);
    }
  }

  /** `CarryBuffer2` for one element: bits above the packed ones keep what they held. */
  method CarryBuffer2(a: Sharing, b: Sharing, p: Sharing, g: Sharing, idx0: seq<nat>, idx1: seq<nat>, ghost t: seq<PG>)
    returns (a': Sharing, b': Sharing)
    requires |idx0| == |idx1| && 2 * |idx0| <= W && SharePairs(p, g, t)
    requires forall e :: 0 <= e < |idx0| ==> idx0[e] < |t| && idx1[e] < |t|
    ensures Packed(a', b', idx0, idx1, |idx0|, t)
  {
    hide SharePairs, PackedAt, CopyBit;
    a', b' := a, b;
    for n := 0 to |idx0|
      invariant Packed(a', b', idx0, idx1, n, t)
    {
      PackStep(a', b', p, g, idx0, idx1, n, t);
      a' := CopyBit(a', 2 * n, p, idx0[n]);
      a' := CopyBit(a', 2 * n + 1, g, idx0[n]);
      b' := CopyBit(b', 2 * n, p, idx1[n]);
      b' := CopyBit(b', 2 * n + 1, p, idx1[n]);
    }
  }

  // ---------- writing the products back ----------

  /** The pairs after the first n operations of a round. */
  function PartialRound(t: seq<PG>, idx1: seq<nat>, n: nat, h: nat): (s: seq<PG>)
    requires h >= 1 && n <= |idx1|
    ensures |s| == |t|
  {
    seq(|t|, x requires 0 <= x < |t| => if x in idx1[..n] then PrefixAt(t, x, h) else t[x])
  }

  lemma PartialStep(t: seq<PG>, idx1: seq<nat>, n: nat, h: nat)
    requires h >= 1 && n < |idx1| && idx1[n] < |t|
    ensures PartialRound(t, idx1, n + 1, h) == PartialRound(t, idx1, n, h)[idx1[n] := PrefixAt(t, idx1[n], h)]
  {
  }

  lemma PartialIsRound(t: seq<PG>, idx0: seq<nat>, idx1: seq<nat>, h: nat)
    requires h >= 1 && RoundIndices(idx0, idx1, |t|, h)
    ensures PartialRound(t, idx1, |idx1|, h) == PrefixRound(t, h)
  {
  }

  lemma EntryPair(t: seq<PG>, a: nat, b: nat, h: nat)
    requires h >= 1 && Entry(a, b, h) && b < |t|
    ensures a < b && PrefixAt(t, b, h) == Op(t[b], t[a])
  {
    hide UpperHalf;
    assert b % h >= 0;
  }

  /** One operation: p and g of position x from the packed products. */
  lemma WriteStep(p: Sharing, g: Sharing, byte: Sharing, e: nat, x: nat, s: seq<PG>, lo: PG, hi: PG)
    requires x < |s| && s[x] == hi && SharePairs(p, g, s)
    requires HasBit(byte, 2 * e % 8, lo.p && hi.p) && HasBit(byte, (2 * e + 1) % 8, lo.g && hi.p)
    ensures SharePairs(CopyBit(p, x, byte, 2 * e % 8), XorBits(g, x, byte, (2 * e + 1) % 8, g, x), s[x := Op(hi, lo)])
  {
    var p2, g2 := CopyBit(p, x, byte, 2 * e % 8), XorBits(g, x, byte, (2 * e + 1) % 8, g, x);
    var s2 := s[x := Op(hi, lo)];
    hide BitAgreed, Parity, CopyBit, XorBits;
    assert HasPair(p, g, x, hi);
    forall j | 0 <= j < |s2| ensures HasPair(p2, g2, j, s2[j]) {
      CopiedBit(p, x, byte, 2 * e % 8, j);
      XoredBit(g, x, byte, (2 * e + 1) % 8, g, x, j);
      assert HasPair(p, g, j, s[j]);
    }
  }

  lemma PackedProducts(row: seq<Sharing>, a: Sharing, b: Sharing, idx0: seq<nat>, idx1: seq<nat>, t: seq<PG>, e: nat)
    requires Packed(a, b, idx0, idx1, |idx0|, t) && e < |idx0|
    requires PackedAnd(row, a, b, 2 * |idx0|)
    ensures e / 4 < |row|
    ensures HasBit(row[e / 4], 2 * e % 8, t[idx0[e]].p && t[idx1[e]].p)
    ensures HasBit(row[e / 4], (2 * e + 1) % 8, t[idx0[e]].g && t[idx1[e]].p)
  {
    hide BitAgreed, Parity;
    assert PackedAt(a, b, e, t[idx0[e]], t[idx1[e]]);
    assert 2 * e / 8 == e / 4 && (2 * e + 1) / 8 == e / 4;
    assert HasBit(row[2 * e / 8], 2 * e % 8, Parity(a, 2 * e) && Parity(b, 2 * e));
    assert HasBit(row[(2 * e + 1) / 8], (2 * e + 1) % 8, Parity(a, 2 * e + 1) && Parity(b, 2 * e + 1));
  }

  /** The update loop of a round for one element. */
  method WriteBack(p: Sharing, g: Sharing, a: Sharing, b: Sharing, row: seq<Sharing>, idx0: seq<nat>, idx1: seq<nat>,
                   ghost t: seq<PG>, ghost h: nat)
    returns (p': Sharing, g': Sharing)
    requires h >= 1 && RoundIndices(idx0, idx1, |t|, h) && SharePairs(p, g, t)
    requires Packed(a, b, idx0, idx1, |idx0|, t) && PackedAnd(row, a, b, 2 * |idx0|)
    ensures SharePairs(p', g', PrefixRound(t, h))
  {
    hide SharePairs, Packed, PackedAnd, PrefixAt, PartialRound, Entry, UpperHalf, CopyBit, XorBits, HasBit, Op, PrefixRound;
    p', g' := p, g;
    PartialNone(t, idx1, h);
    for e := 0 to |idx1|
      invariant SharePairs(p', g', PartialRound(t, idx1, e, h))
    {
      PackedProducts(row, a, b, idx0, idx1, t, e);
      assert Entry(idx0[e], idx1[e], h);
      EntryPair(t, idx0[e], idx1[e], h);
      PartialStep(t, idx1, e, h);
      PartialUntouched(t, idx1, e, h);
      WriteStep(p', g', row[e / 4], e, idx1[e], PartialRound(t, idx1, e, h), t[idx0[e]], t[idx1[e]]);
      p' := CopyBit(p', idx1[e], row[e / 4], 2 * e % 8);
      g' := XorBits(g', idx1[e], row[e / 4], (2 * e + 1) % 8, g', idx1[e]);
    }
    PartialIsRound(t, idx0, idx1, h);
  }

  lemma PartialNone(t: seq<PG>, idx1: seq<nat>, h: nat)
    requires h >= 1
    ensures PartialRound(t, idx1, 0, h) == t
  {
  }

  lemma PartialUntouched(t: seq<PG>, idx1: seq<nat>, n: nat, h: nat)
    requires h >= 1 && n < |idx1| && idx1[n] < |t|
    requires forall e, f :: 0 <= e < f < |idx1| ==> idx1[e] != idx1[f]
    ensures PartialRound(t, idx1, n, h)[idx1[n]] == t[idx1[n]]
  {
  }

  // ---------- rounds over the vector ----------

  /** Element i of p and g shares the block prefixes of ss[i]. */
  ghost predicate AllPrefixes(p: array<Sharing>, g: array<Sharing>, ss: seq<seq<PG>>, r: nat, h: nat)
    requires h >= 1
    reads p, g
  {
    && p.Length == g.Length == |ss|
    && forall i :: 0 <= i < p.Length ==> PrefixShared(p[i], g[i], ss[i], r, h)
  }

  ghost predicate PrefixShared(p: Sharing, g: Sharing, s: seq<PG>, r: nat, h: nat)
    requires h >= 1
  {
    |s| == r && exists t :: BlockPrefixes(s, t, h) && SharePairs(p, g, t)
  }

  /** The pairs an element shares. */
  ghost function SharedPrefixes(p: Sharing, g: Sharing, s: seq<PG>, r: nat, h: nat): (t: seq<PG>)
    requires h >= 1 && PrefixShared(p, g, s, r, h)
    ensures |t| == r && BlockPrefixes(s, t, h) && SharePairs(p, g, t)
  {
    var t :| BlockPrefixes(s, t, h) && SharePairs(p, g, t);
    t
  }

  lemma RoundShared(p: Sharing, g: Sharing, s: seq<PG>, t: seq<PG>, r: nat, h: nat)
    requires h >= 1 && |s| == r && BlockPrefixes(s, t, h) && SharePairs(p, g, PrefixRound(t, h))
    ensures PrefixShared(p, g, s, r, 2 * h)
  {
    hide SharePairs, PrefixRound, BlockPrefixes;
    PrefixRoundDoubles(s, t, h);
  }

  /** One round of `Rss_CircleOpL` for the whole vector. */
  method CircleRound(p: array<Sharing>, g: array<Sharing>, a: array<Sharing>, b: array<Sharing>,
                     idx0: seq<nat>, idx1: seq<nat>, r: nat, ghost h: nat, net: Net, ghost ss: seq<seq<PG>>)
    requires InStep(net) && h >= 1 && r <= W && RoundIndices(idx0, idx1, r, h) && |idx1| >= 1
    requires 1 <= p.Length == a.Length == b.Length && AllPrefixes(p, g, ss, r, h)
    requires p != g && p != a && p != b && g != a && g != b && a != b
    modifies p, g, a, b, net.p1, net.p2, net.p3
    ensures InStep(net) && Private(net) == old(Private(net))
    ensures AllPrefixes(p, g, ss, r, 2 * h)
  {
    assert |idx0| == |idx1| && p.Length == g.Length == |ss|;
    hide *;
    ghost var tt := PackAll(p, g, a, b, idx0, idx1, r, h, ss);
    var u := MultiplyPacked(a, b, 2 * |idx0|, net);
    WriteAll(p, g, a, b, u, idx0, idx1, r, h, ss, tt);
  }

  /** `CarryBuffer2` over the vector. */
  method PackAll(p: array<Sharing>, g: array<Sharing>, a: array<Sharing>, b: array<Sharing>,
                 idx0: seq<nat>, idx1: seq<nat>, ghost r: nat, ghost h: nat, ghost ss: seq<seq<PG>>) returns (ghost tt: seq<seq<PG>>)
    requires h >= 1 && r <= W && RoundIndices(idx0, idx1, r, h) && AllPrefixes(p, g, ss, r, h)
    requires p.Length == a.Length == b.Length && p != a && p != b && g != a && g != b && a != b
    modifies a, b
    ensures |tt| == p.Length
    ensures forall i :: 0 <= i < p.Length ==>
      && |tt[i]| == |ss[i]| == r && BlockPrefixes(ss[i], tt[i], h) && SharePairs(p[i], g[i], tt[i])
      && Packed(a[i], b[i], idx0, idx1, |idx0|, tt[i])
  {
    EntriesInside(idx0, idx1, r, h);
    OperationsFit(idx0, idx1, r, h);
    hide *;
    tt := [];
    for i := 0 to p.Length
      invariant |tt| == i
      invariant forall m :: 0 <= m < i ==>
        && |tt[m]| == |ss[m]| == r && BlockPrefixes(ss[m], tt[m], h) && SharePairs(p[m], g[m], tt[m])
        && Packed(a[m], b[m], idx0, idx1, |idx0|, tt[m])
    {
      ghost var t := PrefixesOf(p[i], g[i], ss[i], r, h);
      a[i], b[i] := CarryBuffer2(a[i], b[i], p[i], g[i], idx0, idx1, t);
      tt := tt + [t];
    }
  }

  lemma PrefixesOf(p: Sharing, g: Sharing, s: seq<PG>, r: nat, h: nat) returns (t: seq<PG>)
    requires h >= 1 && PrefixShared(p, g, s, r, h)
    ensures |t| == |s| == r && BlockPrefixes(s, t, h) && SharePairs(p, g, t)
  {
    t := SharedPrefixes(p, g, s, r, h);
  }

  lemma EntriesInside(idx0: seq<nat>, idx1: seq<nat>, r: nat, h: nat)
    requires h >= 1 && RoundIndices(idx0, idx1, r, h)
    ensures forall e :: 0 <= e < |idx0| ==> idx0[e] < r && idx1[e] < r
  {
  }

  method WriteAll(p: array<Sharing>, g: array<Sharing>, a: array<Sharing>, b: array<Sharing>, u: array<Sharing>,
                  idx0: seq<nat>, idx1: seq<nat>, ghost r: nat, ghost h: nat, ghost ss: seq<seq<PG>>, ghost tt: seq<seq<PG>>)
    requires h >= 1 && RoundIndices(idx0, idx1, r, h) && p != g && u != p && u != g && p != a && p != b && g != a && g != b
    requires p.Length == g.Length == a.Length == b.Length == |ss| == |tt|
    requires forall i :: 0 <= i < p.Length ==>
      && |tt[i]| == |ss[i]| == r && BlockPrefixes(ss[i], tt[i], h) && SharePairs(p[i], g[i], tt[i])
      && Packed(a[i], b[i], idx0, idx1, |idx0|, tt[i])
    requires forall i :: 0 <= i < p.Length ==> PackedAnd(Row(u, i, BytesFor(2 * |idx0|)), a[i], b[i], 2 * |idx0|)
    modifies p, g
    ensures AllPrefixes(p, g, ss, r, 2 * h)
  {
    hide RoundIndices, BlockPrefixes, SharePairs, Packed, PackedAnd, Row, BytesFor, PrefixShared;
    for i := 0 to p.Length
      invariant forall m :: 0 <= m < i ==> PrefixShared(p[m], g[m], ss[m], r, 2 * h)
      invariant forall m :: i <= m < p.Length ==> p[m] == old(p[m]) && g[m] == old(g[m])
    {
      assert |tt[i]| == |ss[i]| == r && BlockPrefixes(ss[i], tt[i], h) && SharePairs(p[i], g[i], tt[i]);
      assert Packed(a[i], b[i], idx0, idx1, |idx0|, tt[i]);
      var row := Row(u, i, BytesFor(2 * |idx0|));
      assert PackedAnd(row, a[i], b[i], 2 * |idx0|);
      p[i], g[i] := WriteBack(p[i], g[i], a[i], b[i], row, idx0, idx1, tt[i], h);
      RoundShared(p[i], g[i], ss[i], tt[i], r, h);
    }
  }

  /** `Rss_CircleOpL`: every position ends with the pair of all positions up to it. */
  method CircleOpL(p: array<Sharing>, g: array<Sharing>, r: nat, net: Net, ghost ss: seq<seq<PG>>)
    requires InStep(net) && 1 <= r <= W && 1 <= p.Length && p != g && BitLT.AllPairs(p, g, ss, r)
    modifies p, g, net.p1, net.p2, net.p3
    ensures InStep(net) && Private(net) == old(Private(net))
    ensures AllPrefixes(p, g, ss, r, Pow2(CeilLog2(r)))
  {
    StartPrefixes(p, g, ss, r);
    hide *;
    if r > 1 {
      var rounds := CeilLog2(r);
      CeilLog2Bounds(r);
      CircleRounds(p, g, rounds, r, net, ss);
    }
  }

  /** The round loop, with the vectors it gathers operands in. */
  method CircleRounds(p: array<Sharing>, g: array<Sharing>, rounds: nat, r: nat, net: Net, ghost ss: seq<seq<PG>>)
    requires InStep(net) && 1 <= rounds && r <= W && Pow2(rounds - 1) < r <= Pow2(rounds)
    requires 1 <= p.Length == g.Length && p != g && AllPrefixes(p, g, ss, r, Pow2(0))
    modifies p, g, net.p1, net.p2, net.p3
    ensures InStep(net) && Private(net) == old(Private(net))
    ensures AllPrefixes(p, g, ss, r, Pow2(rounds))
  {
    hide AllPrefixes, Pow2, Paired, BitLT.Cleared;
    var a := Repeat(BitLT.Cleared, p.Length);
    var b := Repeat(BitLT.Cleared, p.Length);
    var i := 1;
    while i <= rounds
      invariant 1 <= i <= rounds + 1
      invariant InStep(net) && Private(net) == old(Private(net))
      invariant AllPrefixes(p, g, ss, r, Pow2(i - 1))
      modifies p, g, a, b, net.p1, net.p2, net.p3
    {
      CirclePass(p, g, a, b, i, rounds, r, net, ss);
      i := i + 1;
    }
  }

  /** The body of the round loop: the index lists, then the round. */
  method CirclePass(p: array<Sharing>, g: array<Sharing>, a: array<Sharing>, b: array<Sharing>,
                    i: nat, rounds: nat, r: nat, net: Net, ghost ss: seq<seq<PG>>)
    requires InStep(net) && 1 <= i <= rounds && r <= W && Pow2(rounds - 1) < r <= Pow2(rounds)
    requires 1 <= p.Length == a.Length == b.Length && AllPrefixes(p, g, ss, r, Pow2(i - 1))
    requires p != g && p != a && p != b && g != a && g != b && a != b
    modifies p, g, a, b, net.p1, net.p2, net.p3
    ensures InStep(net) && Private(net) == old(Private(net))
    ensures AllPrefixes(p, g, ss, r, Pow2(i))
  {
    hide *;
    var h := Pow2(i - 1);
    RoundSizes(i, rounds, r);
    var idx0, idx1 := BuildIndices(r, Pow2(rounds), h, Pow2(rounds - i));
    RoundNotEmpty(idx0, idx1, r, h);
    CircleRound(p, g, a, b, idx0, idx1, r, h, net, ss);
  }

  lemma StartPrefixes(p: array<Sharing>, g: array<Sharing>, ss: seq<seq<PG>>, r: nat)
    requires r >= 1 && BitLT.AllPairs(p, g, ss, r)
    ensures AllPrefixes(p, g, ss, r, Pow2(0))
    ensures r == 1 ==> CeilLog2(r) == 0
  {
  }

  /** In round i the blocks of size 2^i tile the padded size, and the round's half block is below r. */
  lemma RoundSizes(i: nat, rounds: nat, r: nat)
    requires 1 <= i <= rounds && Pow2(rounds - 1) < r <= Pow2(rounds)
    ensures Pow2(rounds) == 2 * Pow2(i - 1) * Pow2(rounds - i)
    ensures Pow2(i - 1) < r && 2 * Pow2(i - 1) == Pow2(i)
  {
    Pow2Add(i, rounds - i);
    Pow2Mono(i - 1, rounds - 1);
  }

  // ---------- the sum ----------

  /** After the last round bit j of g shares the carry out of bits 0 .. j. */
  lemma PrefixIsCarry(p: Sharing, g: Sharing, x: nat, y: nat, r: nat, h: nat, j: nat)
    requires h >= 1 && r <= h && j < r && PrefixShared(p, g, AdderPairs(x, y, false, r), r, h)
    ensures HasBit(g, j, Carry(x, y, false, j + 1))
  {
    hide AdderPairs, BlockPrefixes, HasBit;
    var s := AdderPairs(x, y, false, r);
    var t := PrefixesOf(p, g, s, r, h);
    assert HasPair(p, g, j, t[j]);
    WholePrefix(s, t, h, j);
    AdderCarry(x, y, false, r, j + 1);
  }

  /** Bit j of g shares the carry out of bits 0 .. j of x + y. */
  ghost predicate SharesCarry(g: Sharing, x: nat, y: nat, j: nat) {
    HasBit(g, j, Carry(x, y, false, j + 1))
  }

  ghost predicate SharesCarries(g: Sharing, x: nat, y: nat, k: nat) {
    forall j :: 0 <= j < k ==> SharesCarry(g, x, y, j)
  }

  /** p ^ (g << 1). */
  function SumWord(p: nat, g: nat): nat {
    Xor(p, Wrap(g * 2))
  }

  function SumWords(p: Sharing, g: Sharing): Sharing {
    Three(Pair(SumWord(p.p1.s0, g.p1.s0), SumWord(p.p1.s1, g.p1.s1)),
          Pair(SumWord(p.p2.s0, g.p2.s0), SumWord(p.p2.s1, g.p2.s1)),
          Pair(SumWord(p.p3.s0, g.p3.s0), SumWord(p.p3.s1, g.p3.s1)))
  }

  lemma SumWordBit(p: nat, g: nat, j: nat)
    requires j < W
    ensures Bit(SumWord(p, g), j) == (Bit(p, j) != (j > 0 && Bit(g, j - 1)))
  {
    hide Bit, Xor, Wrap;
    DoubleBit(g, j);
    BitXor(p, Wrap(g * 2), j);
  }

  lemma SumWordsBit(p: Sharing, g: Sharing, j: nat, u: bool, v: bool)
    requires j < W && HasBit(p, j, u) && (if j > 0 then HasBit(g, j - 1, v) else v == false)
    ensures HasBit(SumWords(p, g), j, u != v)
  {
    hide Bit, SumWord;
    SumWordBit(p.p1.s0, g.p1.s0, j);
    SumWordBit(p.p1.s1, g.p1.s1, j);
    SumWordBit(p.p2.s0, g.p2.s0, j);
    SumWordBit(p.p2.s1, g.p2.s1, j);
    SumWordBit(p.p3.s0, g.p3.s0, j);
    SumWordBit(p.p3.s1, g.p3.s1, j);
  }

  /** p before the circuit and the carries after it make the sum. */
  lemma SumElement(p: Sharing, g: Sharing, x: nat, y: nat, k: nat)
    requires k <= W && SharesCarries(g, x, y, k)
    requires forall j :: 0 <= j < k ==> HasBit(p, j, Bit(x, j) != Bit(y, j))
    ensures Bitwise(SumWords(p, g), x + y, k)
  {
    hide Bit, BitAgreed, Parity, SumWords, Bitwise, Carry;
    forall j | 0 <= j < k ensures BitAgreed(SumWords(p, g), j) && Parity(SumWords(p, g), j) == Bit(x + y, j) {
      assert HasBit(p, j, Bit(x, j) != Bit(y, j));
      NoCarryIn(x, y);
      if j > 0 {
        assert SharesCarry(g, x, y, j - 1);
      }
      SumWordsBit(p, g, j, Bit(x, j) != Bit(y, j), Carry(x, y, false, j));
      SumBit(x, y, false, j);
    }
    BitwiseFromBits(SumWords(p, g), x + y, k);
  }

  lemma NoCarryIn(x: nat, y: nat)
    ensures !Carry(x, y, false, 0)
  {
  }

  /** Element i of p and g shares the pairs of xs[i] + ys[i]. */
  ghost predicate AdderStart(p: array<Sharing>, g: array<Sharing>, xs: seq<nat>, ys: seq<nat>, k: nat)
    reads p, g
  {
    && p.Length == g.Length == |xs| == |ys|
    && forall i :: 0 <= i < p.Length ==> SharePairs(p[i], g[i], AdderPairs(xs[i], ys[i], false, k))
  }

  /** Runs the circuit on (p, g) and adds: res becomes the sum, g its carries. */
  method AddCircuit(res: array<Sharing>, p: array<Sharing>, g: array<Sharing>, k: nat, net: Net, ghost xs: seq<nat>,
          ghost ys: seq<nat>)
    requires InStep(net) && 1 <= k <= W && 1 <= res.Length == p.Length && p != g && res != p && res != g
    requires AdderStart(p, g, xs, ys, k)
    modifies res, p, g, net.p1, net.p2, net.p3
    ensures InStep(net) && Private(net) == old(Private(net))
    ensures forall i :: 0 <= i < res.Length ==> SharesCarries(g[i], xs[i], ys[i], k) && Bitwise(res[i], xs[i] + ys[i], k)
  {
    assert p.Length == g.Length == |xs| == |ys|;
    hide *;
    ghost var ss := AllAdderPairs(p, g, xs, ys, k);
    CopyVector(res, p);
    CircleOpL(p, g, k, net, ss);
    CarriesShared(p, g, xs, ys, ss, k);
    forall i, j | 0 <= i < res.Length && 0 <= j < k ensures HasBit(res[i], j, Bit(xs[i], j) != Bit(ys[i], j)) {
      PropagateBits(old(p[i]), old(g[i]), xs[i], ys[i], k, j);
    }
    AddCarries(res, g, k, xs, ys);
  }

  lemma AllAdderPairs(p: array<Sharing>, g: array<Sharing>, xs: seq<nat>, ys: seq<nat>, k: nat) returns (ss: seq<seq<PG>>)
    requires AdderStart(p, g, xs, ys, k)
    ensures BitLT.AllPairs(p, g, ss, k) && |ss| == |xs|
    ensures forall i :: 0 <= i < |ss| ==> ss[i] == AdderPairs(xs[i], ys[i], false, k)
  {
    hide SharePairs, AdderPairs;
    ss := seq(|xs|, i requires 0 <= i < |xs| => AdderPairs(xs[i], ys[i], false, k));
  }

  lemma PropagateBits(p: Sharing, g: Sharing, x: nat, y: nat, k: nat, j: nat)
    requires SharePairs(p, g, AdderPairs(x, y, false, k)) && j < k
    ensures HasBit(p, j, Bit(x, j) != Bit(y, j))
  {
    hide Bit, HasBit;
    assert HasPair(p, g, j, AdderPairs(x, y, false, k)[j]);
  }

  lemma CarriesShared(p: array<Sharing>, g: array<Sharing>, xs: seq<nat>, ys: seq<nat>, ss: seq<seq<PG>>, k: nat)
    requires k >= 1 && AllPrefixes(p, g, ss, k, Pow2(CeilLog2(k))) && |xs| == |ys| == |ss|
    requires forall i :: 0 <= i < |ss| ==> ss[i] == AdderPairs(xs[i], ys[i], false, k)
    ensures forall i :: 0 <= i < g.Length ==> SharesCarries(g[i], xs[i], ys[i], k)
  {
    hide AdderPairs, PrefixShared, HasBit, CeilLog2;
    CeilLog2Bounds(k);
    forall i, j | 0 <= i < g.Length && 0 <= j < k ensures SharesCarry(g[i], xs[i], ys[i], j) {
      assert PrefixShared(p[i], g[i], ss[i], k, Pow2(CeilLog2(k)));
      PrefixIsCarry(p[i], g[i], xs[i], ys[i], k, Pow2(CeilLog2(k)), j);
    }
  }

  /** The last loop: res, which holds p, takes in the carries. */
  method AddCarries(res: array<Sharing>, g: array<Sharing>, k: nat, ghost xs: seq<nat>, ghost ys: seq<nat>)
    requires res != g && k <= W && res.Length == g.Length == |xs| == |ys|
    requires forall i :: 0 <= i < g.Length ==> SharesCarries(g[i], xs[i], ys[i], k)
    requires forall i, j :: 0 <= i < res.Length && 0 <= j < k ==> HasBit(res[i], j, Bit(xs[i], j) != Bit(ys[i], j))
    modifies res
    ensures forall i :: 0 <= i < res.Length ==> Bitwise(res[i], xs[i] + ys[i], k)
  {
    hide *;
    for i := 0 to res.Length
      invariant forall m :: 0 <= m < i ==> Bitwise(res[m], xs[m] + ys[m], k)
      invariant forall m :: i <= m < res.Length ==> res[m] == old(res[m])
    {
      forall j | 0 <= j < k ensures HasBit(res[i], j, Bit(xs[i], j) != Bit(ys[i], j)) {
        assert HasBit(old(res[i]), j, Bit(xs[i], j) != Bit(ys[i], j));
      }
      SumElement(res[i], g[i], xs[i], ys[i], k);
      res[i] := SumWords(res[i], g[i]);
    }
  }

  // ---------- Rss_BitAdd, both operands shared ----------

  function XorAll(a: Sharing, b: Sharing): Sharing {
    Three(Pair(Xor(a.p1.s0, b.p1.s0), Xor(a.p1.s1, b.p1.s1)),
          Pair(Xor(a.p2.s0, b.p2.s0), Xor(a.p2.s1, b.p2.s1)),
          Pair(Xor(a.p3.s0, b.p3.s0), Xor(a.p3.s1, b.p3.s1)))
  }

  lemma XorAllBit(a: Sharing, b: Sharing, j: nat, u: bool, v: bool)
    requires HasBit(a, j, u) && HasBit(b, j, v)
    ensures HasBit(XorAll(a, b), j, u != v)
  {
    hide Bit, Xor;
    BitXor(a.p1.s0, b.p1.s0, j);
    BitXor(a.p1.s1, b.p1.s1, j);
    BitXor(a.p2.s0, b.p2.s0, j);
    BitXor(a.p2.s1, b.p2.s1, j);
    BitXor(a.p3.s0, b.p3.s0, j);
    BitXor(a.p3.s1, b.p3.s1, j);
  }

  lemma XorValueBit(a: Sharing, k: nat, j: nat)
    requires Agreed(a, k) && j < k
    ensures HasBit(a, j, Bit(XorValue(a, k), j))
  {
    hide Bit, BitAgreed, Parity, XorSum, Agreed;
    AgreedBit(a, k, j);
    XorSumBit(a, j);
    BitMod(XorSum(a), k, j);
  }

  lemma SharedStart(a: Sharing, b: Sharing, c: Sharing, k: nat)
    requires Agreed(a, k) && Agreed(b, k) && AndOf(c, a, b, k)
    ensures SharePairs(XorAll(a, b), c, AdderPairs(XorValue(a, k), XorValue(b, k), false, k))
  {
    var x, y := XorValue(a, k), XorValue(b, k);
    var s := AdderPairs(x, y, false, k);
    hide Bit, BitAgreed, Parity, XorValue, XorAll, Agreed;
    forall j | 0 <= j < k ensures HasPair(XorAll(a, b), c, j, s[j]) {
      XorValueBit(a, k, j);
      XorValueBit(b, k, j);
      XorAllBit(a, b, j, Bit(x, j), Bit(y, j));
      assert HasBit(c, j, Parity(a, j) && Parity(b, j));
    }
  }

  /** The secrets of a vector of bitwise sharings. */
  ghost function XorValues(a: array<Sharing>, k: nat): (v: seq<nat>)
    reads a
    ensures |v| == a.Length && forall i :: 0 <= i < a.Length ==> v[i] == XorValue(a[i], k)
  {
    seq(a.Length, i requires 0 <= i < a.Length reads a => XorValue(a[i], k))
  }

  /** The sum of two bitwise-shared vectors, with its carries in g. */
  method BitAddCarries(res: array<Sharing>, a: array<Sharing>, b: array<Sharing>, k: nat, net: Net)
    returns (g: array<Sharing>)
    requires InStep(net) && 1 <= k <= W && 1 <= res.Length == a.Length == b.Length && res != a && res != b
    requires forall i :: 0 <= i < a.Length ==> Agreed(a[i], k) && Agreed(b[i], k)
    modifies res, net.p1, net.p2, net.p3
    ensures InStep(net) && Private(net) == old(Private(net))
    ensures fresh(g) && g.Length == res.Length
    ensures forall i :: 0 <= i < res.Length ==>
      && SharesCarries(g[i], XorValue(a[i], k), XorValue(b[i], k), k)
      && Bitwise(res[i], XorValue(a[i], k) + XorValue(b[i], k), k)
  {
    hide *;
    ghost var xs, ys := XorValues(a, k), XorValues(b, k);
    MultBitwise(res, a, b, k, net);
    var p: array<Sharing>;
    p, g := SharedPairs(res, a, b, k, xs, ys);
    AddCircuit(res, p, g, k, net, xs, ys);
  }

  method SharedPairs(c: array<Sharing>, a: array<Sharing>, b: array<Sharing>, k: nat, ghost xs: seq<nat>, ghost ys: seq<nat>)
    returns (p: array<Sharing>, g: array<Sharing>)
    requires c.Length == a.Length == b.Length && xs == XorValues(a, k) && ys == XorValues(b, k)
    requires forall i :: 0 <= i < a.Length ==> Agreed(a[i], k) && Agreed(b[i], k) && AndOf(c[i], a[i], b[i], k)
    ensures fresh(p) && fresh(g) && p != g && p.Length == g.Length == a.Length && AdderStart(p, g, xs, ys, k)
  {
    hide Agreed, AndOf, SharePairs, XorValue, XorAll, AdderPairs;
    p := new Sharing[a.Length];
    g := new Sharing[a.Length];
    for i := 0 to a.Length
      invariant forall m :: 0 <= m < i ==> SharePairs(p[m], g[m], AdderPairs(xs[m], ys[m], false, k))
      modifies p, g
    {
      assert Agreed(a[i], k) && Agreed(b[i], k) && AndOf(c[i], a[i], b[i], k);
      SharedStart(a[i], b[i], c[i], k);
      p[i] := XorAll(a[i], b[i]);
      g[i] := c[i];
    }
  }

  /** `Rss_BitAdd` on two shared operands: res shares the k-bit sum. */
  method BitAdd(res: array<Sharing>, a: array<Sharing>, b: array<Sharing>, k: nat, net: Net)
    requires InStep(net) && 1 <= k <= W && 1 <= res.Length == a.Length == b.Length && res != a && res != b
    requires forall i :: 0 <= i < a.Length ==> Agreed(a[i], k) && Agreed(b[i], k)
    modifies res, net.p1, net.p2, net.p3
    ensures InStep(net) && Private(net) == old(Private(net))
    ensures forall i :: 0 <= i < res.Length ==> Bitwise(res[i], XorValue(a[i], k) + XorValue(b[i], k), k)
  {
    hide *;
    var g := BitAddCarries(res, a, b, k, net);
  }

  // ---------- Rss_BitAdd, one operand public ----------

  lemma PublicStart(a: Public, v: nat, b: Sharing, k: nat)
    requires k <= W && Known(a, v) && Agreed(b, k)
    ensures SharePairs(BitLT.Propagate(a, b), BitLT.Generate(a, b), AdderPairs(v, XorValue(b, k), false, k))
  {
    var p, g := BitLT.Propagate(a, b), BitLT.Generate(a, b);
    var s := AdderPairs(v, XorValue(b, k), false, k);
    hide Bit, BitAgreed, Parity, XorValue, BitLT.Propagate, BitLT.Generate, Agreed, Known;
    forall j | 0 <= j < k ensures HasPair(p, g, j, s[j]) {
      XorValueBit(b, k, j);
      BitLT.PropagateBit(a, v, b, j);
      BitLT.GenerateBit(a, v, b, j);
    }
  }

  /** `Rss_BitAdd` on a public and a shared operand. */
  method BitAddPublic(res: array<Sharing>, a: array<Public>, b: array<Sharing>, k: nat, net: Net)
    requires InStep(net) && 1 <= k <= W && 1 <= res.Length == a.Length == b.Length && res != b
    requires forall i :: 0 <= i < a.Length ==> Known(a[i], a[i].p1) && Agreed(b[i], k)
    modifies res, net.p1, net.p2, net.p3
    ensures InStep(net) && Private(net) == old(Private(net))
    ensures forall i :: 0 <= i < res.Length ==> Bitwise(res[i], a[i].p1 + XorValue(b[i], k), k)
  {
    hide *;
    ghost var ys := XorValues(b, k);
    var p, g, xs := PublicPairs(a, b, k, ys);
    AddCircuit(res, p, g, k, net, xs, ys);
  }

  method PublicPairs(a: array<Public>, b: array<Sharing>, k: nat, ghost ys: seq<nat>)
    returns (p: array<Sharing>, g: array<Sharing>, ghost xs: seq<nat>)
    requires k <= W && a.Length == b.Length && ys == XorValues(b, k)
    requires forall i :: 0 <= i < a.Length ==> Known(a[i], a[i].p1) && Agreed(b[i], k)
    ensures fresh(p) && fresh(g) && p != g && p.Length == g.Length == a.Length && AdderStart(p, g, xs, ys, k)
    ensures |xs| == a.Length && forall i :: 0 <= i < a.Length ==> xs[i] == a[i].p1
  {
    hide Agreed, SharePairs, XorValue, AdderPairs, Known, BitLT.Propagate, BitLT.Generate;
    p := new Sharing[a.Length];
    g := new Sharing[a.Length];
    xs := [];
    for i := 0 to a.Length
      invariant |xs| == i && forall m :: 0 <= m < i ==> xs[m] == a[m].p1
      invariant forall m :: 0 <= m < i ==> SharePairs(p[m], g[m], AdderPairs(xs[m], ys[m], false, k))
      modifies p, g
    {
      assert Known(a[i], a[i].p1) && Agreed(b[i], k);
      PublicStart(a[i], a[i].p1, b[i], k);
      p[i] := BitLT.Propagate(a[i], b[i]);
      g[i] := BitLT.Generate(a[i], b[i]);
      xs := xs + [a[i].p1];
    }
  }
}
