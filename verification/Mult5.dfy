/**
 Five-party multiplication (`Rss_Mult_mp`).

 Each party forms its cross products, masks their sum with words of its shares' keys, and the masked sum
 becomes part of the share whose holders it reaches.
 */
module FivePartyMult {
  import opened Ring
  import opened Words
  import opened Stream
  import opened NodeNetworks
  import opened FiveParty
  import Multiplication

  // ---------- the generators ----------

  ghost predicate Valid5(net: seq<NodeNetwork>)
    reads net
  {
    && |net| == 5
    && (forall p, q :: 0 <= p < q < 5 ==> net[p] != net[q])
    && forall p :: 0 <= p < 5 ==> net[p].Valid() && net[p].numShares == 6 && net[p].ring == net[0].ring
  }

  /** The three holders of every share's key are at the same point of its stream. */
  ghost predicate Follows(net: seq<NodeNetwork>, gens: seq<Gen>)
    reads net
  {
    && Valid5(net) && |gens| == 10
    && forall p, t :: 0 <= p < 5 && 0 <= t < 6 ==> net[p].Slot(t) == gens[ShareOf(p, t)]
  }

  ghost function AdvanceEach(gens: seq<Gen>, sizes: seq<nat>): (r: seq<Gen>)
    requires |gens| == |sizes| == 10
    ensures |r| == 10
  {
    seq(10, e requires 0 <= e < 10 => Advance(gens[e], sizes[e]))
  }

  ghost function TakeEach(gens: seq<Gen>, sizes: seq<nat>): (r: seq<seq<Byte>>)
    requires |gens| == |sizes| == 10
    ensures |r| == 10
  {
    seq(10, e requires 0 <= e < 10 => Take(gens[e], sizes[e]))
  }

  /** A party's draws from its six slots, in order. */
  method DrawSix(node: NodeNetwork, counts: seq<nat>) returns (buf: seq<seq<Byte>>)
    requires node.Valid() && node.numShares == 6 && |counts| == 6 && forall t :: 0 <= t < 6 ==> counts[t] >= 1
    modifies node`container, node`position
    ensures node.Valid() && |buf| == 6
    ensures forall t :: 0 <= t < 6 ==> buf[t] == Take(old(node.Slot(t)), counts[t])
    ensures forall t :: 0 <= t < 6 ==> node.Slot(t) == Advance(old(node.Slot(t)), counts[t])
    ensures node.Slot(6) == old(node.Slot(6))
  {
    hide Take, Advance;
    buf := [];
    for t := 0 to 6
      invariant node.Valid() && |buf| == t
      invariant forall u :: 0 <= u < t ==> buf[u] == Take(old(node.Slot(u)), counts[u])
      invariant forall u :: 0 <= u < t ==> node.Slot(u) == Advance(old(node.Slot(u)), counts[u])
      invariant forall u :: t <= u <= 6 ==> node.Slot(u) == old(node.Slot(u))
    {
      var dest := new Byte[counts[t]];
      node.PrgGetrandom(t, counts[t], dest);
      buf := buf + [dest[..]];
    }
  }

  /** The bytes party p holds of each share's stream. */
  ghost predicate Holds(buf: seq<seq<Byte>>, streams: seq<seq<Byte>>, p: nat)
    requires |streams| == 10 && p < 5
  {
    |buf| == 6 && forall t :: 0 <= t < 6 ==> buf[t] == streams[ShareOf(p, t)]
  }

  lemma SixBuffers(buf: seq<seq<Byte>>, streams: seq<seq<Byte>>, p: nat)
    requires |streams| == 10 && p < 5 && Holds(buf, streams, p)
    ensures |buf| == 6
  {
  }

  /** Every party draws counts[t] bytes from its slot t; counts agree with the sizes wanted of the shares. */
  method DrawShares(net: seq<NodeNetwork>, counts: seq<nat>, ghost gens: seq<Gen>, ghost sizes: seq<nat>)
    returns (buf: seq<seq<seq<Byte>>>)
    requires Follows(net, gens) && |counts| == 6 && |sizes| == 10 && forall t :: 0 <= t < 6 ==> counts[t] >= 1
    requires forall p, t :: 0 <= p < 5 && 0 <= t < 6 ==> counts[t] == sizes[ShareOf(p, t)]
    modifies net
    ensures Follows(net, AdvanceEach(gens, sizes))
    ensures forall p :: 0 <= p < 5 ==> net[p].Slot(6) == old(net[p].Slot(6))
    ensures |buf| == 5 && forall p :: 0 <= p < 5 ==> Holds(buf[p], TakeEach(gens, sizes), p)
  {
    hide Take, Advance, ShareOf, Holds, NodeFollows, AdvanceEach, TakeEach;
    buf := [];
    for p := 0 to 5
      invariant Valid5(net) && |buf| == p
      invariant forall q :: 0 <= q < p ==> net[q].Slot(6) == old(net[q].Slot(6))
      invariant forall q :: 0 <= q < p ==> Holds(buf[q], TakeEach(gens, sizes), q)
      invariant forall q :: 0 <= q < p ==> NodeFollows(net[q], AdvanceEach(gens, sizes), q)
      invariant forall q, t :: p <= q < 5 && 0 <= t <= 6 ==> net[q].Slot(t) == old(net[q].Slot(t))
    {
      var b := DrawNode(net[p], counts, gens, sizes, p);
      buf := buf + [b];
    }
    NodesFollow(net, AdvanceEach(gens, sizes));
  }

  ghost predicate NodeFollows(node: NodeNetwork, gens: seq<Gen>, p: nat)
    requires |gens| == 10 && p < 5
    reads node
  {
    node.Valid() && node.numShares == 6 && forall t :: 0 <= t < 6 ==> node.Slot(t) == gens[ShareOf(p, t)]
  }

  lemma NodesFollow(net: seq<NodeNetwork>, gens: seq<Gen>)
    requires Valid5(net) && |gens| == 10 && forall p :: 0 <= p < 5 ==> NodeFollows(net[p], gens, p)
    ensures Follows(net, gens)
  {
  }

  method DrawNode(node: NodeNetwork, counts: seq<nat>, ghost gens: seq<Gen>, ghost sizes: seq<nat>, ghost p: nat)
    returns (b: seq<seq<Byte>>)
    requires node.Valid() && node.numShares == 6 && |counts| == 6 && |gens| == |sizes| == 10 && p < 5
    requires forall t :: 0 <= t < 6 ==> counts[t] >= 1
    requires forall t :: 0 <= t < 6 ==> node.Slot(t) == gens[ShareOf(p, t)] && counts[t] == sizes[ShareOf(p, t)]
    modifies node
    ensures NodeFollows(node, AdvanceEach(gens, sizes), p) && Holds(b, TakeEach(gens, sizes), p)
    ensures node.Valid() && node.Slot(6) == old(node.Slot(6))
  {
    hide Take, Advance, ShareOf;
    b := DrawSix(node, counts);
  }

  // ---------- masking ----------

  /** The masks a holder has added to share e once parties 0 .. q-1 have been considered. */
  function MaskSum(e: nat, z: nat, q: nat): nat
    requires e < 10 && q <= 5
  {
    if q == 0 then 0 else if Owes(q - 1, e) then Wrap(MaskSum(e, z, q - 1) + z) else MaskSum(e, z, q - 1)
  }

  /** The party's product after the masks of its first t shares have been taken off. */
  function Masking(p: nat, v: nat, z: Six, t: nat): nat
    requires p < 5 && t <= 6
  {
    if t == 0 then v else if Owes(p, ShareOf(p, t - 1)) then Wrap(Masking(p, v, z, t - 1) - z[t - 1]) else Masking(p, v, z, t - 1)
  }

  /** The double loop over parties and shares, for party p (0 .. 4), with the word z[t] of each share's key. */
  method MaskLoop(p: nat, v0: nat, z: Six) returns (c: Six, v: nat)
    requires p < 5
    ensures forall t :: 0 <= t < 6 ==> c[t] == MaskSum(ShareOf(p, t), z[t], 5)
    ensures v == Masking(p, v0, z, 6)
  {
    hide Wrap, ShareOf, Owes;
    c, v := NoWords, v0;
    for q := 0 to 5
      invariant forall t :: 0 <= t < 6 ==> c[t] == MaskSum(ShareOf(p, t), z[t], q)
      invariant v == if q <= p then v0 else Masking(p, v0, z, 6)
    {
      c, v := MaskFor(p, q, v0, z, c, v);
    }
  }

  /** One round of the outer loop. */
  method MaskFor(p: nat, q: nat, v0: nat, z: Six, c0: Six, w: nat) returns (c: Six, v: nat)
    requires p < 5 && q < 5 && forall t :: 0 <= t < 6 ==> c0[t] == MaskSum(ShareOf(p, t), z[t], q)
    requires w == if q <= p then v0 else Masking(p, v0, z, 6)
    ensures forall t :: 0 <= t < 6 ==> c[t] == MaskSum(ShareOf(p, t), z[t], q + 1)
    ensures v == if q < p then v0 else Masking(p, v0, z, 6)
  {
    hide Wrap, ShareOf, Owes, TMap, InT, ChiInT, After;
    c, v := c0, w;
    for t := 0 to 6
      invariant forall u :: 0 <= u < 6 ==> c[u] == MaskSum(ShareOf(p, u), z[u], if u < t then q + 1 else q)
      invariant v == if q < p then v0 else if q == p then Masking(p, v0, z, t) else Masking(p, v0, z, 6)
    {
      TablesAreShares(p, t, q);
      if q + 1 != p + 1 && !InT(q + 1, TMap(p + 1, t)) && !ChiInT(q + 1, TMap(p + 1, t)) {
        c := c[t := Wrap(c[t] + z[t])];
      } else if q + 1 == p + 1 && !ChiInT(p + 1, TMap(p + 1, t)) {
        c := c[t := Wrap(c[t] + z[t])];
        v := Wrap(v - z[t]);
      }
    }
  }

  // ---------- what the masks add up to ----------

  /** How many of the parties before q owe share e a mask. */
  function Owing(e: nat, q: nat): nat
    requires e < 10 && q <= 5
  {
    if q == 0 then 0 else Owing(e, q - 1) + if Owes(q - 1, e) then 1 else 0
  }

  lemma {:induction false} MaskSumCong(e: nat, z: nat, q: nat, k: nat)
    requires e < 10 && q <= 5 && k <= W
    ensures Cong(MaskSum(e, z, q), Owing(e, q) * z, k)
  {
    hide Cong, Wrap, Owes;
    if q == 0 {
      CongRefl(0, k);
    } else {
      MaskSumCong(e, z, q - 1, k);
      WrapAdd(MaskSum(e, z, q - 1), Owing(e, q - 1) * z, z, k);
      assert (Owing(e, q - 1) + 1) * z == Owing(e, q - 1) * z + z;
    }
  }

  /** Two parties owe an adjacent share, three any other. */
  lemma OwingTotal(e: nat)
    requires e < 10
    ensures Owing(e, 5) == if e < 5 then 2 else 3
  {
    hide Turn, After, Owing;
    var j := if e < 5 then e else e - 5;
    TurnIs(j, 1);
    TurnIs(j, 2);
    TurnIs(0, 1);
    TurnIs(1, 1);
    TurnIs(2, 1);
    TurnIs(3, 1);
    TurnIs(4, 1);
    OwingStep(e, 0);
    OwingStep(e, 1);
    OwingStep(e, 2);
    OwingStep(e, 3);
    OwingStep(e, 4);
  }

  lemma OwingStep(e: nat, q: nat)
    requires e < 10 && q < 5
    ensures Owing(e, q + 1) == Owing(e, q) + if Owes(q, e) then 1 else 0
    ensures Owing(e, 0) == 0
  {
  }

  /** A party masks its product with every share it holds but the one the product goes to. */
  lemma OwnOwes(p: nat, t: nat)
    requires p < 5 && t < 6
    ensures Owes(p, ShareOf(p, t)) <==> t != 0
  {
    TablesAreShares(p, t, p);
    hide Turn;
    TurnIs(p, 1);
    TurnIs(p, 2);
    TurnIs(p, 3);
    TurnIs(p, 4);
    hide Owes, InT, TMap, Misses;
    MissingParties(p, t, p);
  }

  lemma MaskingCong(p: nat, v: nat, z: Six, k: nat)
    requires p < 5 && k <= W
    ensures Cong(Masking(p, v, z, 6), v - z[1] - z[2] - z[3] - z[4] - z[5], k)
  {
    hide Cong, Wrap, Owes, ShareOf;
    forall t | 0 <= t < 6 ensures Owes(p, ShareOf(p, t)) <==> t != 0 {
      OwnOwes(p, t);
    }
    assert Masking(p, v, z, 1) == Masking(p, v, z, 0) == v;
    CongRefl(v, k);
    WrapAdd(Masking(p, v, z, 1), v, z[1], k);
    WrapAdd(Masking(p, v, z, 2), v - z[1], z[2], k);
    WrapAdd(Masking(p, v, z, 3), v - z[1] - z[2], z[3], k);
    WrapAdd(Masking(p, v, z, 4), v - z[1] - z[2] - z[3], z[4], k);
    WrapAdd(Masking(p, v, z, 5), v - z[1] - z[2] - z[3] - z[4], z[5], k);
  }

  // ---------- one element ----------

  /** Share e of the result, from the masks z of the ten keys and the five masked products. */
  function SharePart(e: nat, z: seq<nat>, vs: seq<nat>): nat
    requires e < 10 && |z| == 10 && |vs| == 5
  {
    if e < 5 then Wrap(MaskSum(e, z[e], 5) + vs[Turn(e, 4)]) else MaskSum(e, z[e], 5)
  }

  /** c holds the same word of a share at each of its holders. */
  ghost predicate Reshared(c: Sharing5, z: seq<nat>, vs: seq<nat>)
    requires |z| == 10 && |vs| == 5
  {
    forall p, t :: 0 <= p < 5 && 0 <= t < 6 ==> c[p][t] == SharePart(ShareOf(p, t), z, vs)
  }

  lemma CanonIsShare(e: nat)
    requires e < 10
    ensures e < 5 ==> ShareOf(Turn(e, 4), 0) == e
    ensures e >= 5 ==> ShareOf(Turn(e - 5, 4), 1) == e
  {
  }

  lemma ResharedCanon(c: Sharing5, z: seq<nat>, vs: seq<nat>, e: nat)
    requires |z| == 10 && |vs| == 5 && Reshared(c, z, vs) && e < 10
    ensures Canon(c, e) == SharePart(e, z, vs)
  {
    hide SharePart, Turn, ShareOf;
    CanonIsShare(e);
  }

  lemma ResharedAgreed(c: Sharing5, z: seq<nat>, vs: seq<nat>, k: nat)
    requires |z| == 10 && |vs| == 5 && Reshared(c, z, vs)
    ensures Agreed5(c, k)
  {
    hide SharePart, ShareOf, Canon, Cong;
    forall p, t | 0 <= p < 5 && 0 <= t < 6 ensures Cong(c[p][t], Canon(c, ShareOf(p, t)), k) {
      ResharedCanon(c, z, vs, ShareOf(p, t));
      CongRefl(c[p][t], k);
    }
  }

  lemma SharePartCong(e: nat, z: seq<nat>, vs: seq<nat>, k: nat)
    requires e < 10 && |z| == 10 && |vs| == 5 && k <= W
    ensures Cong(SharePart(e, z, vs), if e < 5 then 2 * z[e] + vs[Turn(e, 4)] else 3 * z[e], k)
  {
    hide Cong, Wrap, MaskSum, Turn, Owing;
    MaskSumCong(e, z[e], 5, k);
    OwingTotal(e);
    if e < 5 {
      WrapAdd(MaskSum(e, z[e], 5), 2 * z[e], vs[Turn(e, 4)], k);
    }
  }

  lemma Add5(x: seq<int>, y: seq<int>, k: nat)
    requires |x| == |y| == 5 && forall i :: 0 <= i < 5 ==> Cong(x[i], y[i], k)
    ensures Cong(x[0] + x[1] + x[2] + x[3] + x[4], y[0] + y[1] + y[2] + y[3] + y[4], k)
  {
    hide Cong;
    CongRefl(0, k);
    Add6(x[0], x[1], x[2], x[3], x[4], 0, y[0], y[1], y[2], y[3], y[4], 0, k);
  }

  /** The shares of the result add up to the masked products and the masks. */
  lemma ResharedSum(c: Sharing5, z: seq<nat>, vs: seq<nat>, k: nat)
    requires |z| == 10 && |vs| == 5 && Reshared(c, z, vs) && k <= W
    ensures Cong(Sum5(c), vs[0] + vs[1] + vs[2] + vs[3] + vs[4] + MaskTotal(z), k)
  {
    hide Cong, Reshared, SharePart, Canon, Turn;
    var x := seq(5, e requires 0 <= e < 5 => Canon(c, e));
    var y := seq(5, e requires 0 <= e < 5 => 2 * z[e] + vs[Turn(e, 4)]);
    forall e | 0 <= e < 5 ensures Cong(x[e], y[e], k) {
      ResharedCanon(c, z, vs, e);
      SharePartCong(e, z, vs, k);
    }
    Add5(x, y, k);
    var x', y' := seq(5, e requires 0 <= e < 5 => Canon(c, 5 + e)), seq(5, e requires 0 <= e < 5 => 3 * z[5 + e]);
    forall e | 0 <= e < 5 ensures Cong(x'[e], y'[e], k) {
      ResharedCanon(c, z, vs, 5 + e);
      SharePartCong(5 + e, z, vs, k);
    }
    Add5(x', y', k);
    Add2(x[0] + x[1] + x[2] + x[3] + x[4], x'[0] + x'[1] + x'[2] + x'[3] + x'[4],
         y[0] + y[1] + y[2] + y[3] + y[4], y'[0] + y'[1] + y'[2] + y'[3] + y'[4], k);
    RoutedFour();
  }

  lemma RoutedFour()
    ensures Turn(0, 4) == 4 && Turn(1, 4) == 0 && Turn(2, 4) == 1 && Turn(3, 4) == 2 && Turn(4, 4) == 3
  {
    hide Turn, After;
    TurnIs(0, 4);
    TurnIs(1, 4);
    TurnIs(2, 4);
    TurnIs(3, 4);
    TurnIs(4, 4);
  }

  /** All the masks that all parties take off, and put on. */
  function MaskTotal(z: seq<nat>): nat
    requires |z| == 10
  {
    2 * (z[0] + z[1] + z[2] + z[3] + z[4]) + 3 * (z[5] + z[6] + z[7] + z[8] + z[9])
  }

  function OffMasks(z: Six): nat {
    z[1] + z[2] + z[3] + z[4] + z[5]
  }

  lemma OffTotal(z: seq<nat>)
    requires |z| == 10
    ensures OffMasks(View(z, 0)) + OffMasks(View(z, 1)) + OffMasks(View(z, 2)) + OffMasks(View(z, 3)) + OffMasks(View(z, 4))
      == MaskTotal(z)
  {
  }

  /** Party p's masked product. */
  ghost predicate MaskedProduct(v: nat, p: nat, a: Sharing5, b: Sharing5, z: seq<nat>, k: nat)
    requires p < 5 && |z| == 10
  {
    v == Masked(Masking(p, Wrap(Local(a[p], b[p])), View(z, p), 6), k)
  }

  function Canons(x: Sharing5): (s: seq<nat>)
    ensures |s| == 10
  {
    seq(10, e requires 0 <= e < 10 => Canon(x, e))
  }

  lemma CanonsView(x: Sharing5, p: nat)
    requires p < 5
    ensures View(Canons(x), p) == CanonSix(x, p)
  {
  }

  lemma CanonsViewSame(x: Sharing5, p: nat, k: nat)
    requires Agreed5(x, k) && p < 5
    ensures SameWords(x[p], View(Canons(x), p), k)
  {
    hide Agreed5, View, Canons, CanonSix, SameWords;
    CanonsView(x, p);
    CanonSame(x, p, k);
    assert View(Canons(x), p) == CanonSix(x, p);
  }

  lemma MaskedProductCong(v: nat, p: nat, a: Sharing5, b: Sharing5, z: seq<nat>, k: nat)
    requires p < 5 && |z| == 10 && k <= W && Agreed5(a, k) && Agreed5(b, k) && MaskedProduct(v, p, a, b, z, k)
    ensures Cong(v, Local(View(Canons(a), p), View(Canons(b), p)) - OffMasks(View(z, p)), k)
  {
    hide Cong, Wrap, Local, Agreed5, Masking, Canons, View, CanonSix, Canon, SameWords;
    CanonsViewSame(a, p, k);
    CanonsViewSame(b, p, k);
    LocalCong(a[p], View(Canons(a), p), b[p], View(Canons(b), p), k);
    var l, l', y := Local(a[p], b[p]), Local(View(Canons(a), p), View(Canons(b), p)), OffMasks(View(z, p));
    WrapCong(l, k);
    MaskingCong(p, Wrap(l), View(z, p), k);
    CongTrans(Wrap(l), l, l', k);
    CongRefl(y, k);
    CongAdd(Wrap(l), l', y, y, k);
    var m := Masking(p, Wrap(l), View(z, p), 6);
    CongMod(m, k);
    CongTrans(v, m, Wrap(l) - y, k);
    CongTrans(v, Wrap(l) - y, l' - y, k);
  }

  lemma MaskedTotal(vs: seq<nat>, a: Sharing5, b: Sharing5, z: seq<nat>, k: nat)
    requires |vs| == 5 && |z| == 10 && k <= W && Agreed5(a, k) && Agreed5(b, k)
    requires forall p :: 0 <= p < 5 ==> MaskedProduct(vs[p], p, a, b, z, k)
    ensures Cong(vs[0] + vs[1] + vs[2] + vs[3] + vs[4], Sum5(a) * Sum5(b) - MaskTotal(z), k)
  {
    hide Cong, Local, Agreed5, MaskedProduct, View, OffMasks, Canons, MaskTotal, TotalOf, Sum5;
    var y := seq(5, p requires 0 <= p < 5 => Local(View(Canons(a), p), View(Canons(b), p)) - OffMasks(View(z, p)));
    forall p | 0 <= p < 5 ensures Cong(vs[p], y[p], k) {
      MaskedProductCong(vs[p], p, a, b, z, k);
    }
    Add5(vs, y, k);
    OffTotal(z);
    EveryProductOnce(Canons(a), Canons(b));
    CanonsTotal(a);
    CanonsTotal(b);
  }

  lemma CanonsTotal(x: Sharing5)
    ensures TotalOf(Canons(x)) == Sum5(x)
  {
  }

  /** The ten resharings of the masked products share the product of the secrets. */
  lemma Product5(c: Sharing5, a: Sharing5, b: Sharing5, z: seq<nat>, vs: seq<nat>, k: nat)
    requires |vs| == 5 && |z| == 10 && k <= W && Agreed5(a, k) && Agreed5(b, k) && Reshared(c, z, vs)
    requires forall p :: 0 <= p < 5 ==> MaskedProduct(vs[p], p, a, b, z, k)
    ensures Additive5(c, Sum5(a) * Sum5(b), k)
  {
    hide Cong, Agreed5, MaskedProduct, Reshared, MaskTotal, Sum5;
    ResharedAgreed(c, z, vs, k);
    ResharedSum(c, z, vs, k);
    MaskedTotal(vs, a, b, z, k);
    var s, t, m := vs[0] + vs[1] + vs[2] + vs[3] + vs[4], Sum5(a) * Sum5(b), MaskTotal(z);
    CongRefl(m, k);
    CongAdd(s, t - m, m, m, k);
    CongTrans(Sum5(c), s + m, t, k);
  }

  // ---------- the protocol ----------

  /** prg_ctrs: how many words are drawn per element for share t. */
  function PrgCtr(t: nat): (c: nat)
    ensures c >= 1
  {
    if t == 0 || t == 3 || t == 5 then 2 else 3
  }

  /** The same by share: one word for every party that owes it a mask. */
  function ShareCtr(e: nat): nat {
    if e < 5 then 2 else 3
  }

  lemma CtrOfShare(p: nat, t: nat)
    requires p < 5 && t < 6
    ensures PrgCtr(t) == ShareCtr(ShareOf(p, t))
  {
  }

  /** The bytes drawn of every share's stream for n elements. */
  ghost function Sizes(n: nat, k: nat): (s: seq<nat>)
    ensures |s| == 10
  {
    seq(10, e requires 0 <= e < 10 => Multiplication.RequestSize(ShareCtr(e) * n, k))
  }

  function Counts(n: nat, k: nat): (s: seq<nat>)
    ensures |s| == 6
  {
    seq(6, t requires 0 <= t < 6 => Multiplication.RequestSize(PrgCtr(t) * n, k))
  }

  lemma CountsAreSizes(n: nat, k: nat)
    requires n >= 1 && k >= 1
    ensures forall t :: 0 <= t < 6 ==> Counts(n, k)[t] >= 1
    ensures forall p, t :: 0 <= p < 5 && 0 <= t < 6 ==> Counts(n, k)[t] == Sizes(n, k)[ShareOf(p, t)]
  {
  }

  /** The word of share e's stream that masks element i: the tracker is reset for every party. */
  function StreamWord(stream: seq<Byte>, ctr: nat, i: nat, bytes: nat): nat {
    Load(stream, i * ctr, bytes)
  }

  ghost function MaskWords(streams: seq<seq<Byte>>, i: nat, bytes: nat): (z: seq<nat>)
    requires |streams| == 10
    ensures |z| == 10
  {
    seq(10, e requires 0 <= e < 10 => StreamWord(streams[e], ShareCtr(e), i, bytes))
  }

  function LoadWords(buf: seq<seq<Byte>>, i: nat, bytes: nat): Six
    requires |buf| == 6
  {
    [StreamWord(buf[0], PrgCtr(0), i, bytes), StreamWord(buf[1], PrgCtr(1), i, bytes), StreamWord(buf[2], PrgCtr(2), i, bytes),
     StreamWord(buf[3], PrgCtr(3), i, bytes), StreamWord(buf[4], PrgCtr(4), i, bytes), StreamWord(buf[5], PrgCtr(5), i, bytes)]
  }

  lemma LoadedView(buf: seq<seq<Byte>>, streams: seq<seq<Byte>>, p: nat, i: nat, bytes: nat)
    requires |streams| == 10 && p < 5 && Holds(buf, streams, p)
    ensures LoadWords(buf, i, bytes) == View(MaskWords(streams, i, bytes), p)
  {
  }

  /** What party p holds of element i before the exchange, and its masked product. */
  ghost predicate Prepared5(c: Sharing5, v: Words5, a: Sharing5, b: Sharing5, z: seq<nat>, upto: nat)
    requires |z| == 10 && upto <= 5
  {
    && (forall p, t :: 0 <= p < upto && 0 <= t < 6 ==> c[p][t] == MaskSum(ShareOf(p, t), View(z, p)[t], 5))
    && forall p :: 0 <= p < upto ==> v[p] == Masking(p, Wrap(Local(a[p], b[p])), View(z, p), 6)
  }

  /** All five parties' double loops for one element. */
  method PrepareElement(a: Sharing5, b: Sharing5, buf: seq<seq<seq<Byte>>>, i: nat, bytes: nat,
          ghost streams: seq<seq<Byte>>)
    returns (c: Sharing5, v: Words5)
    requires |streams| == 10 && |buf| == 5 && forall p :: 0 <= p < 5 ==> Holds(buf[p], streams, p) && |buf[p]| == 6
    ensures Prepared5(c, v, a, b, MaskWords(streams, i, bytes), 5)
  {
    hide *;
    c, v := [NoWords, NoWords, NoWords, NoWords, NoWords], [0, 0, 0, 0, 0];
    PreparedNone(c, v, a, b, MaskWords(streams, i, bytes));
    for p := 0 to 5
      invariant Prepared5(c, v, a, b, MaskWords(streams, i, bytes), p)
    {
      LoadedView(buf[p], streams, p, i, bytes);
      var cp, vp := MaskLoop(p, Wrap(Local(a[p], b[p])), LoadWords(buf[p], i, bytes));
      PreparedNext(c, v, a, b, MaskWords(streams, i, bytes), p, cp, vp);
      c, v := c[p := cp], v[p := vp];
    }
  }

  lemma PreparedNone(c: Sharing5, v: Words5, a: Sharing5, b: Sharing5, z: seq<nat>)
    requires |z| == 10
    ensures Prepared5(c, v, a, b, z, 0)
  {
  }

  lemma PreparedNext(c: Sharing5, v: Words5, a: Sharing5, b: Sharing5, z: seq<nat>, p: nat, cp: Six, vp: nat)
    requires |z| == 10 && p < 5 && Prepared5(c, v, a, b, z, p)
    requires forall t :: 0 <= t < 6 ==> cp[t] == MaskSum(ShareOf(p, t), View(z, p)[t], 5)
    requires vp == Masking(p, Wrap(Local(a[p], b[p])), View(z, p), 6)
    ensures Prepared5(c[p := cp], v[p := vp], a, b, z, p + 1)
  {
    hide MaskSum, Masking, ShareOf, View, Local, Wrap;
  }

  function MaskWords5(v: Words5, k: nat): Words5 {
    [Masked(v[0], k), Masked(v[1], k), Masked(v[2], k), Masked(v[3], k), Masked(v[4], k)]
  }

  /** What every party receives from the party d places after it. */
  function FromTurn(v: Words5, d: nat): Words5 {
    [v[Turn(0, d)], v[Turn(1, d)], v[Turn(2, d)], v[Turn(3, d)], v[Turn(4, d)]]
  }

  /** `SendAndGetDataFromPeer_Mult`: every word goes to the parties three and four places on. */
  method Exchange5(v: array<Words5>, k: nat) returns (recv0: array<Words5>, recv1: array<Words5>)
    modifies v
    ensures fresh(recv0) && fresh(recv1) && recv0.Length == recv1.Length == v.Length
    ensures forall i :: 0 <= i < v.Length ==>
      v[i] == MaskWords5(old(v[i]), k) && recv0[i] == FromTurn(v[i], 2) && recv1[i] == FromTurn(v[i], 1)
  {
    hide *;
    recv0 := new Words5[v.Length](_ => [0, 0, 0, 0, 0]);
    recv1 := new Words5[v.Length](_ => [0, 0, 0, 0, 0]);
    for i := 0 to v.Length
      invariant forall j :: 0 <= j < i ==>
        v[j] == MaskWords5(old(v[j]), k) && recv0[j] == FromTurn(v[j], 2) && recv1[j] == FromTurn(v[j], 1)
      invariant forall j :: i <= j < v.Length ==> v[j] == old(v[j])
    {
      v[i] := MaskWords5(v[i], k);
      recv0[i], recv1[i] := FromTurn(v[i], 2), FromTurn(v[i], 1);
    }
  }

  /** c[3] += recv[1], c[5] += recv[0], c[0] += v at one party. */
  function Received(c: Six, v: nat, r0: nat, r1: nat): Six {
    [Wrap(c[0] + v), c[1], c[2], Wrap(c[3] + r1), c[4], Wrap(c[5] + r0)]
  }

  function ReceivedAll(c: Sharing5, v: Words5, r0: Words5, r1: Words5): Sharing5 {
    [Received(c[0], v[0], r0[0], r1[0]), Received(c[1], v[1], r0[1], r1[1]), Received(c[2], v[2], r0[2], r1[2]),
     Received(c[3], v[3], r0[3], r1[3]), Received(c[4], v[4], r0[4], r1[4])]
  }

  lemma ArrivesAt(c: Six, w: Words5, z: seq<nat>, p: nat, t: nat)
    requires |z| == 10 && p < 5 && t < 6 && forall u :: 0 <= u < 6 ==> c[u] == MaskSum(ShareOf(p, u), View(z, p)[u], 5)
    ensures Received(c, w[p], w[Turn(p, 2)], w[Turn(p, 1)])[t] == SharePart(ShareOf(p, t), z, w)
  {
    hide MaskSum, Wrap, Turn;
    TurnTurn(p, 1, 4);
    TurnTurn(p, 2, 4);
    TurnTurn(p, 3, 4);
    TurnIs(p, 0);
  }

  /** The masked product arrives exactly at the holders of the share that misses the two parties after its sender. */
  lemma ArrivesAtHolders(c: Sharing5, v: Words5, a: Sharing5, b: Sharing5, z: seq<nat>, k: nat)
    requires |z| == 10 && Prepared5(c, v, a, b, z, 5)
    ensures
      var w := MaskWords5(v, k);
      Reshared(ReceivedAll(c, w, FromTurn(w, 2), FromTurn(w, 1)), z, w)
  {
    hide MaskSum, Wrap, Masking, Masked, Local;
    var w := MaskWords5(v, k);
    var c' := ReceivedAll(c, w, FromTurn(w, 2), FromTurn(w, 1));
    forall p, t | 0 <= p < 5 && 0 <= t < 6 ensures c'[p][t] == SharePart(ShareOf(p, t), z, w) {
      ArrivesAt(c[p], w, z, p, t);
    }
  }

  /**
   `Rss_Mult_mp`: c shares the products of the secrets of a and b and the generators stay together,
   whatever they hold.  c is cleared before the operands are read, so it is neither of them.
   */
  method Mult5(c: array<Sharing5>, a: array<Sharing5>, b: array<Sharing5>, k: nat, net: seq<NodeNetwork>,
          ghost gens: seq<Gen>)
    requires Follows(net, gens) && 1 <= k <= W && 1 <= c.Length == a.Length == b.Length && c != a && c != b
    requires forall i :: 0 <= i < a.Length ==> Agreed5(a[i], k) && Agreed5(b[i], k)
    modifies c, net
    ensures Follows(net, AdvanceEach(gens, Sizes(c.Length, k)))
    ensures forall p :: 0 <= p < 5 ==> net[p].Slot(6) == old(net[p].Slot(6))
    ensures forall i :: 0 <= i < c.Length ==> Additive5(c[i], Sum5(a[i]) * Sum5(b[i]), k)
  {
    assert Valid5(net);
    CountsAreSizes(c.Length, k);
    ghost var streams := TakeEach(gens, Sizes(c.Length, k));
    hide *;
    var buf := DrawShares(net, Counts(c.Length, k), gens, Sizes(c.Length, k));
    MultiplyWith(c, a, b, k, buf, streams);
  }

  /** Everything after the draws. */
  method MultiplyWith(c: array<Sharing5>, a: array<Sharing5>, b: array<Sharing5>, k: nat, buf: seq<seq<seq<Byte>>>,
          ghost streams: seq<seq<Byte>>)
    requires 1 <= k <= W && c.Length == a.Length == b.Length && c != a && c != b
    requires forall i :: 0 <= i < a.Length ==> Agreed5(a[i], k) && Agreed5(b[i], k)
    requires |streams| == 10 && |buf| == 5 && forall p :: 0 <= p < 5 ==> Holds(buf[p], streams, p)
    modifies c
    ensures forall i :: 0 <= i < c.Length ==> Additive5(c[i], Sum5(a[i]) * Sum5(b[i]), k)
  {
    forall p | 0 <= p < 5 ensures |buf[p]| == 6 {
      assert Holds(buf[p], streams, p);
    }
    hide *;
    var v := PrepareAll(c, a, b, k, buf, streams);
    ReceiveAll(c, v, a, b, k, streams);
  }

  method PrepareAll(c: array<Sharing5>, a: array<Sharing5>, b: array<Sharing5>, k: nat, buf: seq<seq<seq<Byte>>>,
          ghost streams: seq<seq<Byte>>)
    returns (v: array<Words5>)
    requires c.Length == a.Length == b.Length && c != a && c != b && |streams| == 10 && |buf| == 5
    requires forall p :: 0 <= p < 5 ==> Holds(buf[p], streams, p) && |buf[p]| == 6
    modifies c
    ensures fresh(v) && v.Length == c.Length
    ensures forall i :: 0 <= i < c.Length ==> Prepared5(c[i], v[i], a[i], b[i], MaskWords(streams, i, BytesFor(k)), 5)
  {
    hide *;
    v := new Words5[c.Length](_ => [0, 0, 0, 0, 0]);
    for i := 0 to c.Length
      invariant forall j :: 0 <= j < i ==> Prepared5(c[j], v[j], a[j], b[j], MaskWords(streams, j, BytesFor(k)), 5)
      modifies c, v
    {
      c[i], v[i] := PrepareElement(a[i], b[i], buf, i, BytesFor(k), streams);
    }
  }

  method ReceiveAll(c: array<Sharing5>, v: array<Words5>, a: array<Sharing5>, b: array<Sharing5>, k: nat,
          ghost streams: seq<seq<Byte>>)
    requires 1 <= k <= W && c.Length == v.Length == a.Length == b.Length && c != a && c != b && |streams| == 10
    requires forall i :: 0 <= i < a.Length ==> Agreed5(a[i], k) && Agreed5(b[i], k)
    requires forall i :: 0 <= i < c.Length ==> Prepared5(c[i], v[i], a[i], b[i], MaskWords(streams, i, BytesFor(k)), 5)
    modifies c, v
    ensures forall i :: 0 <= i < c.Length ==> Additive5(c[i], Sum5(a[i]) * Sum5(b[i]), k)
  {
    hide *;
    var recv0, recv1 := Exchange5(v, k);
    for i := 0 to c.Length
      invariant forall j :: 0 <= j < i ==> Additive5(c[j], Sum5(a[j]) * Sum5(b[j]), k)
      invariant forall j :: i <= j < c.Length ==> c[j] == old(c[j])
      modifies c
    {
      assert Agreed5(a[i], k) && Agreed5(b[i], k);
      assert Prepared5(old(c[i]), old(v[i]), a[i], b[i], MaskWords(streams, i, BytesFor(k)), 5);
      ElementProduct(c[i], old(v[i]), a[i], b[i], MaskWords(streams, i, BytesFor(k)), k);
      c[i] := ReceivedAll(c[i], v[i], recv0[i], recv1[i]);
    }
  }

  lemma ElementProduct(c: Sharing5, v: Words5, a: Sharing5, b: Sharing5, z: seq<nat>, k: nat)
    requires |z| == 10 && k <= W && Prepared5(c, v, a, b, z, 5) && Agreed5(a, k) && Agreed5(b, k)
    ensures
      var w := MaskWords5(v, k);
      Additive5(ReceivedAll(c, w, FromTurn(w, 2), FromTurn(w, 1)), Sum5(a) * Sum5(b), k)
  {
    hide Masking, Wrap, Local, View, Masked, Agreed5, Additive5, ReceivedAll, FromTurn, MaskSum, Reshared, Sum5;
    ArrivesAtHolders(c, v, a, b, z, k);
    var w := MaskWords5(v, k);
    Product5(ReceivedAll(c, w, FromTurn(w, 2), FromTurn(w, 1)), a, b, z, w, k);
  }
}
