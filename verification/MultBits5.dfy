/**
 Five-party multiplication and opening of bitwise sharings (`Rss_Mult_Bitwise_mp`, `Rss_Mult_Byte_mp`,
 `Rss_Open_Bitwise_mp`).

 Here every mask is a word of its own: running trackers pick the next unused word of a share's stream, in
 the same order at all its holders.  On every bit the protocol is the additive one over Z_2.
 */
module FivePartyBits {
  import opened Ring
  import opened Words
  import opened Stream
  import opened NodeNetworks
  import opened FiveParty
  import opened FivePartyMult
  import Opening5 = FivePartyOpen

  // ---------- bits of words, as numbers mod 2 ----------

  function BitSix(x: Six, j: nat): Six {
    [GetBit(x[0], j), GetBit(x[1], j), GetBit(x[2], j), GetBit(x[3], j), GetBit(x[4], j), GetBit(x[5], j)]
  }

  /** Bit j of every word. */
  function BitRow(x: Sharing5, j: nat): Sharing5 {
    [BitSix(x[0], j), BitSix(x[1], j), BitSix(x[2], j), BitSix(x[3], j), BitSix(x[4], j)]
  }

  /** The holders of every share have the same bit j. */
  ghost predicate BitAgreed5(x: Sharing5, j: nat) {
    Agreed5(BitRow(x, j), 1)
  }

  /** The secret's bit j. */
  function Parity5(x: Sharing5, j: nat): nat {
    Sum5(BitRow(x, j)) % 2
  }

  /** Bit j of c is a consistent sharing of the conjunction of a's and b's. */
  ghost predicate AndAt(c: Sharing5, a: Sharing5, b: Sharing5, j: nat) {
    BitAgreed5(c, j) && Parity5(c, j) == Parity5(a, j) * Parity5(b, j)
  }

  lemma XorBitCong(x: nat, y: nat, v: int, w: int, j: nat)
    requires Cong(GetBit(x, j), v, 1) && Cong(GetBit(y, j), w, 1)
    ensures Cong(GetBit(Xor(x, y), j), v + w, 1)
  {
    BitXor(x, y, j);
    hide Bit, Cong, Xor;
    CongAdd(GetBit(x, j), v, GetBit(y, j), w, 1);
    var s := GetBit(x, j) + GetBit(y, j);
    TwoBits(Bit(x, j), Bit(y, j));
    CongTrans(GetBit(Xor(x, y), j), s, v + w, 1);
  }

  lemma TwoBits(x: bool, y: bool)
    ensures Cong(ToNat(x != y), ToNat(x) + ToNat(y), 1)
  {
  }

  lemma AndBitCong(x: nat, y: nat, w: int, j: nat)
    requires Cong(GetBit(y, j), w, 1)
    ensures Cong(GetBit(And(x, y), j), Times(GetBit(x, j), w), 1)
  {
    BitAnd(x, y, j);
    hide Bit, Cong, And;
    CongRefl(GetBit(x, j), 1);
    CongMul(GetBit(x, j), GetBit(x, j), GetBit(y, j), w, 1);
  }

  // ---------- the local conjunctions ----------

  function XorSix(b: Six): nat {
    Xor(Xor(Xor(Xor(Xor(b[0], b[1]), b[2]), b[3]), b[4]), b[5])
  }

  /** v, as one party computes it. */
  function LocalXor(a: Six, b: Six): nat {
    Xor(Xor(Xor(Xor(Xor(And(a[0], XorSix(b)), And(a[1], XorSix(b))), And(a[2], Xor(b[1], b[3]))),
                And(a[3], Xor(b[0], b[2]))), And(a[4], Xor(b[0], b[1]))), And(a[5], Xor(b[0], b[4])))
  }

  lemma XorChain(x: seq<nat>, v: seq<int>, j: nat)
    requires |x| == |v| == 6 && forall i :: 0 <= i < 6 ==> Cong(GetBit(x[i], j), v[i], 1)
    ensures Cong(GetBit(Xor(Xor(Xor(Xor(Xor(x[0], x[1]), x[2]), x[3]), x[4]), x[5]), j), v[0] + v[1] + v[2] + v[3] + v[4] + v[5], 1)
  {
    hide Cong, Xor, GetBit;
    var y1 := Xor(x[0], x[1]);
    var y2 := Xor(y1, x[2]);
    var y3 := Xor(y2, x[3]);
    var y4 := Xor(y3, x[4]);
    XorBitCong(x[0], x[1], v[0], v[1], j);
    XorBitCong(y1, x[2], v[0] + v[1], v[2], j);
    XorBitCong(y2, x[3], v[0] + v[1] + v[2], v[3], j);
    XorBitCong(y3, x[4], v[0] + v[1] + v[2] + v[3], v[4], j);
    XorBitCong(y4, x[5], v[0] + v[1] + v[2] + v[3] + v[4], v[5], j);
  }

  lemma XorPair(x: nat, y: nat, j: nat)
    ensures Cong(GetBit(Xor(x, y), j), GetBit(x, j) + GetBit(y, j), 1)
  {
    hide Cong, Xor, GetBit;
    CongRefl(GetBit(x, j), 1);
    CongRefl(GetBit(y, j), 1);
    XorBitCong(x, y, GetBit(x, j), GetBit(y, j), j);
  }

  lemma XorSixCong(b: Six, j: nat)
    ensures Cong(GetBit(XorSix(b), j), BitSix(b, j)[0] + BitSix(b, j)[1] + BitSix(b, j)[2] + BitSix(b, j)[3] + BitSix(b, j)[4] + BitSix(b, j)[5], 1)
  {
    hide Cong, Xor, GetBit;
    forall i | 0 <= i < 6 ensures Cong(GetBit(b[i], j), BitSix(b, j)[i], 1) {
      CongRefl(GetBit(b[i], j), 1);
    }
    XorChain(b, BitSix(b, j), j);
  }

  /** On every bit the conjunctions are the additive cross products mod 2. */
  lemma LocalXorBit(a: Six, b: Six, j: nat)
    ensures Cong(GetBit(LocalXor(a, b), j), Local(BitSix(a, j), BitSix(b, j)), 1)
  {
    hide Cong, Xor, And, GetBit, XorSix, Times;
    var y := BitSix(b, j);
    XorSixCong(b, j);
    XorPair(b[1], b[3], j);
    XorPair(b[0], b[2], j);
    XorPair(b[0], b[1], j);
    XorPair(b[0], b[4], j);
    var all := y[0] + y[1] + y[2] + y[3] + y[4] + y[5];
    AndBitCong(a[0], XorSix(b), all, j);
    AndBitCong(a[1], XorSix(b), all, j);
    AndBitCong(a[2], Xor(b[1], b[3]), y[1] + y[3], j);
    AndBitCong(a[3], Xor(b[0], b[2]), y[0] + y[2], j);
    AndBitCong(a[4], Xor(b[0], b[1]), y[0] + y[1], j);
    AndBitCong(a[5], Xor(b[0], b[4]), y[0] + y[4], j);
    var x := BitSix(a, j);
    XorChain([And(a[0], XorSix(b)), And(a[1], XorSix(b)), And(a[2], Xor(b[1], b[3])), And(a[3], Xor(b[0], b[2])),
              And(a[4], Xor(b[0], b[1])), And(a[5], Xor(b[0], b[4]))],
             [Times(x[0], all), Times(x[1], all), Times(x[2], y[1] + y[3]), Times(x[3], y[0] + y[2]),
              Times(x[4], y[0] + y[1]), Times(x[5], y[0] + y[4])], j);
  }

  // ---------- masks, one word per owing party ----------

  /** The word of share e that masks for party q: the tracker has counted the owing parties before q. */
  function TrackedWord(stream: seq<Byte>, e: nat, q: nat, i: nat, bytes: nat): nat
    requires e < 10 && q < 5
  {
    Load(stream, i * ShareCtr(e) + Owing(e, q), bytes)
  }

  /** The masks of share e taken together, for the parties before q. */
  function MaskXor(stream: seq<Byte>, e: nat, q: nat, i: nat, bytes: nat): nat
    requires e < 10 && q <= 5
  {
    if q == 0 then 0
    else if Owes(q - 1, e) then Xor(MaskXor(stream, e, q - 1, i, bytes), TrackedWord(stream, e, q - 1, i, bytes))
    else MaskXor(stream, e, q - 1, i, bytes)
  }

  /** Party p's conjunctions under the masks of its first t shares. */
  function MaskingXor(p: nat, v: nat, buf: seq<seq<Byte>>, t: nat, i: nat, bytes: nat): nat
    requires p < 5 && t <= 6 && |buf| == 6
  {
    if t == 0 then v
    else if Owes(p, ShareOf(p, t - 1)) then
      Xor(MaskingXor(p, v, buf, t - 1, i, bytes), TrackedWord(buf[t - 1], ShareOf(p, t - 1), p, i, bytes))
    else MaskingXor(p, v, buf, t - 1, i, bytes)
  }

  /** Where the trackers stand once element i has dealt with the parties before q. */
  ghost predicate TrackersAt(tr: seq<nat>, p: nat, q: nat, i: nat)
    requires p < 5 && q <= 5
  {
    |tr| == 6 && forall t :: 0 <= t < 6 ==> tr[t] == i * PrgCtr(t) + Owing(ShareOf(p, t), q)
  }

  lemma TrackersWrap(tr: seq<nat>, p: nat, i: nat)
    requires p < 5 && TrackersAt(tr, p, 5, i)
    ensures TrackersAt(tr, p, 0, i + 1)
  {
    hide ShareOf, Owing, Owes;
    forall t | 0 <= t < 6 ensures tr[t] == (i + 1) * PrgCtr(t) + Owing(ShareOf(p, t), 0) {
      OwingTotal(ShareOf(p, t));
      OwingStep(ShareOf(p, t), 0);
      CtrOfShare(p, t);
      assert (i + 1) * PrgCtr(t) == i * PrgCtr(t) + PrgCtr(t);
    }
  }

  /** One party's double loop for one element. */
  method MaskXorLoop(p: nat, v0: nat, buf: seq<seq<Byte>>, i: nat, bytes: nat, tr0: seq<nat>)
    returns (c: Six, v: nat, tr: seq<nat>)
    requires p < 5 && |buf| == 6 && TrackersAt(tr0, p, 0, i)
    ensures forall t :: 0 <= t < 6 ==> c[t] == MaskXor(buf[t], ShareOf(p, t), 5, i, bytes)
    ensures v == MaskingXor(p, v0, buf, 6, i, bytes) && TrackersAt(tr, p, 0, i + 1)
  {
    hide Xor, ShareOf, Owes, TrackedWord, TrackersAt;
    c, v, tr := NoWords, v0, tr0;
    for q := 0 to 5
      invariant TrackersAt(tr, p, q, i)
      invariant forall t :: 0 <= t < 6 ==> c[t] == MaskXor(buf[t], ShareOf(p, t), q, i, bytes)
      invariant v == if q <= p then v0 else MaskingXor(p, v0, buf, 6, i, bytes)
    {
      c, v, tr := MaskXorFor(p, q, v0, buf, i, bytes, c, v, tr);
    }
    TrackersWrap(tr, p, i);
  }

  method MaskXorFor(p: nat, q: nat, ghost v0: nat, buf: seq<seq<Byte>>, ghost i: nat, bytes: nat, c0: Six, w: nat,
          tr0: seq<nat>)
    returns (c: Six, v: nat, tr: seq<nat>)
    requires p < 5 && q < 5 && |buf| == 6 && TrackersAt(tr0, p, q, i)
    requires forall t :: 0 <= t < 6 ==> c0[t] == MaskXor(buf[t], ShareOf(p, t), q, i, bytes)
    requires w == if q <= p then v0 else MaskingXor(p, v0, buf, 6, i, bytes)
    ensures TrackersAt(tr, p, q + 1, i)
    ensures forall t :: 0 <= t < 6 ==> c[t] == MaskXor(buf[t], ShareOf(p, t), q + 1, i, bytes)
    ensures v == if q < p then v0 else MaskingXor(p, v0, buf, 6, i, bytes)
  {
    hide Xor, ShareOf, Owes, TMap, InT, ChiInT, After, Load, PrgCtr, ShareCtr, TrackedWord, Owing, MaskXor, MaskingXor;
    c, v, tr := c0, w, tr0;
    MaskingXorStart(p, v0, buf, i, bytes);
    for t := 0 to 6
      invariant |tr| == 6 && forall u :: 0 <= u < 6 ==> tr[u] == i * PrgCtr(u) + Owing(ShareOf(p, u), if u < t then q + 1 else q)
      invariant forall u :: 0 <= u < 6 ==> c[u] == MaskXor(buf[u], ShareOf(p, u), if u < t then q + 1 else q, i, bytes)
      invariant v == if q < p then v0 else if q == p then MaskingXor(p, v0, buf, t, i, bytes) else MaskingXor(p, v0, buf, 6, i, bytes)
    {
      TablesAreShares(p, t, q);
      TrackedStep(buf, p, t, q, v0, i, bytes);
      if q + 1 != p + 1 && !InT(q + 1, TMap(p + 1, t)) && !ChiInT(q + 1, TMap(p + 1, t)) {
        c := c[t := Xor(c[t], Load(buf[t], tr[t], bytes))];
        tr := tr[t := tr[t] + 1];
      } else if q + 1 == p + 1 && !ChiInT(p + 1, TMap(p + 1, t)) {
        c := c[t := Xor(c[t], Load(buf[t], tr[t], bytes))];
        v := Xor(v, Load(buf[t], tr[t], bytes));
        tr := tr[t := tr[t] + 1];
      }
    }
  }

  lemma MaskingXorStart(p: nat, v0: nat, buf: seq<seq<Byte>>, i: nat, bytes: nat)
    requires p < 5 && |buf| == 6
    ensures MaskingXor(p, v0, buf, 0, i, bytes) == v0
  {
  }

  /** What happens to share t when party q is considered. */
  lemma TrackedStep(buf: seq<seq<Byte>>, p: nat, t: nat, q: nat, v0: nat, i: nat, bytes: nat)
    requires p < 5 && t < 6 && q < 5 && |buf| == 6
    ensures
      var e := ShareOf(p, t);
      var z, m := Load(buf[t], i * PrgCtr(t) + Owing(e, q), bytes), MaskXor(buf[t], e, q, i, bytes);
      && Owing(e, q + 1) == Owing(e, q) + (if Owes(q, e) then 1 else 0)
      && MaskXor(buf[t], e, q + 1, i, bytes) == (if Owes(q, e) then Xor(m, z) else m)
      && (q == p ==> MaskingXor(p, v0, buf, t + 1, i, bytes)
                     == if Owes(p, e) then Xor(MaskingXor(p, v0, buf, t, i, bytes), z) else MaskingXor(p, v0, buf, t, i, bytes))
  {
    hide ShareOf, Owes, Xor, Load, PrgCtr, TrackedWord;
    TrackedIs(buf[t], p, t, q, i, bytes);
  }

  lemma TrackedIs(stream: seq<Byte>, p: nat, t: nat, q: nat, i: nat, bytes: nat)
    requires p < 5 && t < 6 && q < 5
    ensures TrackedWord(stream, ShareOf(p, t), q, i, bytes) == Load(stream, i * PrgCtr(t) + Owing(ShareOf(p, t), q), bytes)
  {
  }

  // ---------- every mask is put on and taken off ----------

  /** Bit j of the mask party q owes share e, or nothing. */
  function MaskBit(streams: seq<seq<Byte>>, e: nat, q: nat, i: nat, bytes: nat, j: nat): nat
    requires |streams| == 10 && e < 10 && q < 5
  {
    if Owes(q, e) then GetBit(TrackedWord(streams[e], e, q, i, bytes), j) else 0
  }

  function MaskBits(streams: seq<seq<Byte>>, i: nat, bytes: nat, j: nat): (m: seq<seq<nat>>)
    requires |streams| == 10
    ensures |m| == 10 && forall e :: 0 <= e < 10 ==> |m[e]| == 5
  {
    seq(10, e requires 0 <= e < 10 => seq(5, q requires 0 <= q < 5 => MaskBit(streams, e, q, i, bytes, j)))
  }

  /** All masks of one share. */
  function RowSum(m: seq<nat>): nat
    requires |m| == 5
  {
    m[0] + m[1] + m[2] + m[3] + m[4]
  }

  /** All masks of one party. */
  function ColumnSum(m: seq<seq<nat>>, p: nat): nat
    requires |m| == 10 && (forall e :: 0 <= e < 10 ==> |m[e]| == 5) && p < 5
  {
    m[ShareOf(p, 1)][p] + m[ShareOf(p, 2)][p] + m[ShareOf(p, 3)][p] + m[ShareOf(p, 4)][p] + m[ShareOf(p, 5)][p]
  }

  ghost predicate OnlyOwed(m: seq<seq<nat>>) {
    |m| == 10 && (forall e :: 0 <= e < 10 ==> |m[e]| == 5) && forall e, q :: 0 <= e < 10 && 0 <= q < 5 && !Owes(q, e) ==> m[e][q] == 0
  }

  function Column(m: seq<seq<nat>>, p: nat): (c: seq<nat>)
    requires |m| == 10 && (forall e :: 0 <= e < 10 ==> |m[e]| == 5) && p < 5
    ensures |c| == 10
  {
    seq(10, e requires 0 <= e < 10 => m[e][p])
  }

  lemma NotOwed(p: nat)
    requires p < 5
    ensures !Owes(p, p) && !Owes(p, Turn(p, 4)) && !Owes(p, Turn(p, 1)) && !Owes(p, 5 + p) && !Owes(p, 5 + Turn(p, 3))
  {
    hide Turn, After;
    TurnIs(p, 1);
    TurnIs(p, 3);
    TurnIs(p, 4);
    TurnTurn(p, 4, 1);
    TurnTurn(p, 3, 2);
    TurnIs(p, 0);
  }

  /** What one party masks is everything in its column. */
  lemma ColumnIsAll(m: seq<seq<nat>>, p: nat)
    requires OnlyOwed(m) && p < 5
    ensures ColumnSum(m, p) == TotalOf(Column(m, p))
  {
    hide Turn, Owes, TotalOf, After;
    NotOwed(p);
    RotatedTotal(Column(m, p), p);
    TurnIs(p, 0);
  }

  /** Every mask is put on its share and taken off its party's product. */
  lemma MasksBalance(m: seq<seq<nat>>)
    requires OnlyOwed(m)
    ensures RowSum(m[0]) + RowSum(m[1]) + RowSum(m[2]) + RowSum(m[3]) + RowSum(m[4])
      + RowSum(m[5]) + RowSum(m[6]) + RowSum(m[7]) + RowSum(m[8]) + RowSum(m[9])
      == ColumnSum(m, 0) + ColumnSum(m, 1) + ColumnSum(m, 2) + ColumnSum(m, 3) + ColumnSum(m, 4)
  {
    hide Owes, ColumnSum;
    ColumnIsAll(m, 0);
    ColumnIsAll(m, 1);
    ColumnIsAll(m, 2);
    ColumnIsAll(m, 3);
    ColumnIsAll(m, 4);
  }

  // ---------- bits of the masked words ----------

  /** The first q masks of a row. */
  function RowPrefix(m: seq<nat>, q: nat): nat
    requires q <= |m|
  {
    if q == 0 then 0 else RowPrefix(m, q - 1) + m[q - 1]
  }

  lemma RowPrefixIsSum(m: seq<nat>)
    requires |m| == 5
    ensures RowPrefix(m, 5) == RowSum(m)
  {
    assert RowPrefix(m, 1) == m[0];
    assert RowPrefix(m, 2) == m[0] + m[1];
    assert RowPrefix(m, 4) == RowPrefix(m, 2) + m[2] + m[3];
  }

  lemma {:induction false} MaskXorBit(streams: seq<seq<Byte>>, e: nat, q: nat, i: nat, bytes: nat, j: nat)
    requires |streams| == 10 && e < 10 && q <= 5
    ensures Cong(GetBit(MaskXor(streams[e], e, q, i, bytes), j), RowPrefix(MaskBits(streams, i, bytes, j)[e], q), 1)
  {
    hide Cong, Xor, Bit, TrackedWord, Owes;
    if q == 0 {
      BitZero(j);
      CongRefl(0, 1);
    } else {
      MaskXorBit(streams, e, q - 1, i, bytes, j);
      if Owes(q - 1, e) {
        var z := TrackedWord(streams[e], e, q - 1, i, bytes);
        CongRefl(GetBit(z, j), 1);
        XorBitCong(MaskXor(streams[e], e, q - 1, i, bytes), z, RowPrefix(MaskBits(streams, i, bytes, j)[e], q - 1), GetBit(z, j), j);
      }
    }
  }

  /** Taking off is putting on again: the masks of the party's shares after the first. */
  function ColumnPrefix(m: seq<seq<nat>>, p: nat, t: nat): nat
    requires |m| == 10 && (forall e :: 0 <= e < 10 ==> |m[e]| == 5) && p < 5 && t <= 6
  {
    if t == 0 then 0 else ColumnPrefix(m, p, t - 1) + m[ShareOf(p, t - 1)][p]
  }

  lemma ColumnPrefixIsSum(m: seq<seq<nat>>, p: nat)
    requires OnlyOwed(m) && p < 5
    ensures ColumnPrefix(m, p, 6) == ColumnSum(m, p)
  {
    hide ShareOf, Owes;
    OwnOwes(p, 0);
    assert ColumnPrefix(m, p, 1) == 0;
    assert ColumnPrefix(m, p, 3) == ColumnPrefix(m, p, 1) + m[ShareOf(p, 1)][p] + m[ShareOf(p, 2)][p];
    assert ColumnPrefix(m, p, 5) == ColumnPrefix(m, p, 3) + m[ShareOf(p, 3)][p] + m[ShareOf(p, 4)][p];
  }

  lemma {:induction false} MaskingXorBit(streams: seq<seq<Byte>>, p: nat, v: nat, buf: seq<seq<Byte>>, t: nat,
          i: nat, bytes: nat, j: nat)
    requires |streams| == 10 && p < 5 && t <= 6 && Holds(buf, streams, p)
    ensures Cong(GetBit(MaskingXor(p, v, buf, t, i, bytes), j), GetBit(v, j) + ColumnPrefix(MaskBits(streams, i, bytes, j), p, t), 1)
  {
    hide Cong, Xor, GetBit, TrackedWord, Owes, ShareOf;
    if t == 0 {
      CongRefl(GetBit(v, j), 1);
    } else {
      var m, e := MaskBits(streams, i, bytes, j), ShareOf(p, t - 1);
      MaskingXorBit(streams, p, v, buf, t - 1, i, bytes, j);
      if Owes(p, e) {
        var z := TrackedWord(streams[e], e, p, i, bytes);
        CongRefl(GetBit(z, j), 1);
        XorBitCong(MaskingXor(p, v, buf, t - 1, i, bytes), z, GetBit(v, j) + ColumnPrefix(m, p, t - 1), GetBit(z, j), j);
      }
    }
  }

  // ---------- one element ----------

  /** Share e of the result. */
  function SharePartX(e: nat, streams: seq<seq<Byte>>, i: nat, bytes: nat, vs: Words5): nat
    requires e < 10 && |streams| == 10
  {
    var m := MaskXor(streams[e], e, 5, i, bytes);
    if e < 5 then Xor(m, vs[Turn(e, 4)]) else m
  }

  ghost predicate ResharedX(c: Sharing5, streams: seq<seq<Byte>>, i: nat, bytes: nat, vs: Words5)
    requires |streams| == 10
  {
    forall p, t :: 0 <= p < 5 && 0 <= t < 6 ==> c[p][t] == SharePartX(ShareOf(p, t), streams, i, bytes, vs)
  }

  lemma ResharedCanonX(c: Sharing5, streams: seq<seq<Byte>>, i: nat, bytes: nat, vs: Words5, e: nat)
    requires |streams| == 10 && ResharedX(c, streams, i, bytes, vs) && e < 10
    ensures Canon(c, e) == SharePartX(e, streams, i, bytes, vs)
  {
    hide SharePartX, Turn, ShareOf;
    CanonIsShare(e);
  }

  lemma BitRowCanon(c: Sharing5, j: nat, e: nat)
    requires e < 10
    ensures Canon(BitRow(c, j), e) == GetBit(Canon(c, e), j)
  {
    hide Turn, GetBit;
  }

  lemma ResharedBitAgreed(c: Sharing5, streams: seq<seq<Byte>>, i: nat, bytes: nat, vs: Words5, j: nat)
    requires |streams| == 10 && ResharedX(c, streams, i, bytes, vs)
    ensures BitAgreed5(c, j)
  {
    hide SharePartX, ShareOf, Canon, Cong, GetBit;
    forall p, t | 0 <= p < 5 && 0 <= t < 6 ensures Cong(BitRow(c, j)[p][t], Canon(BitRow(c, j), ShareOf(p, t)), 1) {
      ResharedCanonX(c, streams, i, bytes, vs, ShareOf(p, t));
      BitRowCanon(c, j, ShareOf(p, t));
      CongRefl(GetBit(c[p][t], j), 1);
    }
  }

  lemma SharePartBit(e: nat, streams: seq<seq<Byte>>, i: nat, bytes: nat, vs: Words5, j: nat)
    requires e < 10 && |streams| == 10
    ensures Cong(GetBit(SharePartX(e, streams, i, bytes, vs), j),
                 RowSum(MaskBits(streams, i, bytes, j)[e]) + if e < 5 then GetBit(vs[Turn(e, 4)], j) else 0, 1)
  {
    hide Cong, Xor, GetBit, MaskXor, Turn, MaskBits, RowSum;
    var m := MaskBits(streams, i, bytes, j)[e];
    MaskXorBit(streams, e, 5, i, bytes, j);
    RowPrefixIsSum(m);
    if e < 5 {
      CongRefl(GetBit(vs[Turn(e, 4)], j), 1);
      XorBitCong(MaskXor(streams[e], e, 5, i, bytes), vs[Turn(e, 4)], RowSum(m), GetBit(vs[Turn(e, 4)], j), j);
    }
  }

  /** The bits of the ten shares add up to the bits of the masked products and all masks. */
  lemma ResharedBits(c: Sharing5, streams: seq<seq<Byte>>, i: nat, bytes: nat, vs: Words5, j: nat)
    requires |streams| == 10 && ResharedX(c, streams, i, bytes, vs)
    ensures
      var m := MaskBits(streams, i, bytes, j);
      Cong(Sum5(BitRow(c, j)), GetBit(vs[0], j) + GetBit(vs[1], j) + GetBit(vs[2], j) + GetBit(vs[3], j) + GetBit(vs[4], j)
        + RowSum(m[0]) + RowSum(m[1]) + RowSum(m[2]) + RowSum(m[3]) + RowSum(m[4])
        + RowSum(m[5]) + RowSum(m[6]) + RowSum(m[7]) + RowSum(m[8]) + RowSum(m[9]), 1)
  {
    hide Cong, ResharedX, SharePartX, Canon, Turn, GetBit, MaskBits, RowSum;
    var m := MaskBits(streams, i, bytes, j);
    var x := seq(5, e requires 0 <= e < 5 => Canon(BitRow(c, j), e));
    var y := seq(5, e requires 0 <= e < 5 => RowSum(m[e]) + GetBit(vs[Turn(e, 4)], j));
    forall e | 0 <= e < 5 ensures Cong(x[e], y[e], 1) {
      ResharedCanonX(c, streams, i, bytes, vs, e);
      BitRowCanon(c, j, e);
      SharePartBit(e, streams, i, bytes, vs, j);
    }
    Add5(x, y, 1);
    var x' := seq(5, e requires 0 <= e < 5 => Canon(BitRow(c, j), 5 + e));
    var y' := seq(5, e requires 0 <= e < 5 => RowSum(m[5 + e]));
    forall e | 0 <= e < 5 ensures Cong(x'[e], y'[e], 1) {
      ResharedCanonX(c, streams, i, bytes, vs, 5 + e);
      BitRowCanon(c, j, 5 + e);
      SharePartBit(5 + e, streams, i, bytes, vs, j);
    }
    Add5(x', y', 1);
    Add2(x[0] + x[1] + x[2] + x[3] + x[4], x'[0] + x'[1] + x'[2] + x'[3] + x'[4],
         y[0] + y[1] + y[2] + y[3] + y[4], y'[0] + y'[1] + y'[2] + y'[3] + y'[4], 1);
    RoutedFour();
  }

  ghost predicate MaskedAnds(v: nat, p: nat, a: Sharing5, b: Sharing5, buf: seq<seq<Byte>>, i: nat, bytes: nat, k: nat)
    requires p < 5 && |buf| == 6
  {
    v == Masked(MaskingXor(p, LocalXor(a[p], b[p]), buf, 6, i, bytes), k)
  }

  lemma LocalBits(a: Sharing5, b: Sharing5, p: nat, j: nat)
    requires p < 5 && BitAgreed5(a, j) && BitAgreed5(b, j)
    ensures Cong(GetBit(LocalXor(a[p], b[p]), j), Local(View(Canons(BitRow(a, j)), p), View(Canons(BitRow(b, j)), p)), 1)
  {
    hide Cong, Local, LocalXor, Agreed5, Canons, View, GetBit, SameWords;
    var x, y := BitRow(a, j), BitRow(b, j);
    CanonsViewSame(x, p, 1);
    CanonsViewSame(y, p, 1);
    LocalCong(x[p], View(Canons(x), p), y[p], View(Canons(y), p), 1);
    LocalXorBit(a[p], b[p], j);
    CongTrans(GetBit(LocalXor(a[p], b[p]), j), Local(x[p], y[p]), Local(View(Canons(x), p), View(Canons(y), p)), 1);
  }

  lemma MaskedAndsBit(v: nat, p: nat, a: Sharing5, b: Sharing5, buf: seq<seq<Byte>>, streams: seq<seq<Byte>>, i: nat,
          bytes: nat, k: nat, j: nat)
    requires p < 5 && |streams| == 10 && |buf| == 6 && Holds(buf, streams, p) && j < k && MaskedAnds(v, p, a, b, buf, i, bytes, k)
    requires BitAgreed5(a, j) && BitAgreed5(b, j)
    ensures Cong(GetBit(v, j), Local(View(Canons(BitRow(a, j)), p), View(Canons(BitRow(b, j)), p))
                               + ColumnSum(MaskBits(streams, i, bytes, j), p), 1)
  {
    hide *;
    var m := MaskBits(streams, i, bytes, j);
    var l, l' := LocalXor(a[p], b[p]), Local(View(Canons(BitRow(a, j)), p), View(Canons(BitRow(b, j)), p));
    LocalBits(a, b, p, j);
    MaskingXorBit(streams, p, l, buf, 6, i, bytes, j);
    MaskBitsOwed(streams, i, bytes, j);
    ColumnPrefixIsSum(m, p);
    CongRefl(ColumnSum(m, p), 1);
    CongAdd(GetBit(l, j), l', ColumnSum(m, p), ColumnSum(m, p), 1);
    var w := MaskingXor(p, l, buf, 6, i, bytes);
    MaskedAndsAre(v, p, a, b, buf, i, bytes, k);
    CongTrans(GetBit(w, j), GetBit(l, j) + ColumnSum(m, p), l' + ColumnSum(m, p), 1);
    MaskedBitCong(w, l' + ColumnSum(m, p), k, j);
  }

  lemma MaskedAndsAre(v: nat, p: nat, a: Sharing5, b: Sharing5, buf: seq<seq<Byte>>, i: nat, bytes: nat, k: nat)
    requires p < 5 && |buf| == 6 && MaskedAnds(v, p, a, b, buf, i, bytes, k)
    ensures v == Masked(MaskingXor(p, LocalXor(a[p], b[p]), buf, 6, i, bytes), k)
  {
    hide Masked, MaskingXor, LocalXor;
  }

  lemma MaskBitsOwed(streams: seq<seq<Byte>>, i: nat, bytes: nat, j: nat)
    requires |streams| == 10
    ensures OnlyOwed(MaskBits(streams, i, bytes, j))
  {
  }

  lemma Twice(x: int, y: int)
    ensures Cong(x + 2 * y, x, 1)
  {
  }

  /** On a bit whose operands are consistent the result shares the conjunction. */
  lemma AndElement(c: Sharing5, a: Sharing5, b: Sharing5, buf: seq<seq<seq<Byte>>>, streams: seq<seq<Byte>>, i: nat,
          bytes: nat, vs: Words5, k: nat, j: nat)
    requires |streams| == 10 && |buf| == 5 && (forall p :: 0 <= p < 5 ==> Holds(buf[p], streams, p) && |buf[p]| == 6)
    requires j < k && BitAgreed5(a, j) && BitAgreed5(b, j) && ResharedX(c, streams, i, bytes, vs)
    requires forall p :: 0 <= p < 5 ==> MaskedAnds(vs[p], p, a, b, buf[p], i, bytes, k)
    ensures AndAt(c, a, b, j)
  {
    hide Cong, Local, BitAgreed5, MaskedAnds, View, Canons, MaskBits, Holds, ColumnSum, RowSum, GetBit, ResharedX, Sum5, BitRow, TotalOf;
    var x, y, m := BitRow(a, j), BitRow(b, j), MaskBits(streams, i, bytes, j);
    var u := seq(5, p requires 0 <= p < 5 => GetBit(vs[p], j));
    var w := seq(5, p requires 0 <= p < 5 => Local(View(Canons(x), p), View(Canons(y), p)) + ColumnSum(m, p));
    forall p | 0 <= p < 5 ensures Cong(u[p], w[p], 1) {
      assert MaskedAnds(vs[p], p, a, b, buf[p], i, bytes, k);
      MaskedAndsBit(vs[p], p, a, b, buf[p], streams, i, bytes, k, j);
    }
    Add5(u, w, 1);
    EveryProductOnce(Canons(x), Canons(y));
    CanonsTotal(x);
    CanonsTotal(y);
    MaskBitsOwed(streams, i, bytes, j);
    MasksBalance(m);
    ResharedBits(c, streams, i, bytes, vs, j);
    ResharedBitAgreed(c, streams, i, bytes, vs, j);
    var cols := ColumnSum(m, 0) + ColumnSum(m, 1) + ColumnSum(m, 2) + ColumnSum(m, 3) + ColumnSum(m, 4);
    Conclude(Sum5(BitRow(c, j)), u[0] + u[1] + u[2] + u[3] + u[4], Sum5(x), Sum5(y), cols);
  }

  lemma Conclude(s: nat, v: nat, x: nat, y: nat, cols: nat)
    requires Cong(s, v + cols, 1) && Cong(v, x * y + cols, 1)
    ensures s % 2 == (x % 2) * (y % 2)
  {
    hide Cong;
    CongRefl(cols, 1);
    CongAdd(v, x * y + cols, cols, cols, 1);
    CongTrans(s, v + cols, x * y + cols + cols, 1);
    Twice(x * y, cols);
    CongTrans(s, x * y + 2 * cols, x * y, 1);
    CongMod(x, 1);
    CongMod(y, 1);
    CongMul(x % Pow2(1), x, y % Pow2(1), y, 1);
    CongSym(x % Pow2(1) * (y % Pow2(1)), x * y, 1);
    CongTrans(s, x * y, x % Pow2(1) * (y % Pow2(1)), 1);
    ModOne(s, x % Pow2(1), y % Pow2(1));
  }

  lemma ModOne(s: nat, x: nat, y: nat)
    requires x < 2 && y < 2 && Cong(s, x * y, 1)
    ensures Pow2(1) == 2 && s % 2 == x * y
  {
  }

  // ---------- the protocol ----------

  ghost predicate PreparedX(c: Sharing5, v: Words5, a: Sharing5, b: Sharing5, buf: seq<seq<seq<Byte>>>, i: nat,
          bytes: nat, upto: nat)
    requires |buf| == 5 && (forall p :: 0 <= p < 5 ==> |buf[p]| == 6) && upto <= 5
  {
    && (forall p, t :: 0 <= p < upto && 0 <= t < 6 ==> c[p][t] == MaskXor(buf[p][t], ShareOf(p, t), 5, i, bytes))
    && forall p :: 0 <= p < upto ==> v[p] == MaskingXor(p, LocalXor(a[p], b[p]), buf[p], 6, i, bytes)
  }

  /** The trackers of all five parties before element i. */
  ghost predicate AllTrackers(tr: seq<seq<nat>>, i: nat) {
    |tr| == 5 && forall p :: 0 <= p < 5 ==> TrackersAt(tr[p], p, 0, i)
  }

  lemma FirstTrackers()
    ensures AllTrackers(seq(5, _ => [0, 0, 0, 0, 0, 0]), 0)
  {
  }

  method PrepareElementX(a: Sharing5, b: Sharing5, buf: seq<seq<seq<Byte>>>, i: nat, bytes: nat, tr0: seq<seq<nat>>)
    returns (c: Sharing5, v: Words5, tr: seq<seq<nat>>)
    requires |buf| == 5 && (forall p :: 0 <= p < 5 ==> |buf[p]| == 6) && AllTrackers(tr0, i)
    ensures PreparedX(c, v, a, b, buf, i, bytes, 5) && AllTrackers(tr, i + 1)
  {
    hide MaskXor, MaskingXor, LocalXor, ShareOf, TrackersAt;
    c, v, tr := [NoWords, NoWords, NoWords, NoWords, NoWords], [0, 0, 0, 0, 0], tr0;
    for p := 0 to 5
      invariant PreparedX(c, v, a, b, buf, i, bytes, p)
      invariant |tr| == 5 && forall q :: 0 <= q < 5 ==> TrackersAt(tr[q], q, 0, if q < p then i + 1 else i)
    {
      var cp, vp, trp := MaskXorLoop(p, LocalXor(a[p], b[p]), buf[p], i, bytes, tr[p]);
      c, v, tr := c[p := cp], v[p := vp], tr[p := trp];
    }
  }

  /** c[3] ^= recv[1], c[5] ^= recv[0], c[0] ^= v at one party. */
  function ReceivedX(c: Six, v: nat, r0: nat, r1: nat): Six {
    [Xor(c[0], v), c[1], c[2], Xor(c[3], r1), c[4], Xor(c[5], r0)]
  }

  function ReceivedAllX(c: Sharing5, v: Words5, r0: Words5, r1: Words5): Sharing5 {
    [ReceivedX(c[0], v[0], r0[0], r1[0]), ReceivedX(c[1], v[1], r0[1], r1[1]), ReceivedX(c[2], v[2], r0[2], r1[2]),
     ReceivedX(c[3], v[3], r0[3], r1[3]), ReceivedX(c[4], v[4], r0[4], r1[4])]
  }

  lemma ArrivesAtX(c: Six, w: Words5, streams: seq<seq<Byte>>, i: nat, bytes: nat, p: nat, t: nat)
    requires |streams| == 10 && p < 5 && t < 6
    requires forall u :: 0 <= u < 6 ==> c[u] == MaskXor(streams[ShareOf(p, u)], ShareOf(p, u), 5, i, bytes)
    ensures ReceivedX(c, w[p], w[Turn(p, 2)], w[Turn(p, 1)])[t] == SharePartX(ShareOf(p, t), streams, i, bytes, w)
  {
    hide MaskXor, Xor, Turn;
    TurnTurn(p, 1, 4);
    TurnTurn(p, 2, 4);
    TurnTurn(p, 3, 4);
    TurnIs(p, 0);
  }

  lemma ArrivesAtHoldersX(c: Sharing5, w: Words5, streams: seq<seq<Byte>>, i: nat, bytes: nat)
    requires |streams| == 10
    requires forall p, u :: 0 <= p < 5 && 0 <= u < 6 ==> c[p][u] == MaskXor(streams[ShareOf(p, u)], ShareOf(p, u), 5, i, bytes)
    ensures ResharedX(ReceivedAllX(c, w, FromTurn(w, 2), FromTurn(w, 1)), streams, i, bytes, w)
  {
    hide MaskXor, Xor, ShareOf, SharePartX, ReceivedX, Turn;
    var c' := ReceivedAllX(c, w, FromTurn(w, 2), FromTurn(w, 1));
    forall p, t | 0 <= p < 5 && 0 <= t < 6 ensures c'[p][t] == SharePartX(ShareOf(p, t), streams, i, bytes, w) {
      ArrivesAtX(c[p], w, streams, i, bytes, p, t);
    }
  }

  lemma ElementConjunction(c: Sharing5, v: Words5, a: Sharing5, b: Sharing5, buf: seq<seq<seq<Byte>>>,
          streams: seq<seq<Byte>>, i: nat, bytes: nat, k: nat)
    requires |streams| == 10 && |buf| == 5 && (forall p :: 0 <= p < 5 ==> |buf[p]| == 6 && Holds(buf[p], streams, p))
    requires PreparedX(c, v, a, b, buf, i, bytes, 5)
    ensures
      var w := MaskWords5(v, k);
      AndAll5(ReceivedAllX(c, w, FromTurn(w, 2), FromTurn(w, 1)), a, b, k)
  {
    hide MaskXor, MaskingXor, LocalXor, ShareOf, ReceivedAllX, FromTurn, AndAt, BitAgreed5, ResharedX, Masked, MaskedAnds;
    var w := MaskWords5(v, k);
    var c' := ReceivedAllX(c, w, FromTurn(w, 2), FromTurn(w, 1));
    PreparedWords(c, v, a, b, buf, streams, i, bytes, k);
    ArrivesAtHoldersX(c, w, streams, i, bytes);
    forall j | 0 <= j < k && BitAgreed5(a, j) && BitAgreed5(b, j) ensures AndAt(c', a, b, j) {
      AndElement(c', a, b, buf, streams, i, bytes, w, k, j);
    }
  }

  lemma PreparedWords(c: Sharing5, v: Words5, a: Sharing5, b: Sharing5, buf: seq<seq<seq<Byte>>>,
          streams: seq<seq<Byte>>, i: nat, bytes: nat, k: nat)
    requires |streams| == 10 && |buf| == 5 && (forall p :: 0 <= p < 5 ==> |buf[p]| == 6 && Holds(buf[p], streams, p))
    requires PreparedX(c, v, a, b, buf, i, bytes, 5)
    ensures forall p, u :: 0 <= p < 5 && 0 <= u < 6 ==> c[p][u] == MaskXor(streams[ShareOf(p, u)], ShareOf(p, u), 5, i, bytes)
    ensures forall p :: 0 <= p < 5 ==> MaskedAnds(MaskWords5(v, k)[p], p, a, b, buf[p], i, bytes, k)
  {
    hide MaskXor, MaskingXor, LocalXor, ShareOf, Masked;
  }

  /** On every bit whose operands are consistent, c shares the conjunction. */
  ghost predicate AndAll5(c: Sharing5, a: Sharing5, b: Sharing5, k: nat) {
    forall j :: 0 <= j < k && BitAgreed5(a, j) && BitAgreed5(b, j) ==> AndAt(c, a, b, j)
  }

  /**
   `Rss_Mult_Bitwise_mp`, and `Rss_Mult_Byte_mp` for k = 8: c shares the conjunctions bit by bit and the
   generators stay together.
   */
  method MultBitwise5(c: array<Sharing5>, a: array<Sharing5>, b: array<Sharing5>, k: nat, net: seq<NodeNetwork>,
          ghost gens: seq<Gen>)
    requires Follows(net, gens) && 1 <= k <= W && 1 <= c.Length == a.Length == b.Length && c != a && c != b
    modifies c, net
    ensures Follows(net, AdvanceEach(gens, Sizes(c.Length, k)))
    ensures forall p :: 0 <= p < 5 ==> net[p].Slot(6) == old(net[p].Slot(6))
    ensures forall i :: 0 <= i < c.Length ==> AndAll5(c[i], a[i], b[i], k)
  {
    assert Valid5(net);
    CountsAreSizes(c.Length, k);
    ghost var streams := TakeEach(gens, Sizes(c.Length, k));
    hide *;
    var buf := DrawShares(net, Counts(c.Length, k), gens, Sizes(c.Length, k));
    forall p | 0 <= p < 5 ensures |buf[p]| == 6 {
      SixBuffers(buf[p], streams, p);
    }
    var v := PrepareAllX(c, a, b, k, buf);
    ReceiveEachX(c, v, a, b, k, buf, streams);
  }

  method PrepareAllX(c: array<Sharing5>, a: array<Sharing5>, b: array<Sharing5>, k: nat, buf: seq<seq<seq<Byte>>>)
    returns (v: array<Words5>)
    requires c.Length == a.Length == b.Length && c != a && c != b && |buf| == 5 && forall p :: 0 <= p < 5 ==> |buf[p]| == 6
    modifies c
    ensures fresh(v) && v.Length == c.Length
    ensures forall i :: 0 <= i < c.Length ==> PreparedX(c[i], v[i], a[i], b[i], buf, i, BytesFor(k), 5)
  {
    hide *;
    v := new Words5[c.Length](_ => [0, 0, 0, 0, 0]);
    FirstTrackers();
    var tr := seq(5, _ => [0, 0, 0, 0, 0, 0]);
    for i := 0 to c.Length
      invariant AllTrackers(tr, i)
      invariant forall j :: 0 <= j < i ==> PreparedX(c[j], v[j], a[j], b[j], buf, j, BytesFor(k), 5)
      modifies c, v
    {
      c[i], v[i], tr := PrepareElementX(a[i], b[i], buf, i, BytesFor(k), tr);
    }
  }

  method ReceiveEachX(c: array<Sharing5>, v: array<Words5>, a: array<Sharing5>, b: array<Sharing5>, k: nat,
          ghost buf: seq<seq<seq<Byte>>>, ghost streams: seq<seq<Byte>>)
    requires c.Length == v.Length == a.Length == b.Length && c != a && c != b && |streams| == 10
    requires |buf| == 5 && forall p :: 0 <= p < 5 ==> |buf[p]| == 6 && Holds(buf[p], streams, p)
    requires forall i :: 0 <= i < c.Length ==> PreparedX(c[i], v[i], a[i], b[i], buf, i, BytesFor(k), 5)
    modifies c, v
    ensures forall i :: 0 <= i < c.Length ==> AndAll5(c[i], a[i], b[i], k)
  {
    hide *;
    var recv0, recv1 := Exchange5(v, k);
    for i := 0 to c.Length
      invariant forall j :: 0 <= j < i ==> AndAll5(c[j], a[j], b[j], k)
      invariant forall j :: i <= j < c.Length ==> c[j] == old(c[j])
      modifies c
    {
      assert PreparedX(old(c[i]), old(v[i]), a[i], b[i], buf, i, BytesFor(k), 5);
      ElementConjunction(c[i], old(v[i]), a[i], b[i], buf, streams, i, BytesFor(k), k);
      c[i] := ReceivedAllX(c[i], v[i], recv0[i], recv1[i]);
    }
  }

  // ---------- opening ----------

  /** res at party p: its six words and the two received ones, all exclusive or'ed and cut to k bits. */
  function OpenedXor(a: Sharing5, p: nat, k: nat): nat
    requires p < 5
  {
    var r0, r1 := Masked(Xor(a[Turn(p, 4)][0], a[Turn(p, 4)][1]), k), Masked(Xor(a[Turn(p, 1)][4], a[Turn(p, 1)][5]), k);
    Masked(Xor(Xor(XorSix(a[p]), r0), r1), k)
  }

  lemma MaskedBitCong(x: nat, v: int, k: nat, j: nat)
    requires j < k && Cong(GetBit(x, j), v, 1)
    ensures Cong(GetBit(Masked(x, k), j), v, 1)
  {
    hide Cong, Bit;
    BitMod(x, k, j);
  }

  lemma OpenedXorBit(a: Sharing5, p: nat, k: nat, j: nat)
    requires p < 5 && j < k && BitAgreed5(a, j)
    ensures Bit(OpenedXor(a, p, k), j) == (Parity5(a, j) == 1)
  {
    hide Cong, Xor, Bit, Agreed5, Turn, TotalOf, View, Canons, Sum5, Masked, XorSix;
    var b := BitRow(a, j);
    var x, y, z := View(Canons(b), p), View(Canons(b), Turn(p, 4)), View(Canons(b), Turn(p, 1));
    Opening5.HoldsView(b, p, 1);
    Opening5.HoldsView(b, Turn(p, 4), 1);
    Opening5.HoldsView(b, Turn(p, 1), 1);
    BitRowAt(a, j, p);
    BitRowAt(a, j, Turn(p, 4));
    BitRowAt(a, j, Turn(p, 1));
    var prev, next := a[Turn(p, 4)], a[Turn(p, 1)];
    XorBitCong(prev[0], prev[1], y[0], y[1], j);
    XorBitCong(next[4], next[5], z[4], z[5], j);
    MaskedBitCong(Xor(prev[0], prev[1]), y[0] + y[1], k, j);
    MaskedBitCong(Xor(next[4], next[5]), z[4] + z[5], k, j);
    XorSixOf(a[p], x, j);
    var r0, r1, s := Masked(Xor(prev[0], prev[1]), k), Masked(Xor(next[4], next[5]), k), x[0] + x[1] + x[2] + x[3] + x[4] + x[5];
    XorBitCong(XorSix(a[p]), r0, s, y[0] + y[1], j);
    XorBitCong(Xor(XorSix(a[p]), r0), r1, s + (y[0] + y[1]), z[4] + z[5], j);
    MaskedBitCong(Xor(Xor(XorSix(a[p]), r0), r1), s + (y[0] + y[1]) + (z[4] + z[5]), k, j);
    Opening5.OpenCovers(Canons(b), p);
    CanonsTotal(b);
    BitIsParity(OpenedXor(a, p, k), j, Sum5(b));
  }

  lemma BitRowAt(a: Sharing5, j: nat, p: nat)
    requires p < 5
    ensures BitRow(a, j)[p] == BitSix(a[p], j)
  {
  }

  lemma XorSixOf(b: Six, x: Six, j: nat)
    requires SameWords(BitSix(b, j), x, 1)
    ensures Cong(GetBit(XorSix(b), j), x[0] + x[1] + x[2] + x[3] + x[4] + x[5], 1)
  {
    hide Cong, Xor, GetBit;
    XorChain(b, x, j);
  }

  lemma BitIsParity(w: nat, j: nat, s: nat)
    requires Cong(GetBit(w, j), s, 1)
    ensures Bit(w, j) == (s % 2 == 1)
  {
  }

  lemma OpenedXorBelow(a: Sharing5, p: nat, k: nat)
    requires p < 5
    ensures OpenedXor(a, p, k) < Pow2(k)
  {
  }

  /** `Rss_Open_Bitwise_mp`: every party obtains every consistently shared bit below k, and no bit above. */
  method OpenBitwise5(res: array<Words5>, a: array<Sharing5>, k: nat)
    requires res.Length == a.Length
    modifies res
    ensures forall i, p, j :: 0 <= i < a.Length && 0 <= p < 5 && 0 <= j < k && BitAgreed5(a[i], j) ==>
      Bit(res[i][p], j) == (Parity5(a[i], j) == 1)
    ensures forall i, p :: 0 <= i < a.Length && 0 <= p < 5 ==> res[i][p] < Pow2(k)
  {
    hide *;
    for i := 0 to a.Length
      invariant forall m, p :: 0 <= m < i && 0 <= p < 5 ==> res[m][p] < Pow2(k)
      invariant forall m, p, j :: 0 <= m < i && 0 <= p < 5 && 0 <= j < k && BitAgreed5(a[m], j) ==>
        Bit(res[m][p], j) == (Parity5(a[m], j) == 1)
    {
      var row := OpenElementX(a[i], k);
      res[i] := row;
    }
  }

  method OpenElementX(a: Sharing5, k: nat) returns (row: Words5)
    ensures forall p, j :: 0 <= p < 5 && 0 <= j < k && BitAgreed5(a, j) ==> Bit(row[p], j) == (Parity5(a, j) == 1)
    ensures forall p :: 0 <= p < 5 ==> row[p] < Pow2(k)
  {
    hide *;
    row := [0, 0, 0, 0, 0];
    for p := 0 to 5
      invariant forall q :: 0 <= q < p ==> row[q] < Pow2(k)
      invariant forall q, j :: 0 <= q < p && 0 <= j < k && BitAgreed5(a, j) ==> Bit(row[q], j) == (Parity5(a, j) == 1)
    {
      row := row[p := OpenedXor(a, p, k)];
      OpenedXorBelow(a, p, k);
      forall j | 0 <= j < k && BitAgreed5(a, j) ensures Bit(row[p], j) == (Parity5(a, j) == 1) {
        OpenedXorBit(a, p, k, j);
      }
    }
  }
}
