/**
 Shared random numbers together with their high part and top bit (`Rss_edaBit_trunc`).

 Parties 1 and 2 also share their numbers shifted right by m.  Two carries of the adder correct the sum of
 the shifted numbers to the shifted sum.
 */
module EdaBitTruncs {
  import opened Ring
  import opened Words
  import opened Stream
  import opened Sharings
  import opened Cluster
  import opened Multiplication
  import opened Linear
  import opened Carries
  import opened EdaBits
  import opened MSB
  import BitAdd
  import BitLT
  import B2a

  // ---------- the arithmetic ----------

  /** The carry out of the low j bits, as a number. */
  function CarryNumber(x: nat, y: nat, j: nat): nat {
    ToNat(Carry(x, y, false, j))
  }

  /** The two carries turn the sum of the shifted numbers into the shifted sum. */
  lemma ShiftedSum(x: nat, y: nat, m: nat, k: nat)
    requires m <= k && x < Pow2(k) && y < Pow2(k)
    ensures (x + y) % Pow2(k) / Pow2(m)
      == x / Pow2(m) + y / Pow2(m) + CarryNumber(x, y, m) - CarryNumber(x, y, k) * Pow2(k - m)
  {
    hide *;
    var cm, ck := CarryNumber(x, y, m), CarryNumber(x, y, k);
    CarryNumberIs(x, y, m);
    CarryNumberIs(x, y, k);
    ModSmall(x, k);
    ModSmall(y, k);
    ReducedSum(x, y, ck, Pow2(k));
    Pow2Add(m, k - m);
    ShiftedQuotient(x, y, Pow2(m), Pow2(k - m), cm, ck);
  }

  lemma CarryNumberIs(x: nat, y: nat, j: nat)
    ensures CarryNumber(x, y, j) == if x % Pow2(j) + y % Pow2(j) >= Pow2(j) then 1 else 0
  {
    CarryOverflow(x, y, false, j);
    hide Carry;
  }

  lemma ReducedSum(x: nat, y: nat, c: nat, p: nat)
    requires x < p && y < p && c == if x + y >= p then 1 else 0
    ensures 0 <= x + y - c * p && (x + y) % p == x + y - c * p
  {
  }

  lemma ShiftedQuotient(x: nat, y: nat, p: nat, q: nat, cm: nat, ck: nat)
    requires p >= 1 && cm == (if x % p + y % p >= p then 1 else 0) && 0 <= x + y - ck * (p * q)
    ensures (x + y - ck * (p * q)) / p == x / p + y / p + cm - ck * q
  {
    var a, b := x / p, y / p;
    assert x == p * a + x % p && y == p * b + y % p;
    assert ck * (p * q) == p * (ck * q);
    assert p * (a + b + cm - ck * q) == p * a + p * b + p * cm - p * (ck * q);
    assert p * cm == if x % p + y % p >= p then p else 0;
    DivModUnique(x + y - ck * (p * q), p, a + b + cm - ck * q, x % p + y % p - p * cm);
  }

  // ---------- contributions ----------

  /** r_bits >> m. */
  function ShiftRight(w: Public, m: nat): Public {
    Three(Quotient(w.p1, Pow2(m)), Quotient(w.p2, Pow2(m)), Quotient(w.p3, Pow2(m)))
  }

  /** What element i's words share, when the parties' own numbers are w. */
  ghost predicate TruncContributed(res: Sharing, prime: Sharing, a: Sharing, b: Sharing, w: Public, m: nat, k: nat) {
    Contributed(res, a, b, w, k) && Additive(prime, ShiftRight(w, m).p1 + ShiftRight(w, m).p2, k)
  }

  /** The sum of the additive contributions of parties 1 and 2. */
  function Combined(send: Public, own: Public, other: Public, recv: Public): Sharing {
    Add(FromParty1(send, own, other, recv), FromParty2(send, own, other, recv))
  }

  lemma CombinedAdditive(r: Public, own: Public, other: Public, k: nat)
    requires k <= W && own == FromNext(other)
    ensures
      var send := MaskAll(SubtractMask(r, own), k);
      Additive(Combined(send, own, other, FromNext(send)), r.p1 + r.p2, k)
  {
    hide *;
    var send := MaskAll(SubtractMask(r, own), k);
    AdditiveContribution(r, own, other, k);
    AddAdditive(FromParty1(send, own, other, FromNext(send)), r.p1, FromParty2(send, own, other, FromNext(send)), r.p2, k);
    CombinedIs(send, own, other, FromNext(send));
  }

  lemma CombinedIs(send: Public, own: Public, other: Public, recv: Public)
    ensures Combined(send, own, other, recv) == Add(FromParty1(send, own, other, recv), FromParty2(send, own, other, recv))
  {
  }

  /** The three words a party sends for one element. */
  ghost predicate Sent(s0: Public, s1: Public, s2: Public, bits: Public, own0: Public, own1: Public, own2: Public, m: nat) {
    s0 == SubtractMask(bits, own0) && s1 == XorMask(bits, own1) && s2 == SubtractMask(ShiftRight(bits, m), own2)
  }

  lemma TruncElement(s0: Public, s1: Public, s2: Public, bits: Public, own0: Public, own1: Public, own2: Public,
                     other0: Public, other1: Public, other2: Public, m: nat, k: nat)
    requires k <= W && own0 == FromNext(other0) && own1 == FromNext(other1) && own2 == FromNext(other2)
    requires Sent(s0, s1, s2, bits, own0, own1, own2, m)
    ensures
      var t0, t1, t2 := MaskAll(s0, k), MaskAll(s1, k), MaskAll(s2, k);
      TruncContributed(Combined(t0, own0, other0, FromNext(t0)), Combined(t2, own2, other2, FromNext(t2)),
                       FromParty1(t1, own1, other1, FromNext(t1)), FromParty2(t1, own1, other1, FromNext(t1)), bits, m, k)
  {
    hide FromNext, MaskAll, SubtractMask, XorMask, Additive, Bitwise, FromParty1, FromParty2, Combined, Pow2;
    CombinedAdditive(bits, own0, other0, k);
    CombinedAdditive(ShiftRight(bits, m), own2, other2, k);
    BitwiseContribution(bits, own1, other1, k);
  }

  /** The numbers parties share for element i: what they drew, cut to k bits. */
  ghost function CutWords(g: Three<Gen>, n: nat, k: nat, i: nat): Public {
    MaskAll(PrivateWords(g, n, k, i), k)
  }

  ghost predicate SentElement(s0: Public, s1: Public, s2: Public, r: Three<seq<Byte>>, own: Three<seq<Byte>>, n: nat,
          k: nat, m: nat, i: nat) {
    Sent(s0, s1, s2, MaskAll(SegmentWords(r, n, BytesFor(k), 0, i), k), SegmentWords(own, n, BytesFor(k), 0, i),
         SegmentWords(own, n, BytesFor(k), 1, i), SegmentWords(own, n, BytesFor(k), 2, i), m)
  }

  lemma SentIs(s0: Public, s1: Public, s2: Public, r: Three<seq<Byte>>, own: Three<seq<Byte>>, n: nat, k: nat,
          m: nat, i: nat)
    requires SentElement(s0, s1, s2, r, own, n, k, m, i)
    ensures Sent(s0, s1, s2, MaskAll(SegmentWords(r, n, BytesFor(k), 0, i), k), SegmentWords(own, n, BytesFor(k), 0, i),
                 SegmentWords(own, n, BytesFor(k), 1, i), SegmentWords(own, n, BytesFor(k), 2, i), m)
  {
    hide SegmentWords, MaskAll, Sent, BytesFor;
  }

  /** The words for element i. */
  function TruncWords(bits: Public, own0: Public, own1: Public, own2: Public, m: nat): Three<Public> {
    Three(SubtractMask(bits, own0), XorMask(bits, own1), SubtractMask(ShiftRight(bits, m), own2))
  }

  lemma TruncWordsSent(r: Three<seq<Byte>>, own: Three<seq<Byte>>, n: nat, k: nat, m: nat, i: nat)
    ensures
      var w := TruncWords(MaskAll(SegmentWords(r, n, BytesFor(k), 0, i), k), SegmentWords(own, n, BytesFor(k), 0, i),
                          SegmentWords(own, n, BytesFor(k), 1, i), SegmentWords(own, n, BytesFor(k), 2, i), m);
      SentElement(w.p1, w.p2, w.p3, r, own, n, k, m, i)
  {
  }

  method ComputeTruncSend(r: Three<seq<Byte>>, own: Three<seq<Byte>>, n: nat, k: nat, m: nat) returns (send: array<Public>)
    ensures fresh(send) && send.Length == 3 * n
    ensures forall i :: 0 <= i < n ==> SentElement(send[i], send[n + i], send[2 * n + i], r, own, n, k, m, i)
  {
    hide *;
    send := new Public[3 * n];
    for i := 0 to n
      invariant forall t :: 0 <= t < i ==> SentElement(send[t], send[n + t], send[2 * n + t], r, own, n, k, m, t)
      modifies send
    {
      TruncWordsSent(r, own, n, k, m, i);
      var w := TruncWords(MaskAll(SegmentWords(r, n, BytesFor(k), 0, i), k), SegmentWords(own, n, BytesFor(k), 0, i),
                          SegmentWords(own, n, BytesFor(k), 1, i), SegmentWords(own, n, BytesFor(k), 2, i), m);
      send[i], send[n + i], send[2 * n + i] := w.p1, w.p2, w.p3;
    }
  }

  /** The exchange and the sums. */
  method CombineTrunc(res: array<Sharing>, resPrime: array<Sharing>, rBitwise: array<Sharing>, r: Three<seq<Byte>>,
                      own: Three<seq<Byte>>, other: Three<seq<Byte>>, send: array<Public>, k: nat, m: nat)
    requires 1 <= k <= W && 1 <= res.Length == resPrime.Length && rBitwise.Length == 3 * res.Length
    requires res != rBitwise && res != resPrime && resPrime != rBitwise
    requires send.Length == 3 * res.Length && forall i :: 0 <= i < res.Length ==>
      SentElement(send[i], send[res.Length + i], send[2 * res.Length + i], r, own, res.Length, k, m, i)
    requires forall t: nat, i: nat ::
      SegmentWords(own, res.Length, BytesFor(k), t, i) == FromNext(SegmentWords(other, res.Length, BytesFor(k), t, i))
    modifies res, resPrime, rBitwise, send
    ensures forall i :: 0 <= i < res.Length ==>
      TruncContributed(res[i], resPrime[i], rBitwise[i], rBitwise[res.Length + i],
                       MaskAll(SegmentWords(r, res.Length, BytesFor(k), 0, i), k), m, k)
  {
    hide *;
    var n, bytes := res.Length, BytesFor(k);
    var recv := Exchange(send, k);
    for i := 0 to n
      invariant forall t :: 0 <= t < i ==>
        TruncContributed(res[t], resPrime[t], rBitwise[t], rBitwise[n + t], MaskAll(SegmentWords(r, n, bytes, 0, t), k), m, k)
      modifies res, resPrime, rBitwise
    {
      var own0, own1, own2 := SegmentWords(own, n, bytes, 0, i), SegmentWords(own, n, bytes, 1, i), SegmentWords(own, n, bytes, 2, i);
      var other0, other1, other2 := SegmentWords(other, n, bytes, 0, i), SegmentWords(other, n, bytes, 1, i), SegmentWords(other, n, bytes, 2, i);
      assert SentElement(old(send[i]), old(send[n + i]), old(send[2 * n + i]), r, own, n, k, m, i);
      SentIs(old(send[i]), old(send[n + i]), old(send[2 * n + i]), r, own, n, k, m, i);
      TruncElement(old(send[i]), old(send[n + i]), old(send[2 * n + i]), MaskAll(SegmentWords(r, n, bytes, 0, i), k),
                   own0, own1, own2, other0, other1, other2, m, k);
      res[i] := Combined(send[i], own0, other0, recv[i]);
      rBitwise[i] := FromParty1(send[n + i], own1, other1, recv[n + i]);
      rBitwise[n + i] := FromParty2(send[n + i], own1, other1, recv[n + i]);
      resPrime[i] := Combined(send[2 * n + i], own2, other2, recv[2 * n + i]);
    }
  }

  /** `Rss_GenerateRandomShares_trunc`. */
  method GenerateTrunc(res: array<Sharing>, resPrime: array<Sharing>, rBitwise: array<Sharing>, k: nat, m: nat, net: Net)
    returns (ghost g: Three<Gen>)
    requires InStep(net) && 1 <= k <= W && 1 <= res.Length == resPrime.Length && rBitwise.Length == 3 * res.Length
    requires res != rBitwise && res != resPrime && resPrime != rBitwise
    modifies res, resPrime, rBitwise, net.p1, net.p2, net.p3
    ensures InStep(net) && g == old(Private(net)) && Private(net) == Advanced(g, RequestSize(res.Length, k))
    ensures forall i :: 0 <= i < res.Length ==>
      TruncContributed(res[i], resPrime[i], rBitwise[i], rBitwise[res.Length + i], CutWords(g, res.Length, k, i), m, k)
  {
    hide *;
    var r, own, other: Three<seq<Byte>>;
    r, own, other, g := DrawContributions(res.Length, 3, k, net);
    var send := ComputeTruncSend(r, own, res.Length, k, m);
    CombineTrunc(res, resPrime, rBitwise, r, own, other, send, k, m);
    forall i | 0 <= i < res.Length
      ensures MaskAll(SegmentWords(r, res.Length, BytesFor(k), 0, i), k) == CutWords(g, res.Length, k, i)
    {
      CutWordsAre(g, res.Length, k, i);
    }
  }

  lemma CutWordsAre(g: Three<Gen>, n: nat, k: nat, i: nat)
    ensures CutWords(g, n, k, i) == MaskAll(PrivateWords(g, n, k, i), k)
  {
  }

  // ---------- the adder and its carries ----------

  /** The bits `Rss_BitAdd_trunc` keeps of x + y: two carries and the top bit. */
  ghost predicate SelectedBits(c0: Sharing, c1: Sharing, c2: Sharing, x: nat, y: nat, m: nat, k: nat)
    requires k >= 1
  {
    && BitLT.BitResult(c0, Carry(x, y, false, m))
    && BitLT.BitResult(c1, Carry(x, y, false, k))
    && BitLT.BitResult(c2, Bit(x + y, k - 1))
  }

  lemma SelectedElement(g: Sharing, sum: Sharing, x: nat, y: nat, m: nat, k: nat)
    requires 1 <= m <= k && BitAdd.SharesCarries(g, x, y, k) && Bitwise(sum, x + y, k)
    ensures SelectedBits(BitsAt(g, m - 1), BitsAt(g, k - 1), BitsAt(sum, k - 1), x, y, m, k)
  {
    hide Carry, Bit, Bitwise, BitsAt, BitLT.BitResult, Parity, BitAgreed;
    assert BitAdd.SharesCarry(g, x, y, m - 1) && BitAdd.SharesCarry(g, x, y, k - 1);
    BitsAtResult(g, m - 1, Carry(x, y, false, m));
    BitsAtResult(g, k - 1, Carry(x, y, false, k));
    BitwiseBit(sum, x + y, k, k - 1);
    BitsAtResult(sum, k - 1, Bit(x + y, k - 1));
  }

  /** `Rss_BitAdd_trunc`: the sum, and the carries into bits m and k and its top bit, one after the other. */
  method BitAddTrunc(res: array<Sharing>, carry: array<Sharing>, a: array<Sharing>, b: array<Sharing>, k: nat,
          m: nat, net: Net)
    requires InStep(net) && 1 <= m <= k <= W && 1 <= res.Length == a.Length == b.Length && carry.Length == 3 * res.Length
    requires res != a && res != b && carry != a && carry != b && carry != res
    requires forall i :: 0 <= i < a.Length ==> Agreed(a[i], k) && Agreed(b[i], k)
    modifies res, carry, net.p1, net.p2, net.p3
    ensures InStep(net) && Private(net) == old(Private(net))
    ensures forall i :: 0 <= i < res.Length ==>
      && Bitwise(res[i], XorValue(a[i], k) + XorValue(b[i], k), k)
      && SelectedBits(carry[i], carry[res.Length + i], carry[2 * res.Length + i], XorValue(a[i], k), XorValue(b[i], k), m, k)
  {
    hide *;
    var n := res.Length;
    var g := BitAdd.BitAddCarries(res, a, b, k, net);
    for i := 0 to n
      invariant forall t :: 0 <= t < i ==>
        SelectedBits(carry[t], carry[n + t], carry[2 * n + t], XorValue(a[t], k), XorValue(b[t], k), m, k)
      modifies carry
    {
      assert BitAdd.SharesCarries(g[i], XorValue(a[i], k), XorValue(b[i], k), k)
        && Bitwise(res[i], XorValue(a[i], k) + XorValue(b[i], k), k);
      SelectedElement(g[i], res[i], XorValue(a[i], k), XorValue(b[i], k), m, k);
      carry[i] := BitsAt(g[i], m - 1);
      carry[n + i] := BitsAt(g[i], k - 1);
      carry[2 * n + i] := BitsAt(res[i], k - 1);
    }
  }

  // ---------- Rss_edaBit_trunc ----------

  lemma BitResultValue(x: Sharing, v: bool, k: nat)
    requires k >= 1 && BitLT.BitResult(x, v)
    ensures Agreed(x, k) && XorValue(x, k) == ToNat(v) < 2
  {
    hide *;
    B2a.BitResultBitwise(x, v, k);
    BitwiseValue(x, ToNat(v), k);
    B2a.TwoFits(k);
    ToNatSmall(v);
    ModSmall(ToNat(v), k);
  }

  lemma ToNatSmall(v: bool)
    ensures ToNat(v) < 2
  {
  }

  /** The numbers the carries share after `Rss_b2a`. */
  ghost predicate SelectedNumbers(c0: Sharing, c1: Sharing, c2: Sharing, x: nat, y: nat, m: nat, k: nat)
    requires k >= 1
  {
    && Additive(c0, CarryNumber(x, y, m), k)
    && Additive(c1, CarryNumber(x, y, k), k)
    && Additive(c2, GetBit(x + y, k - 1), k)
  }

  lemma SelectedValues(c0: Sharing, c1: Sharing, c2: Sharing, x: nat, y: nat, m: nat, k: nat)
    requires k >= 1 && SelectedBits(c0, c1, c2, x, y, m, k)
    ensures Agreed(c0, k) && Agreed(c1, k) && Agreed(c2, k)
    ensures XorValue(c0, k) == CarryNumber(x, y, m) < 2
    ensures XorValue(c1, k) == CarryNumber(x, y, k) < 2
    ensures XorValue(c2, k) == GetBit(x + y, k - 1) < 2
  {
    hide Carry, Bit, Agreed, XorValue, BitLT.BitResult;
    BitResultValue(c0, Carry(x, y, false, m), k);
    BitResultValue(c1, Carry(x, y, false, k), k);
    BitResultValue(c2, Bit(x + y, k - 1), k);
  }

  /** `Rss_b2a` on the three groups of bits at once, in place. */
  method SelectedToAdditive(carry: array<Sharing>, n: nat, ghost xs: seq<nat>, ghost ys: seq<nat>, m: nat, k: nat, net: Net)
    requires InStep(net) && 1 <= k && k + 2 <= W && 1 <= n == |xs| == |ys| && carry.Length == 3 * n
    requires forall i :: 0 <= i < n ==> SelectedBits(carry[i], carry[n + i], carry[2 * n + i], xs[i], ys[i], m, k)
    modifies carry, net.p1, net.p2, net.p3
    ensures InStep(net) && Private(net) == old(Private(net))
    ensures forall i :: 0 <= i < n ==> SelectedNumbers(carry[i], carry[n + i], carry[2 * n + i], xs[i], ys[i], m, k)
  {
    hide *;
    ghost var vs := seq(carry.Length, j requires 0 <= j < carry.Length reads carry => XorValue(carry[j], k));
    forall j | 0 <= j < carry.Length ensures Agreed(carry[j], k) && vs[j] < 2 && vs[j] == XorValue(carry[j], k) {
      var i := if j < n then j else if j < 2 * n then j - n else j - 2 * n;
      SelectedValues(carry[i], carry[n + i], carry[2 * n + i], xs[i], ys[i], m, k);
    }
    forall i | 0 <= i < n
      ensures vs[i] == CarryNumber(xs[i], ys[i], m) && vs[n + i] == CarryNumber(xs[i], ys[i], k)
      ensures vs[2 * n + i] == GetBit(xs[i] + ys[i], k - 1)
    {
      SelectedValues(carry[i], carry[n + i], carry[2 * n + i], xs[i], ys[i], m, k);
    }
    B2a.B2a(carry, carry, k, net);
    forall i | 0 <= i < n ensures SelectedNumbers(carry[i], carry[n + i], carry[2 * n + i], xs[i], ys[i], m, k) {
      assert Additive(carry[i], vs[i], k) && Additive(carry[n + i], vs[n + i], k) && Additive(carry[2 * n + i], vs[2 * n + i], k);
      SelectedAre(carry[i], carry[n + i], carry[2 * n + i], xs[i], ys[i], m, k);
    }
  }

  lemma SelectedAre(c0: Sharing, c1: Sharing, c2: Sharing, x: nat, y: nat, m: nat, k: nat)
    requires k >= 1 && Additive(c0, CarryNumber(x, y, m), k) && Additive(c1, CarryNumber(x, y, k), k)
    requires Additive(c2, GetBit(x + y, k - 1), k)
    ensures SelectedNumbers(c0, c1, c2, x, y, m, k)
  {
  }

  /** r_prime + carry_{m-1} - (carry_{k-1} << (k - m)). */
  function Corrected(prime: Sharing, c0: Sharing, c1: Sharing, j: nat): Sharing {
    Sub(Add(prime, c0), Shift(c1, j))
  }

  /** One element of the result: the number, its high part and its top bit. */
  ghost predicate SharesTruncated(r: Sharing, prime: Sharing, top: Sharing, v: nat, m: nat, k: nat)
    requires k >= 1
  {
    && Additive(r, v, k)
    && Additive(prime, Quotient(v % Pow2(k), Pow2(m)), k)
    && Additive(top, GetBit(v, k - 1), k)
  }

  lemma CorrectedAdditive(prime: Sharing, c0: Sharing, c1: Sharing, x: nat, y: nat, m: nat, k: nat)
    requires m <= k <= W && x < Pow2(k) && y < Pow2(k)
    requires Additive(prime, Quotient(x, Pow2(m)) + Quotient(y, Pow2(m)), k)
    requires Additive(c0, CarryNumber(x, y, m), k) && Additive(c1, CarryNumber(x, y, k), k)
    ensures Additive(Corrected(prime, c0, c1, k - m), Quotient((x + y) % Pow2(k), Pow2(m)), k)
  {
    hide Additive, Add, Sub, Shift, CarryNumber, Pow2;
    var hx, hy := Quotient(x, Pow2(m)), Quotient(y, Pow2(m));
    ShiftedSum(x, y, m, k);
    AddAdditive(prime, hx + hy, c0, CarryNumber(x, y, m), k);
    ShiftAdditive(c1, CarryNumber(x, y, k), k - m, k);
    SubAdditive(Add(prime, c0), hx + hy + CarryNumber(x, y, m), Shift(c1, k - m), CarryNumber(x, y, k) * Pow2(k - m), k);
  }

  lemma CutSum(w: Public, k: nat)
    requires k >= 1
    ensures
      var x, y, v := MaskAll(w, k).p1, MaskAll(w, k).p2, w.p1 + w.p2;
      x < Pow2(k) && y < Pow2(k) && Cong(x + y, v, k) && (x + y) % Pow2(k) == v % Pow2(k) && GetBit(x + y, k - 1) == GetBit(v, k - 1)
  {
    hide Cong, Bit;
    var x, y, v := MaskAll(w, k).p1, MaskAll(w, k).p2, w.p1 + w.p2;
    CongMod(w.p1, k);
    CongMod(w.p2, k);
    CongAdd(x, w.p1, y, w.p2, k);
    SameMod(x + y, v, k);
    CongBit(x + y, v, k, k - 1);
  }

  lemma TruncatedElement(r: Sharing, prime: Sharing, a: Sharing, b: Sharing, c0: Sharing, c1: Sharing, c2: Sharing,
          w: Public, m: nat, k: nat)
    requires 1 <= m <= k <= W && TruncContributed(r, prime, a, b, MaskAll(w, k), m, k)
    requires SelectedNumbers(c0, c1, c2, MaskAll(w, k).p1, MaskAll(w, k).p2, m, k)
    ensures SharesTruncated(r, Corrected(prime, c0, c1, k - m), c2, w.p1 + w.p2, m, k)
  {
    CutSum(w, k);
    hide Cong, Additive, Bitwise, MaskAll, Bit, Pow2, Quotient, CarryNumber, Corrected;
    var x, y := MaskAll(w, k).p1, MaskAll(w, k).p2;
    AdditiveAs(r, x + y, w.p1 + w.p2, k);
    CorrectedAdditive(prime, c0, c1, x, y, m, k);
  }

  /** The contributions as operands of the adder, with the numbers they share. */
  ghost predicate Operands(r: Sharing, prime: Sharing, a: Sharing, b: Sharing, w: Public, m: nat, k: nat) {
    && TruncContributed(r, prime, a, b, MaskAll(w, k), m, k)
    && Agreed(a, k) && Agreed(b, k)
    && XorValue(a, k) == MaskAll(w, k).p1 && XorValue(b, k) == MaskAll(w, k).p2
  }

  lemma OperandsAre(r: Sharing, prime: Sharing, a: Sharing, b: Sharing, w: Public, m: nat, k: nat)
    requires k >= 1 && TruncContributed(r, prime, a, b, MaskAll(w, k), m, k)
    ensures Operands(r, prime, a, b, w, m, k)
  {
    CutSum(w, k);
    hide Agreed, XorValue, MaskAll, Additive, Bitwise;
    var x, y := MaskAll(w, k).p1, MaskAll(w, k).p2;
    BitwiseValue(a, x, k);
    BitwiseValue(b, y, k);
    ModSmall(x, k);
    ModSmall(y, k);
  }

  method TruncContributions(r: array<Sharing>, prime: array<Sharing>, k: nat, m: nat, net: Net)
    returns (a: array<Sharing>, b: array<Sharing>, ghost g: Three<Gen>)
    requires InStep(net) && 1 <= k <= W && 1 <= r.Length == prime.Length && r != prime
    modifies r, prime, net.p1, net.p2, net.p3
    ensures InStep(net) && g == old(Private(net)) && Private(net) == Advanced(g, RequestSize(r.Length, k))
    ensures fresh(a) && fresh(b) && a.Length == b.Length == r.Length
    ensures forall i :: 0 <= i < r.Length ==> Operands(r[i], prime[i], a[i], b[i], PrivateWords(g, r.Length, k, i), m, k)
  {
    hide *;
    var rBitwise := new Sharing[3 * r.Length];
    g := GenerateTrunc(r, prime, rBitwise, k, m, net);
    a, b := SplitContributions(rBitwise, r.Length);
    forall i | 0 <= i < r.Length ensures Operands(r[i], prime[i], a[i], b[i], PrivateWords(g, r.Length, k, i), m, k) {
      CutWordsAre(g, r.Length, k, i);
      assert TruncContributed(r[i], prime[i], rBitwise[i], rBitwise[r.Length + i], CutWords(g, r.Length, k, i), m, k);
      OperandsAre(r[i], prime[i], a[i], b[i], PrivateWords(g, r.Length, k, i), m, k);
    }
  }

  /**
   `Rss_edaBit_trunc`: r shares a number, rPrime that number divided by 2^m and rKm1 its top bit, whatever
   the parties drew.
   */
  method EdaBitTrunc(r: array<Sharing>, rPrime: array<Sharing>, rKm1: array<Sharing>, k: nat, m: nat, net: Net)
    requires InStep(net) && 1 <= m <= k && k + 2 <= W && 1 <= r.Length == rPrime.Length == rKm1.Length
    requires r != rPrime && r != rKm1 && rPrime != rKm1
    modifies r, rPrime, rKm1, net.p1, net.p2, net.p3
    ensures InStep(net) && Private(net) == Advanced(old(Private(net)), RequestSize(r.Length, k))
    ensures forall i :: 0 <= i < r.Length ==>
      SharesTruncated(r[i], rPrime[i], rKm1[i], EdaNumber(old(Private(net)), r.Length, k, i), m, k)
  {
    hide *;
    var a, b, g := TruncContributions(r, rPrime, k, m, net);
    var carry := CarriesOf(r, rPrime, a, b, k, m, net, g);
    CorrectAll(r, rPrime, rKm1, a, b, carry, k, m, g);
  }

  /** The adder and the conversion of the selected bits. */
  method CarriesOf(r: array<Sharing>, prime: array<Sharing>, a: array<Sharing>, b: array<Sharing>, k: nat, m: nat,
          net: Net, ghost g: Three<Gen>)
    returns (carry: array<Sharing>)
    requires InStep(net) && 1 <= m <= k && k + 2 <= W && 1 <= r.Length == prime.Length == a.Length == b.Length
    requires forall i :: 0 <= i < r.Length ==> Operands(r[i], prime[i], a[i], b[i], PrivateWords(g, r.Length, k, i), m, k)
    modifies net.p1, net.p2, net.p3
    ensures InStep(net) && Private(net) == old(Private(net))
    ensures fresh(carry) && carry.Length == 3 * r.Length
    ensures forall i :: 0 <= i < r.Length ==>
      SelectedNumbers(carry[i], carry[r.Length + i], carry[2 * r.Length + i],
                      CutWords(g, r.Length, k, i).p1, CutWords(g, r.Length, k, i).p2, m, k)
  {
    hide *;
    var n := r.Length;
    ghost var xs := seq(n, i requires 0 <= i < n => CutWords(g, n, k, i).p1);
    ghost var ys := seq(n, i requires 0 <= i < n => CutWords(g, n, k, i).p2);
    forall i | 0 <= i < n ensures Agreed(a[i], k) && Agreed(b[i], k) && XorValue(a[i], k) == xs[i] && XorValue(b[i], k) == ys[i] {
      CutWordsAre(g, n, k, i);
      OperandsMean(r[i], prime[i], a[i], b[i], PrivateWords(g, n, k, i), m, k);
    }
    carry := new Sharing[3 * n];
    var b2 := new Sharing[n];
    BitAddTrunc(b2, carry, a, b, k, m, net);
    SelectedToAdditive(carry, n, xs, ys, m, k, net);
  }

  lemma OperandsMean(r: Sharing, prime: Sharing, a: Sharing, b: Sharing, w: Public, m: nat, k: nat)
    requires Operands(r, prime, a, b, w, m, k)
    ensures TruncContributed(r, prime, a, b, MaskAll(w, k), m, k)
    ensures Agreed(a, k) && Agreed(b, k) && XorValue(a, k) == MaskAll(w, k).p1 && XorValue(b, k) == MaskAll(w, k).p2
  {
    hide Agreed, XorValue, MaskAll, TruncContributed;
  }

  /** The last loop. */
  method CorrectAll(r: array<Sharing>, rPrime: array<Sharing>, rKm1: array<Sharing>, a: array<Sharing>, b: array<Sharing>,
                    carry: array<Sharing>, k: nat, m: nat, ghost g: Three<Gen>)
    requires 1 <= m <= k <= W && r.Length == rPrime.Length == rKm1.Length == a.Length == b.Length && carry.Length == 3 * r.Length
    requires r != rPrime && r != rKm1 && rPrime != rKm1
    requires carry != rPrime && carry != rKm1 && a != rPrime && a != rKm1 && b != rPrime && b != rKm1
    requires forall i :: 0 <= i < r.Length ==> Operands(r[i], rPrime[i], a[i], b[i], PrivateWords(g, r.Length, k, i), m, k)
    requires forall i :: 0 <= i < r.Length ==>
      SelectedNumbers(carry[i], carry[r.Length + i], carry[2 * r.Length + i],
                      CutWords(g, r.Length, k, i).p1, CutWords(g, r.Length, k, i).p2, m, k)
    modifies rPrime, rKm1
    ensures forall i :: 0 <= i < r.Length ==> SharesTruncated(r[i], rPrime[i], rKm1[i], EdaNumber(g, r.Length, k, i), m, k)
  {
    hide *;
    var n := r.Length;
    for i := 0 to n
      invariant forall t :: 0 <= t < i ==> SharesTruncated(r[t], rPrime[t], rKm1[t], EdaNumber(g, n, k, t), m, k)
      invariant forall t :: i <= t < n ==> rPrime[t] == old(rPrime[t])
    {
      ghost var w := PrivateWords(g, n, k, i);
      CutWordsAre(g, n, k, i);
      EdaNumberIs(g, n, k, i);
      OperandsMean(r[i], rPrime[i], a[i], b[i], w, m, k);
      TruncatedElement(r[i], rPrime[i], a[i], b[i], carry[i], carry[n + i], carry[2 * n + i], w, m, k);
      rKm1[i] := carry[2 * n + i];
      rPrime[i] := Corrected(rPrime[i], carry[i], carry[n + i], k - m);
    }
  }
}
