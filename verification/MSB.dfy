/**
 The most significant bit of a shared number (`new_Rss_MSB`).

 The number is opened under a random mask; a comparison on the low k-1 bits removes the mask's wrap, so
 the difference that remains is the top bit in its place, which is opened under a random bit.
 */
module MSB {
  import opened Ring
  import opened Words
  import opened Stream
  import opened Sharings
  import opened Cluster
  import opened Linear
  import opened RandBits
  import opened BitShares
  import opened EdaBits
  import opened Opening
  import BitLT

  // ---------- a single shared bit, shifted to the top ----------

  /** GET_BIT(x, n) of every word. */
  function BitsAt(x: Sharing, n: nat): Sharing {
    Three(Pair(GetBit(x.p1.s0, n), GetBit(x.p1.s1, n)),
          Pair(GetBit(x.p2.s0, n), GetBit(x.p2.s1, n)),
          Pair(GetBit(x.p3.s0, n), GetBit(x.p3.s1, n)))
  }

  lemma BitsAtResult(x: Sharing, n: nat, v: bool)
    requires HasBit(x, n, v)
    ensures BitLT.BitResult(BitsAt(x, n), v)
  {
  }

  lemma SmallBit(b: bool)
    ensures Bit(ToNat(b), 0) == b
  {
  }

  /** Over Z_2 exclusive or is addition. */
  lemma BitResultAdditive(x: Sharing, v: bool)
    requires BitLT.BitResult(x, v)
    ensures Additive(x, ToNat(v), 1)
  {
  }

  lemma LowBit(x: nat)
    ensures Bit(x, 0) == (x % 2 == 1)
  {
  }

  /** Shifting by j lifts a sharing over Z_{2^k} to one over Z_{2^{k+j}}. */
  lemma ShiftLifts(x: Sharing, v: int, k: nat, j: nat)
    requires k + j <= W && Additive(x, v, k)
    ensures Additive(Shift(x, j), v * Pow2(j), k + j)
  {
    hide Cong, Wrap, Pow2;
    var p := Pow2(j);
    CongScale(x.p1.s1, x.p2.s0, k, j);
    CongScale(x.p2.s1, x.p3.s0, k, j);
    CongScale(x.p3.s1, x.p1.s0, k, j);
    CongScale(Sum(x), v, k, j);
    WordCong(x.p1.s1 * p, x.p2.s0 * p, k + j);
    WordCong(x.p2.s1 * p, x.p3.s0 * p, k + j);
    WordCong(x.p3.s1 * p, x.p1.s0 * p, k + j);
    assert Sum(x) * p == x.p1.s0 * p + x.p2.s0 * p + x.p3.s0 * p;
    WrapSum3(x.p1.s0 * p, x.p2.s0 * p, x.p3.s0 * p, v * p, k + j);
  }

  lemma TopBitAdditive(x: Sharing, v: bool, k: nat)
    requires 1 <= k <= W && BitLT.BitResult(x, v)
    ensures Additive(Shift(x, k - 1), ToNat(v) * Pow2(k - 1), k)
  {
    hide *;
    BitResultAdditive(x, v);
    ShiftLifts(x, ToNat(v), 1, k - 1);
  }

  // ---------- the mask without its top bit ----------

  /** rprime: the mask less its top bit. */
  function DropTop(r: Sharing, b2: Sharing, k: nat): Sharing
    requires k >= 1
  {
    Sub(r, Shift(BitsAt(b2, k - 1), k - 1))
  }

  lemma DropTopAdditive(r: Sharing, b2: Sharing, v: nat, k: nat)
    requires 1 <= k <= W && SharesNumber(r, b2, v, k)
    ensures Additive(DropTop(r, b2, k), v % Pow2(k - 1), k)
  {
    hide Cong, Additive, Bitwise, Sub, Shift, BitsAt, Bit, BitLT.BitResult, Parity, BitAgreed;
    var t := Bit(v, k - 1);
    BitwiseBit(b2, v, k, k - 1);
    BitsAtResult(b2, k - 1, t);
    TopBitAdditive(BitsAt(b2, k - 1), t, k);
    SubAdditive(r, v, Shift(BitsAt(b2, k - 1), k - 1), ToNat(t) * Pow2(k - 1), k);
    LowPart(v, k);
    AdditiveAs(DropTop(r, b2, k), v - ToNat(t) * Pow2(k - 1), v % Pow2(k - 1), k);
  }

  /** v less its bit k-1 is v mod 2^{k-1}, in Z_{2^k}. */
  lemma LowPart(v: nat, k: nat)
    requires k >= 1
    ensures Cong(v - GetBit(v, k - 1) * Pow2(k - 1), v % Pow2(k - 1), k)
  {
    hide Cong;
    ModSplit(v, k - 1);
    var t := GetBit(v, k - 1) * Pow2(k - 1);
    CongMod(v, k);
    CongSym(v % Pow2(k), v, k);
    CongRefl(t, k);
    CongAdd(v, v % Pow2(k), t, t, k);
  }

  /** edaBit_b_2 & SHIFT[n]. */
  function MaskCells(x: Sharing, n: nat): Sharing {
    Three(Pair(Masked(x.p1.s0, n), Masked(x.p1.s1, n)),
          Pair(Masked(x.p2.s0, n), Masked(x.p2.s1, n)),
          Pair(Masked(x.p3.s0, n), Masked(x.p3.s1, n)))
  }

  lemma MaskedCellBit(x: nat, n: nat, j: nat)
    ensures Bit(Masked(x, n), j) == (j < n && Bit(x, j))
  {
    hide Bit;
    BitMod(x, n, j);
  }

  lemma MaskCellsBitwise(x: Sharing, v: nat, n: nat, k: nat)
    requires Bitwise(x, v, k) && n <= k
    ensures Bitwise(MaskCells(x, n), v % Pow2(n), k)
  {
    hide Bit, Masked, Bitwise;
    var y := MaskCells(x, n);
    forall j | 0 <= j < k ensures BitAgreed(y, j) && Parity(y, j) == Bit(v % Pow2(n), j) {
      BitwiseBit(x, v, k, j);
      MaskedCellBit(x.p1.s0, n, j);
      MaskedCellBit(x.p1.s1, n, j);
      MaskedCellBit(x.p2.s0, n, j);
      MaskedCellBit(x.p2.s1, n, j);
      MaskedCellBit(x.p3.s0, n, j);
      MaskedCellBit(x.p3.s1, n, j);
      BitMod(v, n, j);
    }
    BitwiseFromBits(y, v % Pow2(n), k);
  }

  // ---------- the arithmetic of the wrap test ----------

  /** Removing the low part of the mask from c, with the wrap u, leaves a's low part. */
  lemma WrapTest(a: nat, r: nat, h: nat, c: nat)
    requires h >= 1 && a < h && r < h && c == (a + r) % h
    ensures c - r + (if c < r then h else 0) == a
  {
  }

  /** What is left of a is its top bit. */
  lemma TopBitRemains(a: nat, v: nat, k: nat, c: nat)
    requires k >= 1 && a < Pow2(k) && c == (a + v) % Pow2(k - 1)
    ensures
      var h, r := Pow2(k - 1), v % Pow2(k - 1);
      a - c + r - ToNat(c < r) * h == GetBit(a, k - 1) * h
  {
    var h, r := Pow2(k - 1), v % Pow2(k - 1);
    ModSmall(a, k);
    ModSplit(a, k - 1);
    var low := a % h;
    CongMod(a, k - 1);
    CongMod(v, k - 1);
    SumMod(a, v, k - 1);
    hide Bit;
    WrapTest(low, r, h, c);
  }

  lemma SumMod(a: nat, v: nat, n: nat)
    ensures (a + v) % Pow2(n) == (a % Pow2(n) + v % Pow2(n)) % Pow2(n)
  {
    CongMod(a, n);
    CongMod(v, n);
    CongAdd(a % Pow2(n), a, v % Pow2(n), v, n);
  }

  // ---------- the bit under a random bit ----------

  /** The value of a shared bit. */
  lemma SharedBitValue(b: Sharing, k: nat)
    requires k >= 1 && SharedBit(b, k)
    ensures Value(b, k) < 2 && Additive(b, Value(b, k), k)
  {
    ModSmall(0, k);
    ModSmall(1, k);
  }

  /** (t + s) * 2^{k-1} opened mod 2^k has top bit t xor s. */
  lemma TopBitOfSum(t: nat, s: nat, e: nat, k: nat)
    requires t < 2 && s < 2 && k >= 1 && e == (t + s) * Pow2(k - 1) % Pow2(k)
    ensures GetBit(e, k - 1) == t + s - 2 * t * s
  {
    var h := Pow2(k - 1);
    var x := t + s - 2 * t * s;
    assert x < 2 && t + s == x + 2 * (t * s);
    assert Pow2(k) == 2 * h;
    assert (t + s) * h == Pow2(k) * (t * s) + x * h;
    assert 0 <= x * h < Pow2(k);
    DivModUnique((t + s) * h, Pow2(k), t * s, x * h);
    GetBitIsShift(e, k - 1);
    DivModUnique(x * h, h, x, 0);
  }

  lemma Unmask(t: nat, s: nat)
    requires t < 2 && s < 2
    ensures var e := t + s - 2 * t * s; e + s - e * s * 2 == t
  {
  }

  // ---------- one element of the protocol ----------

  /** sum = a - c * ai + rprime - (u << (k-1)) + (b << (k-1)). */
  function Difference(a: Sharing, c: Public, rprime: Sharing, u: Sharing, b: Sharing, k: nat): Sharing
    requires k >= 1
  {
    Add(Sub(Add(Sub(a, Constant(c)), rprime), Shift(u, k - 1)), Shift(b, k - 1))
  }

  /** res = e_bit * ai + b - ((e_bit * b) << 1). */
  function RemoveBit(e: Public, b: Sharing): Sharing {
    Sub(Add(Constant(e), b), Shift(Scale(e, b), 1))
  }

  /** What the first half of the protocol leaves behind for one element, v being the random number. */
  ghost predicate Prepared(a: Sharing, b: Sharing, rprime: Sharing, c: Public, u: Sharing, v: nat, k: nat)
    requires k >= 1
  {
    && SharedBit(b, k)
    && Additive(rprime, v % Pow2(k - 1), k)
    && Known(c, (Value(a, k) + v) % Pow2(k - 1))
    && BitLT.BitResult(u, c.p1 < v % Pow2(k - 1))
  }

  /** a less the unmasked low part of c is a's top bit, in place. */
  lemma TopPartAdditive(a: Sharing, rprime: Sharing, c: Public, u: Sharing, x: nat, r: nat, w: nat, h: nat, top: int, k: nat)
    requires 1 <= k <= W && h == Pow2(k - 1) && Additive(a, x, k) && Additive(rprime, r, k) && Known(c, w)
    requires BitLT.BitResult(u, w < r) && top == x - w + r - ToNat(w < r) * h
    ensures Additive(Sub(Add(Sub(a, Constant(c)), rprime), Shift(u, k - 1)), top, k)
  {
    hide *;
    ConstantAdditive(c, w, k);
    SubAdditive(a, x, Constant(c), w, k);
    AddAdditive(Sub(a, Constant(c)), x - w, rprime, r, k);
    TopBitAdditive(u, w < r, k);
    SubAdditive(Add(Sub(a, Constant(c)), rprime), x - w + r, Shift(u, k - 1), ToNat(w < r) * h, k);
  }

  lemma PreparedParts(a: Sharing, b: Sharing, rprime: Sharing, c: Public, u: Sharing, v: nat, k: nat)
    requires k >= 1 && Prepared(a, b, rprime, c, u, v, k)
    ensures
      var x, h, r, w := Value(a, k), Pow2(k - 1), v % Pow2(k - 1), c.p1;
      && Known(c, w) && SharedBit(b, k) && Additive(rprime, r, k) && BitLT.BitResult(u, w < r)
      && x - w + r - ToNat(w < r) * h == GetBit(x, k - 1) * h
  {
    CongMod(Sum(a), k);
    hide SharedBit, Additive, BitLT.BitResult, Bit;
    TopBitRemains(Value(a, k), v, k, c.p1);
  }

  lemma DifferenceAdditive(a: Sharing, b: Sharing, rprime: Sharing, c: Public, u: Sharing, v: nat, k: nat)
    requires 1 <= k <= W && Agreed(a, k) && Prepared(a, b, rprime, c, u, v, k)
    ensures Additive(Difference(a, c, rprime, u, b, k), (GetBit(Value(a, k), k - 1) + Value(b, k)) * Pow2(k - 1), k)
  {
    hide *;
    var x, h, r, w := Value(a, k), Pow2(k - 1), v % Pow2(k - 1), c.p1;
    var t, s := GetBit(x, k - 1), Value(b, k);
    PreparedParts(a, b, rprime, c, u, v, k);
    SharedBitValue(b, k);
    AdditiveValue(a, k);
    TopPartAdditive(a, rprime, c, u, x, r, w, h, t * h, k);
    ShiftAdditive(b, s, k - 1, k);
    var d := Sub(Add(Sub(a, Constant(c)), rprime), Shift(u, k - 1));
    AddAdditive(d, t * h, Shift(b, k - 1), s * h, k);
    Factor(t, s, h);
    DifferenceIs(a, c, rprime, u, b, k);
  }

  lemma Factor(t: int, s: int, h: int)
    ensures t * h + s * h == (t + s) * h
  {
  }

  lemma DifferenceIs(a: Sharing, c: Public, rprime: Sharing, u: Sharing, b: Sharing, k: nat)
    requires k >= 1
    ensures Difference(a, c, rprime, u, b, k)
         == Add(Sub(Add(Sub(a, Constant(c)), rprime), Shift(u, k - 1)), Shift(b, k - 1))
  {
  }

  /** A public bit e = t xor s and the shared bit s give a sharing of t. */
  lemma UnmaskAdditive(e: Public, b: Sharing, t: nat, s: nat, k: nat)
    requires k <= W && Additive(b, s, k) && t < 2 && s < 2 && 0 <= t + s - 2 * t * s && Known(e, t + s - 2 * t * s)
    ensures Additive(RemoveBit(e, b), t, k)
  {
    hide *;
    var w := t + s - 2 * t * s;
    ConstantAdditive(e, w, k);
    AddAdditive(Constant(e), w, b, s, k);
    ScaleAdditive(e, w, b, s, k);
    ShiftAdditive(Scale(e, b), w * s, 1, k);
    SubAdditive(Add(Constant(e), b), w + s, Shift(Scale(e, b), 1), w * s * Pow2(1), k);
    PowOne();
    Unmask(t, s);
    RemoveBitIs(e, b);
  }

  /** Opening the difference and undoing the random bit leaves the top bit of a. */
  lemma RemoveBitAdditive(e: Public, b: Sharing, t: nat, v: nat, k: nat)
    requires 1 <= k <= W && SharedBit(b, k) && t < 2
    requires v == (t + Value(b, k)) * Pow2(k - 1) % Pow2(k) && Known(e, GetBit(v, k - 1))
    ensures Additive(RemoveBit(e, b), t, k)
  {
    SharedBitValue(b, k);
    hide *;
    TopBitOfSum(t, Value(b, k), v, k);
    UnmaskAdditive(e, b, t, Value(b, k), k);
  }

  lemma PowOne()
    ensures Pow2(1) == 2
  {
  }

  lemma RemoveBitIs(e: Public, b: Sharing)
    ensures RemoveBit(e, b) == Sub(Add(Constant(e), b), Shift(Scale(e, b), 1))
  {
  }

  /** GET_BIT(e, k-1) at every party. */
  function BitOfEach(e: Public, n: nat): Public {
    Three(GetBit(e.p1, n), GetBit(e.p2, n), GetBit(e.p3, n))
  }

  lemma BitOfKnown(e: Public, v: nat, n: nat)
    requires Known(e, v)
    ensures Known(BitOfEach(e, n), GetBit(v, n))
  {
  }

  // ---------- the protocol ----------

  /**
   `new_Rss_MSB`: res shares bit k-1 of the secret of a, whatever the generators hold; res may be a.
   */
  method NewMSB(res: array<Sharing>, a: array<Sharing>, k: nat, net: Net)
    requires InStep(net) && 1 <= k <= net.p1.ring && 1 <= res.Length == a.Length
    requires forall i :: 0 <= i < a.Length ==> Agreed(a[i], k)
    modifies res, net.p1, net.p2, net.p3
    ensures InStep(net)
    ensures forall i :: 0 <= i < res.Length ==> Additive(res[i], GetBit(Value(old(a[i]), k), k - 1), k)
  {
    BitLT.RingBelowWord(net);
    hide *;
    var b, rprime, c, u, vs := PrepareMSB(a, k, net);
    FinishMSB(res, a, b, rprime, c, u, vs, k);
  }

  /** Random bit, random number, masked opening, comparison. */
  method PrepareMSB(a: array<Sharing>, k: nat, net: Net)
    returns (b: array<Sharing>, rprime: array<Sharing>, c: array<Public>, u: array<Sharing>, ghost vs: seq<nat>)
    requires InStep(net) && 1 <= k <= net.p1.ring && 1 <= a.Length
    requires forall i :: 0 <= i < a.Length ==> Agreed(a[i], k)
    modifies net.p1, net.p2, net.p3
    ensures InStep(net)
    ensures fresh(b) && fresh(rprime) && fresh(c) && fresh(u)
    ensures b.Length == rprime.Length == c.Length == u.Length == |vs| == a.Length
    ensures forall i :: 0 <= i < a.Length ==> Prepared(a[i], b[i], rprime[i], c[i], u[i], vs[i], k)
  {
    BitLT.RingBelowWord(net);
    hide *;
    var n := a.Length;
    b := new Sharing[n];
    RandBit(b, k, net);
    var r := new Sharing[n];
    var b2 := new Sharing[n];
    vs := DrawNumbers(r, b2, k, net);
    c, rprime, u := CompareMasked(a, b, r, b2, vs, k, net);
  }

  /** The masked opening and the comparison of its low bits with the mask's. */
  method CompareMasked(a: array<Sharing>, b: array<Sharing>, r: array<Sharing>, b2: array<Sharing>,
          ghost vs: seq<nat>, k: nat, net: Net)
    returns (c: array<Public>, rprime: array<Sharing>, u: array<Sharing>)
    requires InStep(net) && 1 <= k <= net.p1.ring && k <= W && 1 <= a.Length == b.Length == r.Length == b2.Length == |vs|
    requires b2 != a && b2 != r && b2 != b
    requires forall i :: 0 <= i < a.Length ==> Agreed(a[i], k) && SharesNumber(r[i], b2[i], vs[i], k) && SharedBit(b[i], k)
    modifies b2, net.p1, net.p2, net.p3
    ensures InStep(net)
    ensures fresh(rprime) && fresh(c) && fresh(u)
    ensures rprime.Length == c.Length == u.Length == a.Length
    ensures forall i :: 0 <= i < a.Length ==> Prepared(a[i], b[i], rprime[i], c[i], u[i], vs[i], k)
  {
    hide *;
    c, rprime := MaskedOpening(a, r, b2, vs, k);
    u := new Sharing[a.Length];
    BitLT.BitLT(u, c, b2, k, net);
    forall i | 0 <= i < a.Length ensures Prepared(a[i], b[i], rprime[i], c[i], u[i], vs[i], k) {
      assert SharedBit(b[i], k);
      assert Known(c[i], (Value(a[i], k) + vs[i]) % Pow2(k - 1)) && Additive(rprime[i], vs[i] % Pow2(k - 1), k);
      assert Bitwise(b2[i], vs[i] % Pow2(k - 1), k);
      assert BitLT.BitResult(u[i], c[i].p1 % Pow2(k) < XorValue(b2[i], k));
      PreparedElement(a[i], b[i], b2[i], rprime[i], c[i], u[i], vs[i], k);
    }
  }

  /** The edaBit call, with the numbers it shares. */
  method DrawNumbers(r: array<Sharing>, b2: array<Sharing>, k: nat, net: Net) returns (ghost vs: seq<nat>)
    requires InStep(net) && 1 <= k <= W && 1 <= r.Length == b2.Length && r != b2
    modifies r, b2, net.p1, net.p2, net.p3
    ensures InStep(net) && |vs| == r.Length
    ensures forall i :: 0 <= i < r.Length ==> SharesNumber(r[i], b2[i], vs[i], k)
  {
    ghost var g := Private(net);
    hide *;
    EdaBit(r, b2, k, net);
    vs := seq(r.Length, i requires 0 <= i < r.Length => EdaNumber(g, r.Length, k, i));
  }

  lemma PreparedElement(a: Sharing, b: Sharing, b2: Sharing, rprime: Sharing, c: Public, u: Sharing, v: nat, k: nat)
    requires k >= 1 && SharedBit(b, k) && Additive(rprime, v % Pow2(k - 1), k)
    requires Known(c, (Value(a, k) + v) % Pow2(k - 1)) && Bitwise(b2, v % Pow2(k - 1), k)
    requires BitLT.BitResult(u, c.p1 % Pow2(k) < XorValue(b2, k))
    ensures Prepared(a, b, rprime, c, u, v, k)
  {
    Pow2Mono(k - 1, k);
    CongMod(v, k - 1);
    CongMod(Value(a, k) + v, k - 1);
    hide Additive, SharedBit, Value, BitLT.BitResult, Bitwise;
    ModSmall(c.p1, k);
    ModSmall(v % Pow2(k - 1), k);
    BitwiseValue(b2, v % Pow2(k - 1), k);
  }

  /** sum = a + r is opened; then c and b_2 are cut to k-1 bits, b_2 in place. */
  method MaskedOpening(a: array<Sharing>, r: array<Sharing>, b2: array<Sharing>, ghost vs: seq<nat>, k: nat)
    returns (c: array<Public>, rprime: array<Sharing>)
    requires 1 <= k <= W && 1 <= a.Length == r.Length == b2.Length == |vs| && b2 != a && b2 != r
    requires forall i :: 0 <= i < a.Length ==> Agreed(a[i], k) && SharesNumber(r[i], b2[i], vs[i], k)
    modifies b2
    ensures fresh(c) && fresh(rprime) && c.Length == rprime.Length == a.Length
    ensures forall i :: 0 <= i < a.Length ==>
      && Known(c[i], (Value(a[i], k) + vs[i]) % Pow2(k - 1)) && Additive(rprime[i], vs[i] % Pow2(k - 1), k)
      && Bitwise(b2[i], vs[i] % Pow2(k - 1), k)
    ensures forall i :: 0 <= i < a.Length ==> Known(c[i], c[i].p1) && Agreed(b2[i], k)
  {
    hide *;
    var n := a.Length;
    var sum: array<Sharing>;
    rprime, sum := MaskVectors(a, r, b2, vs, k);
    c := new Public[n];
    Open(c, sum, k);
    for i := 0 to n
      invariant forall m :: 0 <= m < i ==> CutTo(c[m], b2[m], Value(a[m], k), vs[m], k)
      invariant forall m :: i <= m < n ==> b2[m] == old(b2[m]) && Known(c[m], (Value(a[m], k) + vs[m]) % Pow2(k))
      modifies b2, c
    {
      CutElement(c[i], r[i], b2[i], Value(a[i], k), vs[i], k);
      b2[i] := MaskCells(b2[i], k - 1);
      c[i] := MaskAll(c[i], k - 1);
    }
    forall i | 0 <= i < n
      ensures Known(c[i], (Value(a[i], k) + vs[i]) % Pow2(k - 1)) && Bitwise(b2[i], vs[i] % Pow2(k - 1), k)
      ensures Known(c[i], c[i].p1) && Agreed(b2[i], k)
    {
      CutMeans(c[i], b2[i], Value(a[i], k), vs[i], k);
    }
  }

  ghost predicate CutTo(c: Public, b2: Sharing, x: nat, v: nat, k: nat)
    requires k >= 1
  {
    Known(c, (x + v) % Pow2(k - 1)) && Bitwise(b2, v % Pow2(k - 1), k)
  }

  lemma CutMeans(c: Public, b2: Sharing, x: nat, v: nat, k: nat)
    requires k >= 1 && CutTo(c, b2, x, v, k)
    ensures Known(c, (x + v) % Pow2(k - 1)) && Bitwise(b2, v % Pow2(k - 1), k)
    ensures Known(c, c.p1) && Agreed(b2, k)
  {
    hide Agreed;
  }

  lemma CutElement(c: Public, r: Sharing, b2: Sharing, x: nat, v: nat, k: nat)
    requires k >= 1 && SharesNumber(r, b2, v, k) && Known(c, (x + v) % Pow2(k))
    ensures CutTo(MaskAll(c, k - 1), MaskCells(b2, k - 1), x, v, k)
  {
    hide Bitwise, Additive, MaskCells;
    MaskCellsBitwise(b2, v, k - 1, k);
    CongMod(x + v, k);
    CongWeaken((x + v) % Pow2(k), x + v, k, k - 1);
  }

  method MaskVectors(a: array<Sharing>, r: array<Sharing>, b2: array<Sharing>, ghost vs: seq<nat>, k: nat)
    returns (rprime: array<Sharing>, sum: array<Sharing>)
    requires 1 <= k <= W && a.Length == r.Length == b2.Length == |vs|
    requires forall i :: 0 <= i < a.Length ==> Agreed(a[i], k) && SharesNumber(r[i], b2[i], vs[i], k)
    ensures fresh(rprime) && fresh(sum) && rprime.Length == sum.Length == a.Length && rprime != sum
    ensures forall i :: 0 <= i < a.Length ==> Additive(rprime[i], vs[i] % Pow2(k - 1), k)
    ensures forall i :: 0 <= i < a.Length ==>
      Agreed(sum[i], k) && Value(sum[i], k) == (Value(a[i], k) + vs[i]) % Pow2(k)
  {
    hide *;
    rprime := new Sharing[a.Length];
    sum := new Sharing[a.Length];
    for i := 0 to a.Length
      invariant forall m :: 0 <= m < i ==> Additive(rprime[m], vs[m] % Pow2(k - 1), k)
      invariant forall m :: 0 <= m < i ==> Agreed(sum[m], k) && Value(sum[m], k) == (Value(a[m], k) + vs[m]) % Pow2(k)
      modifies rprime, sum
    {
      DropTopAdditive(r[i], b2[i], vs[i], k);
      MaskedSum(a[i], r[i], b2[i], vs[i], k);
      rprime[i] := DropTop(r[i], b2[i], k);
      sum[i] := Add(a[i], r[i]);
    }
  }

  lemma MaskedSum(a: Sharing, r: Sharing, b2: Sharing, v: nat, k: nat)
    requires k <= W && Agreed(a, k) && SharesNumber(r, b2, v, k)
    ensures Agreed(Add(a, r), k) && Value(Add(a, r), k) == (Value(a, k) + v) % Pow2(k)
  {
    hide Cong, Add, Sum;
    AdditiveValue(a, k);
    AddAdditive(a, Value(a, k), r, v, k);
    ValueOf(Add(a, r), Value(a, k) + v, k);
  }

  /** The second opening and the result. */
  method FinishMSB(res: array<Sharing>, a: array<Sharing>, b: array<Sharing>, rprime: array<Sharing>, c: array<Public>,
                   u: array<Sharing>, ghost vs: seq<nat>, k: nat)
    requires 1 <= k <= W && 1 <= res.Length == a.Length == b.Length == rprime.Length == c.Length == u.Length == |vs|
    requires res != b && forall i :: 0 <= i < a.Length ==> Agreed(a[i], k)
    requires forall i :: 0 <= i < a.Length ==> Prepared(a[i], b[i], rprime[i], c[i], u[i], vs[i], k)
    modifies res
    ensures forall i :: 0 <= i < res.Length ==> Additive(res[i], GetBit(Value(old(a[i]), k), k - 1), k)
  {
    hide *;
    var n := a.Length;
    var sum := Differences(a, b, rprime, c, u, vs, k);
    var e := new Public[n];
    Open(e, sum, k);
    ghost var top := seq(n, i requires 0 <= i < n reads a => GetBit(Value(a[i], k), k - 1));
    forall i | 0 <= i < n
      ensures top[i] == GetBit(Value(old(a[i]), k), k - 1) && top[i] < 2 && SharedBit(b[i], k)
      ensures Known(e[i], (top[i] + Value(b[i], k)) * Pow2(k - 1) % Pow2(k))
    {
      assert Prepared(a[i], b[i], rprime[i], c[i], u[i], vs[i], k);
      PreparedBit(a[i], b[i], rprime[i], c[i], u[i], vs[i], k);
    }
    WriteTopBits(res, b, e, top, k);
  }

  lemma PreparedBit(a: Sharing, b: Sharing, rprime: Sharing, c: Public, u: Sharing, v: nat, k: nat)
    requires k >= 1 && Prepared(a, b, rprime, c, u, v, k)
    ensures SharedBit(b, k) && GetBit(Value(a, k), k - 1) < 2
  {
  }

  method Differences(a: array<Sharing>, b: array<Sharing>, rprime: array<Sharing>, c: array<Public>,
                     u: array<Sharing>, ghost vs: seq<nat>, k: nat) returns (sum: array<Sharing>)
    requires 1 <= k <= W && 1 <= a.Length == b.Length == rprime.Length == c.Length == u.Length == |vs|
    requires forall i :: 0 <= i < a.Length ==> Agreed(a[i], k)
    requires forall i :: 0 <= i < a.Length ==> Prepared(a[i], b[i], rprime[i], c[i], u[i], vs[i], k)
    ensures fresh(sum) && sum.Length == a.Length
    ensures forall i :: 0 <= i < a.Length ==>
      && Agreed(sum[i], k)
      && Value(sum[i], k) == (GetBit(Value(a[i], k), k - 1) + Value(b[i], k)) * Pow2(k - 1) % Pow2(k)
  {
    hide *;
    sum := new Sharing[a.Length];
    for i := 0 to a.Length
      invariant forall m :: 0 <= m < i ==>
        && Agreed(sum[m], k)
        && Value(sum[m], k) == (GetBit(Value(a[m], k), k - 1) + Value(b[m], k)) * Pow2(k - 1) % Pow2(k)
      modifies sum
    {
      assert Agreed(a[i], k) && Prepared(a[i], b[i], rprime[i], c[i], u[i], vs[i], k);
      DifferenceAdditive(a[i], b[i], rprime[i], c[i], u[i], vs[i], k);
      sum[i] := Difference(a[i], c[i], rprime[i], u[i], b[i], k);
      AdditiveMeans(sum[i], (GetBit(Value(a[i], k), k - 1) + Value(b[i], k)) * Pow2(k - 1), k);
    }
  }

  lemma AdditiveMeans(x: Sharing, v: int, k: nat)
    requires Additive(x, v, k)
    ensures Agreed(x, k) && Value(x, k) == v % Pow2(k)
  {
  }

  method WriteTopBits(res: array<Sharing>, b: array<Sharing>, e: array<Public>, ghost top: seq<nat>, k: nat)
    requires 1 <= k <= W && res != b && res.Length == b.Length == e.Length == |top|
    requires forall i :: 0 <= i < res.Length ==>
      top[i] < 2 && SharedBit(b[i], k) && Known(e[i], (top[i] + Value(b[i], k)) * Pow2(k - 1) % Pow2(k))
    modifies res
    ensures forall i :: 0 <= i < res.Length ==> Additive(res[i], top[i], k)
  {
    hide *;
    for i := 0 to res.Length
      invariant forall m :: 0 <= m < i ==> Additive(res[m], top[m], k)
    {
      ghost var v := (top[i] + Value(b[i], k)) * Pow2(k - 1) % Pow2(k);
      assert top[i] < 2 && SharedBit(b[i], k) && Known(e[i], v);
      BitOfKnown(e[i], v, k - 1);
      RemoveBitAdditive(BitOfEach(e[i], k - 1), b[i], top[i], v, k);
      res[i] := RemoveBit(BitOfEach(e[i], k - 1), b[i]);
    }
  }
}
