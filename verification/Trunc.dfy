/**
 Probabilistic truncation of a shared number by public and by private amounts (`Rss_truncPr_1`,
 `Rss_truncPriv`).
 */
module Truncation {
  import opened Ring
  import opened Words
  import opened Stream
  import opened Sharings
  import opened Cluster
  import opened Multiplication
  import opened Linear
  import opened EdaBits
  import opened EdaBitTruncs
  import opened Opening
  import opened MSB
  import PublicProduct
  import LT

  // ---------- what the protocol computes ----------

  /** One when the low m bits of x and of the mask r carry. */
  function LowCarry(x: nat, r: nat, m: nat): nat {
    ToNat(x % Pow2(m) + r % Pow2(m) >= Pow2(m))
  }

  /** x and the mask without its top bit overflow the ring. */
  predicate Overflows(x: nat, r: nat, k: nat)
    requires k >= 1
  {
    x + r % Pow2(k - 1) >= Pow2(k)
  }

  /** The number the protocol produces from x under the mask r. */
  function Truncated(x: nat, r: nat, m: nat, k: nat): int
    requires m < k
  {
    x / Pow2(m) + LowCarry(x, r, m) - if Overflows(x, r, k) then Pow2(k - m) else 0
  }

  /** A number with a clear top bit never overflows. */
  lemma ClearTopNeverOverflows(x: nat, r: nat, k: nat)
    requires k >= 1 && x < Pow2(k - 1)
    ensures !Overflows(x, r, k)
  {
  }

  /**
   The secret left in the ring is floor(x / 2^m) or one more exactly when x does not overflow under the
   mask; a clear top bit rules that out for every mask.
   */
  lemma TruncatedIsNear(x: nat, r: nat, m: nat, k: nat)
    requires 1 <= m < k && x < Pow2(k)
    ensures
      var q, y := x / Pow2(m), Truncated(x, r, m, k);
      !Overflows(x, r, k) <==> Cong(y, q, k) || Cong(y, q + 1, k)
  {
    hide LowCarry, Overflows;
    var q, e := x / Pow2(m), LowCarry(x, r, m);
    LowCarryBit(x, r, m);
    CongRefl(q + e, k);
    if Overflows(x, r, k) {
      PowerNotNear(m, k);
      NotCong(q + e - Pow2(k - m), q, k);
      NotCong(q + e - Pow2(k - m), q + 1, k);
    }
  }

  lemma LowCarryBit(x: nat, r: nat, m: nat)
    ensures LowCarry(x, r, m) < 2
  {
  }

  /** 2^{k-m} and its neighbours are not multiples of 2^k, nor is 1 short of it. */
  lemma PowerNotNear(m: nat, k: nat)
    requires 1 <= m < k
    ensures 2 <= Pow2(k - m) && Pow2(k - m) + 1 < Pow2(k)
  {
    Pow2Mono(1, k - m);
    Pow2Mono(k - m, k - 1);
  }

  lemma NotCong(x: int, y: int, k: nat)
    requires 0 < y - x < Pow2(k)
    ensures !Cong(x, y, k)
  {
    if Cong(x, y, k) {
      hide Cong;
      var q := CongElim(x, y, k);
      MulMono(Pow2(k), q, if q <= -1 then -1 else 0);
      if q >= 0 {
        MulMono(Pow2(k), 0, q);
      }
    }
  }

  /** For numbers read in two's complement the overflow is what makes a negative one come out right. */
  lemma SignedTruncation(x: nat, r: nat, m: nat, k: nat)
    requires 1 <= m < k && x < Pow2(k)
    ensures
      var s := LT.Signed(x, k);
      Cong(Truncated(x, r, m, k), s / Pow2(m) + LowCarry(x, r, m), k) == ((s < 0) == Overflows(x, r, k))
  {
    var s, p := LT.Signed(x, k), Pow2(m);
    ClearTop(x, r, k);
    hide LowCarry, Overflows, Cong;
    var y, z := Truncated(x, r, m, k), s / p + LowCarry(x, r, m);
    PowerNotNear(m, k);
    if s < 0 {
      SignedQuotient(x, m, k);
      if Overflows(x, r, k) {
        CongRefl(y, k);
      } else {
        NotCong(z, y, k);
        if Cong(y, z, k) {
          CongSym(y, z, k);
        }
      }
    } else {
      CongRefl(y, k);
    }
  }

  lemma ClearTop(x: nat, r: nat, k: nat)
    requires k >= 1
    ensures LT.Signed(x, k) >= 0 && x < Pow2(k) ==> !Overflows(x, r, k)
  {
  }

  lemma SignedQuotient(x: nat, m: nat, k: nat)
    requires m <= k
    ensures (x - Pow2(k)) / Pow2(m) == x / Pow2(m) - Pow2(k - m)
  {
    Pow2Add(m, k - m);
    var p, q := Pow2(m), Pow2(k - m);
    assert x == p * (x / p) + x % p;
    assert p * (x / p - q) == p * (x / p) - p * q;
    DivModUnique(x - p * q, p, x / p - q, x % p);
  }

  // ---------- the arithmetic ----------

  /** c = x + r in the ring, taken apart: its top bit is that of r flipped by the carry into it. */
  lemma TopAndLow(x: nat, r: nat, h: nat, s: nat, low: nat)
    requires h >= 1 && r == h * s + low && low < h && s < 2
    ensures
      var c, t := (x + r) % (2 * h), x + low;
      c / h == t / h % 2 + s - 2 * (t / h % 2) * s && c % h == t % h
  {
    var t := x + low;
    var q, cl := t / h, t % h;
    DivSplit(t, h);
    SumParts(x, r, t, h, s, low, q, cl);
    TopOf(q + s, cl, h);
    HalfParity(q, s);
  }

  lemma SumParts(x: nat, r: nat, t: nat, h: nat, s: nat, low: nat, q: nat, cl: nat)
    requires r == h * s + low && t == x + low && t == h * q + cl
    ensures x + r == h * (q + s) + cl
  {
  }

  lemma DivBelow(r: nat, h: nat, n: nat)
    requires h >= 1 && r < n * h
    ensures r / h < n
  {
  }

  lemma TopOf(w: nat, cl: nat, h: nat)
    requires cl < h
    ensures (h * w + cl) % (2 * h) == h * (w % 2) + cl
    ensures (h * (w % 2) + cl) / h == w % 2 && (h * (w % 2) + cl) % h == cl
  {
    assert h * w + cl == (2 * h) * (w / 2) + (h * (w % 2) + cl);
    DivModUnique(h * w + cl, 2 * h, w / 2, h * (w % 2) + cl);
    DivModUnique(h * (w % 2) + cl, h, w % 2, cl);
  }

  lemma HalfParity(q: nat, s: nat)
    requires s < 2
    ensures (q + s) % 2 == q % 2 + s - 2 * (q % 2) * s
  {
  }

  /** The high parts of c and of the mask, with the carry put back in place. */
  lemma HighParts(x: nat, r: nat, h: nat, p: nat, q: nat, s: nat, low: nat)
    requires p >= 1 && q >= 1 && h == p * q && h >= 1 && r == h * s + low && low < h && s < 2 && x < 2 * h
    ensures
      var c, t := (x + r) % (2 * h), x + low;
      c / p % q - (r / p - s * q) + t / h % 2 * q
        == x / p + ToNat(x % p + r % p >= p) - if t >= 2 * h then 2 * q else 0
  {
    var c, t := (x + r) % (2 * h), x + low;
    TopAndLow(x, r, h, s, low);
    CutDivide(c, p, q);
    CutDivide(t, p, q);
    DivTwice(t, p, q);
    MaskParts(r, p, q, s, low);
    AddQuotients(x, low, p);
    CarryCount(t, h);
    Regroup(t / p, t / h, t / p % q, t / h % 2, q, t >= 2 * h);
  }

  lemma Regroup(a: nat, g: nat, rest: nat, u: nat, q: nat, over: bool)
    requires q >= 1 && g == a / q && rest == a % q && g == u + if over then 2 else 0
    ensures rest + u * q == a - if over then 2 * q else 0
  {
  }

  lemma MaskParts(r: nat, p: nat, q: nat, s: nat, low: nat)
    requires p >= 1 && r == p * q * s + low
    ensures r / p - s * q == low / p && r % p == low % p
  {
    assert low == p * (low / p) + low % p;
    assert p * (q * s + low / p) == p * q * s + p * (low / p);
    DivModUnique(r, p, q * s + low / p, low % p);
  }

  lemma HighPartsOf(x: nat, r: nat, h: nat, p: nat, q: nat)
    requires p >= 1 && q >= 1 && h == p * q && h >= 1 && r < 2 * h && x < 2 * h
    ensures
      var c, t := (x + r) % (2 * h), x + r % h;
      c / p % q - (r / p - r / h * q) + t / h % 2 * q
        == x / p + ToNat(x % p + r % p >= p) - if t >= 2 * h then 2 * q else 0
  {
    DivBelow(r, h, 2);
    DivSplit(r, h);
    HighParts(x, r, h, p, q, r / h, r % h);
  }

  /** The same in the protocol's terms. */
  lemma TruncatedIs(x: nat, r: nat, m: nat, k: nat, h: nat, p: nat, q: nat)
    requires m < k && x < Pow2(k) && r < Pow2(k)
    requires h == Pow2(k - 1) && p == Pow2(m) && q == Pow2(k - m - 1)
    ensures (x + r) % Pow2(k) / p % q - (r / p - r / h * q) + (x + r % h) / h % 2 * q == Truncated(x, r, m, k)
  {
    hide LowCarry, Overflows;
    Pow2Add(m, k - m - 1);
    PowDouble(m, k);
    HighPartsOf(x, r, h, p, q);
    LowCarryIs(x, r, m);
    OverflowsIs(x, r, k);
  }

  lemma LowCarryIs(x: nat, r: nat, m: nat)
    ensures LowCarry(x, r, m) == ToNat(x % Pow2(m) + r % Pow2(m) >= Pow2(m))
  {
  }

  lemma OverflowsIs(x: nat, r: nat, k: nat)
    requires k >= 1
    ensures Overflows(x, r, k) == (x + r % Pow2(k - 1) >= Pow2(k))
  {
  }

  /** The top bits: what opening shows, and the carry into the top bit. */
  lemma TopBits(x: nat, r: nat, k: nat)
    requires k >= 1 && r < Pow2(k)
    ensures
      var h, c := Pow2(k - 1), (x + r) % Pow2(k);
      var u, s := (x + r % h) / h % 2, r / h;
      s < 2 && u < 2 && c / h == u + s - 2 * u * s
  {
    var h := Pow2(k - 1);
    DivBelow(r, h, 2);
    TopAndLow(x, r, h, r / h, r % h);
  }

  lemma PowDouble(m: nat, k: nat)
    requires m < k
    ensures Pow2(k) == 2 * Pow2(k - 1) && Pow2(k - m) == 2 * Pow2(k - m - 1)
  {
  }

  lemma CarryCount(t: nat, h: nat)
    requires h >= 1 && t < 3 * h
    ensures t / h == t / h % 2 + if t >= 2 * h then 2 else 0
  {
  }

  lemma DivTwice(c: nat, p: nat, q: nat)
    requires p >= 1 && q >= 1
    ensures p * q >= 1 && c / p / q == c / (p * q)
  {
    var a, b := c / p / q, c / p % q;
    assert c / p == q * a + b;
    assert c == p * (c / p) + c % p;
    assert p * (q * a + b) == (p * q) * a + p * b;
    MulMono(p, b, q - 1);
    assert p * (q - 1) == p * q - p;
    DivModUnique(c, p * q, a, p * b + c % p);
  }

  lemma CutDivide(c: nat, p: nat, q: nat)
    requires p >= 1 && q >= 1
    ensures p * q >= 1 && c / p % q == c % (p * q) / p
  {
    var a, b := c / p / q, c / p % q;
    assert c / p == q * a + b;
    assert c == p * (c / p) + c % p;
    assert p * (q * a + b) == (p * q) * a + p * b;
    MulMono(p, b, q - 1);
    assert p * (q - 1) == p * q - p;
    DivModUnique(c, p * q, a, p * b + c % p);
    DivModUnique(p * b + c % p, p, b, c % p);
  }

  lemma AddQuotients(x: nat, y: nat, p: nat)
    requires p >= 1
    ensures (x + y) / p == x / p + y / p + ToNat(x % p + y % p >= p)
  {
    var a, b, e := x / p, y / p, ToNat(x % p + y % p >= p);
    assert x == p * a + x % p && y == p * b + y % p;
    assert p * (a + b + e) == p * a + p * b + p * e;
    assert p * e == if x % p + y % p >= p then p else 0;
    DivModUnique(x + y, p, a + b + e, x % p + y % p - p * e);
  }

  // ---------- one element ----------

  /** b: the carry into the top bit, from c's top bit and the mask's. */
  function CarryShare(c: Public, top: Sharing, k: nat): Sharing
    requires k >= 1
  {
    RemoveBit(ShiftRight(c, k - 1), top)
  }

  /** c_prime = (c >> m) & SHIFT[k-m-1]. */
  function CutHigh(c: Public, m: nat, k: nat): Public
    requires m < k
  {
    MaskAll(ShiftRight(c, m), k - m - 1)
  }

  /** c_prime * ai - (r_m_prime - (r_km1 << (k-1-m))) + (b << (k-m-1)). */
  function TruncResult(c: Public, prime: Sharing, top: Sharing, m: nat, k: nat): Sharing
    requires m < k
  {
    Add(Sub(Constant(CutHigh(c, m, k)), Sub(prime, Shift(top, k - m - 1))), Shift(CarryShare(c, top, k), k - m - 1))
  }

  lemma TopOfNumber(v: nat, k: nat)
    requires k >= 1
    ensures v % Pow2(k) < Pow2(k) && Quotient(v % Pow2(k), Pow2(k - 1)) == GetBit(v, k - 1)
  {
    CongMod(v, k);
    BitMod(v, k, k - 1);
    hide Bit;
    GetBitIsShift(v % Pow2(k), k - 1);
    DivBelow(v % Pow2(k), Pow2(k - 1), 2);
  }

  lemma KnownShift(c: Public, w: nat, m: nat)
    requires Known(c, w)
    ensures Known(ShiftRight(c, m), Quotient(w, Pow2(m)))
  {
  }

  lemma KnownCut(c: Public, w: nat, m: nat, k: nat)
    requires m < k && Known(c, w)
    ensures Known(CutHigh(c, m, k), Quotient(w, Pow2(m)) % Pow2(k - m - 1))
  {
  }

  /** The carry's share. */
  lemma CarryShareAdditive(c: Public, top: Sharing, x: nat, r: nat, h: nat, u: nat, s: nat, k: nat)
    requires 1 <= k <= W && r < Pow2(k) && h == Pow2(k - 1) && Known(c, (x + r) % Pow2(k))
    requires u == (x + r % h) / h % 2 && s == Quotient(r, h) && Additive(top, s, k)
    ensures s < 2 && Additive(CarryShare(c, top, k), u, k)
  {
    hide Additive, RemoveBit, Pow2, ShiftRight;
    TopBits(x, r, k);
    KnownShift(c, (x + r) % Pow2(k), k - 1);
    assert Quotient((x + r) % Pow2(k), h) == u + s - 2 * u * s;
    UnmaskAdditive(ShiftRight(c, k - 1), top, u, s, k);
  }

  lemma TruncResultAdditive(c: Public, prime: Sharing, top: Sharing, x: nat, r: nat, m: nat, k: nat)
    requires m < k <= W && x < Pow2(k) && r < Pow2(k) && Known(c, (x + r) % Pow2(k))
    requires Additive(prime, Quotient(r, Pow2(m)), k) && Additive(top, Quotient(r, Pow2(k - 1)), k)
    ensures Additive(TruncResult(c, prime, top, m, k), Truncated(x, r, m, k), k)
  {
    hide *;
    var h, p, q, j := Pow2(k - 1), Pow2(m), Pow2(k - m - 1), k - m - 1;
    var w, s, u := Quotient((x + r) % Pow2(k), p) % q, Quotient(r, h), (x + r % h) / h % 2;
    TruncatedParts(x, r, m, k, h, p, q);
    CarryShareAdditive(c, top, x, r, h, u, s, k);
    KnownCut(c, (x + r) % Pow2(k), m, k);
    ConstantAdditive(CutHigh(c, m, k), w, k);
    ShiftAdditive(top, s, j, k);
    SubAdditive(prime, Quotient(r, p), Shift(top, j), s * q, k);
    var d := Sub(prime, Shift(top, j));
    SubAdditive(Constant(CutHigh(c, m, k)), w, d, Quotient(r, p) - s * q, k);
    ShiftAdditive(CarryShare(c, top, k), u, j, k);
    AddAdditive(Sub(Constant(CutHigh(c, m, k)), d), w - (Quotient(r, p) - s * q), Shift(CarryShare(c, top, k), j), u * q, k);
    TruncResultIs(c, prime, top, m, k);
  }

  lemma TruncatedParts(x: nat, r: nat, m: nat, k: nat, h: nat, p: nat, q: nat)
    requires m < k && x < Pow2(k) && r < Pow2(k)
    requires h == Pow2(k - 1) && p == Pow2(m) && q == Pow2(k - m - 1)
    ensures Quotient((x + r) % Pow2(k), p) % q - (Quotient(r, p) - Quotient(r, h) * q) + (x + r % h) / h % 2 * q == Truncated(x, r, m, k)
  {
    TruncatedIs(x, r, m, k, h, p, q);
    hide Pow2, Truncated;
  }

  lemma TruncResultIs(c: Public, prime: Sharing, top: Sharing, m: nat, k: nat)
    requires m < k
    ensures TruncResult(c, prime, top, m, k)
         == Add(Sub(Constant(CutHigh(c, m, k)), Sub(prime, Shift(top, k - m - 1))), Shift(CarryShare(c, top, k), k - m - 1))
  {
  }

  // ---------- Rss_truncPr_1 ----------

  /** The number element i is masked with. */
  ghost function MaskNumber(g: Three<Gen>, n: nat, k: nat, i: nat): nat {
    EdaNumber(g, n, k, i) % Pow2(k)
  }

  /** What one element needs from the preparation. */
  ghost predicate MaskedFor(c: Public, prime: Sharing, top: Sharing, x: nat, r: nat, m: nat, k: nat)
    requires k >= 1
  {
    && x < Pow2(k) && r < Pow2(k) && Known(c, (x + r) % Pow2(k))
    && Additive(prime, Quotient(r, Pow2(m)), k) && Additive(top, Quotient(r, Pow2(k - 1)), k)
  }

  lemma MaskedForElement(c: Public, x: Sharing, r: Sharing, prime: Sharing, top: Sharing, v: nat, m: nat, k: nat)
    requires k >= 1 && SharesTruncated(r, prime, top, v, m, k) && Known(c, (Value(x, k) + v) % Pow2(k))
    ensures MaskedFor(c, prime, top, Value(x, k), v % Pow2(k), m, k)
  {
    hide Additive, Value, Quotient, Bit;
    ValueBelow(x, k);
    ReduceMask(Value(x, k), v, k);
    TopOfNumber(v, k);
  }

  lemma ReduceMask(x: nat, v: nat, k: nat)
    ensures (x + v) % Pow2(k) == (x + v % Pow2(k)) % Pow2(k)
  {
    hide Cong;
    CongMod(v, k);
    CongRefl(x, k);
    CongAdd(x, x, v % Pow2(k), v, k);
    SameMod(x + v % Pow2(k), x + v, k);
  }

  lemma SumOpens(x: Sharing, r: Sharing, prime: Sharing, top: Sharing, v: nat, m: nat, k: nat)
    requires 1 <= k <= W && Agreed(x, k) && SharesTruncated(r, prime, top, v, m, k)
    ensures Agreed(Add(x, r), k) && Value(Add(x, r), k) == (Value(x, k) + v) % Pow2(k)
  {
    hide Cong, Add, Sum, Agreed, Value, Quotient;
    AdditiveValue(x, k);
    AddAdditive(x, Value(x, k), r, v, k);
    ValueOf(Add(x, r), Value(x, k) + v, k);
  }

  /**
   `Rss_truncPr_1`: each element of x, shifted right by m under the random mask the generators hold;
   res may be x.
   */
  method TruncPr1(res: array<Sharing>, x: array<Sharing>, m: nat, k: nat, net: Net)
    requires InStep(net) && 1 <= m < k && k + 2 <= W && 1 <= res.Length == x.Length
    requires forall i :: 0 <= i < x.Length ==> Agreed(x[i], k)
    modifies res, net.p1, net.p2, net.p3
    ensures InStep(net) && Private(net) == Advanced(old(Private(net)), RequestSize(x.Length, k))
    ensures forall i :: 0 <= i < res.Length ==>
      Additive(res[i], Truncated(Value(old(x[i]), k), MaskNumber(old(Private(net)), x.Length, k, i), m, k), k)
  {
    ghost var g := Private(net);
    hide *;
    var c, prime, top := OpenUnderMask(x, m, k, net);
    TruncAll(res, x, c, prime, top, m, k, g);
  }

  /** The mask and the opened sum. */
  method OpenUnderMask(x: array<Sharing>, m: nat, k: nat, net: Net)
    returns (c: array<Public>, prime: array<Sharing>, top: array<Sharing>)
    requires InStep(net) && 1 <= m < k && k + 2 <= W && 1 <= x.Length
    requires forall i :: 0 <= i < x.Length ==> Agreed(x[i], k)
    modifies net.p1, net.p2, net.p3
    ensures InStep(net) && Private(net) == Advanced(old(Private(net)), RequestSize(x.Length, k))
    ensures fresh(c) && fresh(prime) && fresh(top) && c.Length == prime.Length == top.Length == x.Length && prime != top
    ensures forall i :: 0 <= i < x.Length ==>
      MaskedFor(c[i], prime[i], top[i], Value(x[i], k), MaskNumber(old(Private(net)), x.Length, k, i), m, k)
  {
    ghost var g := Private(net);
    hide *;
    var n := x.Length;
    var r := new Sharing[n];
    prime := new Sharing[n];
    top := new Sharing[n];
    EdaBitTrunc(r, prime, top, k, m, net);
    c := OpenSums(x, r, prime, top, m, k, g);
  }

  method OpenSums(x: array<Sharing>, r: array<Sharing>, prime: array<Sharing>, top: array<Sharing>, m: nat, k: nat,
          ghost g: Three<Gen>)
    returns (c: array<Public>)
    requires 1 <= k <= W && 1 <= x.Length == r.Length == prime.Length == top.Length
    requires forall i :: 0 <= i < x.Length ==>
      Agreed(x[i], k) && SharesTruncated(r[i], prime[i], top[i], EdaNumber(g, x.Length, k, i), m, k)
    ensures fresh(c) && c.Length == x.Length
    ensures forall i :: 0 <= i < x.Length ==>
      MaskedFor(c[i], prime[i], top[i], Value(x[i], k), MaskNumber(g, x.Length, k, i), m, k)
  {
    hide *;
    var n := x.Length;
    var sum := new Sharing[n];
    for i := 0 to n
      invariant forall t :: 0 <= t < i ==>
        Agreed(sum[t], k) && Value(sum[t], k) == (Value(x[t], k) + EdaNumber(g, n, k, t)) % Pow2(k)
      modifies sum
    {
      SumOpens(x[i], r[i], prime[i], top[i], EdaNumber(g, n, k, i), m, k);
      sum[i] := Add(x[i], r[i]);
    }
    c := new Public[n];
    Open(c, sum, k);
    forall i | 0 <= i < n ensures MaskedFor(c[i], prime[i], top[i], Value(x[i], k), MaskNumber(g, n, k, i), m, k) {
      assert SharesTruncated(r[i], prime[i], top[i], EdaNumber(g, n, k, i), m, k);
      MaskedForElement(c[i], x[i], r[i], prime[i], top[i], EdaNumber(g, n, k, i), m, k);
      MaskNumberIs(g, n, k, i);
    }
  }

  lemma MaskNumberIs(g: Three<Gen>, n: nat, k: nat, i: nat)
    ensures MaskNumber(g, n, k, i) == EdaNumber(g, n, k, i) % Pow2(k)
  {
  }

  method TruncAll(res: array<Sharing>, x: array<Sharing>, c: array<Public>, prime: array<Sharing>, top: array<Sharing>,
                  m: nat, k: nat, ghost g: Three<Gen>)
    requires m < k <= W && res.Length == x.Length == c.Length == prime.Length == top.Length && res != prime && res != top
    requires forall i :: 0 <= i < x.Length ==>
      MaskedFor(c[i], prime[i], top[i], Value(x[i], k), MaskNumber(g, x.Length, k, i), m, k)
    modifies res
    ensures forall i :: 0 <= i < res.Length ==>
      Additive(res[i], Truncated(Value(old(x[i]), k), MaskNumber(g, x.Length, k, i), m, k), k)
  {
    hide *;
    for i := 0 to res.Length
      invariant forall t :: 0 <= t < i ==>
        Additive(res[t], Truncated(Value(old(x[t]), k), MaskNumber(g, x.Length, k, t), m, k), k)
    {
      MaskedForResult(c[i], prime[i], top[i], Value(old(x[i]), k), MaskNumber(g, x.Length, k, i), m, k);
      res[i] := TruncResult(c[i], prime[i], top[i], m, k);
    }
  }

  lemma MaskedForResult(c: Public, prime: Sharing, top: Sharing, x: nat, r: nat, m: nat, k: nat)
    requires m < k <= W && MaskedFor(c, prime, top, x, r, m, k)
    ensures Additive(TruncResult(c, prime, top, m, k), Truncated(x, r, m, k), k)
  {
    hide Additive, TruncResult, Truncated, Quotient;
    TruncResultAdditive(c, prime, top, x, r, m, k);
  }

  // ---------- Rss_truncPriv ----------

  /**
   `Rss_truncPriv`: x is scaled by element `index` of privM and truncated by M; res may be x or privM.
   */
  method TruncPriv(res: array<Sharing>, x: array<Sharing>, privM: array<Sharing>, M: nat, index: nat, k: nat, net: Net)
    requires InStep(net) && 1 <= M < k && k + 2 <= W && 1 <= res.Length == x.Length && index < privM.Length
    requires Agreed(privM[index], k) && forall i :: 0 <= i < x.Length ==> Agreed(x[i], k)
    modifies res, net.p1, net.p2, net.p3
    ensures InStep(net) && Private(net) == Advanced(old(Private(net)), RequestSize(x.Length, k))
    ensures forall i :: 0 <= i < res.Length ==>
      Additive(res[i], Truncated(Value(old(x[i]), k) * Value(old(privM[index]), k) % Pow2(k),
                                 MaskNumber(old(Private(net)), x.Length, k, i), M, k), k)
  {
    hide *;
    PublicProduct.MultFixedB(res, x, privM, index, k, net);
    forall i | 0 <= i < x.Length
      ensures Agreed(res[i], k) && Value(res[i], k) == Value(old(x[i]), k) * Value(old(privM[index]), k) % Pow2(k)
    {
      ProductValue(res[i], old(x[i]), old(privM[index]), k);
    }
    TruncPr1(res, res, M, k, net);
  }

  lemma ProductValue(z: Sharing, x: Sharing, y: Sharing, k: nat)
    requires Additive(z, Sum(x) * Sum(y), k)
    ensures Agreed(z, k) && Value(z, k) == Value(x, k) * Value(y, k) % Pow2(k)
  {
    hide Agreed, Sum, Cong;
    CongMod(Sum(x), k);
    CongMod(Sum(y), k);
    CongMul(Value(x, k), Sum(x), Value(y, k), Sum(y), k);
    SameMod(Value(x, k) * Value(y, k), Sum(x) * Sum(y), k);
    SameMod(Sum(z), Sum(x) * Sum(y), k);
  }

  /** Scaling by 2^{M-m} first makes truncation by M one by m, as long as the top bit stays clear. */
  lemma PrivateAmount(x: nat, r: nat, m: nat, M: nat, k: nat)
    requires m <= M < k && x * Pow2(M - m) < Pow2(k - 1)
    ensures
      var y := x * Pow2(M - m) % Pow2(k);
      Truncated(y, r, M, k) == x / Pow2(m) + LowCarry(y, r, M)
  {
    hide LowCarry, Overflows;
    var y, q := x * Pow2(M - m), Pow2(M - m);
    PowDouble(0, k);
    ModSmall(y, k);
    ClearTopNeverOverflows(y, r, k);
    Pow2Add(m, M - m);
    ScaledQuotient(x, Pow2(m), q);
  }

  lemma ScaledQuotient(x: nat, p: nat, q: nat)
    requires p >= 1 && q >= 1
    ensures p * q >= 1 && (x * q) / (p * q) == x / p
  {
    var a, b := x / p, x % p;
    assert x == p * a + b;
    assert x * q == (p * q) * a + b * q;
    MulMono(q, b, p - 1);
    assert q * (p - 1) == p * q - q && q * b == b * q;
    DivModUnique(x * q, p * q, a, b * q);
  }
}
