/**
 Shared random bits (`Rss_RandBit`).

 A random odd secret a is squared in public over Z_{2^{k+2}}; a times the inverse of a public root of
 the square is 1 or -1 there, and (that + 1) / 2, halved share by share, is a bit.
 */
module RandBits {
  import opened Ring
  import opened Words
  import opened Stream
  import opened Sharings
  import opened Cluster
  import opened Multiplication
  import opened PublicProduct
  import opened SqrtInv

  /** (u << 1) + ai in both slots of every party. */
  function MakeOdd(u0: Public, u1: Public): Sharing {
    Three(Pair(Wrap(u0.p1 * 2 + Ai.p1.s0), Wrap(u1.p1 * 2 + Ai.p1.s1)),
          Pair(Wrap(u0.p2 * 2 + Ai.p2.s0), Wrap(u1.p2 * 2 + Ai.p2.s1)),
          Pair(Wrap(u0.p3 * 2 + Ai.p3.s0), Wrap(u1.p3 * 2 + Ai.p3.s1)))
  }

  /** (c * a + ai) >> 1, a shift of the wrapped word. */
  function Halve(c: nat, a: nat, ai: nat): nat {
    Wrap(c * a + ai) / 2
  }

  function HalveAll(c: Public, a: Sharing): Sharing {
    Three(Pair(Halve(c.p1, a.p1.s0, Ai.p1.s0), Halve(c.p1, a.p1.s1, Ai.p1.s1)),
          Pair(Halve(c.p2, a.p2.s0, Ai.p2.s0), Halve(c.p2, a.p2.s1, Ai.p2.s1)),
          Pair(Halve(c.p3, a.p3.s0, Ai.p3.s0), Halve(c.p3, a.p3.s1, Ai.p3.s1)))
  }

  /** The words of a have the parity of the constant 1's shares. */
  ghost predicate OddSecret(a: Sharing) {
    && a.p1.s0 % 2 == 1 && a.p1.s1 % 2 == 0
    && a.p2.s0 % 2 == 0 && a.p2.s1 % 2 == 0
    && a.p3.s0 % 2 == 0 && a.p3.s1 % 2 == 1
  }

  /** x is a consistent sharing of 0 or of 1. */
  ghost predicate SharedBit(x: Sharing, k: nat) {
    Additive(x, 0, k) || Additive(x, 1, k)
  }

  lemma DoubledCong(x: nat, y: nat, ai: nat, k: nat)
    requires k <= W && Cong(x, y, k)
    ensures Cong(Wrap(x * 2 + ai), Wrap(y * 2 + ai), k)
  {
    hide Cong, Wrap;
    CongAdd(x, y, x, y, k);
    CongRefl(ai, k);
    CongAdd(x * 2, y * 2, ai, ai, k);
    WrapCong(x * 2 + ai, k);
    WrapCong(y * 2 + ai, k);
    CongTrans(Wrap(x * 2 + ai), x * 2 + ai, y * 2 + ai, k);
    CongSym(Wrap(y * 2 + ai), y * 2 + ai, k);
    CongTrans(Wrap(x * 2 + ai), y * 2 + ai, Wrap(y * 2 + ai), k);
  }

  lemma MakeOddElement(u0: Public, u1: Public, k: nat)
    requires k <= W
    requires Agreed(Zip(u0, u1), k)
    ensures Agreed(MakeOdd(u0, u1), k) && OddSecret(MakeOdd(u0, u1))
  {
    hide Cong, Wrap;
    DoubledCong(u1.p1, u0.p2, 0, k);
    DoubledCong(u1.p2, u0.p3, 0, k);
    DoubledCong(u1.p3, u0.p1, 1, k);
    WrapParity(u0.p1 * 2 + 1);
    WrapParity(u1.p1 * 2);
    WrapParity(u0.p2 * 2);
    WrapParity(u1.p2 * 2);
    WrapParity(u0.p3 * 2);
    WrapParity(u1.p3 * 2 + 1);
  }

  // ---------- the halving is exact ----------

  /** An even wrapped word is twice its half. */
  lemma HalveExact(c: nat, a: nat, ai: nat, k: nat)
    requires c % 2 == 1 && (a + ai) % 2 == 0 && k <= W
    ensures Cong(Halve(c, a, ai) * 2, c * a + ai, k)
  {
    OddTimes(c, a, ai);
    HalveWord(c * a + ai, k);
  }

  lemma HalveWord(x: nat, k: nat)
    requires x % 2 == 0 && k <= W
    ensures Cong(Wrap(x) / 2 * 2, x, k)
  {
    hide Cong, Wrap;
    WrapParity(x);
    EvenHalf(Wrap(x));
    WrapCong(x, k);
  }

  lemma EvenHalf(w: nat)
    requires w % 2 == 0
    ensures w / 2 * 2 == w
  {
  }

  lemma OddTimes(c: nat, a: nat, ai: nat)
    requires c % 2 == 1 && (a + ai) % 2 == 0
    ensures (c * a + ai) % 2 == 0
  {
    var h := c / 2;
    assert c == 2 * h + 1;
    assert c * a == 2 * (h * a) + a;
  }

  /** The holders' halves agree one bit further down. */
  lemma HalveAgrees(c: nat, x: nat, y: nat, ai: nat, k: nat)
    requires c % 2 == 1 && (x + ai) % 2 == 0 && (y + ai) % 2 == 0 && k + 2 <= W && Cong(x, y, k + 2)
    ensures Cong(Halve(c, x, ai), Halve(c, y, ai), k)
  {
    hide *;
    HalveExact(c, x, ai, k + 2);
    HalveExact(c, y, ai, k + 2);
    CongRefl(c, k + 2);
    CongMul(c, c, x, y, k + 2);
    CongRefl(ai, k + 2);
    CongAdd(c * x, c * y, ai, ai, k + 2);
    var h, g := Halve(c, x, ai), Halve(c, y, ai);
    CongTrans(h * 2, c * x + ai, c * y + ai, k + 2);
    CongSym(g * 2, c * y + ai, k + 2);
    CongTrans(h * 2, c * y + ai, g * 2, k + 2);
    HalfCong(h, g, k + 1);
    CongWeaken(h, g, k + 1, k);
  }

  lemma HalfCong(x: int, y: int, k: nat)
    requires Cong(x * 2, y * 2, k + 1)
    ensures Cong(x, y, k)
  {
    assert Pow2(1) == 2;
    CongUnscale(x, y, k, 1);
  }

  /** c is the inverse of a root of the square of s, so c * s is 1 or -1. */
  lemma InverseTimesSecret(s: nat, e: nat, k: nat)
    requires s % 2 == 1 && 3 <= k <= W && e == s * s % Pow2(k)
    ensures
      var c := InverseRoot(e, k);
      && c % 2 == 1
      && (Cong(c * s, 1, k - 1) || Cong(c * s, -1, k - 1))
  {
    SquareModEight(s, e, k);
    CongMod(s * s, k);
    hide *;
    var c := InverseRoot(e, k);
    var r := InverseRootCorrect(e, k);
    UnitSquare(c, s, e, k);
    RootsOfOne(c * s, k);
  }

  lemma UnitSquare(c: int, s: int, e: int, k: nat)
    requires Cong(c * c * e, 1, k) && Cong(e, s * s, k)
    ensures Cong((c * s) * (c * s), 1, k)
  {
    hide *;
    CongSym(e, s * s, k);
    CongRefl(c * c, k);
    CongMul(c * c, c * c, s * s, e, k);
    assert (c * s) * (c * s) == (c * c) * (s * s);
    CongTrans((c * s) * (c * s), c * c * e, 1, k);
  }

  /** An odd square is 1 mod 8, in every ring that can tell. */
  lemma SquareModEight(s: nat, e: nat, k: nat)
    requires s % 2 == 1 && k >= 3 && e == s * s % Pow2(k)
    ensures e % 8 == 1
  {
    CongMod(s * s, k);
    hide Cong;
    OddModEight(s);
    CongWeaken(e, s * s, k, 3);
    ModEight(e, s * s);
  }

  lemma ModEight(x: int, y: int)
    requires Cong(x, y, 3)
    ensures x % 8 == y % 8
  {
  }

  lemma OddModEight(s: nat)
    requires s % 2 == 1
    ensures s * s % 8 == 1
  {
    var h := s / 2;
    var q := Consecutive(h);
    OddSquare(s, h);
  }

  /** The product of two consecutive numbers is even. */
  lemma Consecutive(h: nat) returns (q: nat)
    ensures h * (h + 1) == 2 * q
  {
    var g := h / 2;
    if h % 2 == 0 {
      assert h == 2 * g;
      q := g * (h + 1);
    } else {
      assert h + 1 == 2 * (g + 1);
      q := h * (g + 1);
    }
  }

  lemma ScaledSum(c: int, x: int, y: int, z: int)
    ensures c * x + 1 + c * y + c * z == c * (x + y + z) + 1
  {
  }

  /** Twice the halved secret is c * s + 1. */
  lemma HalvedSum(c: nat, a: Sharing, k: nat)
    requires k + 2 <= W && c % 2 == 1 && OddSecret(a)
    ensures Cong(Sum(HalveAll(Three(c, c, c), a)) * 2, c * Sum(a) + 1, k + 1)
  {
    hide *;
    var x, y, z := a.p1.s0, a.p2.s0, a.p3.s0;
    OddParts(a);
    HalveExact(c, x, 1, k + 1);
    HalveExact(c, y, 0, k + 1);
    HalveExact(c, z, 0, k + 1);
    HalvedParts(c, a);
    TwiceSum(Halve(c, x, 1), Halve(c, y, 0), Halve(c, z, 0), c, x, y, z, k + 1);
  }

  lemma TwiceSum(f: int, g: int, h: int, c: int, x: int, y: int, z: int, k: nat)
    requires Cong(f * 2, c * x + 1, k) && Cong(g * 2, c * y + 0, k) && Cong(h * 2, c * z + 0, k)
    ensures Cong((f + g + h) * 2, c * (x + y + z) + 1, k)
  {
    hide Cong;
    Add3(f * 2, g * 2, h * 2, c * x + 1, c * y + 0, c * z + 0, k);
    ScaledSum(c, x, y, z);
  }

  lemma OddParts(a: Sharing)
    requires OddSecret(a)
    ensures (a.p1.s0 + 1) % 2 == 0 && a.p2.s0 % 2 == 0 && a.p3.s0 % 2 == 0
  {
  }

  lemma HalvedParts(c: nat, a: Sharing)
    ensures Sum(HalveAll(Three(c, c, c), a)) == Halve(c, a.p1.s0, 1) + Halve(c, a.p2.s0, 0) + Halve(c, a.p3.s0, 0)
    ensures Sum(a) == a.p1.s0 + a.p2.s0 + a.p3.s0
  {
    hide Halve;
  }

  lemma HalvedOne(c: nat, a: Sharing, k: nat)
    requires k + 2 <= W && c % 2 == 1 && OddSecret(a) && Cong(c * Sum(a), 1, k + 1)
    ensures Cong(Sum(HalveAll(Three(c, c, c), a)), 1, k)
  {
    hide *;
    var h := Sum(HalveAll(Three(c, c, c), a));
    HalvedSum(c, a, k);
    CongRefl(1, k + 1);
    CongAdd(c * Sum(a), 1, 1, 1, k + 1);
    CongTrans(h * 2, c * Sum(a) + 1, 1 * 2, k + 1);
    HalfCong(h, 1, k);
  }

  lemma HalvedZero(c: nat, a: Sharing, k: nat)
    requires k + 2 <= W && c % 2 == 1 && OddSecret(a) && Cong(c * Sum(a), -1, k + 1)
    ensures Cong(Sum(HalveAll(Three(c, c, c), a)), 0, k)
  {
    hide *;
    var h := Sum(HalveAll(Three(c, c, c), a));
    HalvedSum(c, a, k);
    CongRefl(1, k + 1);
    CongAdd(c * Sum(a), -1, 1, 1, k + 1);
    CongTrans(h * 2, c * Sum(a) + 1, 0 * 2, k + 1);
    HalfCong(h, 0, k);
  }

  /** When c times the secret is 1 or -1, the halves share a bit. */
  lemma UnitHalves(c: nat, a: Sharing, k: nat)
    requires 1 <= k && k + 2 <= W && Agreed(a, k + 2) && OddSecret(a)
    requires c % 2 == 1 && (Cong(c * Sum(a), 1, k + 1) || Cong(c * Sum(a), -1, k + 1))
    ensures SharedBit(HalveAll(Three(c, c, c), a), k)
  {
    hide Cong, Halve, Sum;
    HalveAgrees(c, a.p1.s1, a.p2.s0, 0, k);
    HalveAgrees(c, a.p2.s1, a.p3.s0, 0, k);
    HalveAgrees(c, a.p3.s1, a.p1.s0, 1, k);
    if Cong(c * Sum(a), 1, k + 1) {
      HalvedOne(c, a, k);
    } else {
      HalvedZero(c, a, k);
    }
  }

  lemma OddSum(a: Sharing)
    requires OddSecret(a)
    ensures Sum(a) % 2 == 1
  {
  }

  // ---------- which bit ----------

  /** The odd secret made from the words drawn for element i: twice their sum, plus one. */
  ghost function OddNumber(g: Three<Gen>, n: nat, k: nat, i: nat): nat {
    var r := Drawn(g, n, k + 2, i);
    1 + 2 * (r.p1 + r.p2 + r.p3)
  }

  /** The bit belongs to the odd secret s: s over the root of its square is 2 * bit - 1, one or minus one. */
  ghost predicate BitOf(bit: nat, s: nat, k: nat)
    requires k >= 1
  {
    bit < 2 && Cong(2 * bit - 1, s * InverseRoot(s * s % Pow2(k + 2), k + 2), k + 1)
  }

  /** Every odd secret has exactly one bit, ... */
  lemma OneBit(s: nat, k: nat, bit: nat, bit': nat)
    requires 1 <= k && BitOf(bit, s, k) && BitOf(bit', s, k)
    ensures bit == bit'
  {
    hide InverseRoot;
    var c := s * InverseRoot(s * s % Pow2(k + 2), k + 2);
    CongSym(2 * bit' - 1, c, k + 1);
    CongTrans(2 * bit - 1, c, 2 * bit' - 1, k + 1);
    OddSigns(k);
  }

  lemma OddSigns(k: nat)
    requires k >= 1
    ensures !Cong(1, -1, k + 1) && !Cong(-1, 1, k + 1)
  {
    assert Pow2(k + 1) == 4 * Pow2(k - 1);
    ModSmall(1, k + 1);
    DivModUnique(-1, Pow2(k + 1), -1, Pow2(k + 1) - 1);
  }

  /** ... and s and -s, whose squares are the same, have opposite bits. */
  lemma OppositeBits(s: nat, s': nat, k: nat, bit: nat, bit': nat)
    requires 1 <= k && Cong(s', -1 * s, k + 2) && BitOf(bit, s, k) && BitOf(bit', s', k)
    ensures bit + bit' == 1
  {
    hide InverseRoot, Cong;
    SameSquare(s, s', k + 2);
    var c := InverseRoot(s * s % Pow2(k + 2), k + 2);
    CongWeaken(s', -1 * s, k + 2, k + 1);
    CongRefl(c, k + 1);
    CongMul(s', -1 * s, c, c, k + 1);
    CongTrans(2 * bit' - 1, s' * c, -1 * s * c, k + 1);
    CongAdd(2 * bit - 1, s * c, 2 * bit' - 1, -1 * s * c, k + 1);
    assert s * c + -1 * s * c == 0;
    NotTwice(bit, bit', k);
  }

  lemma SameSquare(s: int, s': int, k: nat)
    requires Cong(s', -1 * s, k)
    ensures s * s % Pow2(k) == s' * s' % Pow2(k)
  {
    hide Cong;
    CongMul(s', -1 * s, s', -1 * s, k);
    assert (-1 * s) * (-1 * s) == s * s;
    SameMod(s' * s', s * s, k);
  }

  lemma NotTwice(bit: nat, bit': nat, k: nat)
    requires k >= 1 && bit < 2 && bit' < 2 && Cong(2 * bit - 1 + (2 * bit' - 1), 0, k + 1)
    ensures bit + bit' == 1
  {
    assert Pow2(k + 1) == 4 * Pow2(k - 1);
    ModSmall(0, k + 1);
    ModSmall(2, k + 1);
    DivModUnique(-2, Pow2(k + 1), -1, Pow2(k + 1) - 2);
  }

  /** Secrets that agree in the ring have the same bit. */
  lemma BitOfCong(bit: nat, s: nat, s': nat, k: nat)
    requires k >= 1 && BitOf(bit, s, k) && Cong(s, s', k + 2)
    ensures BitOf(bit, s', k)
  {
    hide InverseRoot, Cong;
    CongMul(s, s', s, s', k + 2);
    SameMod(s * s, s' * s', k + 2);
    var c := InverseRoot(s * s % Pow2(k + 2), k + 2);
    CongWeaken(s, s', k + 2, k + 1);
    CongRefl(c, k + 1);
    CongMul(s, s', c, c, k + 1);
    CongTrans(2 * bit - 1, s * c, s' * c, k + 1);
  }

  ghost predicate MadeFrom(a: Sharing, r: Public, k: nat) {
    Cong(Sum(a), 1 + 2 * (r.p1 + r.p2 + r.p3), k)
  }

  /** The made secret is the drawn one. */
  lemma MadeSecret(u0: Public, u1: Public, r: Public, k: nat)
    requires k <= W && Loaded(u0, r, k)
    ensures MadeFrom(MakeOdd(u0, u1), r, k)
  {
    hide Cong, Wrap;
    MadeWord(u0.p1, r.p1, 1, k);
    MadeWord(u0.p2, r.p2, 0, k);
    MadeWord(u0.p3, r.p3, 0, k);
    var x := MakeOdd(u0, u1);
    Add3(x.p1.s0, x.p2.s0, x.p3.s0, r.p1 * 2 + 1, r.p2 * 2 + 0, r.p3 * 2 + 0, k);
  }

  lemma MadeWord(u: nat, r: nat, ai: nat, k: nat)
    requires k <= W && Cong(u, r, k)
    ensures Cong(Wrap(u * 2 + ai), r * 2 + ai, k)
  {
    hide Cong, Wrap;
    WrapCong(u * 2 + ai, k);
    CongAdd(u, r, u, r, k);
    CongRefl(ai, k);
    CongAdd(u * 2, r * 2, ai, ai, k);
    CongTrans(Wrap(u * 2 + ai), u * 2 + ai, r * 2 + ai, k);
  }

  /** What the halves share is the bit of the secret. */
  lemma HalvesShareBit(c: nat, a: Sharing, k: nat)
    requires 1 <= k && k + 2 <= W && OddSecret(a) && c == InverseRoot(Sum(a) * Sum(a) % Pow2(k + 2), k + 2)
    requires SharedBit(HalveAll(Three(c, c, c), a), k) && c % 2 == 1
    requires Cong(c * Sum(a), 1, k + 1) || Cong(c * Sum(a), -1, k + 1)
    ensures BitOf(Value(HalveAll(Three(c, c, c), a), k), Sum(a), k)
  {
    var x := HalveAll(Three(c, c, c), a);
    SignedHalves(c, a, k);
    SharedValue(x, k);
    hide Cong, InverseRoot, Sum, HalveAll, Value;
    assert Sum(a) * c == c * Sum(a);
    if Value(x, k) == 1 {
      CongSym(c * Sum(a), 1, k + 1);
    } else {
      CongSym(c * Sum(a), -1, k + 1);
    }
  }

  lemma SharedValue(x: Sharing, k: nat)
    requires k >= 1 && SharedBit(x, k)
    ensures Value(x, k) < 2 && (Value(x, k) == 1 <==> Cong(Sum(x), 1, k)) && (Value(x, k) == 0 <==> Cong(Sum(x), 0, k))
  {
    ModSmall(0, k);
    ModSmall(1, k);
  }

  lemma SignedHalves(c: nat, a: Sharing, k: nat)
    requires 1 <= k && k + 2 <= W && OddSecret(a) && c % 2 == 1
    requires Cong(c * Sum(a), 1, k + 1) || Cong(c * Sum(a), -1, k + 1)
    ensures
      var h := HalveAll(Three(c, c, c), a);
      (Cong(Sum(h), 1, k) ==> Cong(c * Sum(a), 1, k + 1)) && (Cong(Sum(h), 0, k) ==> Cong(c * Sum(a), -1, k + 1))
  {
    var h := HalveAll(Three(c, c, c), a);
    OneIsNotZero(k);
    hide Cong, Halve, Sum, HalveAll;
    if Cong(c * Sum(a), 1, k + 1) {
      HalvedOne(c, a, k);
      if Cong(Sum(h), 0, k) {
        CongSym(Sum(h), 1, k);
        CongTrans(1, Sum(h), 0, k);
      }
    } else {
      HalvedZero(c, a, k);
      if Cong(Sum(h), 1, k) {
        CongSym(Sum(h), 1, k);
        CongTrans(1, Sum(h), 0, k);
      }
    }
  }

  lemma OneIsNotZero(k: nat)
    requires k >= 1
    ensures !Cong(1, 0, k)
  {
    ModSmall(0, k);
    ModSmall(1, k);
  }

  lemma RandBitElement(a: Sharing, s: nat, e: nat, s': nat, k: nat)
    requires 1 <= k && k + 2 <= W && Agreed(a, k + 2) && OddSecret(a) && Cong(s, s', k + 2)
    requires s == Sum(a) && e == s * s % Pow2(k + 2)
    ensures
      var c := InverseRoot(e, k + 2);
      var x := HalveAll(Three(c, c, c), a);
      SharedBit(x, k) && BitOf(Value(x, k), s', k)
  {
    OddSum(a);
    hide *;
    var c := InverseRoot(e, k + 2);
    InverseTimesSecret(s, e, k + 2);
    UnitHalves(c, a, k);
    HalvesShareBit(c, a, k);
    BitOfCong(Value(HalveAll(Three(c, c, c), a), k), s, s', k);
  }

  // ---------- the protocol ----------

  /**
   `Rss_RandBit`: every element of b becomes a sharing of a bit, whatever the generators hold: the bit of the
   odd secret that the drawn words make.
   */
  method RandBit(b: array<Sharing>, k: nat, net: Net)
    requires InStep(net) && 1 <= k && k + 2 <= W && 1 <= b.Length
    modifies b, net.p1, net.p2, net.p3
    ensures InStep(net) && Private(net) == old(Private(net))
    ensures Slots(net, 0) == Advanced(Advanced(old(Slots(net, 0)), RequestSize(b.Length, k + 2)), RequestSize(b.Length, k + 2))
    ensures Slots(net, 1) == Advanced(Advanced(old(Slots(net, 1)), RequestSize(b.Length, k + 2)), RequestSize(b.Length, k + 2))
    ensures forall i :: 0 <= i < b.Length ==> SharedBit(b[i], k)
    ensures forall i :: 0 <= i < b.Length ==> BitOf(Value(b[i], k), OddNumber(old(Slots(net, 0)), b.Length, k, i), k)
  {
    InStepIsValid(net);
    hide *;
    ghost var n, g0 := b.Length, Slots(net, 0);
    var a := OddSecrets(b.Length, k + 2, net);
    var e := new Public[b.Length];
    InStepIsValid(net);
    MultPub(e, a, a, k + 2, net);
    InStepIsValid(net);
    HalveEach(b, a, e, k, g0);
  }

  /** The inverse roots and the halves, element by element. */
  method HalveEach(b: array<Sharing>, a: array<Sharing>, e: array<Public>, k: nat, ghost g: Three<Gen>)
    requires 1 <= k && k + 2 <= W && b.Length == a.Length == e.Length && a != b
    requires forall i :: 0 <= i < a.Length ==>
      && Agreed(a[i], k + 2) && OddSecret(a[i]) && MadeFrom(a[i], Drawn(g, a.Length, k + 2, i), k + 2)
      && Known(e[i], Sum(a[i]) * Sum(a[i]) % Pow2(k + 2))
    modifies b
    ensures forall i :: 0 <= i < b.Length ==> SharedBit(b[i], k) && BitOf(Value(b[i], k), OddNumber(g, b.Length, k, i), k)
  {
    hide *;
    ghost var n := b.Length;
    for i := 0 to b.Length
      invariant forall j :: 0 <= j < i ==> SharedBit(b[j], k) && BitOf(Value(b[j], k), OddNumber(g, n, k, j), k)
      modifies b
    {
      ghost var s := Sum(a[i]);
      ghost var square := s * s % Pow2(k + 2);
      assert Known(e[i], square) && Agreed(a[i], k + 2) && OddSecret(a[i]);
      assert MadeFrom(a[i], Drawn(g, n, k + 2, i), k + 2);
      MadeIsOdd(a[i], g, n, k, i);
      var c := SqrtInvAll(e[i], square, k + 2);
      RandBitElement(a[i], s, square, OddNumber(g, n, k, i), k);
      KnownIs(c, InverseRoot(square, k + 2));
      b[i] := HalveAll(c, a[i]);
    }
  }

  lemma MadeIsOdd(a: Sharing, g: Three<Gen>, n: nat, k: nat, i: nat)
    requires MadeFrom(a, Drawn(g, n, k + 2, i), k + 2)
    ensures Cong(Sum(a), OddNumber(g, n, k, i), k + 2)
  {
  }

  lemma InStepIsValid(net: Net)
    requires InStep(net)
    ensures Valid(net)
  {
  }

  lemma KnownIs(x: Public, v: nat)
    requires Known(x, v)
    ensures x == Three(v, v, v)
  {
  }

  /** `rss_sqrt_inv` at the three parties. */
  method SqrtInvAll(e: Public, ghost v: nat, k: nat) returns (c: Public)
    requires 3 <= k <= W && Known(e, v)
    ensures Known(c, InverseRoot(v, k))
  {
    var c1 := SqrtInvWord(e.p1, k);
    var c2 := SqrtInvWord(e.p2, k);
    var c3 := SqrtInvWord(e.p3, k);
    c := Three(c1, c2, c3);
  }

  /** Draws u from both shared slots and makes the secret odd. */
  method OddSecrets(n: nat, k: nat, net: Net) returns (a: array<Sharing>)
    requires InStep(net) && 1 <= k <= W && 1 <= n
    modifies net.p1, net.p2, net.p3
    ensures InStep(net) && Private(net) == old(Private(net))
    ensures Slots(net, 0) == Advanced(old(Slots(net, 0)), RequestSize(n, k))
    ensures Slots(net, 1) == Advanced(old(Slots(net, 1)), RequestSize(n, k))
    ensures fresh(a) && a.Length == n
    ensures forall i :: 0 <= i < n ==> Agreed(a[i], k) && OddSecret(a[i]) && MadeFrom(a[i], Drawn(old(Slots(net, 0)), n, k, i), k)
  {
    InStepIsValid(net);
    hide *;
    ghost var g0 := Slots(net, 0);
    var u0 := new Public[n];
    var u1 := new Public[n];
    DrawBoth(u0, u1, k, net);
    a := MakeAllOdd(u0, u1, k, g0);
    InStepIsValid(net);
  }

  method MakeAllOdd(u0: array<Public>, u1: array<Public>, k: nat, ghost g: Three<Gen>) returns (a: array<Sharing>)
    requires k <= W && u0.Length == u1.Length
    requires forall i :: 0 <= i < u0.Length ==> Agreed(Zip(u0[i], u1[i]), k) && Loaded(u0[i], Drawn(g, u0.Length, k, i), k)
    ensures fresh(a) && a.Length == u0.Length
    ensures forall i :: 0 <= i < a.Length ==> Agreed(a[i], k) && OddSecret(a[i]) && MadeFrom(a[i], Drawn(g, a.Length, k, i), k)
  {
    hide *;
    var n := u0.Length;
    a := new Sharing[n];
    for i := 0 to n
      invariant forall j :: 0 <= j < i ==> Agreed(a[j], k) && OddSecret(a[j]) && MadeFrom(a[j], Drawn(g, n, k, j), k)
      modifies a
    {
      assert Agreed(Zip(u0[i], u1[i]), k) && Loaded(u0[i], Drawn(g, n, k, i), k);
      MakeOddElement(u0[i], u1[i], k);
      MadeSecret(u0[i], u1[i], Drawn(g, n, k, i), k);
      a[i] := MakeOdd(u0[i], u1[i]);
    }
  }
}
