/**
 The 2-adic square root and its inverse (`rss_sqrt_inv`).

 The loop lifts both together, one bit per round: when it has seen the bits below j, c1 squares to e
 in Z_{2^{j+1}} and c2 inverts c1 in Z_{2^j}.
 */
module SqrtInv {
  import opened Ring
  import opened Words

  datatype Root = Root(c1: nat, c2: nat)

  /** Takes bit j+1 of the error `temp` as bit j of the root; d == 2^j. */
  function AddRootBit(c1: nat, temp: nat, d: nat): nat {
    if temp != 0 then Wrap(c1 + And(temp, Wrap(d * 2)) / 2) else c1
  }

  /** Takes bit j of the error `temp` as bit j of the inverse. */
  function AddInverseBit(c2: nat, temp: nat, d: nat): nat {
    Wrap(c2 + And(temp, d))
  }

  /** The inverse half of round j, which runs once more after the loop. */
  function LiftInverse(c1: nat, c2: nat, d: nat): nat {
    AddInverseBit(c2, Wrap(1 - c1 * c2), d)
  }

  /** One round with mask d == 2^j. */
  function Lift(e: nat, r: Root, d: nat): Root {
    var c1 := AddRootBit(r.c1, Wrap(e - r.c1 * r.c1), d);
    Root(c1, LiftInverse(c1, r.c2, d))
  }

  /** The registers after rounds 2 .. j-1. */
  function Rounds(e: nat, j: nat): Root
    requires j >= 2
  {
    if j == 2 then Root(1, 1) else Lift(e, Rounds(e, j - 1), Pow2(j - 1))
  }

  /** The word rss_sqrt_inv computes for e in the ring of size k. */
  function InverseRoot(e: nat, k: nat): nat
    requires k >= 3
  {
    var r := Rounds(e, k - 1);
    LiftInverse(r.c1, r.c2, Pow2(k - 1))
  }

  /** The loop invariant, as a property of the registers. */
  ghost predicate Lifted(e: nat, r: Root, j: nat) {
    && Cong(r.c1 * r.c1, e, j + 1)
    && Cong(r.c1 * r.c2, 1, j)
    && r.c1 % 2 == 1
  }

  // ---------- one bit at a time ----------

  /** A word that vanishes mod 2^j is its own bit j, one bit further up. */
  lemma NextBit(x: int, j: nat) returns (b: nat, q: int)
    requires Cong(x, 0, j) && j < W
    ensures b == GetBit(Wrap(x), j) && b * b == b
    ensures x == b * Pow2(j) + q * Pow2(j + 1)
  {
    hide Cong, Bit, Pow2, Wrap;
    var t := Wrap(x);
    b := GetBit(t, j);
    WrapCong(x, j);
    CongTrans(t, x, 0, j);
    LowResidue(t, j);
    WrapCong(x, j + 1);
    CongTrans(b * Pow2(j), t, x, j + 1);
    CongSym(b * Pow2(j), x, j + 1);
    q := CongElim(x, b * Pow2(j), j + 1);
  }

  /** Below bit j there is nothing: mod 2^{j+1} the word is its bit j in place. */
  lemma LowResidue(t: nat, j: nat)
    requires Cong(t, 0, j)
    ensures Cong(GetBit(t, j) * Pow2(j), t, j + 1)
  {
    hide Cong, Bit;
    ModSmall(0, j);
    ResidueZero(t, j);
    ModSplit(t, j);
    CongMod(t, j + 1);
  }

  lemma ResidueZero(t: nat, j: nat)
    requires Cong(t, 0, j)
    ensures t % Pow2(j) == 0
  {
  }

  /** If c1 squares to e up to bit j, adding bit j squares to e up to bit j+1. */
  lemma SquareStep(e: int, c: int, j: nat, b: nat, q: int)
    requires j >= 2 && c % 2 == 1 && b * b == b
    requires e - c * c == b * Pow2(j + 1) + q * Pow2(j + 2)
    ensures Cong((c + b * Pow2(j)) * (c + b * Pow2(j)), e, j + 2)
  {
    var h := c / 2;
    assert Pow2(j) == 4 * Pow2(j - 2) && Pow2(j + 1) == 2 * Pow2(j) && Pow2(j + 2) == 4 * Pow2(j);
    hide *;
    SquareIs(e, c, Pow2(j), b, q, h, Pow2(j - 2));
    CongIntro((c + b * Pow2(j)) * (c + b * Pow2(j)), e, j + 2, b * h + b * Pow2(j - 2) - q);
  }

  /** The square of c + b*p, when p is a multiple of four and b a bit. */
  lemma SquareIs(e: int, c: int, p: int, b: nat, q: int, h: int, t: int)
    requires c == 2 * h + 1 && p == 4 * t && b * b == b && e - c * c == b * (2 * p) + q * (4 * p)
    ensures (c + b * p) * (c + b * p) == e + (b * h + b * t - q) * (4 * p)
  {
  }

  lemma InverseIdentity(c2: int, h: int, b: int, q: int, p: int)
    requires 1 - (2 * h + 1) * c2 == b * p + q * (2 * p)
    ensures (2 * h + 1) * (c2 + b * p) == 1 + (b * h - q) * (2 * p)
  {
    assert (2 * h + 1) * (c2 + b * p) == (2 * h + 1) * c2 + (2 * h + 1) * (b * p);
    assert (2 * h + 1) * (b * p) == 2 * (h * (b * p)) + b * p;
    assert (b * h - q) * (2 * p) == 2 * (h * (b * p)) - q * (2 * p);
  }

  /** If c2 inverts c up to bit j-1, adding bit j inverts up to bit j. */
  lemma InverseStep(c: int, c2: int, j: nat, b: nat, q: int)
    requires c % 2 == 1
    requires 1 - c * c2 == b * Pow2(j) + q * Pow2(j + 1)
    ensures Cong(c * (c2 + b * Pow2(j)), 1, j + 1)
  {
    hide Cong;
    var P, h := Pow2(j), c / 2;
    InverseIdentity(c2, h, b, q, P);
    CongIntro(c * (c2 + b * P), 1, j + 1, b * h - q);
  }

  /** The word the root half of a round computes, up to the word width. */
  lemma AddRootBitCong(c1: nat, temp: nat, j: nat)
    requires j + 1 < W
    ensures Cong(AddRootBit(c1, temp, Pow2(j)), c1 + GetBit(temp, j + 1) * Pow2(j), W)
  {
    hide Cong;
    DoubleMask(j);
    AndPow2(temp, j + 1);
    BitZero(j + 1);
    HalfMask(GetBit(temp, j + 1), j);
    var s := c1 + GetBit(temp, j + 1) * Pow2(j);
    WrapCong(s, W);
    CongRefl(s, W);
  }

  lemma AddInverseBitCong(c2: nat, temp: nat, j: nat)
    ensures Cong(AddInverseBit(c2, temp, Pow2(j)), c2 + GetBit(temp, j) * Pow2(j), W)
  {
    hide Cong;
    AndPow2(temp, j);
    WrapCong(c2 + GetBit(temp, j) * Pow2(j), W);
  }

  lemma HalfMask(b: nat, j: nat)
    ensures b * Pow2(j + 1) / 2 == b * Pow2(j)
  {
  }

  lemma ZeroDifference(x: int, y: int, k: nat)
    requires Cong(x, y, k)
    ensures Cong(y - x, 0, k)
  {
    var q := CongElim(x, y, k);
    CongIntro(y - x, 0, k, -q);
  }

  /** Adding the next bit of the error makes the square right one bit further up. */
  lemma NextRoot(e: int, c: nat, j: nat)
    requires 2 <= j && j + 1 < W && c % 2 == 1 && Cong(c * c, e, j + 1)
    ensures var s := c + GetBit(Wrap(e - c * c), j + 1) * Pow2(j);
      Cong(s * s, e, j + 2) && Cong(s, c, j)
  {
    hide *;
    ZeroDifference(c * c, e, j + 1);
    var b, q := NextBit(e - c * c, j + 1);
    SquareStep(e, c, j, b, q);
    CongIntro(c + b * Pow2(j), c, j, b);
  }

  lemma LiftRootIs(e: nat, r: Root, j: nat)
    requires Lifted(e, r, j)
    ensures Lift(e, r, Pow2(j)).c1 == AddRootBit(r.c1, Wrap(e - r.c1 * r.c1), Pow2(j))
    ensures r.c1 % 2 == 1 && Cong(r.c1 * r.c1, e, j + 1)
  {
    hide AddRootBit, Wrap, Pow2, Cong;
  }

  /** The root half of a round. */
  lemma LiftRoot(e: nat, r: Root, j: nat)
    requires 2 <= j && j + 1 < W && Lifted(e, r, j)
    ensures var c := Lift(e, r, Pow2(j)).c1;
      Cong(c * c, e, j + 2) && c % 2 == 1 && Cong(c, r.c1, j)
  {
    hide *;
    var c := Lift(e, r, Pow2(j)).c1;
    var x := Wrap(e - r.c1 * r.c1);
    LiftRootIs(e, r, j);
    AddRootBitCong(r.c1, x, j);
    NextRoot(e, r.c1, j);
    var s := r.c1 + GetBit(x, j + 1) * Pow2(j);
    CongWeaken(c, s, W, j + 2);
    SquareCong(c, s, e, j + 2);
    CongWeaken(c, s, j + 2, j);
    CongTrans(c, s, r.c1, j);
    CongWeaken(c, r.c1, j, 1);
    OddByCong(c, r.c1);
  }

  lemma SquareCong(x: int, y: int, e: int, k: nat)
    requires Cong(x, y, k) && Cong(y * y, e, k)
    ensures Cong(x * x, e, k)
  {
    CongMul(x, y, x, y, k);
  }

  lemma OddByCong(x: int, y: int)
    requires Cong(x, y, 1) && y % 2 == 1
    ensures x % 2 == 1
  {
  }

  /** The inverse half of a round. */
  lemma LiftInverseStep(c: nat, c2: nat, j: nat)
    requires j < W && c % 2 == 1 && Cong(c * c2, 1, j)
    ensures Cong(c * LiftInverse(c, c2, Pow2(j)), 1, j + 1)
  {
    var x := 1 - c * c2;
    var r := LiftInverse(c, c2, Pow2(j));
    AddInverseBitCong(c2, Wrap(x), j);
    assert r == AddInverseBit(c2, Wrap(x), Pow2(j));
    hide *;
    ZeroDifference(c * c2, 1, j);
    var b, q := NextBit(x, j);
    InverseStep(c, c2, j, b, q);
    var s := c2 + b * Pow2(j);
    CongWeaken(r, s, W, j + 1);
    CongRefl(c, j + 1);
    CongMul(c, c, r, s, j + 1);
    CongTrans(c * r, c * s, 1, j + 1);
  }

  /** One round lifts the invariant by one bit. */
  lemma LiftStep(e: nat, r: Root, j: nat)
    requires 2 <= j && j + 1 < W && Lifted(e, r, j)
    ensures Lifted(e, Lift(e, r, Pow2(j)), j + 1)
  {
    hide Cong;
    LiftRoot(e, r, j);
    var c := Lift(e, r, Pow2(j)).c1;
    CongRefl(r.c2, j);
    CongMul(c, r.c1, r.c2, r.c2, j);
    CongTrans(c * r.c2, r.c1 * r.c2, 1, j);
    LiftInverseStep(c, r.c2, j);
  }

  lemma {:induction false} RoundsLift(e: nat, j: nat)
    requires e % 8 == 1 && 2 <= j < W
    ensures Lifted(e, Rounds(e, j), j)
    decreases j
  {
    if j == 2 {
      assert Pow2(3) == 8 && Pow2(2) == 4;
    } else {
      RoundsLift(e, j - 1);
      LiftStep(e, Rounds(e, j - 1), j - 1);
    }
  }

  /** The result inverts a square root of e in the whole ring. */
  lemma InverseRootCorrect(e: nat, k: nat) returns (s: nat)
    requires e % 8 == 1 && 3 <= k <= W
    ensures Cong(s * s, e, k) && Cong(s * InverseRoot(e, k), 1, k)
    ensures Cong(InverseRoot(e, k) * InverseRoot(e, k) * e, 1, k)
    ensures InverseRoot(e, k) % 2 == 1
  {
    RoundsLift(e, k - 1);
    var r := Rounds(e, k - 1);
    s := r.c1;
    var c := InverseRoot(e, k);
    assert c == LiftInverse(s, r.c2, Pow2(k - 1));
    assert Cong(s * s, e, k) && s % 2 == 1 && Cong(s * r.c2, 1, k - 1);
    hide *;
    LiftInverseStep(s, r.c2, k - 1);
    SquareOfInverse(s, c, e, k);
    CongWeaken(s * c, 1, k, 1);
    OddByCong(s * c, 1);
    OddFactor(s, c);
  }

  lemma SquareOfInverse(s: int, c: int, e: int, k: nat)
    requires Cong(s * s, e, k) && Cong(s * c, 1, k)
    ensures Cong(c * c * e, 1, k)
  {
    hide *;
    CongMul(s * c, 1, s * c, 1, k);
    assert (s * c) * (s * c) == (c * c) * (s * s);
    CongRefl(c * c, k);
    CongSym(s * s, e, k);
    CongMul(c * c, c * c, e, s * s, k);
    CongTrans(c * c * e, (c * c) * (s * s), 1, k);
  }

  lemma OddFactor(a: int, b: int)
    requires a * b % 2 == 1
    ensures b % 2 == 1
  {
    var h := b / 2;
    assert b == 2 * h + b % 2;
    assert a * (2 * h) == 2 * (a * h);
  }

  lemma RoundsStep(e: nat, j: nat)
    requires j >= 2
    ensures Rounds(e, 2) == Root(1, 1) && Pow2(2) == 4
    ensures Rounds(e, j + 1) == Lift(e, Rounds(e, j), Pow2(j))
  {
  }

  /** `rss_sqrt_inv` on one word, with the registers c1, c2 and the moving mask d_. */
  method SqrtInvWord(e: nat, k: nat) returns (c: nat)
    requires 3 <= k <= W
    ensures c == InverseRoot(e, k)
  {
    var c1: nat, c2: nat, d: nat := 1, 1, 4;
    RoundsStep(e, 2);
    for j := 2 to k - 1
      invariant Root(c1, c2) == Rounds(e, j)
      invariant d == Pow2(j)
    {
      hide *;
      RoundsStep(e, j);
      DoubleMask(j);
      c1, c2 := SqrtInvRound(e, c1, c2, d);
      d := Wrap(d * 2);
    }
    c := InverseRound(c1, c2, d);
  }

  method SqrtInvRound(e: nat, c1: nat, c2: nat, d: nat) returns (c1': nat, c2': nat)
    ensures Root(c1', c2') == Lift(e, Root(c1, c2), d)
  {
    hide And, Wrap;
    c1', c2' := c1, c2;
    var temp := Wrap(e - c1 * c1);
    if temp != 0 {
      c1' := Wrap(c1 + And(temp, Wrap(d * 2)) / 2);
    }
    c2' := InverseRound(c1', c2, d);
  }

  method InverseRound(c1: nat, c2: nat, d: nat) returns (c2': nat)
    ensures c2' == LiftInverse(c1, c2, d)
  {
    hide And, Wrap;
    var temp := Wrap(1 - c1 * c2);
    c2' := Wrap(c2 + And(temp, d));
  }

  lemma DoubleMask(j: nat)
    requires j + 1 < W
    ensures Wrap(Pow2(j) * 2) == Pow2(j + 1)
  {
    WrapPow2(j + 1);
  }

  // ---------- roots of one ----------

  /** An odd factor cancels in Z_{2^n}. */
  lemma {:induction false} OddCancel(u: int, h: int, n: nat)
    requires u % 2 == 1 && Cong(u * h, 0, n)
    ensures Cong(h, 0, n)
    decreases n
  {
    if n > 0 {
      hide *;
      HalfProduct(u, h, n);
      OddCancel(u, h / 2, n - 1);
      DoubleBack(h, n);
    }
  }

  lemma HalfProduct(u: int, h: int, n: nat)
    requires n > 0 && u % 2 == 1 && Cong(u * h, 0, n)
    ensures h % 2 == 0 && Cong(u * (h / 2), 0, n - 1)
  {
    var q := CongElim(u * h, 0, n);
    var p, g := Pow2(n - 1), h / 2;
    assert Pow2(n) == 2 * p;
    hide *;
    assert u * h == 2 * (q * p);
    EvenFactor(u, h);
    HalvedFactor(u, h, g, q * p);
    CongIntro(u * g, 0, n - 1, q);
  }

  lemma HalvedFactor(u: int, h: int, g: int, r: int)
    requires u * h == 2 * r && h == 2 * g
    ensures u * g == r
  {
    assert u * (2 * g) == 2 * (u * g);
  }

  lemma DoubleBack(h: int, n: nat)
    requires n > 0 && h % 2 == 0 && Cong(h / 2, 0, n - 1)
    ensures Cong(h, 0, n)
  {
    var t := CongElim(h / 2, 0, n - 1);
    assert Pow2(n) == 2 * Pow2(n - 1);
    hide *;
    assert h == t * (2 * Pow2(n - 1));
    CongIntro(h, 0, n, t);
  }

  lemma EvenFactor(u: int, h: int)
    requires u % 2 == 1 && u * h % 2 == 0
    ensures h % 2 == 0
  {
    var v := u / 2;
    assert u == 1 + 2 * v;
    Distribute(1, 2, v, h);
    EvenRest(v * h, h);
  }

  lemma EvenRest(w: int, h: int)
    requires (h + 2 * w) % 2 == 0
    ensures h % 2 == 0
  {
  }

  /** The square roots of 1 in Z_{2^k} are 1 and -1, up to the top bit. */
  lemma RootsOfOne(y: int, k: nat)
    requires k >= 3 && Cong(y * y, 1, k)
    ensures Cong(y, 1, k - 1) || Cong(y, -1, k - 1)
  {
    var h := y / 2;
    OddSquareRoot(y, k);
    HalfSquare(y, h, k);
    hide *;
    if h % 2 == 0 {
      OddCancel(h + 1, h, k - 2);
      DoubledRoot(y, h, 1, k);
    } else {
      OddCancel(h, h + 1, k - 2);
      DoubledRoot(y, h + 1, -1, k);
    }
  }

  lemma OddSquareRoot(y: int, k: nat)
    requires k >= 1 && Cong(y * y, 1, k)
    ensures y % 2 == 1
  {
    hide Cong;
    CongWeaken(y * y, 1, k, 1);
    OddByCong(y * y, 1);
    OddFactor(y, y);
  }

  /** h (h + 1), for y = 2h + 1. */
  lemma HalfSquare(y: int, h: int, k: nat)
    requires k >= 3 && y % 2 == 1 && h == y / 2 && Cong(y * y, 1, k)
    ensures Cong((h + 1) * h, 0, k - 2) && Cong(h * (h + 1), 0, k - 2) && (h % 2 == 0 || (h + 1) % 2 == 0) && (h % 2 == 0 ==> (h + 1) % 2 == 1) && (h % 2 != 0 ==> h % 2 == 1)
    ensures y == 2 * h + 1
  {
    hide Cong;
    var q := CongElim(y * y, 1, k);
    assert y == 2 * h + 1;
    OddSquare(y, h);
    assert Pow2(k) == 4 * Pow2(k - 2);
    Scale4(q, Pow2(k - 2));
    assert h * (h + 1) == q * Pow2(k - 2);
    CongIntro(h * (h + 1), 0, k - 2, q);
    assert (h + 1) * h == h * (h + 1);
  }

  lemma OddSquare(y: int, h: int)
    requires y == 2 * h + 1
    ensures y * y == 4 * (h * (h + 1)) + 1
  {
  }

  lemma Scale4(q: int, p: int)
    ensures q * (4 * p) == 4 * (q * p)
  {
  }

  lemma DoubledRoot(y: int, h: int, s: int, k: nat)
    requires k >= 3 && y == 2 * h + s && Cong(h, 0, k - 2)
    ensures Cong(y, s, k - 1)
  {
    hide Cong;
    var t := CongElim(h, 0, k - 2);
    assert Pow2(k - 1) == 2 * Pow2(k - 2);
    CongIntro(y, s, k - 1, t);
  }

  // ---------- which root ----------

  /** A bit put on top of a number keeps it below the next power. */
  lemma BitOnTop(x: nat, b: nat, j: nat)
    requires x < Pow2(j) && b < 2
    ensures x + b * Pow2(j) < Pow2(j + 1)
  {
  }

  lemma SmallSum(a: nat, x: nat, b: nat, j: nat)
    requires j < W && a < Pow2(W) && x < Pow2(j) && b < 2 && Cong(a, x + b * Pow2(j), W)
    ensures a == x + b * Pow2(j) && a < Pow2(j + 1)
  {
    hide *;
    BitOnTop(x, b, j);
    Pow2Mono(j + 1, W);
    CongUnique(a, x + b * Pow2(j), W);
  }

  lemma AddRootBitSmall(c1: nat, temp: nat, j: nat)
    requires 2 <= j && j + 1 < W && c1 < Pow2(j)
    ensures AddRootBit(c1, temp, Pow2(j)) == c1 + GetBit(temp, j + 1) * Pow2(j)
    ensures AddRootBit(c1, temp, Pow2(j)) < Pow2(j + 1)
  {
    hide *;
    AddRootBitCong(c1, temp, j);
    RootWord(c1, temp, Pow2(j));
    BitBelowTwo(temp, j + 1);
    Pow2Mono(j, W);
    SmallSum(AddRootBit(c1, temp, Pow2(j)), c1, GetBit(temp, j + 1), j);
  }

  lemma RootWord(c1: nat, temp: nat, d: nat)
    ensures AddRootBit(c1, temp, d) == c1 || AddRootBit(c1, temp, d) < Pow2(W)
  {
  }

  lemma BitBelowTwo(x: nat, j: nat)
    ensures GetBit(x, j) < 2
  {
  }

  lemma AddInverseBitSmall(c2: nat, temp: nat, j: nat)
    requires j < W && c2 < Pow2(j)
    ensures AddInverseBit(c2, temp, Pow2(j)) < Pow2(j + 1)
  {
    hide *;
    AddInverseBitCong(c2, temp, j);
    InverseWord(c2, temp, Pow2(j));
    BitBelowTwo(temp, j);
    SmallSum(AddInverseBit(c2, temp, Pow2(j)), c2, GetBit(temp, j), j);
  }

  lemma InverseWord(c2: nat, temp: nat, d: nat)
    ensures AddInverseBit(c2, temp, d) < Pow2(W)
  {
  }

  /** The registers stay below the bits they have not reached, and the root stays 1 mod 4. */
  lemma {:induction false} RoundsSmall(e: nat, j: nat)
    requires 2 <= j < W
    ensures Rounds(e, j).c1 < Pow2(j) && Rounds(e, j).c2 < Pow2(j) && Rounds(e, j).c1 % 4 == 1
    decreases j
  {
    if j == 2 {
      assert Pow2(2) == 4;
    } else {
      RoundsSmall(e, j - 1);
      LiftSmall(e, Rounds(e, j - 1), j - 1);
    }
  }

  lemma LiftSmall(e: nat, r: Root, j: nat)
    requires 2 <= j && j + 1 < W && r.c1 < Pow2(j) && r.c2 < Pow2(j) && r.c1 % 4 == 1
    ensures var s := Lift(e, r, Pow2(j)); s.c1 < Pow2(j + 1) && s.c2 < Pow2(j + 1) && s.c1 % 4 == 1
  {
    LiftParts(e, r, Pow2(j));
    hide *;
    var temp := Wrap(e - r.c1 * r.c1);
    AddRootBitSmall(r.c1, temp, j);
    var c1 := AddRootBit(r.c1, temp, Pow2(j));
    AddInverseBitSmall(r.c2, Wrap(1 - c1 * r.c2), j);
    FourDivides(GetBit(temp, j + 1), j);
    StaysOne(r.c1, GetBit(temp, j + 1) * Pow2(j));
  }

  lemma LiftParts(e: nat, r: Root, d: nat)
    ensures Lift(e, r, d).c1 == AddRootBit(r.c1, Wrap(e - r.c1 * r.c1), d)
    ensures Lift(e, r, d).c2 == AddInverseBit(r.c2, Wrap(1 - Lift(e, r, d).c1 * r.c2), d)
  {
    hide AddRootBit, AddInverseBit, Wrap;
  }

  lemma StaysOne(x: nat, y: nat)
    requires x % 4 == 1 && y % 4 == 0
    ensures (x + y) % 4 == 1
  {
  }

  lemma FourDivides(b: nat, j: nat)
    requires j >= 2
    ensures b * Pow2(j) % 4 == 0
  {
    assert Pow2(j) == 4 * Pow2(j - 2);
    assert b * (4 * Pow2(j - 2)) == 4 * (b * Pow2(j - 2));
  }

  /** The result is below 2^k, and inverts a root that is 1 mod 4 and below 2^(k-1). */
  lemma SmallRoot(e: nat, k: nat) returns (s: nat)
    requires e % 8 == 1 && 3 <= k <= W
    ensures s % 4 == 1 && s < Pow2(k - 1) && Cong(s * s, e, k)
    ensures InverseRoot(e, k) < Pow2(k) && Cong(s * InverseRoot(e, k), 1, k)
  {
    hide *;
    RoundsLift(e, k - 1);
    RoundsSmall(e, k - 1);
    s := Rounds(e, k - 1).c1;
    var c2 := Rounds(e, k - 1).c2;
    LastRound(e, k);
    LiftInverseStep(s, c2, k - 1);
    AddInverseBitSmall(c2, Wrap(1 - s * c2), k - 1);
  }

  /** There is only one such root, and only one such inverse of it: the result. */
  lemma InverseRootUnique(e: nat, k: nat, r: nat, c: nat)
    requires e % 8 == 1 && 3 <= k <= W
    requires r % 4 == 1 && r < Pow2(k - 1) && Cong(r * r, e, k)
    requires c < Pow2(k) && Cong(r * c, 1, k)
    ensures c == InverseRoot(e, k)
  {
    hide *;
    var s := SmallRoot(e, k);
    SameRoot(r, s, InverseRoot(e, k), e, k);
    SameInverse(s, c, InverseRoot(e, k), k);
    CongUnique(c, InverseRoot(e, k), k);
  }

  lemma LastRound(e: nat, k: nat)
    requires 3 <= k && Lifted(e, Rounds(e, k - 1), k - 1)
    ensures
      var s, c2 := Rounds(e, k - 1).c1, Rounds(e, k - 1).c2;
      && InverseRoot(e, k) == LiftInverse(s, c2, Pow2(k - 1)) == AddInverseBit(c2, Wrap(1 - s * c2), Pow2(k - 1))
      && Cong(s * s, e, k) && s % 2 == 1 && Cong(s * c2, 1, k - 1)
  {
    hide Rounds, AddInverseBit, Cong, Wrap;
  }

  lemma SameRoot(r: nat, s: nat, d: nat, e: nat, k: nat)
    requires k >= 3 && r % 4 == 1 && s % 4 == 1 && r < Pow2(k - 1) && s < Pow2(k - 1)
    requires Cong(r * r, e, k) && Cong(s * s, e, k) && Cong(s * d, 1, k)
    ensures r == s
  {
    hide *;
    SquareOfInverse(s, d, e, k);
    CongRefl(d * d, k);
    CongMul(d * d, d * d, r * r, e, k);
    assert (d * r) * (d * r) == (d * d) * (r * r);
    CongTrans((d * r) * (d * r), (d * d) * e, 1, k);
    RootsOfOne(d * r, k);
    CongWeaken(s * d, 1, k, k - 1);
    CongRefl(r, k - 1);
    CongMul(s * d, 1, r, r, k - 1);
    CongRefl(s, k - 1);
    assert s * (d * r) == s * d * r;
    CongSym(s * d * r, r, k - 1);
    if Cong(d * r, 1, k - 1) {
      CongMul(s, s, d * r, 1, k - 1);
      CongTrans(r, s * d * r, s, k - 1);
      CongUnique(r, s, k - 1);
    } else {
      CongMul(s, s, d * r, -1, k - 1);
      CongTrans(r, s * d * r, s * -1, k - 1);
      CongWeaken(r, s * -1, k - 1, 2);
      NotNegative(r, s);
    }
  }

  lemma NotNegative(r: nat, s: nat)
    requires r % 4 == 1 && s % 4 == 1
    ensures !Cong(r, s * -1, 2)
  {
    assert Pow2(2) == 4;
  }

  lemma SameInverse(s: nat, c: nat, d: nat, k: nat)
    requires Cong(s * c, 1, k) && Cong(s * d, 1, k)
    ensures Cong(c, d, k)
  {
    hide *;
    CongRefl(c, k);
    CongRefl(d, k);
    CongMul(s * d, 1, c, c, k);
    CongMul(s * c, 1, d, d, k);
    assert s * d * c == s * c * d;
    CongSym(s * d * c, c, k);
    CongTrans(c, s * d * c, d, k);
  }
}
