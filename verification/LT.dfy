/**
 Choosing the larger or the smaller of two shared numbers by the sign of their difference.
 */
module LT {
  import opened Ring
  import opened Words
  import opened Sharings
  import opened Cluster
  import opened Multiplication
  import opened Linear
  import opened MSB
  import BitLT

  // ---------- signed numbers ----------

  /** The two's complement reading of a ring element. */
  function Signed(x: nat, k: nat): int
    requires k >= 1
  {
    if x < Pow2(k - 1) then x else x - Pow2(k)
  }

  /** The bit the protocols test: the top bit of a - b. */
  function Less(a: nat, b: nat, k: nat): nat
    requires k >= 1
  {
    var d := (a - b) % Pow2(k);
    GetBit(d, k - 1)
  }

  /** new_Rss_LT's result. */
  function PickLarger(a: nat, b: nat, k: nat): nat
    requires k >= 1
  {
    if Less(a, b, k) == 1 then b else a
  }

  /** fixed_Rss_GT's result. */
  function PickSmaller(a: nat, b: nat, k: nat): nat
    requires k >= 1
  {
    if Less(a, b, k) == 1 then a else b
  }

  /** The signed difference fits the ring. */
  predicate Comparable(a: nat, b: nat, k: nat)
    requires k >= 1
  {
    0 <= Signed(a, k) - Signed(b, k) + Pow2(k - 1) < Pow2(k)
  }

  lemma TopBit(d: nat, k: nat)
    requires k >= 1 && d < Pow2(k)
    ensures GetBit(d, k - 1) == 1 <==> d >= Pow2(k - 1)
  {
    hide Bit;
    ModSmall(d, k);
    ModSplit(d, k - 1);
    CongMod(d, k - 1);
  }

  /** The tested bit is the sign of the signed difference exactly when that difference fits. */
  lemma LessIsSign(a: nat, b: nat, k: nat)
    requires k >= 1 && a < Pow2(k) && b < Pow2(k)
    ensures Comparable(a, b, k) <==> (Less(a, b, k) == 1 <==> Signed(a, k) < Signed(b, k))
  {
    var p, h := Pow2(k), Pow2(k - 1);
    var d := (a - b) % p;
    if a >= b {
      DivModUnique(a - b, p, 0, a - b);
    } else {
      DivModUnique(a - b, p, -1, a - b + p);
    }
    TopBit(d, k);
  }

  lemma SignedDiffers(a: nat, b: nat, k: nat)
    requires k >= 1 && a < Pow2(k) && b < Pow2(k)
    ensures Signed(a, k) == Signed(b, k) <==> a == b
  {
  }

  /** The larger of the two signed numbers is picked exactly when their difference fits the ring. */
  lemma PickLargerIsMaximum(a: nat, b: nat, k: nat)
    requires k >= 1 && a < Pow2(k) && b < Pow2(k)
    ensures Comparable(a, b, k) <==>
      Signed(PickLarger(a, b, k), k) >= Signed(a, k) && Signed(PickLarger(a, b, k), k) >= Signed(b, k)
  {
    hide Less;
    LessIsSign(a, b, k);
    LessIsBit(a, b, k);
    SignedDiffers(a, b, k);
  }

  lemma PickSmallerIsMinimum(a: nat, b: nat, k: nat)
    requires k >= 1 && a < Pow2(k) && b < Pow2(k)
    ensures Comparable(a, b, k) <==>
      Signed(PickSmaller(a, b, k), k) <= Signed(a, k) && Signed(PickSmaller(a, b, k), k) <= Signed(b, k)
  {
    hide Less;
    LessIsSign(a, b, k);
    LessIsBit(a, b, k);
    SignedDiffers(a, b, k);
  }

  lemma LessIsBit(a: nat, b: nat, k: nat)
    requires k >= 1
    ensures Less(a, b, k) < 2
  {
  }

  // ---------- one element ----------

  /** The choice made by the multiplication: a + bit * (b - a). */
  lemma ChoiceElement(c: Sharing, diff: Sharing, d: Sharing, a: Sharing, x: nat, y: nat, bit: nat, k: nat)
    requires k <= W && bit < 2 && Additive(c, bit, k) && Additive(diff, y - x, k) && Additive(a, x, k)
    requires Additive(d, Sum(c) * Sum(diff), k)
    ensures Additive(Add(d, a), if bit == 1 then y else x, k)
  {
    ProductOfValues(c, bit, diff, y - x, k);
    hide *;
    AdditiveAs(d, Sum(c) * Sum(diff), bit * (y - x), k);
    AddAdditive(d, bit * (y - x), a, x, k);
    BitTimes(bit, y - x);
  }

  lemma ProductOfValues(c: Sharing, v: int, d: Sharing, w: int, k: nat)
    requires Additive(c, v, k) && Additive(d, w, k)
    ensures Cong(Sum(c) * Sum(d), v * w, k)
  {
    hide Cong, Sum, Agreed;
    CongMul(Sum(c), v, Sum(d), w, k);
  }

  lemma BitTimes(bit: nat, d: int)
    requires bit < 2
    ensures bit * d == if bit == 1 then d else 0
  {
  }

  /** Differences of two vectors. */
  method Subtract(a: array<Sharing>, b: array<Sharing>, k: nat) returns (diff: array<Sharing>)
    requires k <= W && a.Length == b.Length
    requires forall i :: 0 <= i < a.Length ==> Agreed(a[i], k) && Agreed(b[i], k)
    ensures fresh(diff) && diff.Length == a.Length
    ensures forall i :: 0 <= i < a.Length ==> Additive(diff[i], Value(a[i], k) - Value(b[i], k), k)
  {
    hide *;
    diff := new Sharing[a.Length];
    for i := 0 to a.Length
      invariant forall m :: 0 <= m < i ==> Additive(diff[m], Value(a[m], k) - Value(b[m], k), k)
      modifies diff
    {
      AdditiveValue(a[i], k);
      AdditiveValue(b[i], k);
      SubAdditive(a[i], Value(a[i], k), b[i], Value(b[i], k), k);
      diff[i] := Sub(a[i], b[i]);
    }
  }

  /** The shared bits MSB(a - b). */
  method CompareBits(a: array<Sharing>, b: array<Sharing>, k: nat, net: Net) returns (c: array<Sharing>)
    requires InStep(net) && 1 <= k <= net.p1.ring && k <= W && 1 <= a.Length == b.Length
    requires forall i :: 0 <= i < a.Length ==> Agreed(a[i], k) && Agreed(b[i], k)
    modifies net.p1, net.p2, net.p3
    ensures InStep(net)
    ensures fresh(c) && c.Length == a.Length
    ensures forall i :: 0 <= i < a.Length ==> Additive(c[i], Less(Value(a[i], k), Value(b[i], k), k), k)
    ensures forall i :: 0 <= i < a.Length ==> Agreed(c[i], k)
  {
    hide *;
    var diff := Subtract(a, b, k);
    c := new Sharing[a.Length];
    forall i | 0 <= i < a.Length
      ensures Agreed(diff[i], k) && GetBit(Value(diff[i], k), k - 1) == Less(Value(a[i], k), Value(b[i], k), k)
    {
      AdditiveMeans(diff[i], Value(a[i], k) - Value(b[i], k), k);
      LessIs(Value(a[i], k), Value(b[i], k), Value(diff[i], k), k);
    }
    NewMSB(c, diff, k, net);
    forall i | 0 <= i < a.Length ensures Agreed(c[i], k) {
      AdditiveMeans(c[i], Less(Value(a[i], k), Value(b[i], k), k), k);
    }
  }

  lemma LessIs(a: nat, b: nat, d: nat, k: nat)
    requires k >= 1 && d == (a - b) % Pow2(k)
    ensures GetBit(d, k - 1) == Less(a, b, k)
  {
  }

  // ---------- the protocols ----------

  /** `new_Rss_LT`: res shares the larger operand, by the sign of the difference; res may be a or b. */
  method NewLT(res: array<Sharing>, a: array<Sharing>, b: array<Sharing>, k: nat, net: Net)
    requires InStep(net) && 1 <= k <= net.p1.ring && 1 <= res.Length == a.Length == b.Length
    requires forall i :: 0 <= i < a.Length ==> Agreed(a[i], k) && Agreed(b[i], k)
    modifies res, net.p1, net.p2, net.p3
    ensures InStep(net)
    ensures forall i :: 0 <= i < res.Length ==>
      Additive(res[i], PickLarger(Value(old(a[i]), k), Value(old(b[i]), k), k), k)
  {
    BitLT.RingBelowWord(net);
    hide *;
    var c := CompareBits(a, b, k, net);
    var diff := Subtract(b, a, k);
    var d := Choose(c, diff, a, b, k, net);
    forall i | 0 <= i < a.Length
      ensures Additive(Add(d[i], a[i]), PickLarger(Value(a[i], k), Value(b[i], k), k), k)
    {
      assert Chosen(d[i], c[i], a[i], b[i], k);
      LargerChosen(d[i], c[i], a[i], b[i], k);
    }
    AddVectors(res, d, a);
  }

  /** `fixed_Rss_LT`: every element against the single element `layer` of b. */
  method FixedLT(res: array<Sharing>, a: array<Sharing>, b: array<Sharing>, k: nat, layer: nat, net: Net)
    requires InStep(net) && 1 <= k <= net.p1.ring && 1 <= res.Length == a.Length && layer < b.Length
    requires Agreed(b[layer], k) && forall i :: 0 <= i < a.Length ==> Agreed(a[i], k)
    modifies res, net.p1, net.p2, net.p3
    ensures InStep(net)
    ensures forall i :: 0 <= i < res.Length ==>
      Additive(res[i], PickLarger(Value(old(a[i]), k), Value(old(b[layer]), k), k), k)
  {
    var fixed := Repeat(b[layer], a.Length);
    hide *;
    NewLT(res, a, fixed, k, net);
  }

  /** `fixed_Rss_GT`: the smaller of each element and element `layer` of b, which is read last. */
  method FixedGT(res: array<Sharing>, a: array<Sharing>, b: array<Sharing>, k: nat, layer: nat, net: Net)
    requires InStep(net) && 1 <= k <= net.p1.ring && 1 <= res.Length == a.Length && layer < b.Length && res != b
    requires Agreed(b[layer], k) && forall i :: 0 <= i < a.Length ==> Agreed(a[i], k)
    modifies res, net.p1, net.p2, net.p3
    ensures InStep(net)
    ensures forall i :: 0 <= i < res.Length ==>
      Additive(res[i], PickSmaller(Value(old(a[i]), k), Value(old(b[layer]), k), k), k)
  {
    BitLT.RingBelowWord(net);
    var fixed := Repeat(b[layer], a.Length);
    hide *;
    var c := CompareBits(a, fixed, k, net);
    var diff := Subtract(a, fixed, k);
    var d := Choose(c, diff, fixed, a, k, net);
    forall i | 0 <= i < a.Length
      ensures Additive(Add(d[i], fixed[i]), PickSmaller(Value(a[i], k), Value(fixed[i], k), k), k)
    {
      assert Chosen(d[i], c[i], fixed[i], a[i], k);
      SmallerChosen(d[i], c[i], a[i], fixed[i], k);
    }
    AddVectors(res, d, fixed);
  }

  /** The word-wise sum; res may be an operand. */
  method AddVectors(res: array<Sharing>, x: array<Sharing>, y: array<Sharing>)
    requires res.Length == x.Length == y.Length
    modifies res
    ensures forall i :: 0 <= i < res.Length ==> res[i] == Add(old(x[i]), old(y[i]))
  {
    hide *;
    for i := 0 to res.Length
      invariant forall m :: 0 <= m < i ==> res[m] == Add(old(x[m]), old(y[m]))
      invariant forall m :: i <= m < res.Length ==> x[m] == old(x[m]) && y[m] == old(y[m])
    {
      res[i] := Add(x[i], y[i]);
    }
  }

  /** Adding d to base chooses between base and other by the bit c. */
  ghost predicate Chosen(d: Sharing, c: Sharing, base: Sharing, other: Sharing, k: nat) {
    && (Additive(c, 1, k) ==> Additive(Add(d, base), Value(other, k), k))
    && (Additive(c, 0, k) ==> Additive(Add(d, base), Value(base, k), k))
  }

  lemma LargerChosen(d: Sharing, c: Sharing, a: Sharing, b: Sharing, k: nat)
    requires k >= 1 && Chosen(d, c, a, b, k) && Additive(c, Less(Value(a, k), Value(b, k), k), k)
    ensures Additive(Add(d, a), PickLarger(Value(a, k), Value(b, k), k), k)
  {
  }

  lemma SmallerChosen(d: Sharing, c: Sharing, a: Sharing, b: Sharing, k: nat)
    requires k >= 1 && Chosen(d, c, b, a, k) && Additive(c, Less(Value(a, k), Value(b, k), k), k)
    ensures Additive(Add(d, b), PickSmaller(Value(a, k), Value(b, k), k), k)
  {
  }

  /** d = c * (other - base). */
  method Choose(c: array<Sharing>, diff: array<Sharing>, base: array<Sharing>, other: array<Sharing>, k: nat, net: Net)
    returns (d: array<Sharing>)
    requires InStep(net) && 1 <= k <= W && 1 <= c.Length == diff.Length == other.Length == base.Length
    requires forall i :: 0 <= i < c.Length ==> Agreed(base[i], k) && Agreed(c[i], k)
    requires forall i :: 0 <= i < c.Length ==> Additive(diff[i], Value(other[i], k) - Value(base[i], k), k)
    modifies net.p1, net.p2, net.p3
    ensures InStep(net)
    ensures fresh(d) && d.Length == c.Length
    ensures forall i :: 0 <= i < d.Length ==> Chosen(d[i], c[i], base[i], other[i], k)
  {
    hide *;
    forall i | 0 <= i < c.Length ensures Agreed(diff[i], k) {
      AdditiveMeans(diff[i], Value(other[i], k) - Value(base[i], k), k);
    }
    d := new Sharing[c.Length];
    Mult(d, c, diff, k, net);
    forall i | 0 <= i < d.Length ensures Chosen(d[i], c[i], base[i], other[i], k) {
      assert Additive(d[i], Sum(c[i]) * Sum(diff[i]), k);
      AdditiveValue(base[i], k);
      ChosenElement(d[i], c[i], diff[i], base[i], other[i], k);
    }
  }

  lemma ChosenElement(d: Sharing, c: Sharing, diff: Sharing, base: Sharing, other: Sharing, k: nat)
    requires k <= W && Additive(d, Sum(c) * Sum(diff), k) && Additive(base, Value(base, k), k)
    requires Additive(diff, Value(other, k) - Value(base, k), k)
    ensures Chosen(d, c, base, other, k)
  {
    hide Additive, Value, Add, Sum;
    if Additive(c, 1, k) {
      ChoiceElement(c, diff, d, base, Value(base, k), Value(other, k), 1, k);
    }
    if Additive(c, 0, k) {
      ChoiceElement(c, diff, d, base, Value(base, k), Value(other, k), 0, k);
    }
  }
}
