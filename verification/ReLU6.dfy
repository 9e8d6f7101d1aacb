/**
 Clamping shared numbers to an interval that starts at zero (`ReLU_6_alpha`).
 */
module ReLU6 {
  import opened Ring
  import opened Words
  import opened Sharings
  import opened Cluster
  import opened LT
  import Linear

  const Zero: Sharing := Three(Pair(0, 0), Pair(0, 0), Pair(0, 0))

  lemma ZeroShared(k: nat)
    ensures Agreed(Zero, k) && Value(Zero, k) == 0
  {
  }

  /** The larger of x and zero, then the smaller of that and the bound. */
  function Clamped(x: nat, u: nat, k: nat): nat
    requires k >= 1
  {
    PickSmaller(PickLarger(x, 0, k), u, k)
  }

  /** For a bound that is not negative this is the clamp of the signed number, with no condition on x. */
  lemma ClampedIsClamp(x: nat, u: nat, k: nat)
    requires k >= 1 && x < Pow2(k) && u < Pow2(k - 1)
    ensures
      var s, b := Signed(x, k), Signed(u, k);
      Signed(Clamped(x, u, k), k) == if s < 0 then 0 else if s > b then b else s
  {
    assert Pow2(k) == 2 * Pow2(k - 1);
    hide Less, Pow2;
    LessIsSign(x, 0, k);
    LessIsBit(x, 0, k);
    var y := PickLarger(x, 0, k);
    LessIsSign(y, u, k);
    LessIsBit(y, u, k);
  }

  /** `ReLU_6_alpha`: every element of x clamped by element `layer` of upper; res may be x. */
  method ReLU6Alpha(res: array<Sharing>, x: array<Sharing>, upper: array<Sharing>, k: nat, layer: nat, net: Net)
    requires InStep(net) && 1 <= k <= net.p1.ring && 1 <= res.Length == x.Length && layer < upper.Length && res != upper
    requires Agreed(upper[layer], k) && forall i :: 0 <= i < x.Length ==> Agreed(x[i], k)
    modifies res, net.p1, net.p2, net.p3
    ensures InStep(net)
    ensures forall i :: 0 <= i < res.Length ==>
      Additive(res[i], Clamped(Value(old(x[i]), k), Value(upper[layer], k), k), k)
  {
    ZeroShared(k);
    hide *;
    var zero := Repeat(Zero, 1);
    FixedLT(res, x, zero, k, 0, net);
    forall i | 0 <= i < res.Length
      ensures Agreed(res[i], k) && Value(res[i], k) == PickLarger(Value(old(x[i]), k), 0, k)
    {
      Linear.ValueBelow(old(x[i]), k);
      LargerValue(res[i], Value(old(x[i]), k), k);
    }
    FixedGT(res, res, upper, k, layer, net);
    forall i | 0 <= i < res.Length ensures Additive(res[i], Clamped(Value(old(x[i]), k), Value(upper[layer], k), k), k) {
      ClampedIs(Value(old(x[i]), k), Value(upper[layer], k), k);
    }
  }

  lemma ClampedIs(x: nat, u: nat, k: nat)
    requires k >= 1
    ensures Clamped(x, u, k) == PickSmaller(PickLarger(x, 0, k), u, k)
  {
  }

  lemma LargerValue(y: Sharing, x: nat, k: nat)
    requires k >= 1 && x < Pow2(k) && Additive(y, PickLarger(x, 0, k), k)
    ensures Agreed(y, k) && Value(y, k) == PickLarger(x, 0, k)
  {
    hide Agreed, Less;
    ModSmall(PickLarger(x, 0, k), k);
  }
}
