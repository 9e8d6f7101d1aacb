/**
 Local arithmetic on additive sharings: every party computes on the words it holds, wrapping at the
 word width after each operation.
 */
module Linear {
  import opened Ring
  import opened Words
  import opened Sharings
  import opened Multiplication

  /** x + y. */
  function Add(x: Sharing, y: Sharing): Sharing {
    Three(Pair(Wrap(x.p1.s0 + y.p1.s0), Wrap(x.p1.s1 + y.p1.s1)),
          Pair(Wrap(x.p2.s0 + y.p2.s0), Wrap(x.p2.s1 + y.p2.s1)),
          Pair(Wrap(x.p3.s0 + y.p3.s0), Wrap(x.p3.s1 + y.p3.s1)))
  }

  /** x - y. */
  function Sub(x: Sharing, y: Sharing): Sharing {
    Three(Pair(Wrap(x.p1.s0 - y.p1.s0), Wrap(x.p1.s1 - y.p1.s1)),
          Pair(Wrap(x.p2.s0 - y.p2.s0), Wrap(x.p2.s1 - y.p2.s1)),
          Pair(Wrap(x.p3.s0 - y.p3.s0), Wrap(x.p3.s1 - y.p3.s1)))
  }

  /** c * x, for a public word c. */
  function Scale(c: Public, x: Sharing): Sharing {
    Three(Pair(Wrap(c.p1 * x.p1.s0), Wrap(c.p1 * x.p1.s1)),
          Pair(Wrap(c.p2 * x.p2.s0), Wrap(c.p2 * x.p2.s1)),
          Pair(Wrap(c.p3 * x.p3.s0), Wrap(c.p3 * x.p3.s1)))
  }

  /** x << j. */
  function Shift(x: Sharing, j: nat): Sharing {
    Three(Pair(Wrap(x.p1.s0 * Pow2(j)), Wrap(x.p1.s1 * Pow2(j))),
          Pair(Wrap(x.p2.s0 * Pow2(j)), Wrap(x.p2.s1 * Pow2(j))),
          Pair(Wrap(x.p3.s0 * Pow2(j)), Wrap(x.p3.s1 * Pow2(j))))
  }

  /** c * ai: the public word c as a sharing of itself. */
  function Constant(c: Public): Sharing {
    Scale(c, Ai)
  }

  // ---------- one word ----------

  lemma WordCong(x: int, y: int, k: nat)
    requires k <= W && Cong(x, y, k)
    ensures Cong(Wrap(x), Wrap(y), k) && Cong(Wrap(x), y, k)
  {
    hide Cong, Wrap;
    WrapCong(x, k);
    WrapCong(y, k);
    CongSym(Wrap(y), y, k);
    CongTrans(Wrap(x), x, y, k);
    CongTrans(Wrap(x), y, Wrap(y), k);
  }

  lemma AddWords(x: int, x': int, y: int, y': int, k: nat)
    requires k <= W && Cong(x, x', k) && Cong(y, y', k)
    ensures Cong(Wrap(x + y), Wrap(x' + y'), k) && Cong(Wrap(x - y), Wrap(x' - y'), k)
  {
    hide Cong, Wrap;
    CongAdd(x, x', y, y', k);
    WordCong(x + y, x' + y', k);
    WordCong(x - y, x' - y', k);
  }

  lemma ScaleWords(c: int, x: int, x': int, k: nat)
    requires k <= W && Cong(x, x', k)
    ensures Cong(Wrap(c * x), Wrap(c * x'), k)
  {
    hide Cong, Wrap;
    CongRefl(c, k);
    CongMul(c, c, x, x', k);
    WordCong(c * x, c * x', k);
  }

  // ---------- agreement ----------

  lemma AddAgreed(x: Sharing, y: Sharing, k: nat)
    requires k <= W && Agreed(x, k) && Agreed(y, k)
    ensures Agreed(Add(x, y), k) && Agreed(Sub(x, y), k)
  {
    hide Cong, Wrap;
    AddWords(x.p1.s1, x.p2.s0, y.p1.s1, y.p2.s0, k);
    AddWords(x.p2.s1, x.p3.s0, y.p2.s1, y.p3.s0, k);
    AddWords(x.p3.s1, x.p1.s0, y.p3.s1, y.p1.s0, k);
  }

  lemma ScaleAgreed(c: Public, v: nat, x: Sharing, k: nat)
    requires k <= W && Known(c, v) && Agreed(x, k)
    ensures Agreed(Scale(c, x), k)
  {
    hide Cong, Wrap;
    ScaleWords(v, x.p1.s1, x.p2.s0, k);
    ScaleWords(v, x.p2.s1, x.p3.s0, k);
    ScaleWords(v, x.p3.s1, x.p1.s0, k);
  }

  // ---------- sums ----------

  lemma WrapSum3(x: int, y: int, z: int, v: int, k: nat)
    requires k <= W && Cong(x + y + z, v, k)
    ensures Cong(Wrap(x) + Wrap(y) + Wrap(z), v, k)
  {
    hide Cong, Wrap;
    WrapCong(x, k);
    WrapCong(y, k);
    WrapCong(z, k);
    Add3(Wrap(x), Wrap(y), Wrap(z), x, y, z, k);
    CongTrans(Wrap(x) + Wrap(y) + Wrap(z), x + y + z, v, k);
  }

  lemma AddSum(x: Sharing, v: int, y: Sharing, w: int, k: nat)
    requires k <= W && Cong(Sum(x), v, k) && Cong(Sum(y), w, k)
    ensures Cong(Sum(Add(x, y)), v + w, k) && Cong(Sum(Sub(x, y)), v - w, k)
  {
    hide Cong, Wrap;
    CongAdd(Sum(x), v, Sum(y), w, k);
    WrapSum3(x.p1.s0 + y.p1.s0, x.p2.s0 + y.p2.s0, x.p3.s0 + y.p3.s0, v + w, k);
    WrapSum3(x.p1.s0 - y.p1.s0, x.p2.s0 - y.p2.s0, x.p3.s0 - y.p3.s0, v - w, k);
  }

  lemma ScaleSum(c: nat, x: nat, y: nat, z: nat, v: int, k: nat)
    requires k <= W && Cong(x + y + z, v, k)
    ensures Cong(Wrap(c * x) + Wrap(c * y) + Wrap(c * z), c * v, k)
  {
    hide Cong, Wrap;
    CongRefl(c, k);
    CongMul(c, c, x + y + z, v, k);
    assert c * (x + y + z) == c * x + c * y + c * z;
    WrapSum3(c * x, c * y, c * z, c * v, k);
  }

  // ---------- secrets ----------

  lemma AddAdditive(x: Sharing, v: int, y: Sharing, w: int, k: nat)
    requires k <= W && Additive(x, v, k) && Additive(y, w, k)
    ensures Additive(Add(x, y), v + w, k)
  {
    hide Cong, Agreed, Sum, Add;
    AddAgreed(x, y, k);
    AddSum(x, v, y, w, k);
  }

  lemma SubAdditive(x: Sharing, v: int, y: Sharing, w: int, k: nat)
    requires k <= W && Additive(x, v, k) && Additive(y, w, k)
    ensures Additive(Sub(x, y), v - w, k)
  {
    hide Cong, Agreed, Sum, Sub;
    AddAgreed(x, y, k);
    AddSum(x, v, y, w, k);
  }

  lemma ScaleAdditive(c: Public, w: nat, x: Sharing, v: int, k: nat)
    requires k <= W && Known(c, w) && Additive(x, v, k)
    ensures Additive(Scale(c, x), w * v, k)
  {
    hide Cong, Wrap, Agreed;
    ScaleAgreed(c, w, x, k);
    ScaleSum(w, x.p1.s0, x.p2.s0, x.p3.s0, v, k);
  }

  lemma ShiftAdditive(x: Sharing, v: int, j: nat, k: nat)
    requires k <= W && Additive(x, v, k)
    ensures Additive(Shift(x, j), v * Pow2(j), k)
  {
    hide Cong, Wrap, Additive, Pow2;
    var p := Pow2(j);
    ScaleAdditive(Three(p, p, p), p, x, v, k);
    ShiftIsScale(x, j);
  }

  lemma ShiftIsScale(x: Sharing, j: nat)
    ensures Shift(x, j) == Scale(Three(Pow2(j), Pow2(j), Pow2(j)), x)
  {
  }

  lemma ConstantAdditive(c: Public, v: nat, k: nat)
    requires k <= W && Known(c, v)
    ensures Additive(Constant(c), v, k)
  {
    hide Scale;
    CongRefl(1, k);
    CongRefl(0, k);
    ScaleAdditive(c, v, Ai, 1, k);
  }

  lemma AdditiveValue(x: Sharing, k: nat)
    requires Agreed(x, k)
    ensures Additive(x, Value(x, k), k)
  {
    CongMod(Sum(x), k);
  }

  lemma ValueBelow(x: Sharing, k: nat)
    ensures Value(x, k) < Pow2(k)
  {
  }

  lemma ValueOf(x: Sharing, v: int, k: nat)
    requires Additive(x, v, k)
    ensures Value(x, k) == v % Pow2(k)
  {
  }

  /** A sharing over a ring is one over every smaller ring. */
  lemma AdditiveWeaken(x: Sharing, v: int, k: nat, k': nat)
    requires Additive(x, v, k) && k' <= k
    ensures Additive(x, v, k')
  {
    hide Cong;
    CongWeaken(x.p1.s1, x.p2.s0, k, k');
    CongWeaken(x.p2.s1, x.p3.s0, k, k');
    CongWeaken(x.p3.s1, x.p1.s0, k, k');
    CongWeaken(Sum(x), v, k, k');
  }
}
