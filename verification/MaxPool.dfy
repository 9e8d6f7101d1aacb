/**
 Pooling by pairwise comparison (`eda_MaxPool`): first neighbours in a row, then the results of two rows.

 An image of m = 2*hm rows and n = 2*hn columns per channel is stored row by row; `planes` counts the
 channels of the whole batch.
 */
module MaxPool {
  import opened Ring
  import opened Words
  import opened Sharings
  import opened Cluster
  import opened BitShares
  import opened LT

  // ---------- places ----------

  /** Where the first and the second row's intermediate result for output q stand, as the source computes them. */
  function Upper(hn: nat, q: nat): nat
    requires hn >= 1
  {
    Index(2 * Element(q, hn), hn, Offset(q, hn))
  }

  function Lower(hm: nat, hn: nat, q: nat): nat
    requires hn >= 1
  {
    Upper(hn, q) + hm
  }

  /** The four pixels that reach output (r, j) are the 2 x 2 window of rows 2r, 2r+1 exactly in square images. */
  lemma WindowIffSquare(hm: nat, hn: nat, r: nat, j: nat)
    requires hn >= 1 && j < hn
    ensures
      var q, n := Index(r, hn, j), 2 * hn;
      && 2 * Upper(hn, q) == Index(2 * r, n, 2 * j)
      && (2 * Lower(hm, hn, q) == Index(2 * r + 1, n, 2 * j) <==> hm == hn)
  {
    IndexParts(r, r + 1, hn, j);
    assert Upper(hn, Index(r, hn, j)) == 2 * r * hn + j;
    assert 2 * (2 * r * hn + j) == 2 * r * (2 * hn) + 2 * j;
    assert (2 * r + 1) * (2 * hn) == 2 * r * (2 * hn) + 2 * hn;
  }

  lemma LowerInside(hm: nat, hn: nat, rows: nat, q: nat)
    requires hn >= 1 && hm <= hn && q < Index(rows, hn, 0)
    ensures Element(q, hn) < rows && Lower(hm, hn, q) < Index(2 * rows, hn, 0)
  {
    var r, j := q / hn, q % hn;
    assert q == hn * r + j;
    if r >= rows {
      MulMono(hn, rows, r);
    }
    MulMono(hn, 2 * r + 2, 2 * rows);
    assert hn * (2 * r + 2) == 2 * r * hn + 2 * hn;
  }

  lemma OutputInside(hm: nat, hn: nat, rows: nat, q: nat)
    requires hn >= 1 && hm <= hn && q < Index(rows, hn, 0)
    ensures 2 * Upper(hn, q) + 1 < 2 * Index(2 * rows, hn, 0) && 2 * Lower(hm, hn, q) + 1 < 2 * Index(2 * rows, hn, 0)
  {
    LowerInside(hm, hn, rows, q);
    hide Index, Element, Offset;
  }

  // ---------- values ----------

  /** The larger of two neighbours. */
  function PairMax(a: seq<Sharing>, k: nat, t: nat): nat
    requires k >= 1 && 2 * t + 1 < |a|
  {
    PickLarger(Value(a[2 * t], k), Value(a[2 * t + 1], k), k)
  }

  /** What the protocol computes for output q. */
  function Pooled(a: seq<Sharing>, k: nat, hm: nat, hn: nat, q: nat): nat
    requires k >= 1 && hn >= 1 && 2 * Upper(hn, q) + 1 < |a| && 2 * Lower(hm, hn, q) + 1 < |a|
  {
    PickLarger(PairMax(a, k, Upper(hn, q)), PairMax(a, k, Lower(hm, hn, q)), k)
  }

  /** The output depends on the secrets only. */
  lemma PooledSame(a: seq<Sharing>, b: seq<Sharing>, k: nat, hm: nat, hn: nat, q: nat)
    requires k >= 1 && hn >= 1 && 2 * Upper(hn, q) + 1 < |a| && 2 * Lower(hm, hn, q) + 1 < |a|
    requires |a| == |b| && forall i :: 0 <= i < |a| ==> Value(a[i], k) == Value(b[i], k)
    ensures Pooled(a, k, hm, hn, q) == Pooled(b, k, hm, hn, q)
  {
    hide PickLarger, Value, Upper, Lower;
  }

  lemma PickBelow(x: nat, y: nat, k: nat)
    requires k >= 1 && x < Pow2(k) && y < Pow2(k)
    ensures PickLarger(x, y, k) < Pow2(k) && (PickLarger(x, y, k) == x || PickLarger(x, y, k) == y)
  {
  }

  lemma PickIsLarger(x: nat, y: nat, k: nat)
    requires k >= 1 && x < Pow2(k) && y < Pow2(k) && Comparable(x, y, k)
    ensures var z := PickLarger(x, y, k); Signed(z, k) >= Signed(x, k) && Signed(z, k) >= Signed(y, k)
  {
    hide Less, Comparable;
    PickLargerIsMaximum(x, y, k);
  }

  /** When the window's signed differences fit the ring the result is its maximum. */
  lemma PooledIsMaximum(u: nat, v: nat, w: nat, x: nat, k: nat)
    requires k >= 1 && u < Pow2(k) && v < Pow2(k) && w < Pow2(k) && x < Pow2(k)
    requires Comparable(u, v, k) && Comparable(w, x, k) && Comparable(u, w, k) && Comparable(u, x, k)
      && Comparable(v, w, k) && Comparable(v, x, k)
    ensures
      var z := PickLarger(PickLarger(u, v, k), PickLarger(w, x, k), k);
      && z in {u, v, w, x}
      && Signed(z, k) >= Signed(u, k) && Signed(z, k) >= Signed(v, k) && Signed(z, k) >= Signed(w, k) && Signed(z, k) >= Signed(x, k)
  {
    hide PickLarger, Comparable, Signed;
    PickBelow(u, v, k);
    PickBelow(w, x, k);
    PickIsLarger(u, v, k);
    PickIsLarger(w, x, k);
    PickBelow(PickLarger(u, v, k), PickLarger(w, x, k), k);
    PickIsLarger(PickLarger(u, v, k), PickLarger(w, x, k), k);
  }

  /** In square images output (r, j) is picked from the window of rows 2r, 2r+1 and columns 2j, 2j+1. */
  lemma SquareWindow(a: seq<Sharing>, k: nat, hn: nat, r: nat, j: nat)
    requires k >= 1 && hn >= 1 && j < hn && Index(2 * r + 1, 2 * hn, 2 * j) + 1 < |a|
    ensures
      var q, n := Index(r, hn, j), 2 * hn;
      var top, bottom := Index(2 * r, n, 2 * j), Index(2 * r + 1, n, 2 * j);
      && top + 1 < |a| && 2 * Upper(hn, q) + 1 < |a| && 2 * Lower(hn, hn, q) + 1 < |a|
      && Pooled(a, k, hn, hn, q) == PickLarger(PickLarger(Value(a[top], k), Value(a[top + 1], k), k),
                                               PickLarger(Value(a[bottom], k), Value(a[bottom + 1], k), k), k)
  {
    WindowIffSquare(hn, hn, r, j);
    hide PickLarger, Value, Upper, Index;
  }

  /** The four pixels of output (r, j) of square images. */
  function Window(a: seq<Sharing>, k: nat, hn: nat, r: nat, j: nat): (w: (nat, nat, nat, nat))
    requires Index(2 * r, 2 * hn, 2 * j) + 1 < |a| && Index(2 * r + 1, 2 * hn, 2 * j) + 1 < |a|
  {
    var top, bottom := Index(2 * r, 2 * hn, 2 * j), Index(2 * r + 1, 2 * hn, 2 * j);
    (Value(a[top], k), Value(a[top + 1], k), Value(a[bottom], k), Value(a[bottom + 1], k))
  }

  /** All signed differences of the four numbers fit the ring. */
  predicate AllComparable(w: (nat, nat, nat, nat), k: nat)
    requires k >= 1
  {
    && Comparable(w.0, w.1, k) && Comparable(w.2, w.3, k) && Comparable(w.0, w.2, k)
    && Comparable(w.0, w.3, k) && Comparable(w.1, w.2, k) && Comparable(w.1, w.3, k)
  }

  /** x shares the largest of the four numbers. */
  ghost predicate SharesMaximum(x: Sharing, w: (nat, nat, nat, nat), k: nat)
    requires k >= 1
  {
    var z := Value(x, k);
    && Agreed(x, k) && (z == w.0 || z == w.1 || z == w.2 || z == w.3)
    && Signed(z, k) >= Signed(w.0, k) && Signed(z, k) >= Signed(w.1, k)
    && Signed(z, k) >= Signed(w.2, k) && Signed(z, k) >= Signed(w.3, k)
  }

  /** What is computed for output (r, j) of square images is its window's maximum. */
  lemma SquareMaximum(x: Sharing, a: seq<Sharing>, k: nat, hn: nat, r: nat, j: nat)
    requires k >= 1 && hn >= 1 && j < hn
    requires Index(2 * r, 2 * hn, 2 * j) + 1 < |a| && Index(2 * r + 1, 2 * hn, 2 * j) + 1 < |a|
    requires 2 * Upper(hn, Index(r, hn, j)) + 1 < |a| && 2 * Lower(hn, hn, Index(r, hn, j)) + 1 < |a|
    requires Additive(x, Pooled(a, k, hn, hn, Index(r, hn, j)), k) && AllComparable(Window(a, k, hn, r, j), k)
    ensures SharesMaximum(x, Window(a, k, hn, r, j), k)
  {
    var w := Window(a, k, hn, r, j);
    var z := PickLarger(PickLarger(w.0, w.1, k), PickLarger(w.2, w.3, k), k);
    SquareWindow(a, k, hn, r, j);
    hide PickLarger, Comparable, Signed, Agreed, Upper, Lower, Index, Sum;
    assert w.0 < Pow2(k) && w.1 < Pow2(k) && w.2 < Pow2(k) && w.3 < Pow2(k);
    PooledIsMaximum(w.0, w.1, w.2, w.3, k);
    ModSmall(z, k);
  }

  // ---------- the two rounds ----------

  /** Neighbours are compared. */
  method PoolPairs(a: array<Sharing>, half: nat, k: nat, net: Net) returns (temp: array<Sharing>)
    requires InStep(net) && 1 <= k <= net.p1.ring && 1 <= half && a.Length == 2 * half
    requires forall i :: 0 <= i < a.Length ==> Agreed(a[i], k)
    modifies net.p1, net.p2, net.p3
    ensures InStep(net) && fresh(temp) && temp.Length == half
    ensures forall t :: 0 <= t < half ==> Additive(temp[t], PairMax(a[..], k, t), k)
  {
    hide *;
    var x0 := new Sharing[half];
    var x1 := new Sharing[half];
    for i := 0 to half
      invariant forall t :: 0 <= t < i ==> x0[t] == a[2 * t] && x1[t] == a[2 * t + 1]
      modifies x0, x1
    {
      x0[i], x1[i] := a[2 * i], a[2 * i + 1];
    }
    temp := new Sharing[half];
    ComparePairs(temp, x0, x1, a, k, net);
  }

  method ComparePairs(temp: array<Sharing>, x0: array<Sharing>, x1: array<Sharing>, a: array<Sharing>, k: nat, net: Net)
    requires InStep(net) && 1 <= k <= net.p1.ring && 1 <= temp.Length == x0.Length == x1.Length && a.Length == 2 * temp.Length
    requires temp != x0 && temp != x1 && temp != a
    requires forall i :: 0 <= i < a.Length ==> Agreed(a[i], k)
    requires forall t :: 0 <= t < temp.Length ==> x0[t] == a[2 * t] && x1[t] == a[2 * t + 1]
    modifies temp, net.p1, net.p2, net.p3
    ensures InStep(net) && forall t :: 0 <= t < temp.Length ==> Additive(temp[t], PairMax(a[..], k, t), k)
  {
    hide *;
    forall t | 0 <= t < temp.Length ensures Agreed(x0[t], k) && Agreed(x1[t], k) {
      assert x0[t] == a[2 * t] && x1[t] == a[2 * t + 1];
    }
    NewLT(temp, x0, x1, k, net);
    forall t | 0 <= t < temp.Length ensures Additive(temp[t], PairMax(a[..], k, t), k) {
      assert Additive(temp[t], PickLarger(Value(x0[t], k), Value(x1[t], k), k), k);
      PairMaxIs(a, k, t);
    }
  }

  lemma PairMaxIs(a: array<Sharing>, k: nat, t: nat)
    requires k >= 1 && 2 * t + 1 < a.Length
    ensures PairMax(a[..], k, t) == PickLarger(Value(a[2 * t], k), Value(a[2 * t + 1], k), k)
  {
  }

  /** The words that are compared in the second round, for the outputs below q. */
  ghost predicate RowsBelow(x0: array<Sharing>, x1: array<Sharing>, temp: array<Sharing>, hm: nat, hn: nat, q: nat)
    requires hn >= 1 && q <= x0.Length == x1.Length
    reads x0, x1, temp
  {
    forall r :: 0 <= r < q ==>
      Upper(hn, r) < temp.Length && Lower(hm, hn, r) < temp.Length && x0[r] == temp[Upper(hn, r)] && x1[r] == temp[Lower(hm, hn, r)]
  }

  /** One row of outputs. */
  method SplitRow(x0: array<Sharing>, x1: array<Sharing>, temp: array<Sharing>, hm: nat, hn: nat, rows: nat, row: nat)
    requires x0 != x1 && x0 != temp && x1 != temp && 1 <= hm <= hn && row < rows
    requires x0.Length == x1.Length == Index(rows, hn, 0) && temp.Length == Index(2 * rows, hn, 0)
    requires Index(row, hn, 0) <= x0.Length && RowsBelow(x0, x1, temp, hm, hn, Index(row, hn, 0))
    modifies x0, x1
    ensures Index(row + 1, hn, 0) <= x0.Length && RowsBelow(x0, x1, temp, hm, hn, Index(row + 1, hn, 0))
  {
    hide Index, Element, Offset;
    IndexParts(row, rows, hn, 0);
    for j := 0 to hn
      invariant Index(row, hn, 0) + j <= x0.Length && RowsBelow(x0, x1, temp, hm, hn, Index(row, hn, 0) + j)
    {
      var q := Index(row, hn, j);
      IndexParts(row, rows, hn, j);
      LowerInside(hm, hn, rows, q);
      x0[q] := temp[Index(2 * row, hn, j)];
      x1[q] := temp[Index(2 * row, hn, j) + hm];
    }
    IndexPlus(row, hn, hn);
  }

  /** The larger of the results of two rows. */
  method PoolRows(res: array<Sharing>, temp: array<Sharing>, hm: nat, hn: nat, rows: nat, k: nat, net: Net)
    requires InStep(net) && 1 <= k <= net.p1.ring && 1 <= hm <= hn && 1 <= rows
    requires temp.Length == Index(2 * rows, hn, 0) && res.Length == Index(rows, hn, 0) && res != temp
    requires forall t :: 0 <= t < temp.Length ==> Agreed(temp[t], k)
    modifies res, net.p1, net.p2, net.p3
    ensures InStep(net)
    ensures forall q :: 0 <= q < res.Length ==>
      && Upper(hn, q) < temp.Length && Lower(hm, hn, q) < temp.Length
      && Additive(res[q], PickLarger(Value(temp[Upper(hn, q)], k), Value(temp[Lower(hm, hn, q)], k), k), k)
  {
    MulMono(hn, 1, rows);
    assert Index(rows, hn, 0) >= 1 && Index(0, hn, 0) == 0;
    hide *;
    var x0 := new Sharing[Index(rows, hn, 0)];
    var x1 := new Sharing[Index(rows, hn, 0)];
    NoRows(x0, x1, temp, hm, hn);
    for row := 0 to rows
      invariant Index(row, hn, 0) <= x0.Length && RowsBelow(x0, x1, temp, hm, hn, Index(row, hn, 0))
      modifies x0, x1
    {
      SplitRow(x0, x1, temp, hm, hn, rows, row);
    }
    RowsAgree(x0, x1, temp, hm, hn, k);
    NewLT(res, x0, x1, k, net);
  }

  lemma NoRows(x0: array<Sharing>, x1: array<Sharing>, temp: array<Sharing>, hm: nat, hn: nat)
    requires hn >= 1 && x0.Length == x1.Length
    ensures RowsBelow(x0, x1, temp, hm, hn, 0)
  {
  }

  lemma RowsAgree(x0: array<Sharing>, x1: array<Sharing>, temp: array<Sharing>, hm: nat, hn: nat, k: nat)
    requires hn >= 1 && x0.Length == x1.Length && RowsBelow(x0, x1, temp, hm, hn, x0.Length)
    requires forall t :: 0 <= t < temp.Length ==> Agreed(temp[t], k)
    ensures forall r :: 0 <= r < x0.Length ==>
      && Upper(hn, r) < temp.Length && Lower(hm, hn, r) < temp.Length
      && x0[r] == temp[Upper(hn, r)] && x1[r] == temp[Lower(hm, hn, r)] && Agreed(x0[r], k) && Agreed(x1[r], k)
  {
  }

  // ---------- the protocol ----------

  /**
   `eda_MaxPool` on `planes` images of 2*hm x 2*hn pixels: output q shares the larger of the larger
   neighbours at Upper(q) and at Lower(q); in square images that is the maximum of the 2 x 2 window whenever
   the window's signed differences fit the ring.
   */
  method EdaMaxPool(res: array<Sharing>, a: array<Sharing>, planes: nat, hm: nat, hn: nat, k: nat, net: Net)
    requires InStep(net) && 1 <= k <= net.p1.ring && 1 <= planes && 1 <= hm <= hn
    requires a.Length == 2 * Index(2 * (planes * hm), hn, 0) && res.Length == Index(planes * hm, hn, 0)
    requires forall i :: 0 <= i < a.Length ==> Agreed(a[i], k)
    modifies res, net.p1, net.p2, net.p3
    ensures InStep(net)
    ensures forall q :: 0 <= q < res.Length ==>
      && 2 * Upper(hn, q) + 1 < a.Length && 2 * Lower(hm, hn, q) + 1 < a.Length
      && Additive(res[q], Pooled(old(a[..]), k, hm, hn, q), k)
    ensures hm == hn ==> forall r, j :: 0 <= r < planes * hm && 0 <= j < hn ==>
      && Index(r, hn, j) < res.Length
      && Index(2 * r, 2 * hn, 2 * j) + 1 < a.Length && Index(2 * r + 1, 2 * hn, 2 * j) + 1 < a.Length
      && (AllComparable(Window(old(a[..]), k, hn, r, j), k) ==>
            SharesMaximum(res[Index(r, hn, j)], Window(old(a[..]), k, hn, r, j), k))
  {
    var rows := planes * hm;
    MulMono(hm, 1, planes);
    MulMono(hn, 1, 2 * rows);
    assert Index(2 * rows, hn, 0) >= 1;
    ghost var sa := a[..];
    hide *;
    var temp := PoolPairs(a, Index(2 * rows, hn, 0), k, net);
    ghost var st := temp[..];
    forall t | 0 <= t < temp.Length ensures Agreed(st[t], k) && Value(st[t], k) == PairMax(sa, k, t) {
      PairShared(st[t], sa, k, t);
    }
    PoolRows(res, temp, hm, hn, rows, k, net);
    forall q | 0 <= q < res.Length
      ensures 2 * Upper(hn, q) + 1 < a.Length && 2 * Lower(hm, hn, q) + 1 < a.Length
      ensures Additive(res[q], Pooled(sa, k, hm, hn, q), k)
    {
      assert Upper(hn, q) < temp.Length && Lower(hm, hn, q) < temp.Length;
      assert Value(st[Upper(hn, q)], k) == PairMax(sa, k, Upper(hn, q));
      assert Value(st[Lower(hm, hn, q)], k) == PairMax(sa, k, Lower(hm, hn, q));
      PooledIs(sa, k, hm, hn, q);
    }
    if hm == hn {
      forall r, j | 0 <= r < rows && 0 <= j < hn
        ensures Index(r, hn, j) < res.Length
        ensures Index(2 * r, 2 * hn, 2 * j) + 1 < a.Length && Index(2 * r + 1, 2 * hn, 2 * j) + 1 < a.Length
        ensures AllComparable(Window(sa, k, hn, r, j), k) ==> SharesMaximum(res[Index(r, hn, j)], Window(sa, k, hn, r, j), k)
      {
        WindowInside(rows, hn, r, j);
        if AllComparable(Window(sa, k, hn, r, j), k) {
          SquareMaximum(res[Index(r, hn, j)], sa, k, hn, r, j);
        }
      }
    }
  }

  lemma WindowInside(rows: nat, hn: nat, r: nat, j: nat)
    requires hn >= 1 && r < rows && j < hn
    ensures Index(r, hn, j) < Index(rows, hn, 0)
    ensures Index(2 * r, 2 * hn, 2 * j) + 1 < 2 * Index(2 * rows, hn, 0)
    ensures Index(2 * r + 1, 2 * hn, 2 * j) + 1 < 2 * Index(2 * rows, hn, 0)
  {
    MulMono(hn, r + 1, rows);
    assert hn * (r + 1) == r * hn + hn && hn * rows == rows * hn;
    assert 2 * r * (2 * hn) == 4 * (r * hn) && (2 * r + 1) * (2 * hn) == 4 * (r * hn) + 2 * hn;
    assert 2 * (2 * rows * hn) == 4 * (rows * hn);
  }

  lemma PairShared(x: Sharing, a: seq<Sharing>, k: nat, t: nat)
    requires k >= 1 && 2 * t + 1 < |a| && Additive(x, PairMax(a, k, t), k)
    ensures Agreed(x, k) && Value(x, k) == PairMax(a, k, t)
  {
    hide Agreed, PickLarger;
    CongMod(Sum(a[2 * t]), k);
    CongMod(Sum(a[2 * t + 1]), k);
    PickBelow(Value(a[2 * t], k), Value(a[2 * t + 1], k), k);
    ModSmall(PairMax(a, k, t), k);
  }

  lemma PooledIs(a: seq<Sharing>, k: nat, hm: nat, hn: nat, q: nat)
    requires k >= 1 && hn >= 1 && 2 * Upper(hn, q) + 1 < |a| && 2 * Lower(hm, hn, q) + 1 < |a|
    ensures Pooled(a, k, hm, hn, q) == PickLarger(PairMax(a, k, Upper(hn, q)), PairMax(a, k, Lower(hm, hn, q)), k)
  {
    hide PickLarger, PairMax, Upper, Lower;
  }
}
