/**
 Batched matrix multiplication (`Rss_MatMultArray_batch`): one masked word per entry of the product, the
 products of a whole row and column summed before masking.
 */
module MatMult {
  import opened Ring
  import opened Words
  import opened Stream
  import opened Sharings
  import opened Cluster
  import opened Multiplication
  import opened BitShares

  /** m x n times n x s, batch times; a flag of 0 means one operand for the whole batch. */
  datatype Shape = Shape(m: nat, n: nat, s: nat, batch: nat, flagA: nat, flagB: nat)

  predicate Proper(sh: Shape) {
    sh.m >= 1 && sh.n >= 1 && sh.s >= 1 && sh.batch >= 1 && sh.flagA <= 1 && sh.flagB <= 1
  }

  /** Which of the stored matrices multiplication l uses. */
  function Copy(flag: nat, l: nat): nat {
    if flag == 0 then 0 else l
  }

  function Copies(flag: nat, batch: nat): nat {
    if flag == 0 then 1 else batch
  }

  /** The sizes of the stored operands and of the result. */
  function SizeA(sh: Shape): nat {
    Index(Copies(sh.flagA, sh.batch), sh.m * sh.n, 0)
  }

  function SizeB(sh: Shape): nat {
    Index(Copies(sh.flagB, sh.batch), sh.n * sh.s, 0)
  }

  function SizeC(sh: Shape): nat {
    Index(sh.batch, sh.m * sh.s, 0)
  }

  /** a_index, b's index, b_transpose's index and v_index. */
  function AtA(sh: Shape, l: nat, i: nat, k: nat): nat {
    Index(Copy(sh.flagA, l), sh.m * sh.n, Index(i, sh.n, k))
  }

  function AtB(sh: Shape, l: nat, k: nat, j: nat): nat {
    Index(Copy(sh.flagB, l), sh.n * sh.s, Index(k, sh.s, j))
  }

  function AtT(sh: Shape, l: nat, j: nat, k: nat): nat {
    Index(Copy(sh.flagB, l), sh.n * sh.s, Index(j, sh.n, k))
  }

  function AtC(sh: Shape, l: nat, i: nat, j: nat): nat {
    Index(l, sh.m * sh.s, Index(i, sh.s, j))
  }

  /** A position inside one of x blocks of p * q cells. */
  lemma BlockBound(x: nat, blocks: nat, p: nat, q: nat, i: nat, j: nat)
    requires x < blocks && i < p && j < q
    ensures p * q >= 1 && Index(i, q, j) < p * q && Index(x, p * q, Index(i, q, j)) < Index(blocks, p * q, 0)
  {
    MulMono(q, i + 1, p);
    MulMono(p * q, x + 1, blocks);
  }

  lemma Bounds(sh: Shape, l: nat, i: nat, j: nat, k: nat)
    requires Proper(sh) && l < sh.batch && i < sh.m && j < sh.s && k < sh.n
    ensures AtA(sh, l, i, k) < SizeA(sh) && AtB(sh, l, k, j) < SizeB(sh) && AtT(sh, l, j, k) < SizeB(sh) && AtC(sh, l, i, j) < SizeC(sh)
  {
    hide Index;
    BlockBound(Copy(sh.flagA, l), Copies(sh.flagA, sh.batch), sh.m, sh.n, i, k);
    BlockBound(Copy(sh.flagB, l), Copies(sh.flagB, sh.batch), sh.n, sh.s, k, j);
    BlockBound(Copy(sh.flagB, l), Copies(sh.flagB, sh.batch), sh.s, sh.n, j, k);
    BlockBound(l, sh.batch, sh.m, sh.s, i, j);
    assert sh.s * sh.n == sh.n * sh.s;
  }

  // ---------- sums of products ----------

  /** The sum of the products of the secrets' representatives. */
  function DotSum(x: seq<Sharing>, y: seq<Sharing>): int
    requires |x| == |y|
  {
    if |x| == 0 then 0 else DotSum(x[..|x| - 1], y[..|y| - 1]) + Sum(x[|x| - 1]) * Sum(y[|y| - 1])
  }

  /** The same of the products each party can form. */
  function LocalDots(x: seq<Sharing>, y: seq<Sharing>): Three<int>
    requires |x| == |y|
  {
    if |x| == 0 then Three(0, 0, 0)
    else
      var d, a, b := LocalDots(x[..|x| - 1], y[..|y| - 1]), x[|x| - 1], y[|y| - 1];
      Three(d.p1 + LocalProduct(a.p1, b.p1), d.p2 + LocalProduct(a.p2, b.p2), d.p3 + LocalProduct(a.p3, b.p3))
  }

  lemma {:induction false} DotsCover(x: seq<Sharing>, y: seq<Sharing>, k: nat)
    requires |x| == |y| && forall t :: 0 <= t < |x| ==> Agreed(x[t], k) && Agreed(y[t], k)
    ensures var d := LocalDots(x, y); Cong(d.p1 + d.p2 + d.p3, DotSum(x, y), k)
  {
    hide Cong, Agreed, Sum, LocalProduct;
    if |x| == 0 {
      CongRefl(0, k);
    } else {
      var a, b := x[|x| - 1], y[|y| - 1];
      DotsCover(x[..|x| - 1], y[..|y| - 1], k);
      LocalProductsCover(a, b, k);
      var d := LocalDots(x[..|x| - 1], y[..|y| - 1]);
      CongAdd(d.p1 + d.p2 + d.p3, DotSum(x[..|x| - 1], y[..|y| - 1]), LocalProducts(a, b), Sum(a) * Sum(b), k);
    }
  }

  /** Row i of matrix l of a, and column j of matrix l of b. */
  function RowA(a: seq<Sharing>, sh: Shape, l: nat, i: nat): (r: seq<Sharing>)
    requires Proper(sh) && |a| == SizeA(sh) && l < sh.batch && i < sh.m
    ensures |r| == sh.n
  {
    seq(sh.n, k requires 0 <= k < sh.n => Bounds(sh, l, i, 0, k); a[AtA(sh, l, i, k)])
  }

  function ColumnB(b: seq<Sharing>, sh: Shape, l: nat, j: nat): (r: seq<Sharing>)
    requires Proper(sh) && |b| == SizeB(sh) && l < sh.batch && j < sh.s
    ensures |r| == sh.n
  {
    seq(sh.n, k requires 0 <= k < sh.n => Bounds(sh, l, 0, j, k); b[AtB(sh, l, k, j)])
  }

  /** The same secrets, element by element. */
  ghost predicate SameSecrets(x: seq<Sharing>, y: seq<Sharing>, k: nat) {
    |x| == |y| && forall t :: 0 <= t < |x| ==> Cong(Sum(x[t]), Sum(y[t]), k)
  }

  lemma {:induction false} DotSumCong(x: seq<Sharing>, y: seq<Sharing>, x': seq<Sharing>, y': seq<Sharing>, k: nat)
    requires |x| == |y| && SameSecrets(x, x', k) && SameSecrets(y, y', k)
    ensures Cong(DotSum(x, y), DotSum(x', y'), k)
  {
    hide Cong, Sum;
    if |x| == 0 {
      CongRefl(0, k);
    } else {
      var n := |x| - 1;
      DotSumCong(x[..n], y[..n], x'[..n], y'[..n], k);
      CongMul(Sum(x[n]), Sum(x'[n]), Sum(y[n]), Sum(y'[n]), k);
      CongAdd(DotSum(x[..n], y[..n]), DotSum(x'[..n], y'[..n]), Sum(x[n]) * Sum(y[n]), Sum(x'[n]) * Sum(y'[n]), k);
    }
  }

  /** An entry depends on the operands' secrets only. */
  lemma EntryProductCong(a: seq<Sharing>, b: seq<Sharing>, a': seq<Sharing>, b': seq<Sharing>, sh: Shape, l: nat,
          i: nat, j: nat, k: nat)
    requires Proper(sh) && |a| == SizeA(sh) && |b| == SizeB(sh) && l < sh.batch && i < sh.m && j < sh.s
    requires SameSecrets(a, a', k) && SameSecrets(b, b', k)
    ensures Cong(EntryProduct(a, b, sh, l, i, j), EntryProduct(a', b', sh, l, i, j), k)
  {
    hide Cong, Sum, AtA, AtB, SizeA, SizeB, DotSum;
    forall t | 0 <= t < sh.n
      ensures Cong(Sum(RowA(a, sh, l, i)[t]), Sum(RowA(a', sh, l, i)[t]), k)
      ensures Cong(Sum(ColumnB(b, sh, l, j)[t]), Sum(ColumnB(b', sh, l, j)[t]), k)
    {
      Bounds(sh, l, i, j, t);
    }
    DotSumCong(RowA(a, sh, l, i), ColumnB(b, sh, l, j), RowA(a', sh, l, i), ColumnB(b', sh, l, j), k);
  }

  // ---------- what an entry is ----------

  /** c elements of a from position p are in a, and so are c elements of b from position q in steps of s. */
  ghost predicate Inside(a: seq<Sharing>, p: nat, b: seq<Sharing>, q: nat, s: nat, c: nat) {
    p + c <= |a| && forall t :: 0 <= t < c ==> StrideIn(b, q, s, t)
  }

  predicate StrideIn(b: seq<Sharing>, q: nat, s: nat, t: nat) {
    q + t * s < |b|
  }

  /** a[p] * b[q] + a[p+1] * b[q+s] + ..., c products. */
  ghost function StrideSum(a: seq<Sharing>, p: nat, b: seq<Sharing>, q: nat, s: nat, c: nat): int
    requires Inside(a, p, b, q, s, c)
  {
    if c == 0 then 0
    else
      assert StrideIn(b, q, s, c - 1);
      StrideSum(a, p, b, q, s, c - 1) + Sum(a[p + (c - 1)]) * Sum(b[q + (c - 1) * s])
  }

  /** Where multiplication l finds its operands and leaves its result, position by position. */
  lemma Positions(sh: Shape, l: nat, i: nat, j: nat, c: nat)
    requires Proper(sh)
    ensures AtA(sh, l, i, c) == sh.flagA * l * (sh.m * sh.n) + i * sh.n + c
    ensures AtB(sh, l, c, j) == sh.flagB * l * (sh.n * sh.s) + j + c * sh.s
    ensures AtC(sh, l, i, j) == l * (sh.m * sh.s) + i * sh.s + j
  {
    assert sh.flagA * l == Copy(sh.flagA, l) && sh.flagB * l == Copy(sh.flagB, l);
  }

  /** The sizes of the operands: one matrix for a flag of 0, one for every multiplication for a flag of 1. */
  lemma Sizes(sh: Shape)
    requires Proper(sh)
    ensures SizeA(sh) == if sh.flagA == 0 then sh.m * sh.n else sh.batch * (sh.m * sh.n)
    ensures SizeB(sh) == if sh.flagB == 0 then sh.n * sh.s else sh.batch * (sh.n * sh.s)
    ensures SizeC(sh) == sh.batch * (sh.m * sh.s)
  {
  }

  /** Where the row of a and the column of b of an entry start. */
  function StartA(sh: Shape, l: nat, i: nat): nat {
    sh.flagA * l * (sh.m * sh.n) + i * sh.n
  }

  function StartB(sh: Shape, l: nat, j: nat): nat {
    sh.flagB * l * (sh.n * sh.s) + j
  }

  lemma RowCell(a: seq<Sharing>, sh: Shape, l: nat, i: nat, c: nat)
    requires Proper(sh) && |a| == SizeA(sh) && l < sh.batch && i < sh.m && c < sh.n
    ensures StartA(sh, l, i) + c < |a| && RowA(a, sh, l, i)[c] == a[StartA(sh, l, i) + c]
  {
    hide AtA, SizeA;
    Bounds(sh, l, i, 0, c);
    Positions(sh, l, i, 0, c);
  }

  lemma ColumnCell(b: seq<Sharing>, sh: Shape, l: nat, j: nat, c: nat)
    requires Proper(sh) && |b| == SizeB(sh) && l < sh.batch && j < sh.s && c < sh.n
    ensures StrideIn(b, StartB(sh, l, j), sh.s, c) && CellIs(ColumnB(b, sh, l, j), b, StartB(sh, l, j), sh.s, c)
  {
    hide AtB, SizeB;
    Bounds(sh, l, 0, j, c);
    Positions(sh, l, 0, j, c);
  }

  /** Entry (l, i, j): n neighbours of a, from the row's start, times n elements of b in steps of s, from the column's start. */
  lemma EntryIsSum(a: seq<Sharing>, b: seq<Sharing>, sh: Shape, l: nat, i: nat, j: nat)
    requires Proper(sh) && |a| == SizeA(sh) && |b| == SizeB(sh) && l < sh.batch && i < sh.m && j < sh.s
    ensures
      var p, q := StartA(sh, l, i), StartB(sh, l, j);
      Inside(a, p, b, q, sh.s, sh.n) && EntryProduct(a, b, sh, l, i, j) == StrideSum(a, p, b, q, sh.s, sh.n)
  {
    hide SizeA, SizeB, DotSum, StrideSum, RowA, ColumnB, StrideIn, StartA, StartB, CellIs;
    var p, q := StartA(sh, l, i), StartB(sh, l, j);
    var x, y := RowA(a, sh, l, i), ColumnB(b, sh, l, j);
    forall c: nat | c < sh.n ensures p + c < |a| && x[c] == a[p + c] && StrideIn(b, q, sh.s, c) && CellIs(y, b, q, sh.s, c) {
      RowCell(a, sh, l, i, c);
      ColumnCell(b, sh, l, j, c);
    }
    RowCell(a, sh, l, i, sh.n - 1);
    StridePrefix(x, y, a, p, b, q, sh.s, sh.n);
    assert x[..sh.n] == x && y[..sh.n] == y;
  }

  /** With a flag of 1 multiplication l has its own operand, with a flag of 0 all have the first. */
  lemma Starts(sh: Shape, l: nat, i: nat, j: nat)
    requires Proper(sh)
    ensures StartA(sh, l, i) == if sh.flagA == 1 then l * (sh.m * sh.n) + i * sh.n else i * sh.n
    ensures StartB(sh, l, j) == if sh.flagB == 1 then l * (sh.n * sh.s) + j else j
  {
    FlagTimes(sh.flagA, l, sh.m * sh.n);
    FlagTimes(sh.flagB, l, sh.n * sh.s);
  }

  ghost predicate CellIs(y: seq<Sharing>, b: seq<Sharing>, q: nat, s: nat, c: nat) {
    c < |y| && q + c * s < |b| && y[c] == b[q + c * s]
  }

  lemma {:induction false} StridePrefix(x: seq<Sharing>, y: seq<Sharing>, a: seq<Sharing>, p: nat, b: seq<Sharing>, q: nat,
          s: nat, c: nat)
    requires c <= |x| == |y| && Inside(a, p, b, q, s, c)
    requires forall t :: 0 <= t < c ==> x[t] == a[p + t] && CellIs(y, b, q, s, t)
    ensures DotSum(x[..c], y[..c]) == StrideSum(a, p, b, q, s, c)
    decreases c
  {
    hide Sum;
    if c > 0 {
      StridePrefix(x, y, a, p, b, q, s, c - 1);
      assert x[..c][..c - 1] == x[..c - 1] && y[..c][..c - 1] == y[..c - 1];
      assert CellIs(y, b, q, s, c - 1) && x[c - 1] == a[p + (c - 1)];
    }
  }

  /** The shape of a single product. */
  function Single(sh: Shape): Shape {
    sh.(batch := 1, flagA := 0, flagB := 0)
  }

  /** The matrix multiplication l uses: the l-th of size p for a flag of 1, the only one for a flag of 0. */
  function MatrixOf(a: seq<Sharing>, flag: nat, l: nat, p: nat): seq<Sharing>
    requires flag == 1 ==> l * p <= (l + 1) * p <= |a|
  {
    if flag == 1 then a[l * p..(l + 1) * p] else a
  }

  lemma MatrixInside(sh: Shape, l: nat)
    requires Proper(sh) && l < sh.batch
    ensures
      var p, q := sh.m * sh.n, sh.n * sh.s;
      && (sh.flagA == 1 ==> l * p + p == (l + 1) * p <= SizeA(sh)) && (sh.flagA != 1 ==> SizeA(sh) == p)
      && (sh.flagB == 1 ==> l * q + q == (l + 1) * q <= SizeB(sh)) && (sh.flagB != 1 ==> SizeB(sh) == q)
      && SizeA(Single(sh)) == p && SizeB(Single(sh)) == q && Proper(Single(sh))
  {
    var p, q := sh.m * sh.n, sh.n * sh.s;
    MulMono(p, l + 1, sh.batch);
    MulMono(q, l + 1, sh.batch);
  }

  /** Entry (l, i, j) of a batch is entry (i, j) of the product of the l-th matrices alone. */
  lemma EntryOfSlices(a: seq<Sharing>, b: seq<Sharing>, sh: Shape, l: nat, i: nat, j: nat)
    requires Proper(sh) && |a| == SizeA(sh) && |b| == SizeB(sh) && l < sh.batch && i < sh.m && j < sh.s
    requires sh.flagA == 1 ==> l * (sh.m * sh.n) <= (l + 1) * (sh.m * sh.n) <= |a|
    requires sh.flagB == 1 ==> l * (sh.n * sh.s) <= (l + 1) * (sh.n * sh.s) <= |b|
    ensures
      var a', b' := MatrixOf(a, sh.flagA, l, sh.m * sh.n), MatrixOf(b, sh.flagB, l, sh.n * sh.s);
      && Proper(Single(sh)) && |a'| == SizeA(Single(sh)) && |b'| == SizeB(Single(sh))
      && EntryProduct(a, b, sh, l, i, j) == EntryProduct(a', b', Single(sh), 0, i, j)
  {
    MatrixInside(sh, l);
    StartOfSlices(sh, l, i, j);
    var p, q := sh.m * sh.n, sh.n * sh.s;
    MatrixIsSlice(a, sh.flagA, l, p);
    MatrixIsSlice(b, sh.flagB, l, q);
    hide *;
    EntryOfParts(a, FirstOf(sh.flagA, l, p), MatrixOf(a, sh.flagA, l, p), b, FirstOf(sh.flagB, l, q),
                 MatrixOf(b, sh.flagB, l, q), sh, Single(sh), l, i, j);
  }

  lemma EntryOfParts(a: seq<Sharing>, a0: nat, a': seq<Sharing>, b: seq<Sharing>, b0: nat, b': seq<Sharing>, sh: Shape,
          sh1: Shape, l: nat, i: nat, j: nat)
    requires Proper(sh) && |a| == SizeA(sh) && |b| == SizeB(sh) && l < sh.batch && i < sh.m && j < sh.s
    requires Proper(sh1) && |a'| == SizeA(sh1) && |b'| == SizeB(sh1) && sh1.m == sh.m && sh1.n == sh.n && sh1.s == sh.s
    requires StartA(sh, l, i) == a0 + StartA(sh1, 0, i) && StartB(sh, l, j) == b0 + StartB(sh1, 0, j)
    requires a0 + |a'| <= |a| && b0 + |b'| <= |b| && a[a0..a0 + |a'|] == a' && b[b0..b0 + |b'|] == b'
    ensures sh1.batch >= 1 && EntryProduct(a, b, sh, l, i, j) == EntryProduct(a', b', sh1, 0, i, j)
  {
    assert sh1.batch >= 1;
    hide *;
    EntryIsSum(a, b, sh, l, i, j);
    EntryIsSum(a', b', sh1, 0, i, j);
    SumOfSlices(a, a0, a', StartA(sh1, 0, i), b, b0, b', StartB(sh1, 0, j), sh.s, sh.n);
  }

  function FirstOf(flag: nat, l: nat, p: nat): nat {
    if flag == 1 then l * p else 0
  }

  lemma StartOfSlices(sh: Shape, l: nat, i: nat, j: nat)
    requires Proper(sh)
    ensures StartA(sh, l, i) == FirstOf(sh.flagA, l, sh.m * sh.n) + StartA(Single(sh), 0, i)
    ensures StartB(sh, l, j) == FirstOf(sh.flagB, l, sh.n * sh.s) + StartB(Single(sh), 0, j)
    ensures Single(sh).m == sh.m && Single(sh).n == sh.n && Single(sh).s == sh.s && Single(sh).batch == 1
  {
    FlagTimes(sh.flagA, l, sh.m * sh.n);
    FlagTimes(sh.flagB, l, sh.n * sh.s);
  }

  lemma MatrixIsSlice(a: seq<Sharing>, flag: nat, l: nat, p: nat)
    requires flag == 1 ==> l * p + p == (l + 1) * p <= |a|
    ensures
      var a', a0 := MatrixOf(a, flag, l, p), FirstOf(flag, l, p);
      a0 + |a'| <= |a| && a[a0..a0 + |a'|] == a' && |a'| == if flag == 1 then p else |a|
  {
  }

  lemma FlagTimes(flag: nat, l: nat, p: nat)
    requires flag <= 1
    ensures flag * l * p == if flag == 1 then l * p else 0
  {
  }

  lemma {:induction false} SumOfSlices(a: seq<Sharing>, a0: nat, a': seq<Sharing>, p: nat, b: seq<Sharing>, b0: nat,
          b': seq<Sharing>, q: nat, s: nat, c: nat)
    requires a0 + |a'| <= |a| && b0 + |b'| <= |b| && a[a0..a0 + |a'|] == a' && b[b0..b0 + |b'|] == b'
    requires Inside(a', p, b', q, s, c) && Inside(a, a0 + p, b, b0 + q, s, c)
    ensures StrideSum(a, a0 + p, b, b0 + q, s, c) == StrideSum(a', p, b', q, s, c)
    decreases c
  {
    hide Sum;
    if c > 0 {
      SumOfSlices(a, a0, a', p, b, b0, b', q, s, c - 1);
      assert StrideIn(b', q, s, c - 1);
      var t, u := p + (c - 1), q + (c - 1) * s;
      assert a'[t] == a[a0..a0 + |a'|][t] == a[a0 + t];
      assert b'[u] == b[b0..b0 + |b'|][u] == b[b0 + u];
    }
  }

  /** Cell (r, c) of the identity stored at x0. */
  ghost predicate UnitCell(x: seq<Sharing>, x0: nat, n: nat, r: nat, c: nat) {
    x0 + r * n + c < |x| && Sum(x[x0 + r * n + c]) == if r == c then 1 else 0
  }

  /** The n x n matrix stored at x0 is the identity. */
  ghost predicate IsIdentity(x: seq<Sharing>, x0: nat, n: nat) {
    forall r, c :: 0 <= r < n && 0 <= c < n ==> UnitCell(x, x0, n, r, c)
  }

  /** Times the identity (stored at q), an entry is the first operand's element. */
  lemma TimesIdentity(a: seq<Sharing>, b: seq<Sharing>, sh: Shape, l: nat, i: nat, j: nat, p: nat, q: nat)
    requires Proper(sh) && |a| == SizeA(sh) && |b| == SizeB(sh) && l < sh.batch && i < sh.m && j < sh.s && sh.n == sh.s
    requires p == StartA(sh, l, i) && q + j == StartB(sh, l, j) && IsIdentity(b, q, sh.n)
    ensures p + j < |a| && EntryProduct(a, b, sh, l, i, j) == Sum(a[p + j])
  {
    hide *;
    EntryIsSum(a, b, sh, l, i, j);
    RowIsInside(a, p, b, q + j, sh.s, sh.n);
    PickFromRow(a, p, b, q, sh.n, j, sh.n);
  }

  lemma RowIsInside(a: seq<Sharing>, p: nat, b: seq<Sharing>, q: nat, s: nat, c: nat)
    requires Inside(a, p, b, q, s, c)
    ensures p + c <= |a| && forall t :: 0 <= t < c ==> StrideIn(b, q, s, t)
  {
  }

  lemma {:induction false} PickFromRow(a: seq<Sharing>, p: nat, b: seq<Sharing>, q: nat, n: nat, j: nat, c: nat)
    requires c <= n && j < n && p + n <= |a| && Inside(a, p, b, q + j, n, c) && IsIdentity(b, q, n)
    ensures StrideSum(a, p, b, q + j, n, c) == if j < c then Sum(a[p + j]) else 0
    decreases c
  {
    hide Sum;
    if c > 0 {
      PickFromRow(a, p, b, q, n, j, c - 1);
      assert UnitCell(b, q, n, c - 1, j) && StrideIn(b, q + j, n, c - 1);
      assert q + j + (c - 1) * n == q + (c - 1) * n + j;
      OneOrZero(Sum(a[p + (c - 1)]), Sum(b[q + (c - 1) * n + j]));
    }
  }

  lemma OneOrZero(x: int, y: int)
    requires y == 0 || y == 1
    ensures x * y == (if y == 1 then x else 0) && y * x == if y == 1 then x else 0
  {
  }

  /** The identity (stored at p) times a matrix: an entry is the second operand's element. */
  lemma IdentityTimes(a: seq<Sharing>, b: seq<Sharing>, sh: Shape, l: nat, i: nat, j: nat, p: nat, q: nat)
    requires Proper(sh) && |a| == SizeA(sh) && |b| == SizeB(sh) && l < sh.batch && i < sh.m && j < sh.s && sh.m == sh.n
    requires p + i * sh.n == StartA(sh, l, i) && q == StartB(sh, l, j) && IsIdentity(a, p, sh.n)
    ensures StrideIn(b, q, sh.s, i) && q + i * sh.s < |b| && EntryProduct(a, b, sh, l, i, j) == Sum(b[q + i * sh.s])
  {
    EntryIsSum(a, b, sh, l, i, j);
    RowIsInside(a, p + i * sh.n, b, q, sh.s, sh.n);
    assert StrideIn(b, q, sh.s, i) && q + i * sh.s < |b|;
    hide *;
    PickFromColumn(a, p, b, q, sh.n, sh.s, i, sh.n);
  }

  lemma {:induction false} PickFromColumn(a: seq<Sharing>, p: nat, b: seq<Sharing>, q: nat, n: nat, s: nat, i: nat, c: nat)
    requires c <= n && i < n && Inside(a, p + i * n, b, q, s, c) && IsIdentity(a, p, n) && q + i * s < |b|
    ensures StrideSum(a, p + i * n, b, q, s, c) == if i < c then Sum(b[q + i * s]) else 0
    decreases c
  {
    hide Sum;
    if c > 0 {
      PickFromColumn(a, p, b, q, n, s, i, c - 1);
      assert UnitCell(a, p, n, i, c - 1) && StrideIn(b, q, s, c - 1);
      OneOrZero(Sum(b[q + (c - 1) * s]), Sum(a[p + i * n + (c - 1)]));
    }
  }

  // ---------- the transposition ----------

  /** Row j of matrix l of the transposed operand is column j of b. */
  lemma SameCell(sh: Shape, l: nat, j: nat, k: nat, l': nat, j': nat, k': nat)
    requires Proper(sh) && l < sh.batch && j < sh.s && k < sh.n && l' < sh.batch && j' < sh.s && k' < sh.n
    requires AtT(sh, l, j, k) == AtT(sh, l', j', k')
    ensures AtB(sh, l, k, j) == AtB(sh, l', k', j')
  {
    hide Index, Element, Offset;
    var p := sh.n * sh.s;
    assert sh.s * sh.n == p;
    BlockBound(0, 1, sh.s, sh.n, j, k);
    BlockBound(0, 1, sh.s, sh.n, j', k');
    IndexParts(Copy(sh.flagB, l), sh.batch, p, Index(j, sh.n, k));
    IndexParts(Copy(sh.flagB, l'), sh.batch, p, Index(j', sh.n, k'));
    IndexParts(j, sh.s, sh.n, k);
    IndexParts(j', sh.s, sh.n, k');
  }

  /** The cells the loops have reached before (l, i, j). */
  predicate Before(l: nat, k: nat, j: nat, l': nat, k': nat, j': nat) {
    l < l' || (l == l' && (k < k' || (k == k' && j < j')))
  }

  method Transpose(b: array<Sharing>, sh: Shape) returns (bT: array<Sharing>)
    requires Proper(sh) && b.Length == SizeB(sh)
    ensures fresh(bT) && bT.Length == SizeB(sh)
    ensures forall l, k, j :: 0 <= l < sh.batch && 0 <= k < sh.n && 0 <= j < sh.s ==>
      AtT(sh, l, j, k) < bT.Length && AtB(sh, l, k, j) < b.Length && bT[AtT(sh, l, j, k)] == b[AtB(sh, l, k, j)]
  {
    hide AtT, AtB, SizeB;
    bT := new Sharing[SizeB(sh)];
    for l := 0 to sh.batch
      invariant CopiedBefore(bT, b, sh, l, 0, 0)
      modifies bT
    {
      for k := 0 to sh.n
        invariant CopiedBefore(bT, b, sh, l, k, 0)
        modifies bT
      {
        for j := 0 to sh.s
          invariant CopiedBefore(bT, b, sh, l, k, j)
          modifies bT
        {
          CopyCell(bT, b, sh, l, k, j);
        }
      }
    }
  }

  ghost predicate CopiedBefore(bT: array<Sharing>, b: array<Sharing>, sh: Shape, l: nat, k: nat, j: nat)
    reads bT, b
  {
    forall l', k', j' :: 0 <= l' < sh.batch && 0 <= k' < sh.n && 0 <= j' < sh.s && Before(l', k', j', l, k, j) ==>
      AtT(sh, l', j', k') < bT.Length && AtB(sh, l', k', j') < b.Length && bT[AtT(sh, l', j', k')] == b[AtB(sh, l', k', j')]
  }

  method CopyCell(bT: array<Sharing>, b: array<Sharing>, sh: Shape, l: nat, k: nat, j: nat)
    requires Proper(sh) && bT != b && bT.Length == b.Length == SizeB(sh) && l < sh.batch && k < sh.n && j < sh.s
    requires CopiedBefore(bT, b, sh, l, k, j)
    modifies bT
    ensures CopiedBefore(bT, b, sh, l, k, j + 1)
  {
    hide AtT, AtB, SizeB;
    Bounds(sh, l, 0, j, k);
    bT[AtT(sh, l, j, k)] := b[AtB(sh, l, k, j)];
    forall l', k', j' | 0 <= l' < sh.batch && 0 <= k' < sh.n && 0 <= j' < sh.s && Before(l', k', j', l, k, j + 1)
      ensures AtT(sh, l', j', k') < bT.Length && AtB(sh, l', k', j') < b.Length && bT[AtT(sh, l', j', k')] == b[AtB(sh, l', k', j')]
    {
      Bounds(sh, l', 0, j', k');
      if AtT(sh, l', j', k') == AtT(sh, l, j, k) {
        SameCell(sh, l', j', k', l, j, k);
      } else {
        assert Before(l', k', j', l, k, j) || (l' == l && k' == k && j' == j);
      }
    }
  }

  // ---------- one entry ----------

  function WrapAll(x: Three<int>): Public {
    Three(Wrap(x.p1), Wrap(x.p2), Wrap(x.p3))
  }

  lemma WrapTwice(x: int, y: int)
    ensures Wrap(Wrap(x) + y) == Wrap(x + y) && Wrap(Wrap(x) - y) == Wrap(x - y)
  {
    hide Cong;
    CongMod(x, W);
    CongRefl(y, W);
    CongAdd(x % Pow2(W), x, y, y, W);
    SameRemainder(Wrap(x) + y, x + y);
    SameRemainder(Wrap(x) - y, x - y);
  }

  lemma SameRemainder(x: int, y: int)
    requires Cong(x, y, W)
    ensures Wrap(x) == Wrap(y)
  {
  }

  /** One more product in every party's total. */
  function AddProducts(acc: Public, a: Sharing, b: Sharing): Public {
    Three(Wrap(acc.p1 + LocalProduct(a.p1, b.p1)), Wrap(acc.p2 + LocalProduct(a.p2, b.p2)), Wrap(acc.p3 + LocalProduct(a.p3, b.p3)))
  }

  lemma AddedProducts(x: seq<Sharing>, y: seq<Sharing>, t: nat)
    requires |x| == |y| && t < |x|
    ensures AddProducts(WrapAll(LocalDots(x[..t], y[..t])), x[t], y[t]) == WrapAll(LocalDots(x[..t + 1], y[..t + 1]))
  {
    hide Wrap, LocalProduct;
    assert x[..t + 1][..t] == x[..t] && y[..t + 1][..t] == y[..t];
    var d := LocalDots(x[..t], y[..t]);
    WrapTwice(d.p1, LocalProduct(x[t].p1, y[t].p1));
    WrapTwice(d.p2, LocalProduct(x[t].p2, y[t].p2));
    WrapTwice(d.p3, LocalProduct(x[t].p3, y[t].p3));
  }

  lemma NothingAdded()
    ensures WrapAll(LocalDots([], [])) == Three(0, 0, 0)
  {
  }

  /** The inner loop: the products of row i of a and row j of the transposed b. */
  method Accumulate(a: array<Sharing>, bT: array<Sharing>, ghost sa: seq<Sharing>, ghost b: seq<Sharing>, sh: Shape,
          l: nat, i: nat, j: nat)
    returns (acc: Public)
    requires Proper(sh) && a.Length == |sa| == SizeA(sh) && bT.Length == |b| == SizeB(sh) && l < sh.batch && i < sh.m && j < sh.s
    requires TransposedOf(bT, b, sh) && sa == a[..]
    ensures acc == WrapAll(LocalDots(RowA(sa, sh, l, i), ColumnB(b, sh, l, j)))
  {
    ghost var x, y := RowA(sa, sh, l, i), ColumnB(b, sh, l, j);
    hide *;
    NothingAdded();
    acc := Three(0, 0, 0);
    assert x[..0] == [] && y[..0] == [];
    for k := 0 to sh.n
      invariant acc == WrapAll(LocalDots(x[..k], y[..k]))
    {
      EntryCells(a, bT, sa, b, sh, l, i, j, k);
      AddedProducts(x, y, k);
      acc := AddProducts(acc, a[AtA(sh, l, i, k)], bT[AtT(sh, l, j, k)]);
    }
    assert x[..sh.n] == x && y[..sh.n] == y;
  }

  ghost predicate TransposedOf(bT: array<Sharing>, b: seq<Sharing>, sh: Shape)
    reads bT
  {
    forall l, k, j :: 0 <= l < sh.batch && 0 <= k < sh.n && 0 <= j < sh.s ==>
      AtT(sh, l, j, k) < bT.Length && AtB(sh, l, k, j) < |b| && bT[AtT(sh, l, j, k)] == b[AtB(sh, l, k, j)]
  }

  lemma EntryCells(a: array<Sharing>, bT: array<Sharing>, sa: seq<Sharing>, b: seq<Sharing>, sh: Shape, l: nat,
          i: nat, j: nat, k: nat)
    requires Proper(sh) && sa == a[..] && a.Length == SizeA(sh) && bT.Length == |b| == SizeB(sh) && l < sh.batch && i < sh.m && j < sh.s && k < sh.n
    requires TransposedOf(bT, b, sh)
    ensures AtA(sh, l, i, k) < a.Length && AtT(sh, l, j, k) < bT.Length
    ensures RowA(sa, sh, l, i)[k] == a[AtA(sh, l, i, k)] && ColumnB(b, sh, l, j)[k] == bT[AtT(sh, l, j, k)]
  {
    hide AtA, AtB, AtT, SizeA, SizeB;
    Bounds(sh, l, i, j, k);
  }

  /** Entry q of the product, before the exchange. */
  ghost predicate Entry(cq: Sharing, vq: Public, was: Sharing, dots: Three<int>, r: Public, bytes: nat) {
    cq == LoadMask(was, r, bytes) && vq == MaskedTotals(dots, cq)
  }

  lemma EntryMasked(acc: Public, dots: Three<int>, c: Sharing)
    requires acc == WrapAll(dots)
    ensures Three(Wrap(acc.p1 - c.p1.s0), Wrap(acc.p2 - c.p2.s0), Wrap(acc.p3 - c.p3.s0)) == MaskedTotals(dots, c)
  {
    hide Wrap;
    WrapTwice(dots.p1, c.p1.s0);
    WrapTwice(dots.p2, c.p2.s0);
    WrapTwice(dots.p3, c.p3.s0);
  }

  /** The place of entry q. */
  function BatchOf(sh: Shape, q: nat): nat
    requires Proper(sh)
  {
    Element(q, Area(sh))
  }

  function RowOf(sh: Shape, q: nat): nat
    requires Proper(sh)
  {
    Element(Offset(q, Area(sh)), sh.s)
  }

  function ColumnOf(sh: Shape, q: nat): nat
    requires Proper(sh)
  {
    Offset(Offset(q, Area(sh)), sh.s)
  }

  function Area(sh: Shape): (r: nat)
    requires Proper(sh)
    ensures r >= 1 && r == sh.m * sh.s
  {
    MulMono(sh.s, 1, sh.m);
    sh.m * sh.s
  }

  lemma PlaceOf(sh: Shape, l: nat, i: nat, j: nat)
    requires Proper(sh) && l < sh.batch && i < sh.m && j < sh.s
    ensures var q := AtC(sh, l, i, j); q < SizeC(sh) && BatchOf(sh, q) == l && RowOf(sh, q) == i && ColumnOf(sh, q) == j
  {
    hide Index, Element, Offset;
    BlockBound(l, sh.batch, sh.m, sh.s, i, j);
    IndexParts(l, sh.batch, sh.m * sh.s, Index(i, sh.s, j));
    IndexParts(i, sh.m, sh.s, j);
  }

  /** The next place in the order of the loops. */
  lemma NextPlace(sh: Shape, l: nat, i: nat, j: nat)
    requires Proper(sh)
    ensures AtC(sh, 0, 0, 0) == 0
    ensures AtC(sh, l, i, j + 1) == AtC(sh, l, i, j) + 1
    ensures AtC(sh, l, i, sh.s) == AtC(sh, l, i + 1, 0)
    ensures AtC(sh, l, sh.m, 0) == AtC(sh, l + 1, 0, 0)
  {
  }

  lemma InRange(sh: Shape, q: nat)
    requires Proper(sh) && q < SizeC(sh)
    ensures BatchOf(sh, q) < sh.batch && RowOf(sh, q) < sh.m && ColumnOf(sh, q) < sh.s
    ensures AtC(sh, BatchOf(sh, q), RowOf(sh, q), ColumnOf(sh, q)) == q
  {
    var p := Area(sh);
    var l, o := q / p, q % p;
    assert q == p * l + o;
    if l >= sh.batch {
      MulMono(p, sh.batch, l);
    }
    var i := o / sh.s;
    assert o == sh.s * i + o % sh.s;
    if i >= sh.m {
      MulMono(sh.s, sh.m, i);
    }
  }

  // ---------- all entries ----------

  /** The local totals of entry q. */
  function DotsAt(a: seq<Sharing>, b: seq<Sharing>, sh: Shape, q: nat): Three<int>
    requires Proper(sh) && |a| == SizeA(sh) && |b| == SizeB(sh) && q < SizeC(sh)
  {
    InRange(sh, q);
    LocalDots(RowA(a, sh, BatchOf(sh, q), RowOf(sh, q)), ColumnB(b, sh, BatchOf(sh, q), ColumnOf(sh, q)))
  }

  /** The entries below q are masked, the others untouched. */
  ghost predicate EntriesBelow(c: array<Sharing>, v: array<Public>, was: seq<Sharing>, a: seq<Sharing>,
          b: seq<Sharing>, sh: Shape,
                               buf: Three<seq<Byte>>, bytes: nat, q: nat)
    requires Proper(sh) && |a| == SizeA(sh) && |b| == SizeB(sh)
    reads c, v
  {
    && c.Length == v.Length == |was| == SizeC(sh) && q <= SizeC(sh)
    && (forall r :: 0 <= r < q ==> Entry(c[r], v[r], was[r], DotsAt(a, b, sh, r), RandWords(buf, r, bytes), bytes))
    && forall r :: q <= r < c.Length ==> c[r] == was[r]
  }

  /** One entry: the total, the mask from the buffer, the masked total. */
  method ComputeEntry(was: Sharing, a: array<Sharing>, bT: array<Sharing>, ghost sa: seq<Sharing>,
          ghost b: seq<Sharing>, sh: Shape,
                      buf: Three<seq<Byte>>, bytes: nat, l: nat, i: nat, j: nat, q: nat) returns (cq: Sharing, vq: Public)
    requires Proper(sh) && a.Length == |sa| == SizeA(sh) && bT.Length == |b| == SizeB(sh) && sa == a[..]
    requires TransposedOf(bT, b, sh) && l < sh.batch && i < sh.m && j < sh.s && q == AtC(sh, l, i, j) < SizeC(sh)
    ensures Entry(cq, vq, was, DotsAt(sa, b, sh, q), RandWords(buf, q, bytes), bytes)
  {
    hide TransposedOf, DotsAt, AtC, SizeA, SizeB, SizeC, Wrap, LoadMask, RandWords, WrapAll, LocalDots, RowA, ColumnB, MaskedTotals;
    var acc := Accumulate(a, bT, sa, b, sh, l, i, j);
    DotsAtPlace(sa, b, sh, l, i, j);
    cq := LoadMask(was, RandWords(buf, q, bytes), bytes);
    EntryMasked(acc, DotsAt(sa, b, sh, q), cq);
    vq := Three(Wrap(acc.p1 - cq.p1.s0), Wrap(acc.p2 - cq.p2.s0), Wrap(acc.p3 - cq.p3.s0));
  }

  method MaskEntry(c: array<Sharing>, v: array<Public>, ghost was: seq<Sharing>, a: array<Sharing>, bT: array<Sharing>,
                   ghost sa: seq<Sharing>, ghost b: seq<Sharing>, sh: Shape, buf: Three<seq<Byte>>, bytes: nat, l: nat, i: nat, j: nat)
    requires Proper(sh) && a.Length == |sa| == SizeA(sh) && bT.Length == |b| == SizeB(sh) && sa == a[..] && c != a && c != bT
    requires TransposedOf(bT, b, sh) && l < sh.batch && i < sh.m && j < sh.s
    requires EntriesBelow(c, v, was, sa, b, sh, buf, bytes, AtC(sh, l, i, j))
    modifies c, v
    ensures EntriesBelow(c, v, was, sa, b, sh, buf, bytes, AtC(sh, l, i, j + 1)) && a[..] == sa
  {
    PlaceOf(sh, l, i, j);
    NextPlace(sh, l, i, j);
    hide TransposedOf, DotsAt, AtC, SizeA, SizeB, SizeC, RandWords, BatchOf, RowOf, ColumnOf, Entry;
    var q := AtC(sh, l, i, j);
    var cq, vq := ComputeEntry(c[q], a, bT, sa, b, sh, buf, bytes, l, i, j, q);
    c[q], v[q] := cq, vq;
  }

  lemma DotsAtPlace(a: seq<Sharing>, b: seq<Sharing>, sh: Shape, l: nat, i: nat, j: nat)
    requires Proper(sh) && |a| == SizeA(sh) && |b| == SizeB(sh) && l < sh.batch && i < sh.m && j < sh.s
    ensures AtC(sh, l, i, j) < SizeC(sh)
    ensures DotsAt(a, b, sh, AtC(sh, l, i, j)) == LocalDots(RowA(a, sh, l, i), ColumnB(b, sh, l, j))
  {
    PlaceOf(sh, l, i, j);
    hide LocalDots, RowA, ColumnB, BatchOf, RowOf, ColumnOf, AtC, SizeC;
  }

  method MaskRow(c: array<Sharing>, v: array<Public>, ghost was: seq<Sharing>, a: array<Sharing>, bT: array<Sharing>,
                 ghost sa: seq<Sharing>, ghost b: seq<Sharing>, sh: Shape, buf: Three<seq<Byte>>, bytes: nat, l: nat, i: nat)
    requires Proper(sh) && a.Length == |sa| == SizeA(sh) && bT.Length == |b| == SizeB(sh) && sa == a[..] && c != a && c != bT
    requires TransposedOf(bT, b, sh) && l < sh.batch && i < sh.m
    requires EntriesBelow(c, v, was, sa, b, sh, buf, bytes, AtC(sh, l, i, 0))
    modifies c, v
    ensures EntriesBelow(c, v, was, sa, b, sh, buf, bytes, AtC(sh, l, i + 1, 0)) && a[..] == sa
  {
    hide *;
    for j := 0 to sh.s
      invariant EntriesBelow(c, v, was, sa, b, sh, buf, bytes, AtC(sh, l, i, j)) && a[..] == sa
      modifies c, v
    {
      MaskEntry(c, v, was, a, bT, sa, b, sh, buf, bytes, l, i, j);
    }
    NextPlace(sh, l, i, 0);
  }

  method MaskMatrix(c: array<Sharing>, v: array<Public>, ghost was: seq<Sharing>, a: array<Sharing>, bT: array<Sharing>,
                    ghost sa: seq<Sharing>, ghost b: seq<Sharing>, sh: Shape, buf: Three<seq<Byte>>, bytes: nat, l: nat)
    requires Proper(sh) && a.Length == |sa| == SizeA(sh) && bT.Length == |b| == SizeB(sh) && sa == a[..] && c != a && c != bT
    requires TransposedOf(bT, b, sh) && l < sh.batch
    requires EntriesBelow(c, v, was, sa, b, sh, buf, bytes, AtC(sh, l, 0, 0))
    modifies c, v
    ensures EntriesBelow(c, v, was, sa, b, sh, buf, bytes, AtC(sh, l + 1, 0, 0)) && a[..] == sa
  {
    hide *;
    for i := 0 to sh.m
      invariant EntriesBelow(c, v, was, sa, b, sh, buf, bytes, AtC(sh, l, i, 0)) && a[..] == sa
      modifies c, v
    {
      MaskRow(c, v, was, a, bT, sa, b, sh, buf, bytes, l, i);
    }
    NextPlace(sh, l, 0, 0);
  }

  /** The triple loop over the batch, the rows and the columns. */
  method MaskEntries(c: array<Sharing>, a: array<Sharing>, bT: array<Sharing>, ghost sa: seq<Sharing>,
          ghost b: seq<Sharing>, sh: Shape,
                     buf: Three<seq<Byte>>, bytes: nat) returns (v: array<Public>)
    requires Proper(sh) && a.Length == |sa| == SizeA(sh) && bT.Length == |b| == SizeB(sh) && sa == a[..]
    requires c.Length == SizeC(sh) && c != a && c != bT && TransposedOf(bT, b, sh)
    modifies c
    ensures fresh(v) && EntriesBelow(c, v, old(c[..]), sa, b, sh, buf, bytes, SizeC(sh))
  {
    ghost var was := c[..];
    hide *;
    v := new Public[SizeC(sh)];
    NoneBelow(c, v, was, sa, b, sh, buf, bytes);
    FirstAndLast(sh);
    for l := 0 to sh.batch
      invariant EntriesBelow(c, v, was, sa, b, sh, buf, bytes, AtC(sh, l, 0, 0)) && a[..] == sa
      modifies c, v
    {
      MaskMatrix(c, v, was, a, bT, sa, b, sh, buf, bytes, l);
    }
  }

  lemma FirstAndLast(sh: Shape)
    ensures AtC(sh, 0, 0, 0) == 0 && AtC(sh, sh.batch, 0, 0) == SizeC(sh)
  {
  }

  lemma NoneBelow(c: array<Sharing>, v: array<Public>, was: seq<Sharing>, a: seq<Sharing>, b: seq<Sharing>,
          sh: Shape, buf: Three<seq<Byte>>, bytes: nat)
    requires Proper(sh) && |a| == SizeA(sh) && |b| == SizeB(sh) && c.Length == v.Length == |was| == SizeC(sh) && was == c[..]
    ensures EntriesBelow(c, v, was, a, b, sh, buf, bytes, 0)
  {
  }

  // ---------- the protocol ----------

  /** The secret of entry (l, i, j), up to reduction. */
  function EntryProduct(a: seq<Sharing>, b: seq<Sharing>, sh: Shape, l: nat, i: nat, j: nat): int
    requires Proper(sh) && |a| == SizeA(sh) && |b| == SizeB(sh) && l < sh.batch && i < sh.m && j < sh.s
  {
    DotSum(RowA(a, sh, l, i), ColumnB(b, sh, l, j))
  }

  ghost predicate AllAgreed(x: seq<Sharing>, k: nat) {
    forall t :: 0 <= t < |x| ==> Agreed(x[t], k)
  }

  lemma EntryShared(c0: Sharing, c1: Sharing, v0: Public, v: Public, dots: Three<int>, r1: Public, r0: Public,
          x: seq<Sharing>, y: seq<Sharing>, k: nat)
    requires k <= W && |x| == |y| && dots == LocalDots(x, y) && AllAgreed(x, k) && AllAgreed(y, k)
    requires Entry(c1, v0, c0, dots, r1, BytesFor(k)) && v == MaskAll(v0, k) && r1 == FromNext(r0)
    ensures Additive(Combine(c1, v, FromNext(v), r0, BytesFor(k)), DotSum(x, y), k)
  {
    hide Combine, LoadMask, MaskedTotals, MaskAll, LocalDots, DotSum, Agreed, Additive, BytesFor, Cong, FromNext;
    TotalElement(dots, c0, c1, v, r1, r0, k);
    DotsCover(x, y, k);
    AdditiveAs(Combine(c1, v, FromNext(v), r0, BytesFor(k)), dots.p1 + dots.p2 + dots.p3, DotSum(x, y), k);
  }

  lemma OperandsAgreed(a: seq<Sharing>, b: seq<Sharing>, sh: Shape, l: nat, i: nat, j: nat, k: nat)
    requires Proper(sh) && |a| == SizeA(sh) && |b| == SizeB(sh) && l < sh.batch && i < sh.m && j < sh.s
    requires AllAgreed(a, k) && AllAgreed(b, k)
    ensures AllAgreed(RowA(a, sh, l, i), k) && AllAgreed(ColumnB(b, sh, l, j), k)
  {
    hide Agreed, AtA, AtB, SizeA, SizeB;
    forall t | 0 <= t < sh.n ensures Agreed(RowA(a, sh, l, i)[t], k) && Agreed(ColumnB(b, sh, l, j)[t], k) {
      Bounds(sh, l, i, j, t);
    }
  }

  /** The draw, the masked totals and the exchange. */
  method SendTotals(c: array<Sharing>, a: array<Sharing>, bT: array<Sharing>, ghost sa: seq<Sharing>,
          ghost b: seq<Sharing>, sh: Shape,
                    k: nat, net: Net)
    returns (v: array<Public>, recv: array<Public>, ghost v0: seq<Public>, ghost was: seq<Sharing>, ghost g: Three<Gen>)
    requires Valid(net) && 1 <= k <= W && Proper(sh) && a.Length == |sa| == SizeA(sh) && bT.Length == |b| == SizeB(sh) && sa == a[..]
    requires c.Length == SizeC(sh) >= 1 && c != a && c != bT && TransposedOf(bT, b, sh)
    modifies c, net.p1, net.p2, net.p3
    ensures Valid(net) && g == old(Slots(net, 1)) && Slots(net, 1) == Advanced(g, RequestSize(c.Length, k))
    ensures Slots(net, 0) == old(Slots(net, 0)) && Slots(net, 2) == old(Slots(net, 2))
    ensures fresh(v) && fresh(recv) && v.Length == recv.Length == |v0| == |was| == c.Length
    ensures forall q :: 0 <= q < c.Length ==> v[q] == MaskAll(v0[q], k) && recv[q] == FromNext(v[q])
    ensures forall q :: 0 <= q < c.Length ==> Entry(c[q], v0[q], was[q], DotsAt(sa, b, sh, q), Drawn(g, c.Length, k, q), BytesFor(k))
  {
    g := Slots(net, 1);
    assert RequestSize(c.Length, k) >= 1;
    hide *;
    var buf := Draw(net, 1, RequestSize(c.Length, k));
    v, v0, was := MaskedTotalsOf(c, a, bT, sa, b, sh, buf, k);
    forall q | 0 <= q < c.Length ensures Entry(c[q], v0[q], was[q], DotsAt(sa, b, sh, q), Drawn(g, c.Length, k, q), BytesFor(k)) {
      DrawnWord(g, c.Length, k, q);
    }
    recv := Exchange(v, k);
  }

  method MaskedTotalsOf(c: array<Sharing>, a: array<Sharing>, bT: array<Sharing>, ghost sa: seq<Sharing>,
          ghost b: seq<Sharing>, sh: Shape,
                        buf: Three<seq<Byte>>, k: nat) returns (v: array<Public>, ghost v0: seq<Public>, ghost was: seq<Sharing>)
    requires Proper(sh) && a.Length == |sa| == SizeA(sh) && bT.Length == |b| == SizeB(sh) && sa == a[..]
    requires c.Length == SizeC(sh) && c != a && c != bT && TransposedOf(bT, b, sh)
    modifies c
    ensures fresh(v) && v.Length == |v0| == |was| == c.Length && v0 == v[..]
    ensures forall q :: 0 <= q < c.Length ==> Entry(c[q], v0[q], was[q], DotsAt(sa, b, sh, q), RandWords(buf, q, BytesFor(k)), BytesFor(k))
  {
    was := c[..];
    hide *;
    v := MaskEntries(c, a, bT, sa, b, sh, buf, BytesFor(k));
    v0 := v[..];
    EntriesLength(c, v, was, sa, b, sh, buf, BytesFor(k));
    forall q | 0 <= q < c.Length
      ensures Entry(c[q], v0[q], was[q], DotsAt(sa, b, sh, q), RandWords(buf, q, BytesFor(k)), BytesFor(k))
    {
      EntryAt(c, v, was, sa, b, sh, buf, BytesFor(k), q);
    }
  }

  lemma EntriesLength(c: array<Sharing>, v: array<Public>, was: seq<Sharing>, a: seq<Sharing>, b: seq<Sharing>,
          sh: Shape, buf: Three<seq<Byte>>, bytes: nat)
    requires Proper(sh) && |a| == SizeA(sh) && |b| == SizeB(sh) && EntriesBelow(c, v, was, a, b, sh, buf, bytes, SizeC(sh))
    ensures c.Length == v.Length == |was| == SizeC(sh)
  {
  }

  lemma EntryAt(c: array<Sharing>, v: array<Public>, was: seq<Sharing>, a: seq<Sharing>, b: seq<Sharing>, sh: Shape,
          buf: Three<seq<Byte>>, bytes: nat, q: nat)
    requires Proper(sh) && |a| == SizeA(sh) && |b| == SizeB(sh) && EntriesBelow(c, v, was, a, b, sh, buf, bytes, SizeC(sh)) && q < SizeC(sh)
    ensures c.Length == v.Length == |was| == SizeC(sh) && Entry(c[q], v[q], was[q], DotsAt(a, b, sh, q), RandWords(buf, q, bytes), bytes)
  {
  }

  /**
   `Rss_MatMultArray_batch`: entry (l, i, j) of c shares the product of row i of a's matrix l and column j
   of b's; b is copied first, so c may be b but not a.
   */
  method MatMultBatch(c: array<Sharing>, a: array<Sharing>, b: array<Sharing>, sh: Shape, k: nat, net: Net)
    requires InStep(net) && 1 <= k <= W && Proper(sh)
    requires a.Length == SizeA(sh) && b.Length == SizeB(sh) && c.Length == SizeC(sh) && c != a
    requires AllAgreed(a[..], k) && AllAgreed(b[..], k)
    modifies c, net.p1, net.p2, net.p3
    ensures InStep(net) && Private(net) == old(Private(net))
    ensures forall l, i, j :: 0 <= l < sh.batch && 0 <= i < sh.m && 0 <= j < sh.s ==>
      AtC(sh, l, i, j) < c.Length && Additive(c[AtC(sh, l, i, j)], EntryProduct(old(a[..]), old(b[..]), sh, l, i, j), k)
  {
    ghost var sa, sb := a[..], b[..];
    hide *;
    var bT := Transpose(b, sh);
    TransposedIs(bT, b, sb, sh);
    MultiplyTransposed(c, a, bT, sa, sb, sh, k, net);
    forall l, i, j | 0 <= l < sh.batch && 0 <= i < sh.m && 0 <= j < sh.s
      ensures AtC(sh, l, i, j) < c.Length && Additive(c[AtC(sh, l, i, j)], EntryProduct(sa, sb, sh, l, i, j), k)
    {
      PlaceOf(sh, l, i, j);
      ProductAtPlace(sa, sb, sh, l, i, j);
    }
  }

  lemma TransposedIs(bT: array<Sharing>, b: array<Sharing>, sb: seq<Sharing>, sh: Shape)
    requires sb == b[..] && forall l, k, j :: 0 <= l < sh.batch && 0 <= k < sh.n && 0 <= j < sh.s ==>
      AtT(sh, l, j, k) < bT.Length && AtB(sh, l, k, j) < b.Length && bT[AtT(sh, l, j, k)] == b[AtB(sh, l, k, j)]
    ensures TransposedOf(bT, sb, sh)
  {
  }

  /** The product that entry q shares. */
  function ProductAt(a: seq<Sharing>, b: seq<Sharing>, sh: Shape, q: nat): int
    requires Proper(sh) && |a| == SizeA(sh) && |b| == SizeB(sh) && q < SizeC(sh)
  {
    InRange(sh, q);
    EntryProduct(a, b, sh, BatchOf(sh, q), RowOf(sh, q), ColumnOf(sh, q))
  }

  lemma ProductAtPlace(a: seq<Sharing>, b: seq<Sharing>, sh: Shape, l: nat, i: nat, j: nat)
    requires Proper(sh) && |a| == SizeA(sh) && |b| == SizeB(sh) && l < sh.batch && i < sh.m && j < sh.s
    ensures AtC(sh, l, i, j) < SizeC(sh) && ProductAt(a, b, sh, AtC(sh, l, i, j)) == EntryProduct(a, b, sh, l, i, j)
  {
    PlaceOf(sh, l, i, j);
    hide EntryProduct, BatchOf, RowOf, ColumnOf, AtC, SizeC;
  }

  method MultiplyTransposed(c: array<Sharing>, a: array<Sharing>, bT: array<Sharing>, ghost sa: seq<Sharing>,
          ghost sb: seq<Sharing>,
                            sh: Shape, k: nat, net: Net)
    requires InStep(net) && 1 <= k <= W && Proper(sh) && a.Length == |sa| == SizeA(sh) && bT.Length == |sb| == SizeB(sh) && sa == a[..]
    requires c.Length == SizeC(sh) && c != a && c != bT && TransposedOf(bT, sb, sh) && AllAgreed(sa, k) && AllAgreed(sb, k)
    modifies c, net.p1, net.p2, net.p3
    ensures InStep(net) && Private(net) == old(Private(net))
    ensures forall q :: 0 <= q < c.Length ==> Additive(c[q], ProductAt(sa, sb, sh, q), k)
  {
    ghost var n, g0, g1 := c.Length, Slots(net, 0), Slots(net, 1);
    PairedAdvance(g0, g1, RequestSize(n, k));
    assert Valid(net);
    hide *;
    SizePositive(sh);
    var v, recv, v0, was, g := SendTotals(c, a, bT, sa, sb, sh, k, net);
    label Sent:
    ReceiveProducts(c, v, recv, k, net);
    KeptInStep(net);
    forall q | 0 <= q < n ensures Additive(c[q], ProductAt(sa, sb, sh, q), k) {
      assert Entry(old@Sent(c[q]), v0[q], was[q], DotsAt(sa, sb, sh, q), Drawn(g1, n, k, q), BytesFor(k));
      assert c[q] == Combine(old@Sent(c[q]), v[q], FromNext(v[q]), Drawn(g0, n, k, q), BytesFor(k));
      PairedDraws(g0, g1, n, k, q);
      SharedAt(was[q], old@Sent(c[q]), v0[q], v[q], sa, sb, sh, q, Drawn(g1, n, k, q), Drawn(g0, n, k, q), k);
    }
  }

  lemma SizePositive(sh: Shape)
    requires Proper(sh)
    ensures SizeC(sh) >= 1
  {
  }

  lemma SharedAt(c0: Sharing, c1: Sharing, v0: Public, v: Public, a: seq<Sharing>, b: seq<Sharing>, sh: Shape,
          q: nat, r1: Public, r0: Public, k: nat)
    requires k <= W && Proper(sh) && |a| == SizeA(sh) && |b| == SizeB(sh) && q < SizeC(sh) && AllAgreed(a, k) && AllAgreed(b, k)
    requires Entry(c1, v0, c0, DotsAt(a, b, sh, q), r1, BytesFor(k)) && v == MaskAll(v0, k) && r1 == FromNext(r0)
    ensures Additive(Combine(c1, v, FromNext(v), r0, BytesFor(k)), ProductAt(a, b, sh, q), k)
  {
    InRange(sh, q);
    hide Entry, Combine, MaskAll, LocalDots, DotSum, AllAgreed, Additive, BytesFor, FromNext, RowA, ColumnB, BatchOf, RowOf, ColumnOf, AtC, SizeC;
    var l, i, j := BatchOf(sh, q), RowOf(sh, q), ColumnOf(sh, q);
    OperandsAgreed(a, b, sh, l, i, j, k);
    EntryShared(c0, c1, v0, v, DotsAt(a, b, sh, q), r1, r0, RowA(a, sh, l, i), ColumnB(b, sh, l, j), k);
  }
}
