/**
 Convolution by matrix multiplication: `im2col` lays the image patches out as columns, and the batched
 product with the kernel matrix is the direct convolution.
 */
module Convolution {
  import opened Ring
  import opened Words
  import opened Sharings
  import opened Cluster
  import opened Multiplication
  import opened BitShares
  import opened MatMult

  datatype Layer = Layer(channels: nat, height: nat, width: nat, ksize: nat, stride: nat, batch: nat)

  /** The kernel fits the image. */
  predicate Fits(im: Layer) {
    && im.channels >= 1 && im.ksize >= 1 && im.stride >= 1 && im.batch >= 1
    && im.ksize <= im.height && im.ksize <= im.width
  }

  /** How often a window of size k fits into n cells in steps of the stride. */
  function Steps(n: nat, k: nat, stride: nat): (r: nat)
    requires stride >= 1 && k <= n
    ensures r >= 1
  {
    (n - k) / stride + 1
  }

  function Rows(im: Layer): (r: nat)
    requires Fits(im)
    ensures r >= 1
  {
    Steps(im.height, im.ksize, im.stride)
  }

  function Columns(im: Layer): (r: nat)
    requires Fits(im)
    ensures r >= 1
  {
    Steps(im.width, im.ksize, im.stride)
  }

  /** channels_col. */
  function Patch(im: Layer): (r: nat)
    requires Fits(im)
    ensures r >= 1
  {
    MulMono(im.ksize, 1, im.channels);
    MulMono(im.ksize, 1, Index(im.channels, im.ksize, 0));
    Index(Index(im.channels, im.ksize, 0), im.ksize, 0)
  }

  /** Cell (c, r, t) of a patch. */
  function InPatch(im: Layer, ch: nat, r: nat, t: nat): nat {
    Index(Index(ch, im.ksize, r), im.ksize, t)
  }

  /** Where pixel (y, x) of channel ch of image l stands. */
  function PixelAt(im: Layer, l: nat, ch: nat, y: nat, x: nat): nat {
    Index(Index(Index(l, im.channels, ch), im.height, y), im.width, x)
  }

  function Pixels(im: Layer): nat {
    PixelAt(im, im.batch, 0, 0, 0)
  }

  /** Where im2col puts cell c of the patch at (h, w) of image l. */
  function CellAt(im: Layer, l: nat, c: nat, h: nat, w: nat): nat
    requires Fits(im)
  {
    Index(Index(Index(l, Patch(im), c), Rows(im), h), Columns(im), w)
  }

  function Cells(im: Layer): nat
    requires Fits(im)
  {
    CellAt(im, im.batch, 0, 0, 0)
  }

  /** Every step of a window stays inside: the padding branch of im2col is never taken. */
  lemma WindowInside(n: nat, k: nat, stride: nat, h: nat, r: nat)
    requires stride >= 1 && k <= n && h < Steps(n, k, stride) && r < k
    ensures h * stride + r < n
  {
    MulMono(stride, h, (n - k) / stride);
  }

  lemma Level(i: nat, n: nat, nb: nat, t: nat)
    requires i < n && t < nb
    ensures Index(i, nb, t) < Index(n, nb, 0)
  {
    IndexParts(i, n, nb, t);
  }

  lemma PixelInside(im: Layer, l: nat, ch: nat, y: nat, x: nat)
    requires l < im.batch && ch < im.channels && y < im.height && x < im.width
    ensures PixelAt(im, l, ch, y, x) < Pixels(im)
  {
    hide Index;
    Level(l, im.batch, im.channels, ch);
    Level(Index(l, im.channels, ch), Index(im.batch, im.channels, 0), im.height, y);
    Level(Index(Index(l, im.channels, ch), im.height, y), Index(Index(im.batch, im.channels, 0), im.height, 0), im.width, x);
  }

  /** The patch cell c taken apart as the source does. */
  function ChannelOf(im: Layer, c: nat): nat
    requires im.ksize >= 1
  {
    Element(Element(c, im.ksize), im.ksize)
  }

  function RowOffset(im: Layer, c: nat): nat
    requires im.ksize >= 1
  {
    Offset(Element(c, im.ksize), im.ksize)
  }

  function ColumnOffset(im: Layer, c: nat): nat
    requires im.ksize >= 1
  {
    Offset(c, im.ksize)
  }

  lemma PatchParts(im: Layer, ch: nat, r: nat, t: nat)
    requires Fits(im) && ch < im.channels && r < im.ksize && t < im.ksize
    ensures var c := InPatch(im, ch, r, t);
      c < Patch(im) && ChannelOf(im, c) == ch && RowOffset(im, c) == r && ColumnOffset(im, c) == t
  {
    hide Index, Element, Offset;
    IndexParts(ch, im.channels, im.ksize, r);
    IndexParts(Index(ch, im.ksize, r), Index(im.channels, im.ksize, 0), im.ksize, t);
  }

  lemma PatchCell(im: Layer, c: nat)
    requires Fits(im) && c < Patch(im)
    ensures ChannelOf(im, c) < im.channels && RowOffset(im, c) < im.ksize && ColumnOffset(im, c) < im.ksize
    ensures InPatch(im, ChannelOf(im, c), RowOffset(im, c), ColumnOffset(im, c)) == c
  {
    var k := im.ksize;
    Unfold(c, k, Index(im.channels, k, 0));
    Unfold(c / k, k, im.channels);
  }

  lemma Unfold(q: nat, nb: nat, n: nat)
    requires nb >= 1 && q < Index(n, nb, 0)
    ensures Element(q, nb) < n && Offset(q, nb) < nb && Index(Element(q, nb), nb, Offset(q, nb)) == q
  {
  }

  // ---------- im2col ----------

  /** The pixel that goes to cell c of the patch at (h, w). */
  function SourceAt(im: Layer, l: nat, c: nat, h: nat, w: nat): nat
    requires Fits(im)
  {
    PixelAt(im, l, ChannelOf(im, c), RowOffset(im, c) + h * im.stride, ColumnOffset(im, c) + w * im.stride)
  }

  lemma SourceInside(im: Layer, l: nat, c: nat, h: nat, w: nat)
    requires Fits(im) && l < im.batch && c < Patch(im) && h < Rows(im) && w < Columns(im)
    ensures SourceAt(im, l, c, h, w) < Pixels(im)
  {
    hide PixelAt, Pixels, ChannelOf, RowOffset, ColumnOffset, Steps;
    PatchCell(im, c);
    WindowInside(im.height, im.ksize, im.stride, h, RowOffset(im, c));
    WindowInside(im.width, im.ksize, im.stride, w, ColumnOffset(im, c));
    PixelInside(im, l, ChannelOf(im, c), RowOffset(im, c) + h * im.stride, ColumnOffset(im, c) + w * im.stride);
  }

  /** The cells the loops reach before (l, c, h, w). */
  predicate Earlier(l: nat, c: nat, h: nat, w: nat, l': nat, c': nat, h': nat, w': nat) {
    l < l' || (l == l' && (c < c' || (c == c' && (h < h' || (h == h' && w < w')))))
  }

  /** Cell (l, c, h, w) holds its pixel. */
  ghost predicate Copied(res: array<Sharing>, a: array<Sharing>, im: Layer, l: nat, c: nat, h: nat, w: nat)
    requires Fits(im)
    reads res, a
  {
    CellAt(im, l, c, h, w) < res.Length && SourceAt(im, l, c, h, w) < a.Length
    && res[CellAt(im, l, c, h, w)] == a[SourceAt(im, l, c, h, w)]
  }

  ghost predicate CopiedBefore(res: array<Sharing>, a: array<Sharing>, im: Layer, l: nat, c: nat, h: nat, w: nat)
    requires Fits(im)
    reads res, a
  {
    forall l', c', h', w' ::
      (0 <= l' < im.batch && 0 <= c' < Patch(im) && 0 <= h' < Rows(im) && 0 <= w' < Columns(im) && Earlier(l', c', h', w', l, c, h, w))
      ==> Copied(res, a, im, l', c', h', w')
  }

  lemma CellInside(im: Layer, l: nat, c: nat, h: nat, w: nat)
    requires Fits(im) && l < im.batch && c < Patch(im) && h < Rows(im) && w < Columns(im)
    ensures CellAt(im, l, c, h, w) < Cells(im)
  {
    hide Index, Patch, Rows, Columns;
    Level(l, im.batch, Patch(im), c);
    Level(Index(l, Patch(im), c), Index(im.batch, Patch(im), 0), Rows(im), h);
    Level(Index(Index(l, Patch(im), c), Rows(im), h), Index(Index(im.batch, Patch(im), 0), Rows(im), 0), Columns(im), w);
  }

  /** Different cells have different places. */
  lemma CellsDiffer(im: Layer, l: nat, c: nat, h: nat, w: nat, l': nat, c': nat, h': nat, w': nat)
    requires Fits(im) && c < Patch(im) && h < Rows(im) && w < Columns(im) && c' < Patch(im) && h' < Rows(im) && w' < Columns(im)
    requires CellAt(im, l, c, h, w) == CellAt(im, l', c', h', w')
    ensures l == l' && c == c' && h == h' && w == w'
  {
    hide Index, Patch, Rows, Columns, Element, Offset;
    var x, x' := Index(l, Patch(im), c), Index(l', Patch(im), c');
    var y, y' := Index(x, Rows(im), h), Index(x', Rows(im), h');
    IndexParts(y, y + 1, Columns(im), w);
    IndexParts(y', y' + 1, Columns(im), w');
    IndexParts(x, x + 1, Rows(im), h);
    IndexParts(x', x' + 1, Rows(im), h');
    IndexParts(l, l + 1, Patch(im), c);
    IndexParts(l', l' + 1, Patch(im), c');
  }

  method CopyPixel(res: array<Sharing>, a: array<Sharing>, im: Layer, l: nat, c: nat, h: nat, w: nat)
    requires Fits(im) && res != a && res.Length == Cells(im) && a.Length == Pixels(im)
    requires l < im.batch && c < Patch(im) && h < Rows(im) && w < Columns(im) && CopiedBefore(res, a, im, l, c, h, w)
    modifies res
    ensures CopiedBefore(res, a, im, l, c, h, w + 1)
  {
    hide CellAt, SourceAt, Cells, Pixels, Patch, Rows, Columns;
    CellInside(im, l, c, h, w);
    SourceInside(im, l, c, h, w);
    res[CellAt(im, l, c, h, w)] := a[SourceAt(im, l, c, h, w)];
    forall l', c', h', w' | 0 <= l' < im.batch && 0 <= c' < Patch(im) && 0 <= h' < Rows(im) && 0 <= w' < Columns(im)
      && Earlier(l', c', h', w', l, c, h, w + 1)
      ensures Copied(res, a, im, l', c', h', w')
    {
      if CellAt(im, l, c, h, w) == CellAt(im, l', c', h', w') {
        CellsDiffer(im, l, c, h, w, l', c', h', w');
      } else {
        assert Earlier(l', c', h', w', l, c, h, w) || (l' == l && c' == c && h' == h && w' == w);
      }
    }
  }

  /** `im2col`: every cell of every patch. */
  method Im2Col(res: array<Sharing>, a: array<Sharing>, im: Layer)
    requires Fits(im) && res != a && res.Length == Cells(im) && a.Length == Pixels(im)
    modifies res
    ensures forall l, c, h, w :: 0 <= l < im.batch && 0 <= c < Patch(im) && 0 <= h < Rows(im) && 0 <= w < Columns(im) ==>
      Copied(res, a, im, l, c, h, w)
  {
    hide CellAt, SourceAt, Cells, Pixels, Patch, Rows, Columns, Copied;
    for l := 0 to im.batch
      invariant CopiedBefore(res, a, im, l, 0, 0, 0)
    {
      for c := 0 to Patch(im)
        invariant CopiedBefore(res, a, im, l, c, 0, 0)
      {
        for h := 0 to Rows(im)
          invariant CopiedBefore(res, a, im, l, c, h, 0)
        {
          for w := 0 to Columns(im)
            invariant CopiedBefore(res, a, im, l, c, h, w)
          {
            CopyPixel(res, a, im, l, c, h, w);
          }
        }
      }
    }
  }

  // ---------- direct convolution ----------

  /** One output value: image l, kernel o, window (h, v). */
  datatype Spot = Spot(l: nat, o: nat, h: nat, v: nat)

  predicate OnGrid(im: Layer, outputs: nat, p: Spot)
    requires Fits(im)
  {
    p.l < im.batch && p.o < outputs && p.h < Rows(im) && p.v < Columns(im)
  }

  /** Kernel o's weight for cell (ch, r, t) of a patch. */
  function WeightAt(im: Layer, o: nat, ch: nat, r: nat, t: nat): nat
    requires Fits(im)
  {
    Index(o, Patch(im), InPatch(im, ch, r, t))
  }

  ghost predicate Sized(w: seq<Sharing>, x: seq<Sharing>, im: Layer, outputs: nat) {
    Fits(im) && |w| == Index(outputs, Patch(im), 0) && |x| == Pixels(im)
  }

  /** The product of a weight and the pixel under it. */
  ghost function Term(w: seq<Sharing>, x: seq<Sharing>, im: Layer, outputs: nat, p: Spot, ch: nat, r: nat, t: nat): int
    requires Sized(w, x, im, outputs) && OnGrid(im, outputs, p) && ch < im.channels && r < im.ksize && t < im.ksize
  {
    TermInside(im, outputs, p, ch, r, t);
    Sum(w[WeightAt(im, p.o, ch, r, t)]) * Sum(x[PixelAt(im, p.l, ch, r + p.h * im.stride, t + p.v * im.stride)])
  }

  lemma TermInside(im: Layer, outputs: nat, p: Spot, ch: nat, r: nat, t: nat)
    requires Fits(im) && OnGrid(im, outputs, p) && ch < im.channels && r < im.ksize && t < im.ksize
    ensures WeightAt(im, p.o, ch, r, t) < Index(outputs, Patch(im), 0)
    ensures PixelAt(im, p.l, ch, r + p.h * im.stride, t + p.v * im.stride) < Pixels(im)
  {
    hide PixelAt, Pixels, Steps, Patch, InPatch, Index;
    PatchParts(im, ch, r, t);
    Level(p.o, outputs, Patch(im), InPatch(im, ch, r, t));
    WindowInside(im.height, im.ksize, im.stride, p.h, r);
    WindowInside(im.width, im.ksize, im.stride, p.v, t);
    PixelInside(im, p.l, ch, r + p.h * im.stride, t + p.v * im.stride);
  }

  /** The first n products of row r of channel ch, the first n rows of channel ch, the first n channels. */
  ghost function RowSum(w: seq<Sharing>, x: seq<Sharing>, im: Layer, outputs: nat, p: Spot, ch: nat, r: nat, n: nat): int
    requires Sized(w, x, im, outputs) && OnGrid(im, outputs, p) && ch < im.channels && r < im.ksize && n <= im.ksize
  {
    if n == 0 then 0 else RowSum(w, x, im, outputs, p, ch, r, n - 1) + Term(w, x, im, outputs, p, ch, r, n - 1)
  }

  ghost function PlaneSum(w: seq<Sharing>, x: seq<Sharing>, im: Layer, outputs: nat, p: Spot, ch: nat, n: nat): int
    requires Sized(w, x, im, outputs) && OnGrid(im, outputs, p) && ch < im.channels && n <= im.ksize
  {
    if n == 0 then 0 else PlaneSum(w, x, im, outputs, p, ch, n - 1) + RowSum(w, x, im, outputs, p, ch, n - 1, im.ksize)
  }

  ghost function ConvolutionSum(w: seq<Sharing>, x: seq<Sharing>, im: Layer, outputs: nat, p: Spot, n: nat): int
    requires Sized(w, x, im, outputs) && OnGrid(im, outputs, p) && n <= im.channels
  {
    if n == 0 then 0 else ConvolutionSum(w, x, im, outputs, p, n - 1) + PlaneSum(w, x, im, outputs, p, n - 1, im.ksize)
  }

  // The sums depend on the operands' secrets only.

  lemma TermCong(w: seq<Sharing>, x: seq<Sharing>, w': seq<Sharing>, x': seq<Sharing>, im: Layer, outputs: nat, p: Spot,
          ch: nat, r: nat, t: nat, k: nat)
    requires Sized(w, x, im, outputs) && OnGrid(im, outputs, p) && ch < im.channels && r < im.ksize && t < im.ksize
    requires SameSecrets(w, w', k) && SameSecrets(x, x', k)
    ensures Cong(Term(w, x, im, outputs, p, ch, r, t), Term(w', x', im, outputs, p, ch, r, t), k)
  {
    hide Cong, Sum, WeightAt, PixelAt, Patch, Pixels;
    TermInside(im, outputs, p, ch, r, t);
    var i, j := WeightAt(im, p.o, ch, r, t), PixelAt(im, p.l, ch, r + p.h * im.stride, t + p.v * im.stride);
    CongMul(Sum(w[i]), Sum(w'[i]), Sum(x[j]), Sum(x'[j]), k);
  }

  lemma {:induction false} RowSumCong(w: seq<Sharing>, x: seq<Sharing>, w': seq<Sharing>, x': seq<Sharing>, im: Layer,
          outputs: nat, p: Spot, ch: nat, r: nat, n: nat, k: nat)
    requires Sized(w, x, im, outputs) && OnGrid(im, outputs, p) && ch < im.channels && r < im.ksize && n <= im.ksize
    requires SameSecrets(w, w', k) && SameSecrets(x, x', k)
    ensures Cong(RowSum(w, x, im, outputs, p, ch, r, n), RowSum(w', x', im, outputs, p, ch, r, n), k)
    decreases n
  {
    hide Cong, Term, Patch, Pixels, OnGrid;
    CongRefl(0, k);
    if n > 0 {
      RowSumCong(w, x, w', x', im, outputs, p, ch, r, n - 1, k);
      TermCong(w, x, w', x', im, outputs, p, ch, r, n - 1, k);
      CongAdd(RowSum(w, x, im, outputs, p, ch, r, n - 1), RowSum(w', x', im, outputs, p, ch, r, n - 1),
              Term(w, x, im, outputs, p, ch, r, n - 1), Term(w', x', im, outputs, p, ch, r, n - 1), k);
    }
  }

  lemma {:induction false} PlaneSumCong(w: seq<Sharing>, x: seq<Sharing>, w': seq<Sharing>, x': seq<Sharing>, im: Layer,
          outputs: nat, p: Spot, ch: nat, n: nat, k: nat)
    requires Sized(w, x, im, outputs) && OnGrid(im, outputs, p) && ch < im.channels && n <= im.ksize
    requires SameSecrets(w, w', k) && SameSecrets(x, x', k)
    ensures Cong(PlaneSum(w, x, im, outputs, p, ch, n), PlaneSum(w', x', im, outputs, p, ch, n), k)
    decreases n
  {
    hide Cong, RowSum, Patch, Pixels, OnGrid;
    CongRefl(0, k);
    if n > 0 {
      PlaneSumCong(w, x, w', x', im, outputs, p, ch, n - 1, k);
      RowSumCong(w, x, w', x', im, outputs, p, ch, n - 1, im.ksize, k);
      CongAdd(PlaneSum(w, x, im, outputs, p, ch, n - 1), PlaneSum(w', x', im, outputs, p, ch, n - 1),
              RowSum(w, x, im, outputs, p, ch, n - 1, im.ksize), RowSum(w', x', im, outputs, p, ch, n - 1, im.ksize), k);
    }
  }

  lemma {:induction false} ConvolutionSumCong(w: seq<Sharing>, x: seq<Sharing>, w': seq<Sharing>, x': seq<Sharing>,
          im: Layer, outputs: nat, p: Spot, n: nat, k: nat)
    requires Sized(w, x, im, outputs) && OnGrid(im, outputs, p) && n <= im.channels
    requires SameSecrets(w, w', k) && SameSecrets(x, x', k)
    ensures Cong(ConvolutionSum(w, x, im, outputs, p, n), ConvolutionSum(w', x', im, outputs, p, n), k)
    decreases n
  {
    hide Cong, PlaneSum, Patch, Pixels, OnGrid;
    CongRefl(0, k);
    if n > 0 {
      ConvolutionSumCong(w, x, w', x', im, outputs, p, n - 1, k);
      PlaneSumCong(w, x, w', x', im, outputs, p, n - 1, im.ksize, k);
      CongAdd(ConvolutionSum(w, x, im, outputs, p, n - 1), ConvolutionSum(w', x', im, outputs, p, n - 1),
              PlaneSum(w, x, im, outputs, p, n - 1, im.ksize), PlaneSum(w', x', im, outputs, p, n - 1, im.ksize), k);
    }
  }

  // ---------- positions, number by number ----------

  lemma PixelPosition(im: Layer, l: nat, ch: nat, y: nat, x: nat)
    ensures PixelAt(im, l, ch, y, x) == ((l * im.channels + ch) * im.height + y) * im.width + x
  {
  }

  lemma WeightPosition(im: Layer, o: nat, ch: nat, r: nat, t: nat)
    requires Fits(im)
    ensures Patch(im) == im.channels * im.ksize * im.ksize
    ensures WeightAt(im, o, ch, r, t) == o * (im.channels * im.ksize * im.ksize) + ((ch * im.ksize + r) * im.ksize + t)
  {
  }

  lemma CellPosition(im: Layer, l: nat, c: nat, h: nat, w: nat)
    requires Fits(im)
    ensures Rows(im) == (im.height - im.ksize) / im.stride + 1 && Columns(im) == (im.width - im.ksize) / im.stride + 1
    ensures CellAt(im, l, c, h, w) == ((l * (im.channels * im.ksize * im.ksize) + c) * Rows(im) + h) * Columns(im) + w
  {
    hide Rows, Columns;
    assert Patch(im) == im.channels * im.ksize * im.ksize;
    RowsAre(im);
  }

  lemma RowsAre(im: Layer)
    requires Fits(im)
    ensures Rows(im) == (im.height - im.ksize) / im.stride + 1 && Columns(im) == (im.width - im.ksize) / im.stride + 1
  {
  }

  /** Cell (ch, r, t) of the patch at (h, w) is pixel (r + h * stride, t + w * stride) of channel ch. */
  lemma SourcePosition(im: Layer, l: nat, ch: nat, r: nat, t: nat, h: nat, w: nat)
    requires Fits(im) && ch < im.channels && r < im.ksize && t < im.ksize
    ensures SourceAt(im, l, (ch * im.ksize + r) * im.ksize + t, h, w)
      == ((l * im.channels + ch) * im.height + (r + h * im.stride)) * im.width + (t + w * im.stride)
  {
    PatchParts(im, ch, r, t);
    assert InPatch(im, ch, r, t) == (ch * im.ksize + r) * im.ksize + t;
    hide ChannelOf, RowOffset, ColumnOffset, Patch;
    PixelPosition(im, l, ch, r + h * im.stride, t + w * im.stride);
  }

  lemma OutputPosition(im: Layer, outputs: nat, p: Spot)
    requires Fits(im)
    ensures OutputAt(im, outputs, p) == ((p.l * outputs + p.o) * Rows(im) + p.h) * Columns(im) + p.v
  {
    hide Rows, Columns, Patch;
    Regroup4(p.l, p.o, p.h, p.v, outputs, Rows(im), Columns(im));
  }

  // ---------- the direct convolution through its kernels ----------

  /** Place q of the kernel stored at w0 holds 1 if it is q0, and 0 otherwise. */
  ghost predicate DeltaCell(w: seq<Sharing>, w0: nat, q: nat, q0: nat) {
    w0 + q < |w| && Sum(w[w0 + q]) == if q == q0 then 1 else 0
  }

  /** The kernel of `size` weights stored at w0 is zero but for one 1 at place q0. */
  ghost predicate IsDelta(w: seq<Sharing>, w0: nat, size: nat, q0: nat) {
    forall q :: 0 <= q < size ==> DeltaCell(w, w0, q, q0)
  }

  lemma SamePlace(im: Layer, ch: nat, r: nat, t: nat, ch': nat, r': nat, t': nat)
    requires Fits(im) && ch < im.channels && r < im.ksize && t < im.ksize
    requires ch' < im.channels && r' < im.ksize && t' < im.ksize
    ensures InPatch(im, ch', r', t') < Patch(im)
    ensures InPatch(im, ch', r', t') == InPatch(im, ch, r, t) <==> ch' == ch && r' == r && t' == t
  {
    hide Patch, InPatch, ChannelOf, RowOffset, ColumnOffset;
    PatchParts(im, ch, r, t);
    PatchParts(im, ch', r', t');
  }

  lemma DeltaTerm(w: seq<Sharing>, x: seq<Sharing>, im: Layer, outputs: nat, p: Spot, ch: nat, r: nat, t: nat,
          ch': nat, r': nat, t': nat)
    requires Sized(w, x, im, outputs) && OnGrid(im, outputs, p) && ch < im.channels && r < im.ksize && t < im.ksize
    requires ch' < im.channels && r' < im.ksize && t' < im.ksize
    requires IsDelta(w, p.o * Patch(im), Patch(im), InPatch(im, ch, r, t))
    ensures PixelAt(im, p.l, ch, r + p.h * im.stride, t + p.v * im.stride) < |x|
    ensures Term(w, x, im, outputs, p, ch', r', t')
      == if ch' == ch && r' == r && t' == t then Sum(x[PixelAt(im, p.l, ch, r + p.h * im.stride, t + p.v * im.stride)]) else 0
  {
    hide Sum, PixelAt, Pixels, Patch, InPatch, Rows, Columns;
    TermInside(im, outputs, p, ch, r, t);
    TermInside(im, outputs, p, ch', r', t');
    SamePlace(im, ch, r, t, ch', r', t');
    assert DeltaCell(w, p.o * Patch(im), InPatch(im, ch', r', t'), InPatch(im, ch, r, t));
    assert WeightAt(im, p.o, ch', r', t') == p.o * Patch(im) + InPatch(im, ch', r', t');
    OneOrZero(Sum(x[PixelAt(im, p.l, ch', r' + p.h * im.stride, t' + p.v * im.stride)]), Sum(w[WeightAt(im, p.o, ch', r', t')]));
  }

  lemma {:induction false} DeltaRow(w: seq<Sharing>, x: seq<Sharing>, im: Layer, outputs: nat, p: Spot, ch: nat, r: nat,
          t: nat, ch': nat, r': nat, n: nat)
    requires Sized(w, x, im, outputs) && OnGrid(im, outputs, p) && ch < im.channels && r < im.ksize && t < im.ksize
    requires ch' < im.channels && r' < im.ksize && n <= im.ksize
    requires IsDelta(w, p.o * Patch(im), Patch(im), InPatch(im, ch, r, t))
    ensures PixelAt(im, p.l, ch, r + p.h * im.stride, t + p.v * im.stride) < |x|
    ensures RowSum(w, x, im, outputs, p, ch', r', n)
      == if ch' == ch && r' == r && t < n then Sum(x[PixelAt(im, p.l, ch, r + p.h * im.stride, t + p.v * im.stride)]) else 0
    decreases n
  {
    hide Sum, PixelAt, Pixels, Patch, InPatch, Rows, Columns, Term, IsDelta;
    TermInside(im, outputs, p, ch, r, t);
    if n > 0 {
      DeltaRow(w, x, im, outputs, p, ch, r, t, ch', r', n - 1);
      DeltaTerm(w, x, im, outputs, p, ch, r, t, ch', r', n - 1);
    }
  }

  lemma {:induction false} DeltaPlane(w: seq<Sharing>, x: seq<Sharing>, im: Layer, outputs: nat, p: Spot, ch: nat, r: nat,
          t: nat, ch': nat, n: nat)
    requires Sized(w, x, im, outputs) && OnGrid(im, outputs, p) && ch < im.channels && r < im.ksize && t < im.ksize
    requires ch' < im.channels && n <= im.ksize && IsDelta(w, p.o * Patch(im), Patch(im), InPatch(im, ch, r, t))
    ensures PixelAt(im, p.l, ch, r + p.h * im.stride, t + p.v * im.stride) < |x|
    ensures PlaneSum(w, x, im, outputs, p, ch', n)
      == if ch' == ch && r < n then Sum(x[PixelAt(im, p.l, ch, r + p.h * im.stride, t + p.v * im.stride)]) else 0
    decreases n
  {
    hide Sum, PixelAt, Pixels, Patch, InPatch, Rows, Columns, RowSum, IsDelta;
    TermInside(im, outputs, p, ch, r, t);
    if n > 0 {
      DeltaPlane(w, x, im, outputs, p, ch, r, t, ch', n - 1);
      DeltaRow(w, x, im, outputs, p, ch, r, t, ch', n - 1, im.ksize);
    }
  }

  lemma {:induction false} DeltaChannels(w: seq<Sharing>, x: seq<Sharing>, im: Layer, outputs: nat, p: Spot, ch: nat,
          r: nat, t: nat, n: nat)
    requires Sized(w, x, im, outputs) && OnGrid(im, outputs, p) && ch < im.channels && r < im.ksize && t < im.ksize
    requires n <= im.channels && IsDelta(w, p.o * Patch(im), Patch(im), InPatch(im, ch, r, t))
    ensures PixelAt(im, p.l, ch, r + p.h * im.stride, t + p.v * im.stride) < |x|
    ensures ConvolutionSum(w, x, im, outputs, p, n)
      == if ch < n then Sum(x[PixelAt(im, p.l, ch, r + p.h * im.stride, t + p.v * im.stride)]) else 0
    decreases n
  {
    hide Sum, PixelAt, Pixels, Patch, InPatch, Rows, Columns, PlaneSum, IsDelta;
    TermInside(im, outputs, p, ch, r, t);
    if n > 0 {
      DeltaChannels(w, x, im, outputs, p, ch, r, t, n - 1);
      DeltaPlane(w, x, im, outputs, p, ch, r, t, n - 1, im.ksize);
    }
  }

  /**
   A kernel that is 1 at channel ch, row r and column t and 0 elsewhere picks one pixel of the window: row
   r + h * stride, column t + v * stride of channel ch.
   */
  lemma DeltaKernel(w: seq<Sharing>, x: seq<Sharing>, im: Layer, outputs: nat, p: Spot, ch: nat, r: nat, t: nat)
    requires Sized(w, x, im, outputs) && OnGrid(im, outputs, p) && ch < im.channels && r < im.ksize && t < im.ksize
    requires IsDelta(w, p.o * (im.channels * im.ksize * im.ksize), im.channels * im.ksize * im.ksize,
                     (ch * im.ksize + r) * im.ksize + t)
    ensures
      var at := PixelAt(im, p.l, ch, r + p.h * im.stride, t + p.v * im.stride);
      && at == ((p.l * im.channels + ch) * im.height + (r + p.h * im.stride)) * im.width + (t + p.v * im.stride)
      && at < |x| && ConvolutionSum(w, x, im, outputs, p, im.channels) == Sum(x[at])
  {
    WeightPosition(im, p.o, ch, r, t);
    PixelPosition(im, p.l, ch, r + p.h * im.stride, t + p.v * im.stride);
    assert InPatch(im, ch, r, t) == (ch * im.ksize + r) * im.ksize + t;
    hide *;
    DeltaChannels(w, x, im, outputs, p, ch, r, t, im.channels);
  }

  /** w is c1 times w1 plus c2 times w2. */
  ghost predicate Combination(w: seq<Sharing>, w1: seq<Sharing>, w2: seq<Sharing>, c1: int, c2: int) {
    |w| == |w1| == |w2| && forall i :: 0 <= i < |w| ==> Sum(w[i]) == c1 * Sum(w1[i]) + c2 * Sum(w2[i])
  }

  lemma Distributes(c1: int, c2: int, u: int, v: int, y: int)
    ensures (c1 * u + c2 * v) * y == c1 * (u * y) + c2 * (v * y)
  {
  }

  lemma AddsUp(c1: int, c2: int, u: int, v: int, u': int, v': int)
    ensures (c1 * u + c2 * v) + (c1 * u' + c2 * v') == c1 * (u + u') + c2 * (v + v')
  {
  }

  lemma TermLinear(w: seq<Sharing>, w1: seq<Sharing>, w2: seq<Sharing>, c1: int, c2: int, x: seq<Sharing>, im: Layer,
          outputs: nat, p: Spot, ch: nat, r: nat, t: nat)
    requires Sized(w, x, im, outputs) && OnGrid(im, outputs, p) && ch < im.channels && r < im.ksize && t < im.ksize
    requires Combination(w, w1, w2, c1, c2)
    ensures Term(w, x, im, outputs, p, ch, r, t)
      == c1 * Term(w1, x, im, outputs, p, ch, r, t) + c2 * Term(w2, x, im, outputs, p, ch, r, t)
  {
    hide Sum, WeightAt, PixelAt, Pixels, Patch, Rows, Columns;
    TermInside(im, outputs, p, ch, r, t);
    var i, j := WeightAt(im, p.o, ch, r, t), PixelAt(im, p.l, ch, r + p.h * im.stride, t + p.v * im.stride);
    Distributes(c1, c2, Sum(w1[i]), Sum(w2[i]), Sum(x[j]));
  }

  lemma {:induction false} RowLinear(w: seq<Sharing>, w1: seq<Sharing>, w2: seq<Sharing>, c1: int, c2: int,
          x: seq<Sharing>, im: Layer, outputs: nat, p: Spot, ch: nat, r: nat, n: nat)
    requires Sized(w, x, im, outputs) && OnGrid(im, outputs, p) && ch < im.channels && r < im.ksize && n <= im.ksize
    requires Combination(w, w1, w2, c1, c2)
    ensures RowSum(w, x, im, outputs, p, ch, r, n)
      == c1 * RowSum(w1, x, im, outputs, p, ch, r, n) + c2 * RowSum(w2, x, im, outputs, p, ch, r, n)
    decreases n
  {
    hide Term, Patch, Pixels, OnGrid;
    if n > 0 {
      RowLinear(w, w1, w2, c1, c2, x, im, outputs, p, ch, r, n - 1);
      TermLinear(w, w1, w2, c1, c2, x, im, outputs, p, ch, r, n - 1);
      AddsUp(c1, c2, RowSum(w1, x, im, outputs, p, ch, r, n - 1), RowSum(w2, x, im, outputs, p, ch, r, n - 1),
             Term(w1, x, im, outputs, p, ch, r, n - 1), Term(w2, x, im, outputs, p, ch, r, n - 1));
    }
  }

  lemma {:induction false} PlaneLinear(w: seq<Sharing>, w1: seq<Sharing>, w2: seq<Sharing>, c1: int, c2: int,
          x: seq<Sharing>, im: Layer, outputs: nat, p: Spot, ch: nat, n: nat)
    requires Sized(w, x, im, outputs) && OnGrid(im, outputs, p) && ch < im.channels && n <= im.ksize
    requires Combination(w, w1, w2, c1, c2)
    ensures PlaneSum(w, x, im, outputs, p, ch, n)
      == c1 * PlaneSum(w1, x, im, outputs, p, ch, n) + c2 * PlaneSum(w2, x, im, outputs, p, ch, n)
    decreases n
  {
    hide RowSum, Patch, Pixels, OnGrid;
    if n > 0 {
      PlaneLinear(w, w1, w2, c1, c2, x, im, outputs, p, ch, n - 1);
      RowLinear(w, w1, w2, c1, c2, x, im, outputs, p, ch, n - 1, im.ksize);
      AddsUp(c1, c2, PlaneSum(w1, x, im, outputs, p, ch, n - 1), PlaneSum(w2, x, im, outputs, p, ch, n - 1),
             RowSum(w1, x, im, outputs, p, ch, n - 1, im.ksize), RowSum(w2, x, im, outputs, p, ch, n - 1, im.ksize));
    }
  }

  /** The convolution is linear in the weights. */
  lemma {:induction false} ConvolutionLinear(w: seq<Sharing>, w1: seq<Sharing>, w2: seq<Sharing>, c1: int, c2: int,
          x: seq<Sharing>, im: Layer, outputs: nat, p: Spot, n: nat)
    requires Sized(w, x, im, outputs) && OnGrid(im, outputs, p) && n <= im.channels && Combination(w, w1, w2, c1, c2)
    ensures ConvolutionSum(w, x, im, outputs, p, n)
      == c1 * ConvolutionSum(w1, x, im, outputs, p, n) + c2 * ConvolutionSum(w2, x, im, outputs, p, n)
    decreases n
  {
    hide PlaneSum, Patch, Pixels, OnGrid;
    if n > 0 {
      ConvolutionLinear(w, w1, w2, c1, c2, x, im, outputs, p, n - 1);
      PlaneLinear(w, w1, w2, c1, c2, x, im, outputs, p, n - 1, im.ksize);
      AddsUp(c1, c2, ConvolutionSum(w1, x, im, outputs, p, n - 1), ConvolutionSum(w2, x, im, outputs, p, n - 1),
             PlaneSum(w1, x, im, outputs, p, n - 1, im.ksize), PlaneSum(w2, x, im, outputs, p, n - 1, im.ksize));
    }
  }

  /** a and b hold the weights and the pixels of the window, patch cell by patch cell. */
  ghost predicate Window(a: seq<Sharing>, b: seq<Sharing>, w: seq<Sharing>, x: seq<Sharing>, im: Layer, outputs: nat,
          p: Spot) {
    && Sized(w, x, im, outputs) && OnGrid(im, outputs, p) && |a| == |b| == Patch(im)
    && forall ch, r, t :: 0 <= ch < im.channels && 0 <= r < im.ksize && 0 <= t < im.ksize ==> WindowCell(a, b, w, x, im, outputs, p, ch, r, t)
  }

  ghost predicate WindowCell(a: seq<Sharing>, b: seq<Sharing>, w: seq<Sharing>, x: seq<Sharing>, im: Layer,
          outputs: nat, p: Spot, ch: nat, r: nat, t: nat)
    requires Sized(w, x, im, outputs) && OnGrid(im, outputs, p) && |a| == |b| == Patch(im)
    requires ch < im.channels && r < im.ksize && t < im.ksize
  {
    InPatch(im, ch, r, t) < |a| && Sum(a[InPatch(im, ch, r, t)]) * Sum(b[InPatch(im, ch, r, t)]) == Term(w, x, im, outputs, p, ch, r, t)
  }

  /** The first c products. */
  function Partial(a: seq<Sharing>, b: seq<Sharing>, c: nat): int
    requires |a| == |b|
  {
    if c <= |a| then DotSum(a[..c], b[..c]) else 0
  }

  lemma PrefixStep(a: seq<Sharing>, b: seq<Sharing>, c: nat)
    requires |a| == |b| && c < |a|
    ensures Partial(a, b, c + 1) == Partial(a, b, c) + Sum(a[c]) * Sum(b[c])
  {
    hide Sum;
    assert a[..c + 1][..c] == a[..c] && b[..c + 1][..c] == b[..c];
  }

  lemma {:induction false} RowPrefix(a: seq<Sharing>, b: seq<Sharing>, w: seq<Sharing>, x: seq<Sharing>, im: Layer,
          outputs: nat, p: Spot, ch: nat, r: nat, n: nat)
    requires Window(a, b, w, x, im, outputs, p) && ch < im.channels && r < im.ksize && n <= im.ksize
    ensures InPatch(im, ch, r, n) <= |a|
    ensures Partial(a, b, InPatch(im, ch, r, n))
         == Partial(a, b, InPatch(im, ch, r, 0)) + RowSum(w, x, im, outputs, p, ch, r, n)
  {
    hide Partial, Sum, Term, Patch, WeightAt, PixelAt, Pixels, OnGrid, Index;
    NextCell(im, ch, r, if n == 0 then 0 else n - 1);
    PatchParts(im, ch, r, if n == 0 then 0 else n - 1);
    if n > 0 {
      RowPrefix(a, b, w, x, im, outputs, p, ch, r, n - 1);
      assert WindowCell(a, b, w, x, im, outputs, p, ch, r, n - 1);
      PrefixStep(a, b, InPatch(im, ch, r, n - 1));
    }
  }

  lemma NextCell(im: Layer, ch: nat, r: nat, t: nat)
    ensures InPatch(im, ch, r, t + 1) == InPatch(im, ch, r, t) + 1
    ensures InPatch(im, ch, r, im.ksize) == InPatch(im, ch, r + 1, 0)
    ensures InPatch(im, ch, im.ksize, 0) == InPatch(im, ch + 1, 0, 0)
  {
  }

  lemma {:induction false} PlanePrefix(a: seq<Sharing>, b: seq<Sharing>, w: seq<Sharing>, x: seq<Sharing>, im: Layer,
          outputs: nat, p: Spot, ch: nat, n: nat)
    requires Window(a, b, w, x, im, outputs, p) && ch < im.channels && n <= im.ksize
    ensures InPatch(im, ch, n, 0) <= |a|
    ensures Partial(a, b, InPatch(im, ch, n, 0))
         == Partial(a, b, InPatch(im, ch, 0, 0)) + PlaneSum(w, x, im, outputs, p, ch, n)
  {
    hide Partial, RowSum, InPatch, Patch, OnGrid, WindowCell;
    PatchParts(im, ch, 0, 0);
    if n > 0 {
      PlanePrefix(a, b, w, x, im, outputs, p, ch, n - 1);
      RowPrefix(a, b, w, x, im, outputs, p, ch, n - 1, im.ksize);
      NextCell(im, ch, n - 1, 0);
    }
  }

  lemma {:induction false} ChannelPrefix(a: seq<Sharing>, b: seq<Sharing>, w: seq<Sharing>, x: seq<Sharing>,
          im: Layer, outputs: nat, p: Spot, n: nat)
    requires Window(a, b, w, x, im, outputs, p) && n <= im.channels
    ensures InPatch(im, n, 0, 0) <= |a|
    ensures Partial(a, b, InPatch(im, n, 0, 0)) == ConvolutionSum(w, x, im, outputs, p, n)
  {
    hide PlaneSum, Patch, OnGrid, WindowCell;
    if n == 0 {
      assert InPatch(im, 0, 0, 0) == 0;
    } else {
      ChannelPrefix(a, b, w, x, im, outputs, p, n - 1);
      PlanePrefix(a, b, w, x, im, outputs, p, n - 1, im.ksize);
      NextCell(im, n - 1, 0, 0);
      hide Partial, InPatch;
    }
  }

  /** A row of weights times a column of patch cells is the convolution at that spot. */
  lemma DotIsConvolution(a: seq<Sharing>, b: seq<Sharing>, w: seq<Sharing>, x: seq<Sharing>, im: Layer, outputs: nat,
          p: Spot)
    requires Window(a, b, w, x, im, outputs, p)
    ensures DotSum(a, b) == ConvolutionSum(w, x, im, outputs, p, im.channels)
  {
    ChannelPrefix(a, b, w, x, im, outputs, p, im.channels);
    WholePatch(im);
    assert a[..|a|] == a && b[..|b|] == b;
  }

  lemma WholePatch(im: Layer)
    requires Fits(im)
    ensures InPatch(im, im.channels, 0, 0) == Patch(im)
  {
  }

  // ---------- the layer ----------

  /** outputs x patch weights times patch x windows cells; one kernel matrix for the whole batch. */
  function ShapeOf(im: Layer, outputs: nat): Shape
    requires Fits(im)
  {
    Shape(outputs, Patch(im), Index(Rows(im), Columns(im), 0), im.batch, 0, 1)
  }

  lemma ShapeProper(im: Layer, outputs: nat)
    requires Fits(im) && outputs >= 1
    ensures Proper(ShapeOf(im, outputs))
  {
  }

  /** im2col's layout is the right operand's. */
  lemma CellIsEntry(im: Layer, outputs: nat, l: nat, c: nat, h: nat, v: nat)
    requires Fits(im)
    ensures CellAt(im, l, c, h, v) == AtB(ShapeOf(im, outputs), l, c, Index(h, Columns(im), v))
    ensures Cells(im) == SizeB(ShapeOf(im, outputs))
  {
    hide Patch, Rows, Columns;
    Regroup4(l, c, h, v, Patch(im), Rows(im), Columns(im));
    Regroup4(im.batch, 0, 0, 0, Patch(im), Rows(im), Columns(im));
  }

  lemma Regroup4(l: nat, c: nat, h: nat, v: nat, p: nat, r: nat, s: nat)
    ensures Index(Index(Index(l, p, c), r, h), s, v) == Index(l, p * Index(r, s, 0), Index(c, Index(r, s, 0), Index(h, s, v)))
  {
  }

  lemma WeightIsEntry(im: Layer, outputs: nat, l: nat, o: nat, c: nat)
    requires Fits(im)
    ensures AtA(ShapeOf(im, outputs), l, o, c) == Index(o, Patch(im), c)
    ensures SizeA(ShapeOf(im, outputs)) == Index(outputs, Patch(im), 0)
  {
  }

  lemma WindowIndex(im: Layer, outputs: nat, p: Spot)
    requires Fits(im) && OnGrid(im, outputs, p)
    ensures Index(p.h, Columns(im), p.v) < ShapeOf(im, outputs).s
  {
    Level(p.h, Rows(im), Columns(im), p.v);
  }

  /** The row of weights and the column of cells of one output are its window. */
  lemma EntryIsWindow(cols: array<Sharing>, x: array<Sharing>, sw: seq<Sharing>, im: Layer, outputs: nat, p: Spot)
    requires Fits(im) && outputs >= 1 && OnGrid(im, outputs, p) && Proper(ShapeOf(im, outputs))
    requires |sw| == SizeA(ShapeOf(im, outputs)) && cols.Length == SizeB(ShapeOf(im, outputs)) && x.Length == Pixels(im)
    requires Index(p.h, Columns(im), p.v) < ShapeOf(im, outputs).s
    requires forall l, c, h, w :: 0 <= l < im.batch && 0 <= c < Patch(im) && 0 <= h < Rows(im) && 0 <= w < Columns(im) ==>
      Copied(cols, x, im, l, c, h, w)
    ensures
      var sh, j := ShapeOf(im, outputs), Index(p.h, Columns(im), p.v);
      Window(RowA(sw, sh, p.l, p.o), ColumnB(cols[..], sh, p.l, j), sw, x[..], im, outputs, p)
  {
    var sh, j := ShapeOf(im, outputs), Index(p.h, Columns(im), p.v);
    var a, b := RowA(sw, sh, p.l, p.o), ColumnB(cols[..], sh, p.l, j);
    WeightIsEntry(im, outputs, p.l, p.o, 0);
    forall ch, r, t | 0 <= ch < im.channels && 0 <= r < im.ksize && 0 <= t < im.ksize
      ensures WindowCell(a, b, sw, x[..], im, outputs, p, ch, r, t)
    {
      CellOfWindow(cols, x, sw, im, outputs, p, ch, r, t);
    }
  }

  lemma CellOfWindow(cols: array<Sharing>, x: array<Sharing>, sw: seq<Sharing>, im: Layer, outputs: nat, p: Spot,
          ch: nat, r: nat, t: nat)
    requires Fits(im) && outputs >= 1 && OnGrid(im, outputs, p) && Proper(ShapeOf(im, outputs))
    requires |sw| == SizeA(ShapeOf(im, outputs)) && cols.Length == SizeB(ShapeOf(im, outputs)) && x.Length == Pixels(im)
    requires Index(p.h, Columns(im), p.v) < ShapeOf(im, outputs).s && Sized(sw, x[..], im, outputs)
    requires ch < im.channels && r < im.ksize && t < im.ksize
    requires forall l, c, h, w :: 0 <= l < im.batch && 0 <= c < Patch(im) && 0 <= h < Rows(im) && 0 <= w < Columns(im) ==>
      Copied(cols, x, im, l, c, h, w)
    ensures
      var sh, j := ShapeOf(im, outputs), Index(p.h, Columns(im), p.v);
      WindowCell(RowA(sw, sh, p.l, p.o), ColumnB(cols[..], sh, p.l, j), sw, x[..], im, outputs, p, ch, r, t)
  {
    hide Index, Patch, Rows, Columns, InPatch, Element, Offset, AtA, AtB, CellAt, PixelAt, Pixels, SizeA, SizeB, Sum, ChannelOf, RowOffset, ColumnOffset;
    var sh, j, c := ShapeOf(im, outputs), Index(p.h, Columns(im), p.v), InPatch(im, ch, r, t);
    PatchParts(im, ch, r, t);
    assert Copied(cols, x, im, p.l, c, p.h, p.v);
    CellIsEntry(im, outputs, p.l, c, p.h, p.v);
    WeightIsEntry(im, outputs, p.l, p.o, c);
  }

  /** Every cell of im2col's result is some pixel. */
  lemma CellsCovered(im: Layer, q: nat)
    requires Fits(im) && q < Cells(im)
    ensures exists l, c, h, w ::
      0 <= l < im.batch && 0 <= c < Patch(im) && 0 <= h < Rows(im) && 0 <= w < Columns(im) && CellAt(im, l, c, h, w) == q
  {
    hide Index, Element, Offset, Patch, Rows, Columns;
    var y, w := Element(q, Columns(im)), Offset(q, Columns(im));
    Unfold(q, Columns(im), Index(Index(im.batch, Patch(im), 0), Rows(im), 0));
    var z, h := Element(y, Rows(im)), Offset(y, Rows(im));
    Unfold(y, Rows(im), Index(im.batch, Patch(im), 0));
    Unfold(z, Patch(im), im.batch);
    assert CellAt(im, Element(z, Patch(im)), Offset(z, Patch(im)), h, w) == q;
  }

  lemma CellsAgreed(cols: array<Sharing>, x: array<Sharing>, im: Layer, k: nat)
    requires Fits(im) && cols.Length == Cells(im) && x.Length == Pixels(im) && AllAgreed(x[..], k)
    requires forall l, c, h, w :: 0 <= l < im.batch && 0 <= c < Patch(im) && 0 <= h < Rows(im) && 0 <= w < Columns(im) ==>
      Copied(cols, x, im, l, c, h, w)
    ensures AllAgreed(cols[..], k)
  {
    hide Agreed, CellAt, SourceAt, Patch, Rows, Columns, Cells, Pixels;
    forall q | 0 <= q < cols.Length ensures Agreed(cols[q], k) {
      CellsCovered(im, q);
      var l, c, h, w :| 0 <= l < im.batch && 0 <= c < Patch(im) && 0 <= h < Rows(im) && 0 <= w < Columns(im)
        && CellAt(im, l, c, h, w) == q;
      assert Copied(cols, x, im, l, c, h, w);
      assert Agreed(x[..][SourceAt(im, l, c, h, w)], k);
    }
  }

  /** Where output p stands in the result. */
  function OutputAt(im: Layer, outputs: nat, p: Spot): nat
    requires Fits(im)
  {
    AtC(ShapeOf(im, outputs), p.l, p.o, Index(p.h, Columns(im), p.v))
  }

  /** `im2col` followed by the batched product shares the direct convolution at every spot. */
  method Convolve(c: array<Sharing>, w: array<Sharing>, x: array<Sharing>, cols: array<Sharing>, im: Layer,
          outputs: nat, k: nat, net: Net)
    requires InStep(net) && 1 <= k <= W && Fits(im) && outputs >= 1
    requires w.Length == SizeA(ShapeOf(im, outputs)) && x.Length == Pixels(im) && cols.Length == Cells(im)
    requires c.Length == SizeC(ShapeOf(im, outputs)) && c != w && cols != w && cols != x && c != cols
    requires AllAgreed(w[..], k) && AllAgreed(x[..], k)
    modifies c, cols, net.p1, net.p2, net.p3
    ensures InStep(net) && Private(net) == old(Private(net))
    ensures Sized(old(w[..]), old(x[..]), im, outputs)
    ensures forall p: Spot :: OnGrid(im, outputs, p) ==>
      OutputAt(im, outputs, p) < c.Length
      && Additive(c[OutputAt(im, outputs, p)], ConvolutionSum(old(w[..]), old(x[..]), im, outputs, p, im.channels), k)
  {
    ghost var sw, sx := w[..], x[..];
    ShapeProper(im, outputs);
    CellIsEntry(im, outputs, 0, 0, 0, 0);
    WeightIsEntry(im, outputs, 0, 0, 0);
    assert Sized(sw, sx, im, outputs);
    hide *;
    Im2Col(cols, x, im);
    CellsAgreed(cols, x, im, k);
    ghost var sc := cols[..];
    AllEntries(cols, x, sw, im, outputs);
    MatMultBatch(c, w, cols, ShapeOf(im, outputs), k, net);
    forall p: Spot | OnGrid(im, outputs, p)
      ensures OutputAt(im, outputs, p) < c.Length
      ensures Additive(c[OutputAt(im, outputs, p)], ConvolutionSum(sw, sx, im, outputs, p, im.channels), k)
    {
      OutputIs(im, outputs, p);
      assert EntryProduct(sw, sc, ShapeOf(im, outputs), p.l, p.o, Index(p.h, Columns(im), p.v))
        == ConvolutionSum(sw, sx, im, outputs, p, im.channels);
    }
  }

  lemma OutputIs(im: Layer, outputs: nat, p: Spot)
    requires Fits(im) && OnGrid(im, outputs, p)
    ensures OutputAt(im, outputs, p) == AtC(ShapeOf(im, outputs), p.l, p.o, Index(p.h, Columns(im), p.v))
    ensures p.l < ShapeOf(im, outputs).batch && p.o < ShapeOf(im, outputs).m && Index(p.h, Columns(im), p.v) < ShapeOf(im, outputs).s
  {
    WindowIndex(im, outputs, p);
    hide AtC, Index, Columns, Rows, Patch;
  }

  lemma AllEntries(cols: array<Sharing>, x: array<Sharing>, sw: seq<Sharing>, im: Layer, outputs: nat)
    requires Fits(im) && outputs >= 1 && Proper(ShapeOf(im, outputs)) && Sized(sw, x[..], im, outputs)
    requires |sw| == SizeA(ShapeOf(im, outputs)) && cols.Length == SizeB(ShapeOf(im, outputs)) && x.Length == Pixels(im)
    requires forall l, c, h, w :: 0 <= l < im.batch && 0 <= c < Patch(im) && 0 <= h < Rows(im) && 0 <= w < Columns(im) ==>
      Copied(cols, x, im, l, c, h, w)
    ensures forall p: Spot :: OnGrid(im, outputs, p) ==>
      && p.l < ShapeOf(im, outputs).batch && p.o < ShapeOf(im, outputs).m && Index(p.h, Columns(im), p.v) < ShapeOf(im, outputs).s
      && EntryProduct(sw, cols[..], ShapeOf(im, outputs), p.l, p.o, Index(p.h, Columns(im), p.v))
         == ConvolutionSum(sw, x[..], im, outputs, p, im.channels)
  {
    hide Index, SizeA, SizeB, Pixels, Patch, Rows, Columns, Copied, RowA, ColumnB, Window, ShapeOf, Sized;
    forall p: Spot | OnGrid(im, outputs, p)
      ensures p.l < ShapeOf(im, outputs).batch && p.o < ShapeOf(im, outputs).m && Index(p.h, Columns(im), p.v) < ShapeOf(im, outputs).s
      ensures EntryProduct(sw, cols[..], ShapeOf(im, outputs), p.l, p.o, Index(p.h, Columns(im), p.v))
        == ConvolutionSum(sw, x[..], im, outputs, p, im.channels)
    {
      OutputIs(im, outputs, p);
      var sh, j := ShapeOf(im, outputs), Index(p.h, Columns(im), p.v);
      EntryIsWindow(cols, x, sw, im, outputs, p);
      DotIsConvolution(RowA(sw, sh, p.l, p.o), ColumnB(cols[..], sh, p.l, j), sw, x[..], im, outputs, p);
    }
  }
}
