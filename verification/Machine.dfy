/**
 A machine on plain numbers whose instructions are the three-party protocols.

 A register is a vector with its own length; what it holds - shares that add up, shares whose exclusive or
 counts, single bits, opened words - and over which ring, changes with the calls that write it.  A call's
 effect on the numbers is a function of the numbers and of what the call draws at random (its noise).
 */
module Machine {
  import opened Ring
  import opened Words
  import opened Sharings
  import opened BitShares
  import LT
  import ReLU6
  import Truncation
  import MatMult
  import Convolution
  import MaxPool

  /** What a register holds. */
  datatype Content =
    | Unused
    | Sums(ring: nat)
    | Xors(ring: nat)
    | Bits(ring: nat)
    | Opened

  datatype Format = Format(content: Content, length: nat)

  /** Registers of shares, and registers of words that every party knows. */
  datatype Formats = Formats(shared: seq<Format>, public: seq<Format>)

  /** The numbers in the registers. */
  datatype Memory = Memory(shared: seq<seq<nat>>, public: seq<seq<nat>>)

  /** One protocol call: the target first, `o` for a register of opened words. */
  datatype Call =
    | Multiply(c: nat, a: nat, b: nat, k: nat)
    | MultiplyBits(c: nat, a: nat, b: nat, k: nat)
    | MultiplyBytes(c: nat, a: nat, b: nat)
    | MultiplyFixed(c: nat, a: nat, b: nat, index: nat, k: nat)
    | MultiplyOpen(o: nat, a: nat, b: nat, k: nat)
    | Open(o: nat, a: nat, k: nat)
    | OpenBits(o: nat, a: nat, k: nat)
    | AddBits(c: nat, a: nat, b: nat, k: nat)
    | AddOpenedBits(c: nat, o: nat, b: nat, k: nat)
    | CompareBits(c: nat, o: nat, b: nat, k: nat)
    | BitsToSums(c: nat, a: nat, k: nat)
    | TopBit(c: nat, a: nat, k: nat)
    | Larger(c: nat, a: nat, b: nat, k: nat)
    | LargerFixed(c: nat, a: nat, b: nat, index: nat, k: nat)
    | SmallerFixed(c: nat, a: nat, b: nat, index: nat, k: nat)
    | Clamp(c: nat, a: nat, b: nat, index: nat, k: nat)
    | Truncate(c: nat, a: nat, m: nat, k: nat)
    | TruncateScaled(c: nat, a: nat, b: nat, index: nat, m: nat, k: nat)
    | Convert(c: nat, a: nat, k: nat, k': nat)
    | RandomBits(c: nat, k: nat)
    | RandomNumbers(c: nat, b: nat, k: nat)
    | RandomTruncated(c: nat, high: nat, top: nat, m: nat, k: nat)
    | MatrixProduct(c: nat, a: nat, b: nat, shape: MatMult.Shape, k: nat)
    | Convolve(c: nat, a: nat, b: nat, layer: Convolution.Layer, outputs: nat, k: nat)
    | Pool(c: nat, a: nat, planes: nat, hm: nat, hn: nat, k: nat)

  // ---------- formats ----------

  predicate Has(f: Formats, r: nat, content: Content) {
    r < |f.shared| && f.shared[r].content == content
  }

  /** Bits are a bitwise sharing too. */
  predicate HasXors(f: Formats, r: nat, k: nat) {
    Has(f, r, Xors(k)) || Has(f, r, Bits(k))
  }

  predicate HasWords(f: Formats, o: nat) {
    o < |f.public| && f.public[o].content == Opened
  }

  predicate SharedTarget(f: Formats, c: nat, n: nat) {
    c < |f.shared| && 1 <= f.shared[c].length == n
  }

  predicate OpenedTarget(f: Formats, o: nat, n: nat) {
    o < |f.public| && 1 <= f.public[o].length == n
  }

  /** Rings of the protocols that need a random bit, and of those that compare with the network's tables. */
  predicate BitRing(k: nat) {
    1 <= k && k + 2 <= W
  }

  /** The call names registers of the kind, ring and length its protocol accepts; `ring` is the network's. */
  predicate Allowed(call: Call, f: Formats, ring: nat) {
    match call
    case Multiply(c, a, b, k) =>
      1 <= k <= W && c != a && c != b && Has(f, a, Sums(k)) && Has(f, b, Sums(k))
      && SharedTarget(f, c, f.shared[a].length) && SharedTarget(f, b, f.shared[a].length)
    case MultiplyBits(c, a, b, k) =>
      1 <= k <= W && c != a && c != b && HasXors(f, a, k) && HasXors(f, b, k)
      && SharedTarget(f, c, f.shared[a].length) && SharedTarget(f, b, f.shared[a].length)
    case MultiplyBytes(c, a, b) =>
      c != a && c != b && HasXors(f, a, 8) && HasXors(f, b, 8)
      && SharedTarget(f, c, f.shared[a].length) && SharedTarget(f, b, f.shared[a].length)
    case MultiplyFixed(c, a, b, index, k) =>
      1 <= k <= W && Has(f, a, Sums(k)) && Has(f, b, Sums(k)) && index < f.shared[b].length
      && SharedTarget(f, c, f.shared[a].length)
    case MultiplyOpen(o, a, b, k) =>
      1 <= k <= W && Has(f, a, Sums(k)) && Has(f, b, Sums(k)) && OpenedTarget(f, o, f.shared[a].length)
      && SharedTarget(f, b, f.shared[a].length)
    case Open(o, a, k) => 1 <= k <= W && Has(f, a, Sums(k)) && OpenedTarget(f, o, f.shared[a].length)
    case OpenBits(o, a, k) => 1 <= k <= W && HasXors(f, a, k) && OpenedTarget(f, o, f.shared[a].length)
    case AddBits(c, a, b, k) =>
      1 <= k <= W && c != a && c != b && HasXors(f, a, k) && HasXors(f, b, k)
      && SharedTarget(f, c, f.shared[a].length) && SharedTarget(f, b, f.shared[a].length)
    case AddOpenedBits(c, o, b, k) =>
      1 <= k <= W && c != b && HasWords(f, o) && HasXors(f, b, k)
      && SharedTarget(f, c, f.public[o].length) && SharedTarget(f, b, f.public[o].length)
    case CompareBits(c, o, b, k) =>
      1 <= k <= ring && HasWords(f, o) && HasXors(f, b, k)
      && SharedTarget(f, c, f.public[o].length) && SharedTarget(f, b, f.public[o].length)
    case BitsToSums(c, a, k) => BitRing(k) && Has(f, a, Bits(k)) && SharedTarget(f, c, f.shared[a].length)
    case TopBit(c, a, k) => 1 <= k <= ring && Has(f, a, Sums(k)) && SharedTarget(f, c, f.shared[a].length)
    case Larger(c, a, b, k) =>
      1 <= k <= ring && Has(f, a, Sums(k)) && Has(f, b, Sums(k))
      && SharedTarget(f, c, f.shared[a].length) && SharedTarget(f, b, f.shared[a].length)
    case LargerFixed(c, a, b, index, k) =>
      1 <= k <= ring && Has(f, a, Sums(k)) && Has(f, b, Sums(k)) && index < f.shared[b].length
      && SharedTarget(f, c, f.shared[a].length)
    case SmallerFixed(c, a, b, index, k) =>
      1 <= k <= ring && c != b && Has(f, a, Sums(k)) && Has(f, b, Sums(k)) && index < f.shared[b].length
      && SharedTarget(f, c, f.shared[a].length)
    case Clamp(c, a, b, index, k) =>
      1 <= k <= ring && c != b && Has(f, a, Sums(k)) && Has(f, b, Sums(k)) && index < f.shared[b].length
      && SharedTarget(f, c, f.shared[a].length)
    case Truncate(c, a, m, k) =>
      BitRing(k) && 1 <= m < k && Has(f, a, Sums(k)) && SharedTarget(f, c, f.shared[a].length)
    case TruncateScaled(c, a, b, index, m, k) =>
      BitRing(k) && 1 <= m < k && Has(f, a, Sums(k)) && Has(f, b, Sums(k)) && index < f.shared[b].length
      && SharedTarget(f, c, f.shared[a].length)
    case Convert(c, a, k, k') =>
      1 <= k <= W && BitRing(k') && Has(f, a, Sums(k)) && SharedTarget(f, c, f.shared[a].length)
    case RandomBits(c, k) => BitRing(k) && c < |f.shared| && SharedTarget(f, c, f.shared[c].length)
    case RandomNumbers(c, b, k) =>
      1 <= k <= W && c != b && c < |f.shared| && SharedTarget(f, c, f.shared[c].length) && SharedTarget(f, b, f.shared[c].length)
    case RandomTruncated(c, high, top, m, k) =>
      BitRing(k) && 1 <= m <= k && c != high && c != top && high != top && c < |f.shared|
      && SharedTarget(f, c, f.shared[c].length) && SharedTarget(f, high, f.shared[c].length)
      && SharedTarget(f, top, f.shared[c].length)
    case MatrixProduct(c, a, b, sh, k) =>
      1 <= k <= W && MatMult.Proper(sh) && c != a && Has(f, a, Sums(k)) && Has(f, b, Sums(k))
      && SharedTarget(f, a, MatMult.SizeA(sh)) && SharedTarget(f, b, MatMult.SizeB(sh)) && SharedTarget(f, c, MatMult.SizeC(sh))
    case Convolve(c, a, b, im, outputs, k) =>
      1 <= k <= W && Convolution.Fits(im) && outputs >= 1 && c != a && Has(f, a, Sums(k)) && Has(f, b, Sums(k))
      && SharedTarget(f, a, Index(outputs, Convolution.Patch(im), 0)) && SharedTarget(f, b, Convolution.Pixels(im))
      && SharedTarget(f, c, MatMult.SizeC(Convolution.ShapeOf(im, outputs)))
    case Pool(c, a, planes, hm, hn, k) =>
      1 <= k <= ring && 1 <= planes && 1 <= hm <= hn && Has(f, a, Sums(k))
      && SharedTarget(f, a, 2 * Index(2 * (planes * hm), hn, 0)) && SharedTarget(f, c, Index(planes * hm, hn, 0))
  }

  /** The shared registers a call writes, and what they hold afterwards. */
  function Writes(call: Call): map<nat, Content> {
    match call
    case Multiply(c, a, b, k) => map[c := Sums(k)]
    case MultiplyBits(c, a, b, k) => map[c := Xors(k)]
    case MultiplyBytes(c, a, b) => map[c := Xors(8)]
    case MultiplyFixed(c, a, b, index, k) => map[c := Sums(k)]
    case MultiplyOpen(o, a, b, k) => map[]
    case Open(o, a, k) => map[]
    case OpenBits(o, a, k) => map[]
    case AddBits(c, a, b, k) => map[c := Xors(k)]
    case AddOpenedBits(c, o, b, k) => map[c := Xors(k)]
    case CompareBits(c, o, b, k) => map[c := Bits(k)]
    case BitsToSums(c, a, k) => map[c := Sums(k)]
    case TopBit(c, a, k) => map[c := Sums(k)]
    case Larger(c, a, b, k) => map[c := Sums(k)]
    case LargerFixed(c, a, b, index, k) => map[c := Sums(k)]
    case SmallerFixed(c, a, b, index, k) => map[c := Sums(k)]
    case Clamp(c, a, b, index, k) => map[c := Sums(k)]
    case Truncate(c, a, m, k) => map[c := Sums(k)]
    case TruncateScaled(c, a, b, index, m, k) => map[c := Sums(k)]
    case Convert(c, a, k, k') => map[c := Sums(k')]
    case RandomBits(c, k) => map[c := Sums(k)]
    case RandomNumbers(c, b, k) => map[c := Sums(k), b := Xors(k)]
    case RandomTruncated(c, high, top, m, k) => map[c := Sums(k), high := Sums(k), top := Sums(k)]
    case MatrixProduct(c, a, b, sh, k) => map[c := Sums(k)]
    case Convolve(c, a, b, im, outputs, k) => map[c := Sums(k)]
    case Pool(c, a, planes, hm, hn, k) => map[c := Sums(k)]
  }

  /** Whether a call publishes into register o. */
  predicate Publishes(call: Call, o: nat) {
    (call.MultiplyOpen? || call.Open? || call.OpenBits?) && call.o == o
  }

  /** The formats after a call. */
  function NextFormats(f: Formats, call: Call): (f': Formats)
    ensures |f'.shared| == |f.shared| && |f'.public| == |f.public|
  {
    Formats(
      seq(|f.shared|, r requires 0 <= r < |f.shared| =>
        if r in Writes(call) then f.shared[r].(content := Writes(call)[r]) else f.shared[r]),
      seq(|f.public|, o requires 0 <= o < |f.public| =>
        if Publishes(call, o) then f.public[o].(content := Opened) else f.public[o]))
  }

  // ---------- meaning ----------

  predicate Sized(f: Formats, s: Memory) {
    && |s.shared| == |f.shared| && |s.public| == |f.public|
    && (forall r :: 0 <= r < |f.shared| ==> |s.shared[r]| == f.shared[r].length)
    && (forall o :: 0 <= o < |f.public| ==> |s.public[o]| == f.public[o].length)
  }

  /** The call is allowed, and the memory has the registers' lengths. */
  predicate Ready(call: Call, f: Formats, s: Memory, ring: nat) {
    Allowed(call, f, ring) && Sized(f, s)
  }

  /** Plain numbers as the sharings of public constants: counted in share 2, all other words zero. */
  function PublicConstant(v: nat): (x: Sharing)
    ensures Sum(x) == v
  {
    Three(Pair(v, 0), Pair(0, 0), Pair(0, v))
  }

  function PublicConstants(v: seq<nat>): (x: seq<Sharing>)
    ensures |x| == |v| && forall i :: 0 <= i < |v| ==> x[i] == PublicConstant(v[i])
  {
    seq(|v|, i requires 0 <= i < |v| => PublicConstant(v[i]))
  }

  /** Element q of a batched product: matrix, row and column. */
  function EntryOf(sh: MatMult.Shape, q: nat): (t: (nat, nat, nat))
    requires MatMult.Proper(sh)
  {
    (Element(q, sh.m * sh.s), Element(Offset(q, sh.m * sh.s), sh.s), Offset(Offset(q, sh.m * sh.s), sh.s))
  }

  lemma EntryInside(sh: MatMult.Shape, q: nat)
    requires MatMult.Proper(sh) && q < MatMult.SizeC(sh)
    ensures
      var (l, i, j) := EntryOf(sh, q);
      l < sh.batch && i < sh.m && j < sh.s && MatMult.AtC(sh, l, i, j) == q
  {
    var p := sh.m * sh.s;
    InsideBlocks(q, sh.batch, p);
    InsideBlocks(Offset(q, p), sh.m, sh.s);
  }

  lemma InsideBlocks(q: nat, blocks: nat, p: nat)
    requires p >= 1 && q < blocks * p
    ensures Element(q, p) < blocks && Offset(q, p) < p && Index(Element(q, p), p, Offset(q, p)) == q
  {
    if q / p >= blocks {
      MulMono(p, blocks, q / p);
    }
  }

  /** Output q of a convolution: image, kernel and window. */
  function SpotOf(im: Convolution.Layer, outputs: nat, q: nat): Convolution.Spot
    requires Convolution.Fits(im) && outputs >= 1
  {
    var (l, o, w) := EntryOf(Convolution.ShapeOf(im, outputs), q);
    Convolution.Spot(l, o, Element(w, Convolution.Columns(im)), Offset(w, Convolution.Columns(im)))
  }

  lemma SpotInside(im: Convolution.Layer, outputs: nat, q: nat)
    requires Convolution.Fits(im) && outputs >= 1 && q < MatMult.SizeC(Convolution.ShapeOf(im, outputs))
    ensures
      var p := SpotOf(im, outputs, q);
      Convolution.OnGrid(im, outputs, p) && Convolution.OutputAt(im, outputs, p) == q
  {
    var sh := Convolution.ShapeOf(im, outputs);
    Convolution.ShapeProper(im, outputs);
    EntryInside(sh, q);
    var (l, o, w) := EntryOf(sh, q);
    InsideBlocks(w, Convolution.Rows(im), Convolution.Columns(im));
  }

  ghost function ConvolvedAt(w: seq<Sharing>, x: seq<Sharing>, im: Convolution.Layer, outputs: nat, q: nat): int
    requires outputs >= 1 && Convolution.Sized(w, x, im, outputs) && q < MatMult.SizeC(Convolution.ShapeOf(im, outputs))
  {
    SpotInside(im, outputs, q);
    Convolution.ConvolutionSum(w, x, im, outputs, SpotOf(im, outputs, q), im.channels)
  }

  function EntryAt(a: seq<Sharing>, b: seq<Sharing>, sh: MatMult.Shape, q: nat): int
    requires MatMult.Proper(sh) && |a| == MatMult.SizeA(sh) && |b| == MatMult.SizeB(sh) && q < MatMult.SizeC(sh)
  {
    EntryInside(sh, q);
    var (l, i, j) := EntryOf(sh, q);
    MatMult.EntryProduct(a, b, sh, l, i, j)
  }

  function PooledAt(a: seq<Sharing>, planes: nat, hm: nat, hn: nat, k: nat, q: nat): nat
    requires k >= 1 && 1 <= hm <= hn && |a| == 2 * Index(2 * (planes * hm), hn, 0) && q < Index(planes * hm, hn, 0)
  {
    MaxPool.OutputInside(hm, hn, planes * hm, q);
    MaxPool.Pooled(a, k, hm, hn, q)
  }

  /** Element i of register r. */
  function At(v: seq<seq<nat>>, r: nat, i: nat): nat {
    if r < |v| && i < |v[r]| then v[r][i] else 0
  }

  function MatrixMeaning(call: Call, f: Formats, s: Memory, ring: nat, i: nat): int
    requires Ready(call, f, s, ring) && call.MatrixProduct? && i < f.shared[call.c].length
  {
    EntryAt(PublicConstants(s.shared[call.a]), PublicConstants(s.shared[call.b]), call.shape, i)
  }

  ghost function ConvolveMeaning(call: Call, f: Formats, s: Memory, ring: nat, i: nat): int
    requires Ready(call, f, s, ring) && call.Convolve? && i < f.shared[call.c].length
  {
    ConvolvedAt(PublicConstants(s.shared[call.a]), PublicConstants(s.shared[call.b]), call.layer, call.outputs, i)
  }

  function PoolMeaning(call: Call, f: Formats, s: Memory, ring: nat, i: nat): nat
    requires Ready(call, f, s, ring) && call.Pool? && i < f.shared[call.c].length
  {
    PooledAt(PublicConstants(s.shared[call.a]), call.planes, call.hm, call.hn, call.k, i)
  }

  /** The number that element i of the written register r ends up sharing, up to reduction in its ring. */
  ghost function Meaning(call: Call, f: Formats, s: Memory, ring: nat, r: nat, i: nat, noise: nat): int
    requires Ready(call, f, s, ring) && r in Writes(call) && r < |f.shared| && i < f.shared[r].length
  {
    var v := s.shared;
    match call
    case Multiply(c, a, b, k) => At(v, a, i) * At(v, b, i)
    case MultiplyBits(c, a, b, k) => And(At(v, a, i), At(v, b, i))
    case MultiplyBytes(c, a, b) => And(At(v, a, i), At(v, b, i))
    case MultiplyFixed(c, a, b, index, k) => At(v, a, i) * At(v, b, index)
    case AddBits(c, a, b, k) => At(v, a, i) + At(v, b, i)
    case AddOpenedBits(c, o, b, k) => At(s.public, o, i) + At(v, b, i)
    case CompareBits(c, o, b, k) => ToNat(At(s.public, o, i) % Pow2(k) < At(v, b, i))
    case BitsToSums(c, a, k) => At(v, a, i)
    case TopBit(c, a, k) => GetBit(At(v, a, i), k - 1)
    case Larger(c, a, b, k) => LT.PickLarger(At(v, a, i), At(v, b, i), k)
    case LargerFixed(c, a, b, index, k) => LT.PickLarger(At(v, a, i), At(v, b, index), k)
    case SmallerFixed(c, a, b, index, k) => LT.PickSmaller(At(v, a, i), At(v, b, index), k)
    case Clamp(c, a, b, index, k) => ReLU6.Clamped(At(v, a, i), At(v, b, index), k)
    case Truncate(c, a, m, k) =>
      Truncation.Truncated(At(v, a, i), noise % Pow2(k), m, k)
    case TruncateScaled(c, a, b, index, m, k) =>
      Truncation.Truncated(At(v, a, i) * At(v, b, index) % Pow2(k), noise % Pow2(k), m, k)
    case Convert(c, a, k, k') => At(v, a, i)
    case RandomBits(c, k) => noise % 2
    case RandomNumbers(c, b, k) => noise
    case RandomTruncated(c, high, top, m, k) =>
      if r == c then noise else if r == high then Quotient(noise % Pow2(k), Pow2(m)) else GetBit(noise, k - 1)
    case MatrixProduct(c, a, b, sh, k) => MatrixMeaning(call, f, s, ring, i)
    case Convolve(c, a, b, im, outputs, k) => ConvolveMeaning(call, f, s, ring, i)
    case Pool(c, a, planes, hm, hn, k) => PoolMeaning(call, f, s, ring, i)
  }

  /** The word that is published as element i. */
  function PublicMeaning(call: Call, f: Formats, s: Memory, ring: nat, o: nat, i: nat): nat
    requires Ready(call, f, s, ring) && Publishes(call, o) && o < |f.public| && i < f.public[o].length
  {
    match call
    case MultiplyOpen(_, a, b, k) => At(s.shared, a, i) * At(s.shared, b, i) % Pow2(k)
    case Open(_, a, k) => At(s.shared, a, i)
    case OpenBits(_, a, k) => At(s.shared, a, i)
  }

  function NoiseAt(noise: seq<nat>, i: nat): nat {
    if i < |noise| then noise[i] else 0
  }

  /** The ring of what a written register holds. */
  function RingOf(content: Content): nat {
    match content
    case Sums(k) => k
    case Xors(k) => k
    case Bits(k) => k
    case _ => 0
  }

  /** Element i of register r after the call. */
  ghost function NextNumber(call: Call, f: Formats, s: Memory, ring: nat, noise: seq<nat>, r: nat, i: nat): (v: nat)
    requires Ready(call, f, s, ring) && r in Writes(call) && r < |f.shared| && i < f.shared[r].length
    ensures v < Pow2(RingOf(Writes(call)[r]))
  {
    Meaning(call, f, s, ring, r, i, NoiseAt(noise, i)) % Pow2(RingOf(Writes(call)[r]))
  }

  /** The machine's step. */
  ghost function Next(call: Call, f: Formats, s: Memory, ring: nat, noise: seq<nat>): (s': Memory)
    requires Ready(call, f, s, ring)
    ensures |s'.shared| == |f.shared| && |s'.public| == |f.public|
  {
    Memory(
      seq(|s.shared|, r requires 0 <= r < |s.shared| =>
        if r in Writes(call) then
          seq(f.shared[r].length, i requires 0 <= i < f.shared[r].length => NextNumber(call, f, s, ring, noise, r, i))
        else s.shared[r]),
      seq<seq<nat>>(|s.public|, o requires 0 <= o < |s.public| =>
        if Publishes(call, o) then
          seq<nat>(f.public[o].length, i requires 0 <= i < f.public[o].length => PublicMeaning(call, f, s, ring, o, i))
        else s.public[o]))
  }

  /** The calls whose results depend on what is drawn. */
  predicate Draws(call: Call) {
    call.Truncate? || call.TruncateScaled? || call.RandomBits? || call.RandomNumbers? || call.RandomTruncated?
  }

  /** All other calls are exact: whatever is drawn, the next memory is the same. */
  lemma OtherCallsAreExact(call: Call, f: Formats, s: Memory, ring: nat, noise: seq<nat>, noise': seq<nat>)
    requires Ready(call, f, s, ring) && !Draws(call)
    ensures Next(call, f, s, ring, noise) == Next(call, f, s, ring, noise')
  {
    hide Allowed, Meaning, PublicMeaning, Writes, NextNumber;
    var x, y := Next(call, f, s, ring, noise), Next(call, f, s, ring, noise');
    forall r | 0 <= r < |f.shared| ensures x.shared[r] == y.shared[r] {
      if r in Writes(call) {
        forall i | 0 <= i < f.shared[r].length ensures x.shared[r][i] == y.shared[r][i] {
          ExactNumber(call, f, s, ring, noise, noise', r, i);
        }
      }
    }
  }

  lemma ExactNumber(call: Call, f: Formats, s: Memory, ring: nat, noise: seq<nat>, noise': seq<nat>, r: nat, i: nat)
    requires Ready(call, f, s, ring) && !Draws(call) && r in Writes(call) && r < |f.shared| && i < f.shared[r].length
    ensures NextNumber(call, f, s, ring, noise, r, i) == NextNumber(call, f, s, ring, noise', r, i)
  {
    hide Allowed, At, MatrixMeaning, ConvolveMeaning, PoolMeaning;
  }

  // ---------- what the calls do to numbers, said without the meaning function ----------

  /** Element i of the register a call writes, in the next memory. */
  lemma NextElement(call: Call, f: Formats, s: Memory, ring: nat, noise: seq<nat>, r: nat, i: nat)
    requires Ready(call, f, s, ring) && r in Writes(call) && r < |f.shared| && i < f.shared[r].length
    ensures At(Next(call, f, s, ring, noise).shared, r, i)
      == Meaning(call, f, s, ring, r, i, NoiseAt(noise, i)) % Pow2(RingOf(Writes(call)[r]))
  {
    hide Allowed, Meaning, PublicMeaning, Writes;
  }

  lemma AllowedTarget(call: Call, f: Formats, ring: nat)
    requires Allowed(call, f, ring)
    requires !(call.MultiplyOpen? || call.Open? || call.OpenBits? || call.MultiplyBytes?)
    ensures call.c < |f.shared| && call.k >= 1 && (call.Truncate? ==> 1 <= call.m < call.k)
  {
  }

  lemma UnaryMeaning(call: Call, f: Formats, s: Memory, ring: nat, i: nat, noise: nat)
    requires Ready(call, f, s, ring) && (call.TopBit? || call.BitsToSums? || call.Convert? || call.Truncate?)
    requires call.c < |f.shared| && i < f.shared[call.c].length && call.k >= 1 && (call.Truncate? ==> call.m < call.k)
    ensures call.c in Writes(call)
    ensures
      var x := At(s.shared, call.a, i);
      var z := Meaning(call, f, s, ring, call.c, i, noise);
      && RingOf(Writes(call)[call.c]) == (if call.Convert? then call.k' else call.k)
      && (call.TopBit? ==> z == GetBit(x, call.k - 1))
      && (call.BitsToSums? ==> z == x)
      && (call.Convert? ==> z == x)
      && (call.Truncate? ==> z == Truncation.Truncated(x, noise % Pow2(call.k), call.m, call.k))
  {
    hide Allowed, Sized, And, GetBit, LT.PickLarger, LT.PickSmaller, ReLU6.Clamped, Truncation.Truncated, At,
      MatrixMeaning, ConvolveMeaning, PoolMeaning, Quotient;
  }

  /** The next number of the calls with one operand at element i. */
  lemma UnaryNext(call: Call, f: Formats, s: Memory, ring: nat, noise: seq<nat>, i: nat)
    requires Ready(call, f, s, ring) && (call.TopBit? || call.BitsToSums? || call.Convert? || call.Truncate?)
    requires i < f.shared[call.c].length
    ensures call.k >= 1 && (call.Truncate? ==> 1 <= call.m < call.k)
    ensures
      var x := At(s.shared, call.a, i);
      var z := At(Next(call, f, s, ring, noise).shared, call.c, i);
      && (call.TopBit? ==> z == GetBit(x, call.k - 1) % Pow2(call.k))
      && (call.BitsToSums? ==> z == x % Pow2(call.k))
      && (call.Convert? ==> z == x % Pow2(call.k'))
      && (call.Truncate? ==> z == Truncation.Truncated(x, NoiseAt(noise, i) % Pow2(call.k), call.m, call.k) % Pow2(call.k))
  {
    AllowedTarget(call, f, ring);
    hide *;
    UnaryMeaning(call, f, s, ring, i, NoiseAt(noise, i));
    NextElement(call, f, s, ring, noise, call.c, i);
  }

  lemma BinaryMeaning(call: Call, f: Formats, s: Memory, ring: nat, i: nat, noise: nat)
    requires Ready(call, f, s, ring) && (call.Multiply? || call.MultiplyBits? || call.AddBits? || call.Larger?)
    requires call.c < |f.shared| && i < f.shared[call.c].length && call.k >= 1
    ensures call.c in Writes(call) && RingOf(Writes(call)[call.c]) == call.k
    ensures Meaning(call, f, s, ring, call.c, i, noise) == Combined(call, At(s.shared, call.a, i), At(s.shared, call.b, i))
  {
    hide Allowed, Sized, And, GetBit, LT.PickLarger, LT.PickSmaller, ReLU6.Clamped, Truncation.Truncated, At,
      MatrixMeaning, ConvolveMeaning, PoolMeaning, Quotient;
  }

  /** Two operands put together. */
  function Combined(call: Call, x: nat, y: nat): int
    requires (call.Multiply? || call.MultiplyBits? || call.AddBits? || call.Larger?) && call.k >= 1
  {
    if call.Multiply? then x * y else if call.MultiplyBits? then And(x, y) else if call.AddBits? then x + y
    else LT.PickLarger(x, y, call.k)
  }

  /** The next number of the calls with two operands. */
  lemma BinaryNext(call: Call, f: Formats, s: Memory, ring: nat, noise: seq<nat>, i: nat)
    requires Ready(call, f, s, ring) && (call.Multiply? || call.MultiplyBits? || call.AddBits? || call.Larger?)
    requires i < f.shared[call.c].length
    ensures call.k >= 1 && At(Next(call, f, s, ring, noise).shared, call.c, i)
      == Combined(call, At(s.shared, call.a, i), At(s.shared, call.b, i)) % Pow2(call.k)
  {
    AllowedTarget(call, f, ring);
    hide *;
    BinaryMeaning(call, f, s, ring, i, NoiseAt(noise, i));
    NextElement(call, f, s, ring, noise, call.c, i);
  }

  /** Products and sums in the ring. */
  lemma ArithmeticStep(call: Call, f: Formats, s: Memory, ring: nat, noise: seq<nat>, i: nat, x: nat, y: nat, z: nat)
    requires Ready(call, f, s, ring) && (call.Multiply? || call.AddBits?) && i < f.shared[call.c].length
    requires x == At(s.shared, call.a, i) && y == At(s.shared, call.b, i)
    requires z == At(Next(call, f, s, ring, noise).shared, call.c, i)
    ensures z == (if call.Multiply? then x * y else x + y) % Pow2(call.k)
  {
    hide Allowed, Ready, Next, At, Pow2;
    BinaryNext(call, f, s, ring, noise, i);
  }

  lemma FixedMeaning(call: Call, f: Formats, s: Memory, ring: nat, i: nat, noise: nat)
    requires Ready(call, f, s, ring) && (call.MultiplyFixed? || call.LargerFixed? || call.SmallerFixed? || call.Clamp?)
    requires call.c < |f.shared| && i < f.shared[call.c].length && call.k >= 1
    ensures call.c in Writes(call)
    ensures
      var x, y := At(s.shared, call.a, i), At(s.shared, call.b, call.index);
      var z := Meaning(call, f, s, ring, call.c, i, noise);
      && RingOf(Writes(call)[call.c]) == call.k
      && (call.MultiplyFixed? ==> z == x * y)
      && (call.LargerFixed? ==> z == LT.PickLarger(x, y, call.k))
      && (call.SmallerFixed? ==> z == LT.PickSmaller(x, y, call.k))
      && (call.Clamp? ==> z == ReLU6.Clamped(x, y, call.k))
  {
    hide Allowed, Sized, And, GetBit, LT.PickLarger, LT.PickSmaller, ReLU6.Clamped, Truncation.Truncated, At,
      MatrixMeaning, ConvolveMeaning, PoolMeaning, Quotient;
  }

  /** The next number of the calls against one fixed element. */
  lemma FixedNext(call: Call, f: Formats, s: Memory, ring: nat, noise: seq<nat>, i: nat)
    requires Ready(call, f, s, ring) && (call.MultiplyFixed? || call.LargerFixed? || call.SmallerFixed? || call.Clamp?)
    requires i < f.shared[call.c].length
    ensures call.k >= 1
    ensures
      var x, y := At(s.shared, call.a, i), At(s.shared, call.b, call.index);
      var z := At(Next(call, f, s, ring, noise).shared, call.c, i);
      && (call.MultiplyFixed? ==> z == x * y % Pow2(call.k))
      && (call.LargerFixed? ==> z == LT.PickLarger(x, y, call.k) % Pow2(call.k))
      && (call.SmallerFixed? ==> z == LT.PickSmaller(x, y, call.k) % Pow2(call.k))
      && (call.Clamp? ==> z == ReLU6.Clamped(x, y, call.k) % Pow2(call.k))
  {
    AllowedTarget(call, f, ring);
    hide *;
    FixedMeaning(call, f, s, ring, i, NoiseAt(noise, i));
    NextElement(call, f, s, ring, noise, call.c, i);
  }

  /** Bits multiply as conjunctions. */
  lemma ConjunctionStep(call: Call, f: Formats, s: Memory, ring: nat, noise: seq<nat>, i: nat, j: nat)
    requires Ready(call, f, s, ring) && call.MultiplyBits? && i < f.shared[call.c].length && j < call.k
    ensures Bit(At(Next(call, f, s, ring, noise).shared, call.c, i), j)
      == (Bit(At(s.shared, call.a, i), j) && Bit(At(s.shared, call.b, i), j))
  {
    hide Allowed, Ready, Next, At, Pow2, And, Bit;
    BinaryNext(call, f, s, ring, noise, i);
    var x, y := At(s.shared, call.a, i), At(s.shared, call.b, i);
    BitMod(And(x, y), call.k, j);
    BitAnd(x, y, j);
  }

  /** The top bit is one for the upper half of the ring; changes of representation and to larger rings keep the number. */
  lemma ExactStep(call: Call, f: Formats, s: Memory, ring: nat, noise: seq<nat>, i: nat, x: nat, z: nat)
    requires Ready(call, f, s, ring) && (call.TopBit? || call.BitsToSums? || call.Convert?)
    requires i < f.shared[call.c].length && z == At(Next(call, f, s, ring, noise).shared, call.c, i)
    requires x == At(s.shared, call.a, i) && x < Pow2(call.k)
    ensures call.k >= 1 && (call.TopBit? ==> z == if x >= Pow2(call.k - 1) then 1 else 0)
    ensures call.BitsToSums? || (call.Convert? && call.k <= call.k') ==> z == x
  {
    hide *;
    UnaryNext(call, f, s, ring, noise, i);
    if call.TopBit? {
      GetBitIsShift(x, call.k - 1);
      TopQuotient(x, call.k);
      ModSmall(GetBit(x, call.k - 1), call.k);
    } else if call.BitsToSums? {
      ModSmall(x, call.k);
    } else if call.k <= call.k' {
      Pow2Mono(call.k, call.k');
      ModSmall(x, call.k');
    }
  }

  lemma TopQuotient(x: nat, k: nat)
    requires k >= 1 && x < Pow2(k)
    ensures x / Pow2(k - 1) % 2 == if x >= Pow2(k - 1) then 1 else 0
    ensures 1 < Pow2(k)
  {
    var h := Pow2(k - 1);
    if x >= h {
      DivModUnique(x, h, 1, x - h);
    } else {
      DivModUnique(x, h, 0, x);
    }
  }

  /** The larger of two numbers in two's complement, when their signed difference fits the ring. */
  lemma LargerStep(call: Call, f: Formats, s: Memory, ring: nat, noise: seq<nat>, i: nat, x: nat, y: nat, z: nat)
    requires Ready(call, f, s, ring) && (call.Larger? || call.LargerFixed?)
    requires i < f.shared[call.c].length && z == At(Next(call, f, s, ring, noise).shared, call.c, i)
    requires x == At(s.shared, call.a, i) && y == At(s.shared, call.b, if call.Larger? then i else call.index)
    requires call.k >= 1 && x < Pow2(call.k) && y < Pow2(call.k) && LT.Comparable(x, y, call.k)
    ensures (z == x || z == y) && LT.Signed(z, call.k) >= LT.Signed(x, call.k) && LT.Signed(z, call.k) >= LT.Signed(y, call.k)
  {
    hide Allowed, Ready, Next, At, Pow2, LT.PickLarger, LT.Signed, LT.Comparable;
    if call.Larger? {
      BinaryNext(call, f, s, ring, noise, i);
    } else {
      FixedNext(call, f, s, ring, noise, i);
    }
    MaxPool.PickBelow(x, y, call.k);
    MaxPool.PickIsLarger(x, y, call.k);
    ModSmall(LT.PickLarger(x, y, call.k), call.k);
  }

  /** Clamping between zero and a bound that is not negative, with no condition on the number. */
  lemma ClampStep(call: Call, f: Formats, s: Memory, ring: nat, noise: seq<nat>, i: nat, x: nat, y: nat, z: nat)
    requires Ready(call, f, s, ring) && call.Clamp?
    requires i < f.shared[call.c].length && z == At(Next(call, f, s, ring, noise).shared, call.c, i)
    requires x == At(s.shared, call.a, i) && y == At(s.shared, call.b, call.index)
    requires call.k >= 1 && x < Pow2(call.k) && y < Pow2(call.k - 1)
    ensures LT.Signed(z, call.k)
      == if LT.Signed(x, call.k) < 0 then 0 else if LT.Signed(x, call.k) > LT.Signed(y, call.k) then LT.Signed(y, call.k)
         else LT.Signed(x, call.k)
  {
    hide *;
    FixedNext(call, f, s, ring, noise, i);
    ReLU6.ClampedIsClamp(x, y, call.k);
    ClampedBelow(x, y, call.k);
    ModSmall(ReLU6.Clamped(x, y, call.k), call.k);
  }

  lemma ClampedBelow(x: nat, y: nat, k: nat)
    requires k >= 1 && x < Pow2(k) && y < Pow2(k - 1)
    ensures ReLU6.Clamped(x, y, k) < Pow2(k)
  {
  }

  /** A number with a clear top bit is truncated to its quotient or one more, whatever was drawn. */
  lemma TruncateStep(call: Call, f: Formats, s: Memory, ring: nat, noise: seq<nat>, i: nat, x: nat, z: nat)
    requires Ready(call, f, s, ring) && call.Truncate?
    requires i < f.shared[call.c].length && z == At(Next(call, f, s, ring, noise).shared, call.c, i)
    requires x == At(s.shared, call.a, i) && call.k >= 1 && x < Pow2(call.k - 1)
    ensures z == x / Pow2(call.m) || z == x / Pow2(call.m) + 1
  {
    hide *;
    UnaryNext(call, f, s, ring, noise, i);
    NearQuotient(x, NoiseAt(noise, i) % Pow2(call.k), call.m, call.k);
  }

  lemma NearQuotient(x: nat, r: nat, m: nat, k: nat)
    requires 1 <= m < k && x < Pow2(k - 1)
    ensures
      var z := Truncation.Truncated(x, r, m, k) % Pow2(k);
      z == x / Pow2(m) || z == x / Pow2(m) + 1
  {
    Truncation.ClearTopNeverOverflows(x, r, k);
    Truncation.LowCarryBit(x, r, m);
    QuotientSmall(x, m, k);
    hide Truncation.LowCarry, Truncation.Overflows;
    ModSmall(x / Pow2(m), k);
    ModSmall(x / Pow2(m) + 1, k);
  }

  lemma QuotientSmall(x: nat, m: nat, k: nat)
    requires k >= 1 && x < Pow2(k - 1)
    ensures x / Pow2(m) + 1 < Pow2(k) || k == 1
  {
    var p := Pow2(m);
    DivSplit(x, p);
    MulMono(x / p, 1, p);
    assert Pow2(k) == 2 * Pow2(k - 1);
    if k > 1 {
      assert Pow2(k - 1) >= 2;
    }
  }

  // ---------- shares that hold a memory ----------

  /** What all parties store: their shares, and their copies of the opened words. */
  datatype Contents = Contents(shared: seq<seq<Sharing>>, public: seq<seq<Public>>)

  /** The holders of every share of x agree, and x shares v. */
  ghost predicate ElementHolds(content: Content, v: nat, x: Sharing) {
    match content
    case Unused => true
    case Sums(k) => Agreed(x, k) && Value(x, k) == v
    case Xors(k) => Agreed(x, k) && XorValue(x, k) == v
    case Bits(k) => Agreed(x, k) && XorValue(x, k) == v && v < 2
    case Opened => false
  }

  ghost predicate RegisterHolds(format: Format, v: seq<nat>, x: seq<Sharing>) {
    |v| == |x| == format.length && forall i :: 0 <= i < |x| ==> ElementHolds(format.content, v[i], x[i])
  }

  ghost predicate PublicHolds(format: Format, v: seq<nat>, x: seq<Public>) {
    |v| == |x| == format.length && (format.content == Opened ==> forall i :: 0 <= i < |x| ==> Known(x[i], v[i]))
  }

  /** Every register holds its numbers. */
  ghost predicate Holds(f: Formats, s: Memory, x: Contents) {
    && |s.shared| == |x.shared| == |f.shared| && |s.public| == |x.public| == |f.public|
    && (forall r :: 0 <= r < |f.shared| ==> RegisterHolds(f.shared[r], s.shared[r], x.shared[r]))
    && (forall o :: 0 <= o < |f.public| ==> PublicHolds(f.public[o], s.public[o], x.public[o]))
  }

  lemma HoldsSized(f: Formats, s: Memory, x: Contents)
    requires Holds(f, s, x)
    ensures Sized(f, s)
  {
    hide ElementHolds;
  }

  /** x shares the number v, up to reduction. */
  ghost predicate SharesResult(content: Content, v: int, x: Sharing) {
    match content
    case Sums(k) => Additive(x, v, k)
    case Xors(k) => Agreed(x, k) && Cong(XorSum(x), v, k)
    case Bits(k) => k >= 1 && 0 <= v < 2 && Agreed(x, k) && Cong(XorSum(x), v, k)
    case _ => false
  }

  lemma ResultHolds(content: Content, v: int, x: Sharing)
    requires SharesResult(content, v, x)
    ensures ElementHolds(content, v % Pow2(RingOf(content)), x)
  {
    hide Agreed, Sum, XorSum;
    if content.Bits? {
      ModSmall(v, content.ring);
    }
  }

  /** Register r holds the call's result. */
  ghost predicate Wrote(call: Call, f: Formats, s: Memory, ring: nat, noise: seq<nat>, r: nat, x: seq<Sharing>) {
    && Ready(call, f, s, ring) && r in Writes(call) && r < |f.shared| && |x| == f.shared[r].length
    && forall i :: 0 <= i < |x| ==> SharesResult(Writes(call)[r], Meaning(call, f, s, ring, r, i, NoiseAt(noise, i)), x[i])
  }

  ghost predicate Published(call: Call, f: Formats, s: Memory, ring: nat, o: nat, x: seq<Public>) {
    && Ready(call, f, s, ring) && Publishes(call, o) && o < |f.public| && |x| == f.public[o].length
    && forall i :: 0 <= i < |x| ==> Known(x[i], PublicMeaning(call, f, s, ring, o, i))
  }

  lemma ConcludesRegister(call: Call, f: Formats, s: Memory, ring: nat, noise: seq<nat>, r: nat, x: seq<Sharing>)
    requires Ready(call, f, s, ring) && r < |f.shared|
    requires if r in Writes(call) then Wrote(call, f, s, ring, noise, r, x) else RegisterHolds(f.shared[r], s.shared[r], x)
    ensures RegisterHolds(NextFormats(f, call).shared[r], Next(call, f, s, ring, noise).shared[r], x)
  {
    hide Allowed, Meaning, PublicMeaning, Writes, Publishes, ElementHolds, SharesResult;
    if r in Writes(call) {
      forall i | 0 <= i < |x| ensures ElementHolds(Writes(call)[r], NextNumber(call, f, s, ring, noise, r, i), x[i]) {
        ResultHolds(Writes(call)[r], Meaning(call, f, s, ring, r, i, NoiseAt(noise, i)), x[i]);
      }
    }
  }

  lemma ConcludesPublic(call: Call, f: Formats, s: Memory, ring: nat, noise: seq<nat>, o: nat, x: seq<Public>)
    requires Ready(call, f, s, ring) && o < |f.public|
    requires if Publishes(call, o) then Published(call, f, s, ring, o, x) else PublicHolds(f.public[o], s.public[o], x)
    ensures PublicHolds(NextFormats(f, call).public[o], Next(call, f, s, ring, noise).public[o], x)
  {
    hide Allowed, Meaning, PublicMeaning, Writes, Publishes;
  }

  /** When the written registers hold the call's results and the others still hold their numbers, the step is made. */
  lemma Concludes(call: Call, f: Formats, s: Memory, ring: nat, noise: seq<nat>, x: Contents)
    requires Ready(call, f, s, ring) && |x.shared| == |f.shared| && |x.public| == |f.public|
    requires forall r :: 0 <= r < |f.shared| ==>
      if r in Writes(call) then Wrote(call, f, s, ring, noise, r, x.shared[r])
      else RegisterHolds(f.shared[r], s.shared[r], x.shared[r])
    requires forall o :: 0 <= o < |f.public| ==>
      if Publishes(call, o) then Published(call, f, s, ring, o, x.public[o])
      else PublicHolds(f.public[o], s.public[o], x.public[o])
    ensures Holds(NextFormats(f, call), Next(call, f, s, ring, noise), x)
  {
    hide *;
    forall r | 0 <= r < |f.shared|
      ensures RegisterHolds(NextFormats(f, call).shared[r], Next(call, f, s, ring, noise).shared[r], x.shared[r])
    {
      ConcludesRegister(call, f, s, ring, noise, r, x.shared[r]);
    }
    forall o | 0 <= o < |f.public|
      ensures PublicHolds(NextFormats(f, call).public[o], Next(call, f, s, ring, noise).public[o], x.public[o])
    {
      ConcludesPublic(call, f, s, ring, noise, o, x.public[o]);
    }
    HoldsFrom(NextFormats(f, call), Next(call, f, s, ring, noise), x);
  }

  lemma HoldsFrom(f: Formats, s: Memory, x: Contents)
    requires |s.shared| == |x.shared| == |f.shared| && |s.public| == |x.public| == |f.public|
    requires forall r :: 0 <= r < |f.shared| ==> RegisterHolds(f.shared[r], s.shared[r], x.shared[r])
    requires forall o :: 0 <= o < |f.public| ==> PublicHolds(f.public[o], s.public[o], x.public[o])
    ensures Holds(f, s, x)
  {
    hide RegisterHolds, PublicHolds;
  }
}
