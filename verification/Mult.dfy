/**
 Three-party multiplication.

 Each party multiplies what it holds, masks the product with the key it shares with the next party,
 and sends it to the previous one.
 */
module Multiplication {
  import opened Ring
  import opened Words
  import opened Stream
  import opened Sharings
  import opened Cluster

  // ---------- the local products cover the product of the secrets ----------

  /** The products one party can form. */
  function LocalProduct(a: Pair, b: Pair): int {
    a.s0 * b.s0 + a.s0 * b.s1 + a.s1 * b.s0
  }

  function LocalProducts(a: Sharing, b: Sharing): int {
    LocalProduct(a.p1, b.p1) + LocalProduct(a.p2, b.p2) + LocalProduct(a.p3, b.p3)
  }

  lemma LocalProductCong(a: Pair, b: Pair, x: int, y: int, k: nat)
    requires Cong(a.s1, x, k) && Cong(b.s1, y, k)
    ensures Cong(LocalProduct(a, b), a.s0 * b.s0 + a.s0 * y + x * b.s0, k)
  {
    hide Cong;
    CongRefl(a.s0, k);
    CongRefl(b.s0, k);
    CongRefl(a.s0 * b.s0, k);
    CongMul(a.s0, a.s0, b.s1, y, k);
    CongMul(a.s1, x, b.s0, b.s0, k);
    CongAdd(a.s0 * b.s0, a.s0 * b.s0, a.s0 * b.s1, a.s0 * y, k);
    CongAdd(a.s0 * b.s0 + a.s0 * b.s1, a.s0 * b.s0 + a.s0 * y, a.s1 * b.s0, x * b.s0, k);
  }

  lemma ProductOfSums(x1: int, x2: int, x3: int, y1: int, y2: int, y3: int)
    ensures (x1 * y1 + x1 * y2 + x2 * y1) + (x2 * y2 + x2 * y3 + x3 * y2) + (x3 * y3 + x3 * y1 + x1 * y3)
         == (x1 + x2 + x3) * (y1 + y2 + y3)
  {
  }

  lemma LocalProductsCover(a: Sharing, b: Sharing, k: nat)
    requires Agreed(a, k) && Agreed(b, k)
    ensures Cong(LocalProducts(a, b), Sum(a) * Sum(b), k)
  {
    hide Cong, LocalProduct;
    var x1, x2, x3 := a.p1.s0, a.p2.s0, a.p3.s0;
    var y1, y2, y3 := b.p1.s0, b.p2.s0, b.p3.s0;
    LocalProductCong(a.p1, b.p1, x2, y2, k);
    LocalProductCong(a.p2, b.p2, x3, y3, k);
    LocalProductCong(a.p3, b.p3, x1, y1, k);
    Add3(LocalProduct(a.p1, b.p1), LocalProduct(a.p2, b.p2), LocalProduct(a.p3, b.p3),
         x1 * y1 + x1 * y2 + x2 * y1, x2 * y2 + x2 * y3 + x3 * y2, x3 * y3 + x3 * y1 + x1 * y3, k);
    ProductOfSums(x1, x2, x3, y1, y2, y3);
  }

  lemma Add3(x1: int, x2: int, x3: int, y1: int, y2: int, y3: int, k: nat)
    requires Cong(x1, y1, k) && Cong(x2, y2, k) && Cong(x3, y3, k)
    ensures Cong(x1 + x2 + x3, y1 + y2 + y3, k)
  {
    hide Cong;
    CongAdd(x1, y1, x2, y2, k);
    CongAdd(x1 + x2, y1 + y2, x3, y3, k);
  }

  // ---------- masking cancels ----------

  /** Masked products v, with masks m1 (slot-1 key) and m0 (slot-0 key), make a sharing of the sum. */
  lemma Reshared(l: Three<int>, v: Public, m1: Public, m0: Public, res: Sharing, k: nat)
    requires Cong(m1.p1, m0.p2, k) && Cong(m1.p2, m0.p3, k) && Cong(m1.p3, m0.p1, k)
    requires Cong(v.p1, l.p1 - m1.p1, k) && Cong(v.p2, l.p2 - m1.p2, k) && Cong(v.p3, l.p3 - m1.p3, k)
    requires Cong(res.p1.s0, m0.p1 + v.p1, k) && Cong(res.p1.s1, v.p2 + m1.p1, k)
    requires Cong(res.p2.s0, m0.p2 + v.p2, k) && Cong(res.p2.s1, v.p3 + m1.p2, k)
    requires Cong(res.p3.s0, m0.p3 + v.p3, k) && Cong(res.p3.s1, v.p1 + m1.p3, k)
    ensures Additive(res, l.p1 + l.p2 + l.p3, k)
  {
    hide Cong;
    ReshareAgrees(v.p2, m1.p1, m0.p2, res.p1.s1, res.p2.s0, k);
    ReshareAgrees(v.p3, m1.p2, m0.p3, res.p2.s1, res.p3.s0, k);
    ReshareAgrees(v.p1, m1.p3, m0.p1, res.p3.s1, res.p1.s0, k);
    Add3(res.p1.s0, res.p2.s0, res.p3.s0, m0.p1 + v.p1, m0.p2 + v.p2, m0.p3 + v.p3, k);
    Add3(v.p1, v.p2, v.p3, l.p1 - m1.p1, l.p2 - m1.p2, l.p3 - m1.p3, k);
    Add3(m1.p3, m1.p1, m1.p2, m0.p1, m0.p2, m0.p3, k);
    var m, n, s, t := m0.p1 + m0.p2 + m0.p3, m1.p3 + m1.p1 + m1.p2, v.p1 + v.p2 + v.p3, l.p1 + l.p2 + l.p3;
    CongSym(n, m, k);
    CongAdd(m, n, s, t - n, k);
    CongTrans(Sum(res), m + s, t, k);
  }

  lemma ReshareAgrees(v: int, m1: int, m0: int, r1: int, r0: int, k: nat)
    requires Cong(m1, m0, k) && Cong(r1, v + m1, k) && Cong(r0, m0 + v, k)
    ensures Cong(r1, r0, k)
  {
    hide Cong;
    CongRefl(v, k);
    CongAdd(v, v, m1, m0, k);
    CongTrans(r1, v + m1, v + m0, k);
    CongSym(r0, m0 + v, k);
    CongTrans(r1, m0 + v, r0, k);
  }

  // ---------- one element of Rss_Mult ----------

  /** The words the parties load from their buffers at index i. */
  function RandWords(buf: Three<seq<Byte>>, i: nat, bytes: nat): Public {
    Three(Load(buf.p1, i, bytes), Load(buf.p2, i, bytes), Load(buf.p3, i, bytes))
  }

  /** c[0] after the random bytes have been copied over its low bytes. */
  function LoadMask(c: Sharing, r: Public, bytes: nat): Sharing {
    Three(c.p1.(s0 := CopyLow(c.p1.s0, r.p1, bytes)),
          c.p2.(s0 := CopyLow(c.p2.s0, r.p2, bytes)),
          c.p3.(s0 := CopyLow(c.p3.s0, r.p3, bytes)))
  }

  /** v, computed from the operands and the mask in c[0]. */
  function MaskedProducts(a: Sharing, b: Sharing, c: Sharing): Public {
    Three(Wrap(LocalProduct(a.p1, b.p1) - c.p1.s0),
          Wrap(LocalProduct(a.p2, b.p2) - c.p2.s0),
          Wrap(LocalProduct(a.p3, b.p3) - c.p3.s0))
  }

  /** The last loop: c[1] from the received word and the first mask, c[0] from the second mask and v. */
  function Combine(c: Sharing, v: Public, recv: Public, r: Public, bytes: nat): Sharing {
    Three(Pair(Wrap(CopyLow(c.p1.s0, r.p1, bytes) + v.p1), Wrap(recv.p1 + c.p1.s0)),
          Pair(Wrap(CopyLow(c.p2.s0, r.p2, bytes) + v.p2), Wrap(recv.p2 + c.p2.s0)),
          Pair(Wrap(CopyLow(c.p3.s0, r.p3, bytes) + v.p3), Wrap(recv.p3 + c.p3.s0)))
  }

  lemma WrapAddCong(x: int, x': int, y: int, k: nat)
    requires k <= W && Cong(x, x', k)
    ensures Cong(Wrap(x + y), x' + y, k) && Cong(Wrap(y + x), y + x', k)
  {
    hide Cong, Wrap;
    WrapCong(x + y, k);
    CongRefl(y, k);
    CongAdd(x, x', y, y, k);
    CongTrans(Wrap(x + y), x + y, x' + y, k);
  }

  lemma MaskedWrapCong(x: int, m: int, r: int, k: nat)
    requires k <= W && Cong(m, r, k)
    ensures Cong(Masked(Wrap(x - m), k), x - r, k)
  {
    hide Cong, Wrap, Masked;
    CongMod(Wrap(x - m), k);
    WrapCong(x - m, k);
    CongRefl(x, k);
    CongAdd(x, x, m, r, k);
    CongTrans(Masked(Wrap(x - m), k), Wrap(x - m), x - m, k);
    CongTrans(Masked(Wrap(x - m), k), x - m, x - r, k);
  }

  /** One party's contribution to the reshared product. */
  lemma CombineCong(c0: nat, v: nat, recv: nat, r1: nat, r0: nat, bytes: nat, k: nat)
    requires k <= W && k <= 8 * bytes && Cong(c0, r1, k)
    ensures Cong(Wrap(CopyLow(c0, r0, bytes) + v), r0 + v, k) && Cong(Wrap(recv + c0), recv + r1, k)
  {
    hide *;
    CopyLowCong(c0, r0, bytes, k);
    WrapAddCong(CopyLow(c0, r0, bytes), r0, v, k);
    WrapAddCong(c0, r1, recv, k);
  }

  /** The local totals under the masks in c[0]. */
  function MaskedTotals(l: Three<int>, c: Sharing): Public {
    Three(Wrap(l.p1 - c.p1.s0), Wrap(l.p2 - c.p2.s0), Wrap(l.p3 - c.p3.s0))
  }

  /** Masking, exchanging and combining local totals shares their sum. */
  lemma TotalElement(l: Three<int>, c: Sharing, c1: Sharing, v: Public, r1: Public, r0: Public, k: nat)
    requires k <= W && r1 == FromNext(r0)
    requires c1 == LoadMask(c, r1, BytesFor(k)) && v == MaskAll(MaskedTotals(l, c1), k)
    ensures Additive(Combine(c1, v, FromNext(v), r0, BytesFor(k)), l.p1 + l.p2 + l.p3, k)
  {
    var bytes := BytesFor(k);
    BytesEnough(k);
    hide Cong, Wrap, Masked, CopyLow, Agreed, Sum, Additive, BytesFor;
    var res := Combine(c1, v, FromNext(v), r0, bytes);
    CopyLowCong(c.p1.s0, r1.p1, bytes, k);
    CopyLowCong(c.p2.s0, r1.p2, bytes, k);
    CopyLowCong(c.p3.s0, r1.p3, bytes, k);
    MaskedWrapCong(l.p1, c1.p1.s0, r1.p1, k);
    MaskedWrapCong(l.p2, c1.p2.s0, r1.p2, k);
    MaskedWrapCong(l.p3, c1.p3.s0, r1.p3, k);
    CombineCong(c1.p1.s0, v.p1, v.p2, r1.p1, r0.p1, bytes, k);
    CombineCong(c1.p2.s0, v.p2, v.p3, r1.p2, r0.p2, bytes, k);
    CombineCong(c1.p3.s0, v.p3, v.p1, r1.p3, r0.p3, bytes, k);
    CongRefl(r1.p1, k);
    CongRefl(r1.p2, k);
    CongRefl(r1.p3, k);
    Reshared(l, v, r1, r0, res, k);
  }

  lemma MultElement(a: Sharing, b: Sharing, c: Sharing, c1: Sharing, v: Public, r1: Public, r0: Public, k: nat)
    requires k <= W && Agreed(a, k) && Agreed(b, k)
    requires r1 == FromNext(r0)
    requires c1 == LoadMask(c, r1, BytesFor(k)) && v == MaskAll(MaskedProducts(a, b, c1), k)
    ensures Additive(Combine(c1, v, FromNext(v), r0, BytesFor(k)), Sum(a) * Sum(b), k)
  {
    hide Cong, Wrap, Masked, LocalProduct, Agreed, Sum, Additive, BytesFor, Combine, LoadMask;
    var l := Three(LocalProduct(a.p1, b.p1), LocalProduct(a.p2, b.p2), LocalProduct(a.p3, b.p3));
    TotalElement(l, c, c1, v, r1, r0, k);
    LocalProductsCover(a, b, k);
    AdditiveAs(Combine(c1, v, FromNext(v), r0, BytesFor(k)), l.p1 + l.p2 + l.p3, Sum(a) * Sum(b), k);
  }

  /** The bytes needed for n words of k bits. */
  function RequestSize(n: nat, k: nat): (r: nat)
    ensures n >= 1 && k >= 1 ==> r >= 1
  {
    n * BytesFor(k)
  }

  /** The word every party loads at index i when it draws n words of k bits from generators g. */
  ghost function Drawn(g: Three<Gen>, n: nat, k: nat, i: nat): Public {
    RandWords(Bytes(g, RequestSize(n, k)), i, BytesFor(k))
  }

  lemma DrawnWord(g: Three<Gen>, n: nat, k: nat, i: nat)
    ensures Drawn(g, n, k, i) == RandWords(Bytes(g, RequestSize(n, k)), i, BytesFor(k))
  {
  }

  /** A request asks for n times ceil(k / 8) bytes. */
  lemma RequestSizeIs(n: nat, k: nat)
    ensures RequestSize(n, k) == n * ((k + 7) / 8)
  {
  }

  lemma LoadedByte(g: Gen, size: nat, bytes: nat, i: nat, t: nat)
    requires (i + 1) * bytes <= size && t < bytes
    ensures Load(Take(g, size), i, bytes) / Pow2(8 * t) % 256 == StreamByte(g, i * bytes + t)
  {
    hide *;
    LoadByte(Take(g, size), i, bytes, t);
    TakeAt(g, size, i * bytes + t);
  }

  /** Byte t of the word a party loads at index i is byte i * ceil(k / 8) + t of its stream. */
  lemma DrawnByte(g: Three<Gen>, n: nat, k: nat, i: nat, t: nat)
    requires i < n && t < (k + 7) / 8
    ensures
      var r, at := Drawn(g, n, k, i), i * ((k + 7) / 8) + t;
      && r.p1 / Pow2(8 * t) % 256 == StreamByte(g.p1, at)
      && r.p2 / Pow2(8 * t) % 256 == StreamByte(g.p2, at)
      && r.p3 / Pow2(8 * t) % 256 == StreamByte(g.p3, at)
  {
    var bytes, size := BytesFor(k), RequestSize(n, k);
    assert bytes == (k + 7) / 8 && size == n * bytes;
    MulMono(bytes, i + 1, n);
    assert (i + 1) * bytes <= size;
    DrawnWords(g, n, k, i);
    hide *;
    LoadedByte(g.p1, size, bytes, i, t);
    LoadedByte(g.p2, size, bytes, i, t);
    LoadedByte(g.p3, size, bytes, i, t);
  }

  lemma DrawnWords(g: Three<Gen>, n: nat, k: nat, i: nat)
    ensures
      var r, bytes, size := Drawn(g, n, k, i), BytesFor(k), RequestSize(n, k);
      && r.p1 == Load(Take(g.p1, size), i, bytes) && r.p2 == Load(Take(g.p2, size), i, bytes)
      && r.p3 == Load(Take(g.p3, size), i, bytes)
  {
    hide Take, Load, BytesFor, RequestSize;
  }

  lemma PairedDraws(g0: Three<Gen>, g1: Three<Gen>, n: nat, k: nat, i: nat)
    requires Paired(g0, g1)
    ensures Drawn(g1, n, k, i) == FromNext(Drawn(g0, n, k, i))
  {
  }

  /**
   `Rss_Mult`: c becomes a sharing of the product of the secrets of a and b, for every content of the
   generators.  The operands are still read after c[0] is written, so c is neither of them.
   */
  method Mult(c: array<Sharing>, a: array<Sharing>, b: array<Sharing>, k: nat, net: Net)
    requires InStep(net) && 1 <= k <= W
    requires 1 <= c.Length == a.Length == b.Length && c != a && c != b
    requires forall i :: 0 <= i < a.Length ==> Agreed(a[i], k) && Agreed(b[i], k)
    modifies c, net.p1, net.p2, net.p3
    ensures InStep(net) && Private(net) == old(Private(net))
    ensures Slots(net, 0) == Advanced(old(Slots(net, 0)), RequestSize(c.Length, k))
    ensures Slots(net, 1) == Advanced(old(Slots(net, 1)), RequestSize(c.Length, k))
    ensures forall i :: 0 <= i < c.Length ==> Additive(c[i], Sum(a[i]) * Sum(b[i]), k)
  {
    ghost var n, g0, g1 := c.Length, Slots(net, 0), Slots(net, 1);
    PairedAdvance(g0, g1, RequestSize(n, k));
    assert Valid(net);
    hide *;
    var v, recv := SendProducts(c, a, b, k, net);
    label Sent:
    ReceiveProducts(c, v, recv, k, net);
    KeptInStep(net);
    forall i | 0 <= i < n ensures Additive(c[i], Sum(a[i]) * Sum(b[i]), k) {
      assert Agreed(a[i], k) && Agreed(b[i], k);
      assert old@Sent(c[i]) == LoadMask(old(c[i]), Drawn(g1, n, k, i), BytesFor(k));
      assert v[i] == MaskAll(MaskedProducts(a[i], b[i], old@Sent(c[i])), k);
      assert c[i] == Combine(old@Sent(c[i]), v[i], FromNext(v[i]), Drawn(g0, n, k, i), BytesFor(k));
      PairedDraws(g0, g1, n, k, i);
      MultElement(a[i], b[i], old(c[i]), old@Sent(c[i]), v[i], Drawn(g1, n, k, i), Drawn(g0, n, k, i), k);
    }
  }

  /** Draws from slot 1, masks the products and exchanges them. */
  method SendProducts(c: array<Sharing>, a: array<Sharing>, b: array<Sharing>, k: nat, net: Net)
    returns (v: array<Public>, recv: array<Public>)
    requires Valid(net) && 1 <= k <= W
    requires 1 <= c.Length == a.Length == b.Length && c != a && c != b
    modifies c, net.p1, net.p2, net.p3
    ensures Valid(net) && Slots(net, 1) == Advanced(old(Slots(net, 1)), RequestSize(c.Length, k))
    ensures Slots(net, 0) == old(Slots(net, 0)) && Slots(net, 2) == old(Slots(net, 2))
    ensures fresh(v) && fresh(recv) && v.Length == recv.Length == c.Length
    ensures forall i :: 0 <= i < c.Length ==>
      c[i] == LoadMask(old(c[i]), Drawn(old(Slots(net, 1)), c.Length, k, i), BytesFor(k))
    ensures forall i :: 0 <= i < c.Length ==>
      v[i] == MaskAll(MaskedProducts(a[i], b[i], c[i]), k) && recv[i] == FromNext(v[i])
  {
    hide MaskedProducts, MaskAll, FromNext, LoadMask, RandWords, Bytes, Advanced, RequestSize, BytesFor;
    var buf := Draw(net, 1, RequestSize(c.Length, k));
    v := LoadMasks(c, a, b, buf, BytesFor(k));
    recv := Exchange(v, k);
  }

  /** Draws from slot 0 and completes both slots. */
  method ReceiveProducts(c: array<Sharing>, v: array<Public>, recv: array<Public>, k: nat, net: Net)
    requires Valid(net) && 1 <= k <= W && 1 <= c.Length == v.Length == recv.Length
    modifies c, net.p1, net.p2, net.p3
    ensures Valid(net) && Slots(net, 0) == Advanced(old(Slots(net, 0)), RequestSize(c.Length, k))
    ensures Slots(net, 1) == old(Slots(net, 1)) && Slots(net, 2) == old(Slots(net, 2))
    ensures forall i :: 0 <= i < c.Length ==>
      c[i] == Combine(old(c[i]), v[i], recv[i], Drawn(old(Slots(net, 0)), c.Length, k, i), BytesFor(k))
  {
    hide Combine, RandWords, Bytes, Advanced, RequestSize, BytesFor;
    var buf := Draw(net, 0, RequestSize(c.Length, k));
    CombineAll(c, v, recv, buf, BytesFor(k));
  }

  method LoadMasks(c: array<Sharing>, a: array<Sharing>, b: array<Sharing>, buf: Three<seq<Byte>>, bytes: nat)
    returns (v: array<Public>)
    requires c.Length == a.Length == b.Length && c != a && c != b
    modifies c
    ensures fresh(v) && v.Length == c.Length
    ensures forall i :: 0 <= i < c.Length ==> c[i] == LoadMask(old(c[i]), RandWords(buf, i, bytes), bytes)
    ensures forall i :: 0 <= i < c.Length ==> v[i] == MaskedProducts(a[i], b[i], c[i])
  {
    hide *;
    v := new Public[c.Length];
    for i := 0 to c.Length
      invariant forall j :: 0 <= j < i ==> c[j] == LoadMask(old(c[j]), RandWords(buf, j, bytes), bytes)
      invariant forall j :: 0 <= j < i ==> v[j] == MaskedProducts(a[j], b[j], c[j])
      invariant forall j :: i <= j < c.Length ==> c[j] == old(c[j])
    {
      c[i] := LoadMask(c[i], RandWords(buf, i, bytes), bytes);
      v[i] := MaskedProducts(a[i], b[i], c[i]);
    }
  }

  method CombineAll(c: array<Sharing>, v: array<Public>, recv: array<Public>, buf: Three<seq<Byte>>, bytes: nat)
    requires c.Length == v.Length == recv.Length
    modifies c
    ensures forall i :: 0 <= i < c.Length ==>
      c[i] == Combine(old(c[i]), v[i], recv[i], RandWords(buf, i, bytes), bytes)
  {
    hide *;
    for i := 0 to c.Length
      invariant forall j :: 0 <= j < i ==> c[j] == Combine(old(c[j]), v[j], recv[j], RandWords(buf, j, bytes), bytes)
      invariant forall j :: i <= j < c.Length ==> c[j] == old(c[j])
    {
      c[i] := Combine(c[i], v[i], recv[i], RandWords(buf, i, bytes), bytes);
    }
  }

  // ---------- bitwise multiplication ----------

  /** The conjunctions one party can form, in the order Rss_Mult_Bitwise writes them. */
  function LocalAnd(a: Pair, b: Pair): nat {
    Xor(Xor(And(a.s0, b.s0), And(a.s0, b.s1)), And(a.s1, b.s0))
  }

  function MaskedAnds(a: Sharing, b: Sharing, c: Sharing): Public {
    Three(Xor(LocalAnd(a.p1, b.p1), c.p1.s0),
          Xor(LocalAnd(a.p2, b.p2), c.p2.s0),
          Xor(LocalAnd(a.p3, b.p3), c.p3.s0))
  }

  function CombineXor(c: Sharing, v: Public, recv: Public, r: Public, bytes: nat): Sharing {
    Three(Pair(Xor(CopyLow(c.p1.s0, r.p1, bytes), v.p1), Xor(recv.p1, c.p1.s0)),
          Pair(Xor(CopyLow(c.p2.s0, r.p2, bytes), v.p2), Xor(recv.p2, c.p2.s0)),
          Pair(Xor(CopyLow(c.p3.s0, r.p3, bytes), v.p3), Xor(recv.p3, c.p3.s0)))
  }

  predicate LocalBit(a: Pair, b: Pair, j: nat) {
    ((Bit(a.s0, j) && Bit(b.s0, j)) != (Bit(a.s0, j) && Bit(b.s1, j))) != (Bit(a.s1, j) && Bit(b.s0, j))
  }

  lemma LocalAndBit(a: Pair, b: Pair, j: nat)
    ensures Bit(LocalAnd(a, b), j) == LocalBit(a, b, j)
  {
    hide Bit;
    BitAnd(a.s0, b.s0, j);
    BitAnd(a.s0, b.s1, j);
    BitAnd(a.s1, b.s0, j);
    BitXor(And(a.s0, b.s0), And(a.s0, b.s1), j);
    BitXor(Xor(And(a.s0, b.s0), And(a.s0, b.s1)), And(a.s1, b.s0), j);
  }

  lemma CopyLowBit(word: nat, v: nat, bytes: nat, j: nat)
    requires j < 8 * bytes
    ensures Bit(CopyLow(word, v, bytes), j) == Bit(v, j)
  {
    hide *;
    CopyLowCong(word, v, bytes, 8 * bytes);
    CongBit(CopyLow(word, v, bytes), v, 8 * bytes, j);
  }

  /** Bit j of one party's masked word and of its two result words. */
  lemma PartyBits(a: Pair, b: Pair, c: nat, v: nat, recv: nat, r1: nat, r0: nat, k: nat, j: nat)
    requires j < k
    requires v == Masked(Xor(LocalAnd(a, b), CopyLow(c, r1, BytesFor(k))), k)
    ensures
      var c1, bytes := CopyLow(c, r1, BytesFor(k)), BytesFor(k);
      && Bit(v, j) == (LocalBit(a, b, j) != Bit(r1, j))
      && Bit(Xor(CopyLow(c1, r0, bytes), v), j) == (Bit(r0, j) != Bit(v, j))
      && Bit(Xor(recv, c1), j) == (Bit(recv, j) != Bit(r1, j))
  {
    hide *;
    var bytes := BytesFor(k);
    var c1 := CopyLow(c, r1, bytes);
    BytesEnough(k);
    CopyLowBit(c, r1, bytes, j);
    CopyLowBit(c1, r0, bytes, j);
    LocalAndBit(a, b, j);
    BitXor(LocalAnd(a, b), c1, j);
    BitMod(Xor(LocalAnd(a, b), c1), k, j);
    BitXor(CopyLow(c1, r0, bytes), v, j);
    BitXor(recv, c1, j);
  }

  lemma MultBitwiseElement(a: Sharing, b: Sharing, c: Sharing, c1: Sharing, v: Public, r1: Public, r0: Public, k: nat)
    requires r1 == FromNext(r0)
    requires c1 == LoadMask(c, r1, BytesFor(k)) && v == MaskAll(MaskedAnds(a, b, c1), k)
    ensures AndOf(CombineXor(c1, v, FromNext(v), r0, BytesFor(k)), a, b, k)
  {
    var res := CombineXor(c1, v, FromNext(v), r0, BytesFor(k));
    hide Masked, CopyLow, LocalAnd, BytesFor, Bit, Xor, And;
    forall j | 0 <= j < k && BitAgreed(a, j) && BitAgreed(b, j)
      ensures HasBit(res, j, Parity(a, j) && Parity(b, j))
    {
      PartyBits(a.p1, b.p1, c.p1.s0, v.p1, v.p2, r1.p1, r0.p1, k, j);
      PartyBits(a.p2, b.p2, c.p2.s0, v.p2, v.p3, r1.p2, r0.p2, k, j);
      PartyBits(a.p3, b.p3, c.p3.s0, v.p3, v.p1, r1.p3, r0.p3, k, j);
    }
  }

  /**
   `Rss_Mult_Bitwise`: every bit of c becomes a sharing of the conjunction of that bit of a and b, for
   every content of the generators; bits do not affect one another.  The operands are still
   read after c[0] is written, so c is neither of them.
   */
  method MultBitwise(c: array<Sharing>, a: array<Sharing>, b: array<Sharing>, k: nat, net: Net)
    requires InStep(net) && 1 <= k <= W
    requires 1 <= c.Length == a.Length == b.Length && c != a && c != b
    modifies c, net.p1, net.p2, net.p3
    ensures InStep(net) && Private(net) == old(Private(net))
    ensures Slots(net, 0) == Advanced(old(Slots(net, 0)), RequestSize(c.Length, k))
    ensures Slots(net, 1) == Advanced(old(Slots(net, 1)), RequestSize(c.Length, k))
    ensures forall i :: 0 <= i < c.Length ==> AndOf(c[i], a[i], b[i], k)
  {
    ghost var n, g0, g1 := c.Length, Slots(net, 0), Slots(net, 1);
    PairedAdvance(g0, g1, RequestSize(n, k));
    assert Valid(net);
    hide *;
    var v, recv := SendAnds(c, a, b, k, net);
    label Sent:
    ReceiveAnds(c, v, recv, k, net);
    KeptInStep(net);
    forall i | 0 <= i < n ensures AndOf(c[i], a[i], b[i], k) {
      assert old@Sent(c[i]) == LoadMask(old(c[i]), Drawn(g1, n, k, i), BytesFor(k));
      assert v[i] == MaskAll(MaskedAnds(a[i], b[i], old@Sent(c[i])), k);
      assert c[i] == CombineXor(old@Sent(c[i]), v[i], FromNext(v[i]), Drawn(g0, n, k, i), BytesFor(k));
      PairedDraws(g0, g1, n, k, i);
      MultBitwiseElement(a[i], b[i], old(c[i]), old@Sent(c[i]), v[i], Drawn(g1, n, k, i), Drawn(g0, n, k, i), k);
    }
  }

  /** Draws from slot 1, masks the conjunctions and exchanges them. */
  method SendAnds(c: array<Sharing>, a: array<Sharing>, b: array<Sharing>, k: nat, net: Net)
    returns (v: array<Public>, recv: array<Public>)
    requires Valid(net) && 1 <= k <= W
    requires 1 <= c.Length == a.Length == b.Length && c != a && c != b
    modifies c, net.p1, net.p2, net.p3
    ensures Valid(net) && Slots(net, 1) == Advanced(old(Slots(net, 1)), RequestSize(c.Length, k))
    ensures Slots(net, 0) == old(Slots(net, 0)) && Slots(net, 2) == old(Slots(net, 2))
    ensures fresh(v) && fresh(recv) && v.Length == recv.Length == c.Length
    ensures forall i :: 0 <= i < c.Length ==>
      c[i] == LoadMask(old(c[i]), Drawn(old(Slots(net, 1)), c.Length, k, i), BytesFor(k))
    ensures forall i :: 0 <= i < c.Length ==>
      v[i] == MaskAll(MaskedAnds(a[i], b[i], c[i]), k) && recv[i] == FromNext(v[i])
  {
    hide MaskedAnds, MaskAll, FromNext, LoadMask, RandWords, Bytes, Advanced, RequestSize, BytesFor;
    var buf := Draw(net, 1, RequestSize(c.Length, k));
    v := LoadAndMasks(c, a, b, buf, BytesFor(k));
    recv := Exchange(v, k);
  }

  /** Draws from slot 0 and completes both slots. */
  method ReceiveAnds(c: array<Sharing>, v: array<Public>, recv: array<Public>, k: nat, net: Net)
    requires Valid(net) && 1 <= k <= W && 1 <= c.Length == v.Length == recv.Length
    modifies c, net.p1, net.p2, net.p3
    ensures Valid(net) && Slots(net, 0) == Advanced(old(Slots(net, 0)), RequestSize(c.Length, k))
    ensures Slots(net, 1) == old(Slots(net, 1)) && Slots(net, 2) == old(Slots(net, 2))
    ensures forall i :: 0 <= i < c.Length ==>
      c[i] == CombineXor(old(c[i]), v[i], recv[i], Drawn(old(Slots(net, 0)), c.Length, k, i), BytesFor(k))
  {
    hide Combine, RandWords, Bytes, Advanced, RequestSize, BytesFor;
    var buf := Draw(net, 0, RequestSize(c.Length, k));
    CombineXorAll(c, v, recv, buf, BytesFor(k));
  }

  method LoadAndMasks(c: array<Sharing>, a: array<Sharing>, b: array<Sharing>, buf: Three<seq<Byte>>, bytes: nat)
    returns (v: array<Public>)
    requires c.Length == a.Length == b.Length && c != a && c != b
    modifies c
    ensures fresh(v) && v.Length == c.Length
    ensures forall i :: 0 <= i < c.Length ==> c[i] == LoadMask(old(c[i]), RandWords(buf, i, bytes), bytes)
    ensures forall i :: 0 <= i < c.Length ==> v[i] == MaskedAnds(a[i], b[i], c[i])
  {
    hide *;
    v := new Public[c.Length];
    for i := 0 to c.Length
      invariant forall j :: 0 <= j < i ==> c[j] == LoadMask(old(c[j]), RandWords(buf, j, bytes), bytes)
      invariant forall j :: 0 <= j < i ==> v[j] == MaskedAnds(a[j], b[j], c[j])
      invariant forall j :: i <= j < c.Length ==> c[j] == old(c[j])
    {
      c[i] := LoadMask(c[i], RandWords(buf, i, bytes), bytes);
      v[i] := MaskedAnds(a[i], b[i], c[i]);
    }
  }

  method CombineXorAll(c: array<Sharing>, v: array<Public>, recv: array<Public>, buf: Three<seq<Byte>>, bytes: nat)
    requires c.Length == v.Length == recv.Length
    modifies c
    ensures forall i :: 0 <= i < c.Length ==>
      c[i] == CombineXor(old(c[i]), v[i], recv[i], RandWords(buf, i, bytes), bytes)
  {
    hide *;
    for i := 0 to c.Length
      invariant forall j :: 0 <= j < i ==> c[j] == CombineXor(old(c[j]), v[j], recv[j], RandWords(buf, j, bytes), bytes)
      invariant forall j :: i <= j < c.Length ==> c[j] == old(c[j])
    {
      c[i] := CombineXor(c[i], v[i], recv[i], RandWords(buf, i, bytes), bytes);
    }
  }

  /** The byte version's local term: a0 & (b0 ^ b1) ^ a1 & b0. */
  function FactoredAnd(a: Pair, b: Pair): nat {
    Xor(And(a.s0, Xor(b.s0, b.s1)), And(a.s1, b.s0))
  }

  function MaskedFactoredAnds(a: Sharing, b: Sharing, c: Sharing): Public {
    Three(Xor(FactoredAnd(a.p1, b.p1), c.p1.s0),
          Xor(FactoredAnd(a.p2, b.p2), c.p2.s0),
          Xor(FactoredAnd(a.p3, b.p3), c.p3.s0))
  }

  /** The factored term is the same word. */
  lemma FactoredIsLocal(a: Pair, b: Pair)
    ensures FactoredAnd(a, b) == LocalAnd(a, b)
  {
    hide *;
    forall j: nat
      ensures Bit(And(a.s0, Xor(b.s0, b.s1)), j) == Bit(Xor(And(a.s0, b.s0), And(a.s0, b.s1)), j)
    {
      BitXor(b.s0, b.s1, j);
      BitAnd(a.s0, Xor(b.s0, b.s1), j);
      BitAnd(a.s0, b.s0, j);
      BitAnd(a.s0, b.s1, j);
      BitXor(And(a.s0, b.s0), And(a.s0, b.s1), j);
    }
    SameBits(And(a.s0, Xor(b.s0, b.s1)), Xor(And(a.s0, b.s0), And(a.s0, b.s1)));
    FactoredWord(a, b);
  }

  lemma FactoredWord(a: Pair, b: Pair)
    requires And(a.s0, Xor(b.s0, b.s1)) == Xor(And(a.s0, b.s0), And(a.s0, b.s1))
    ensures FactoredAnd(a, b) == LocalAnd(a, b)
  {
    hide And, Xor;
  }

  lemma MaskedFactoredSame(a: Sharing, b: Sharing, c: Sharing)
    ensures MaskedFactoredAnds(a, b, c) == MaskedAnds(a, b, c)
  {
    hide FactoredAnd, LocalAnd, Xor;
    FactoredIsLocal(a.p1, b.p1);
    FactoredIsLocal(a.p2, b.p2);
    FactoredIsLocal(a.p3, b.p3);
  }

  /** `Rss_Mult_Byte`: the same over bytes, of which a cell holds the low 8 bits. */
  method MultByte(c: array<Sharing>, a: array<Sharing>, b: array<Sharing>, net: Net)
    requires InStep(net)
    requires 1 <= c.Length == a.Length == b.Length && c != a && c != b
    modifies c, net.p1, net.p2, net.p3
    ensures InStep(net) && Private(net) == old(Private(net))
    ensures Slots(net, 0) == Advanced(old(Slots(net, 0)), RequestSize(c.Length, 8))
    ensures Slots(net, 1) == Advanced(old(Slots(net, 1)), RequestSize(c.Length, 8))
    ensures forall i :: 0 <= i < c.Length ==> AndOf(c[i], a[i], b[i], 8)
  {
    ghost var n, g0, g1 := c.Length, Slots(net, 0), Slots(net, 1);
    PairedAdvance(g0, g1, RequestSize(n, 8));
    assert Valid(net);
    hide *;
    var v, recv := SendFactoredAnds(c, a, b, net);
    label Sent:
    ReceiveAnds(c, v, recv, 8, net);
    KeptInStep(net);
    forall i | 0 <= i < n ensures AndOf(c[i], a[i], b[i], 8) {
      assert old@Sent(c[i]) == LoadMask(old(c[i]), Drawn(g1, n, 8, i), BytesFor(8));
      assert v[i] == MaskAll(MaskedAnds(a[i], b[i], old@Sent(c[i])), 8);
      assert c[i] == CombineXor(old@Sent(c[i]), v[i], FromNext(v[i]), Drawn(g0, n, 8, i), BytesFor(8));
      PairedDraws(g0, g1, n, 8, i);
      MultBitwiseElement(a[i], b[i], old(c[i]), old@Sent(c[i]), v[i], Drawn(g1, n, 8, i), Drawn(g0, n, 8, i), 8);
    }
  }

  /** Draws the masks from slot 1, masks the factored conjunctions and exchanges them. */
  method SendFactoredAnds(c: array<Sharing>, a: array<Sharing>, b: array<Sharing>, net: Net)
    returns (v: array<Public>, recv: array<Public>)
    requires Valid(net)
    requires 1 <= c.Length == a.Length == b.Length && c != a && c != b
    modifies c, net.p1, net.p2, net.p3
    ensures Valid(net) && Slots(net, 1) == Advanced(old(Slots(net, 1)), RequestSize(c.Length, 8))
    ensures Slots(net, 0) == old(Slots(net, 0)) && Slots(net, 2) == old(Slots(net, 2))
    ensures fresh(v) && fresh(recv) && v.Length == recv.Length == c.Length
    ensures forall i :: 0 <= i < c.Length ==>
      c[i] == LoadMask(old(c[i]), Drawn(old(Slots(net, 1)), c.Length, 8, i), BytesFor(8))
    ensures forall i :: 0 <= i < c.Length ==>
      v[i] == MaskAll(MaskedAnds(a[i], b[i], c[i]), 8) && recv[i] == FromNext(v[i])
  {
    hide MaskedAnds, MaskedFactoredAnds, MaskAll, FromNext, LoadMask, RandWords, Bytes, Advanced, RequestSize, BytesFor;
    var buf := Draw(net, 1, RequestSize(c.Length, 8));
    v := LoadAndFactoredMasks(c, a, b, buf, BytesFor(8));
    recv := Exchange(v, 8);
  }

  method LoadAndFactoredMasks(c: array<Sharing>, a: array<Sharing>, b: array<Sharing>, buf: Three<seq<Byte>>, bytes: nat)
    returns (v: array<Public>)
    requires c.Length == a.Length == b.Length && c != a && c != b
    modifies c
    ensures fresh(v) && v.Length == c.Length
    ensures forall i :: 0 <= i < c.Length ==> c[i] == LoadMask(old(c[i]), RandWords(buf, i, bytes), bytes)
    ensures forall i :: 0 <= i < c.Length ==> v[i] == MaskedAnds(a[i], b[i], c[i])
  {
    hide *;
    v := new Public[c.Length];
    for i := 0 to c.Length
      invariant forall j :: 0 <= j < i ==> c[j] == LoadMask(old(c[j]), RandWords(buf, j, bytes), bytes)
      invariant forall j :: 0 <= j < i ==> v[j] == MaskedAnds(a[j], b[j], c[j])
      invariant forall j :: i <= j < c.Length ==> c[j] == old(c[j])
    {
      c[i] := LoadMask(c[i], RandWords(buf, i, bytes), bytes);
      MaskedFactoredSame(a[i], b[i], c[i]);
      v[i] := MaskedFactoredAnds(a[i], b[i], c[i]);
    }
  }
}
