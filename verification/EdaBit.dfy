/**
 Shared random numbers together with their bits (`Rss_edaBit`).

 Parties 1 and 2 each draw a private number and share it twice, additively and bit by bit; the sums are
 an additive sharing r and, through the adder, a bitwise sharing of the same number mod 2^k.
 */
module EdaBits {
  import opened Ring
  import opened Words
  import opened Stream
  import opened Sharings
  import opened Cluster
  import opened Multiplication
  import opened Linear
  import BitAdd

  // ---------- packed loads ----------

  /** len elements of s from position at, as far as there are any. */
  function Slice<T>(s: seq<T>, at: nat, len: nat): seq<T> {
    var lo := if at <= |s| then at else |s|;
    var hi := if at + len <= |s| then at + len else |s|;
    s[lo..hi]
  }

  /** memcpy of a byte segment over a cleared array of words: word i is its i-th group of W/8 bytes. */
  function PackedLoad(segment: seq<Byte>, i: nat): nat {
    LittleEndian(Slice(segment, i * (W / 8), W / 8))
  }

  /** Word i of segment t, when every segment has n * bytes bytes. */
  function SegmentWord(buf: seq<Byte>, n: nat, bytes: nat, t: nat, i: nat): nat {
    PackedLoad(Slice(buf, t * (n * bytes), n * bytes), i)
  }

  function SegmentWords(buf: Three<seq<Byte>>, n: nat, bytes: nat, t: nat, i: nat): Public {
    Three(SegmentWord(buf.p1, n, bytes, t, i), SegmentWord(buf.p2, n, bytes, t, i), SegmentWord(buf.p3, n, bytes, t, i))
  }

  /** Word i of segment t of what the parties draw when they ask for `segments` segments of n words. */
  ghost function DrawnSegment(g: Three<Gen>, segments: nat, n: nat, k: nat, t: nat, i: nat): Public {
    SegmentWords(Bytes(g, RequestSize(segments * n, k)), n, BytesFor(k), t, i)
  }

  lemma PairedSegments(g0: Three<Gen>, g1: Three<Gen>, segments: nat, n: nat, k: nat, t: nat, i: nat)
    requires Paired(g0, g1)
    ensures DrawnSegment(g1, segments, n, k, t, i) == FromNext(DrawnSegment(g0, segments, n, k, t, i))
  {
  }

  /** Draws `segments` segments of n words from slot s. */
  method DrawSegments(net: Net, s: nat, segments: nat, n: nat, k: nat) returns (buf: Three<seq<Byte>>)
    requires Valid(net) && s < 3 && segments * n >= 1 && k >= 1
    modifies net.p1, net.p2, net.p3
    ensures Valid(net) && Slots(net, s) == Advanced(old(Slots(net, s)), RequestSize(segments * n, k))
    ensures forall t :: 0 <= t < 3 && t != s ==> Slots(net, t) == old(Slots(net, t))
    ensures forall t, i :: 0 <= t && 0 <= i ==>
      SegmentWords(buf, n, BytesFor(k), t, i) == DrawnSegment(old(Slots(net, s)), segments, n, k, t, i)
  {
    var size := RequestSize(segments * n, k);
    assert size >= 1;
    ghost var g := Slots(net, s);
    hide SegmentWords, Bytes, Advanced, RequestSize, BytesFor;
    buf := Draw(net, s, size);
  }

  /** The private word i that party 1, 2 or 3 draws for n words of k bits. */
  ghost function PrivateWords(g: Three<Gen>, n: nat, k: nat, i: nat): Public {
    DrawnSegment(g, 1, n, k, 0, i)
  }

  // ---------- one contribution ----------

  /** What the parties hold of party 1's number: it sent `send` to party 3 and masked with its slot-1 key. */
  function FromParty1(send: Public, own: Public, other: Public, recv: Public): Sharing {
    Three(Pair(send.p1, own.p1), Pair(other.p2, 0), Pair(0, recv.p3))
  }

  function FromParty2(send: Public, own: Public, other: Public, recv: Public): Sharing {
    Three(Pair(0, recv.p1), Pair(send.p2, own.p2), Pair(other.p3, 0))
  }

  /** The arithmetic share a party keeps and sends: its number less the mask. */
  function SubtractMask(r: Public, own: Public): Public {
    Three(Wrap(r.p1 - own.p1), Wrap(r.p2 - own.p2), Wrap(r.p3 - own.p3))
  }

  function XorMask(r: Public, own: Public): Public {
    Three(Xor(r.p1, own.p1), Xor(r.p2, own.p2), Xor(r.p3, own.p3))
  }

  lemma ContributedSum(r: nat, own: nat, k: nat)
    requires k <= W
    ensures Cong(Masked(Wrap(r - own), k) + own, r, k)
  {
    hide Cong, Wrap, Masked;
    CongRefl(own, k);
    MaskedWrapCong(r, own, own, k);
    CongAdd(Masked(Wrap(r - own), k), r - own, own, own, k);
  }

  lemma AdditiveContribution(r: Public, own: Public, other: Public, k: nat)
    requires k <= W && own == FromNext(other)
    ensures
      var send := MaskAll(SubtractMask(r, own), k);
      Additive(FromParty1(send, own, other, FromNext(send)), r.p1, k)
      && Additive(FromParty2(send, own, other, FromNext(send)), r.p2, k)
  {
    hide Cong, Wrap, Masked;
    ContributedSum(r.p1, own.p1, k);
    ContributedSum(r.p2, own.p2, k);
    CongRefl(own.p1, k);
    CongRefl(own.p2, k);
    CongRefl(0, k);
    var send := MaskAll(SubtractMask(r, own), k);
    CongRefl(send.p1, k);
    CongRefl(send.p2, k);
  }

  lemma ContributedXor(r: nat, own: nat, k: nat, j: nat)
    requires j < k
    ensures Bit(Masked(Xor(r, own), k), j) == (Bit(r, j) != Bit(own, j))
  {
    hide Bit, Xor;
    BitXor(r, own, j);
    BitMod(Xor(r, own), k, j);
  }

  lemma BitwiseContribution(r: Public, own: Public, other: Public, k: nat)
    requires own == FromNext(other)
    ensures
      var send := MaskAll(XorMask(r, own), k);
      Bitwise(FromParty1(send, own, other, FromNext(send)), r.p1, k)
      && Bitwise(FromParty2(send, own, other, FromNext(send)), r.p2, k)
  {
    hide Bit, Xor, Masked, Bitwise;
    var send := MaskAll(XorMask(r, own), k);
    var x := FromParty1(send, own, other, FromNext(send));
    var y := FromParty2(send, own, other, FromNext(send));
    forall j | 0 <= j < k
      ensures BitAgreed(x, j) && Parity(x, j) == Bit(r.p1, j)
      ensures BitAgreed(y, j) && Parity(y, j) == Bit(r.p2, j)
    {
      BitZero(j);
      ContributedXor(r.p1, own.p1, k, j);
      ContributedXor(r.p2, own.p2, k, j);
    }
    BitwiseFromBits(x, r.p1, k);
    BitwiseFromBits(y, r.p2, k);
  }

  // ---------- Rss_GenerateRandomShares ----------

  /** Segment 0 carries the additive sharings, segment 1 the bitwise ones. */
  ghost predicate SendWords(send: array<Public>, r: Three<seq<Byte>>, own: Three<seq<Byte>>, n: nat, k: nat, upto: nat)
    requires upto <= n && send.Length == 2 * n
    reads send
  {
    forall i :: 0 <= i < upto ==> ArithSend(send[i], r, own, n, k, i) && XorSend(send[n + i], r, own, n, k, i)
  }

  ghost predicate ArithSend(s: Public, r: Three<seq<Byte>>, own: Three<seq<Byte>>, n: nat, k: nat, i: nat) {
    s == SubtractMask(SegmentWords(r, n, BytesFor(k), 0, i), SegmentWords(own, n, BytesFor(k), 0, i))
  }

  ghost predicate XorSend(s: Public, r: Three<seq<Byte>>, own: Three<seq<Byte>>, n: nat, k: nat, i: nat) {
    s == XorMask(SegmentWords(r, n, BytesFor(k), 0, i), SegmentWords(own, n, BytesFor(k), 1, i))
  }

  method ComputeSend(r: Three<seq<Byte>>, own: Three<seq<Byte>>, n: nat, k: nat) returns (send: array<Public>)
    ensures fresh(send) && send.Length == 2 * n && SendWords(send, r, own, n, k, n)
  {
    hide SubtractMask, XorMask, SegmentWords, BytesFor;
    send := new Public[2 * n];
    for i := 0 to n
      invariant SendWords(send, r, own, n, k, i)
      modifies send
    {
      var bits := SegmentWords(r, n, BytesFor(k), 0, i);
      send[i] := SubtractMask(bits, SegmentWords(own, n, BytesFor(k), 0, i));
      send[n + i] := XorMask(bits, SegmentWords(own, n, BytesFor(k), 1, i));
    }
  }

  /** The sharings made of element i's words. */
  ghost predicate Contributed(res: Sharing, a: Sharing, b: Sharing, r: Public, k: nat) {
    Additive(res, r.p1 + r.p2, k) && Bitwise(a, r.p1, k) && Bitwise(b, r.p2, k)
  }

  lemma ContributionElement(r: Public, own0: Public, own1: Public, other0: Public, other1: Public, k: nat)
    requires k <= W && own0 == FromNext(other0) && own1 == FromNext(other1)
    ensures
      var s0, s1 := MaskAll(SubtractMask(r, own0), k), MaskAll(XorMask(r, own1), k);
      Contributed(Add(FromParty1(s0, own0, other0, FromNext(s0)), FromParty2(s0, own0, other0, FromNext(s0))),
                  FromParty1(s1, own1, other1, FromNext(s1)), FromParty2(s1, own1, other1, FromNext(s1)), r, k)
  {
    hide *;
    var s0, s1 := MaskAll(SubtractMask(r, own0), k), MaskAll(XorMask(r, own1), k);
    AdditiveContribution(r, own0, other0, k);
    BitwiseContribution(r, own1, other1, k);
    var x := FromParty1(s0, own0, other0, FromNext(s0));
    var y := FromParty2(s0, own0, other0, FromNext(s0));
    AddAdditive(x, r.p1, y, r.p2, k);
    ContributedIs(Add(x, y), FromParty1(s1, own1, other1, FromNext(s1)), FromParty2(s1, own1, other1, FromNext(s1)), r, k);
  }

  lemma ContributedIs(res: Sharing, a: Sharing, b: Sharing, r: Public, k: nat)
    requires Additive(res, r.p1 + r.p2, k) && Bitwise(a, r.p1, k) && Bitwise(b, r.p2, k)
    ensures Contributed(res, a, b, r, k)
  {
  }

  /** The number element i shares: the sum of the private words of parties 1 and 2. */
  ghost function EdaNumber(g: Three<Gen>, n: nat, k: nat, i: nat): nat {
    PrivateWords(g, n, k, i).p1 + PrivateWords(g, n, k, i).p2
  }

  /** Byte t of packed word i is byte i * (W / 8) + t of the segment, or zero behind its end. */
  lemma PackedByte(segment: seq<Byte>, i: nat, t: nat)
    requires t < W / 8
    ensures PackedLoad(segment, i) < Pow2(W)
    ensures PackedLoad(segment, i) / Pow2(8 * t) % 256
      == if i * (W / 8) + t < |segment| then segment[i * (W / 8) + t] else 0
  {
    var word := Slice(segment, i * (W / 8), W / 8);
    LittleEndianBound(word);
    LittleEndianByte(word, t);
    Pow2Mono(8 * |word|, W);
  }

  /** Byte t of party p's word i in a segment, as a byte of its stream. */
  function SegmentByte(g: Gen, n: nat, bytes: nat, segment: nat, i: nat, t: nat): Byte {
    if i * (W / 8) + t < n * bytes then StreamByte(g, segment * (n * bytes) + i * (W / 8) + t) else 0
  }

  lemma SliceOfStream(g: Gen, total: nat, at: nat, len: nat, u: nat)
    requires at + len <= total && u < len
    ensures |Slice(Take(g, total), at, len)| == len && Slice(Take(g, total), at, len)[u] == StreamByte(g, at + u)
  {
    hide StreamByte;
  }

  lemma SegmentWordByte(g: Gen, segments: nat, n: nat, k: nat, segment: nat, i: nat, t: nat)
    requires segment < segments && t < W / 8
    ensures
      var x := SegmentWord(Take(g, RequestSize(segments * n, k)), n, BytesFor(k), segment, i);
      x < Pow2(W) && x / Pow2(8 * t) % 256 == SegmentByte(g, n, (k + 7) / 8, segment, i, t)
  {
    hide *;
    var bytes, total := (k + 7) / 8, RequestSize(segments * n, k);
    BytesForIs(k);
    RequestSizeIs(segments * n, k);
    SegmentFits(segments, n, bytes, segment);
    SegmentParts(g, total, n, bytes, segment, i, t, segment * (n * bytes), n * bytes);
    PartByte(g, total, segment * (n * bytes), n * bytes, i, t);
  }

  lemma SegmentParts(g: Gen, total: nat, n: nat, bytes: nat, segment: nat, i: nat, t: nat, at: nat, size: nat)
    requires at == segment * (n * bytes) && size == n * bytes
    ensures SegmentWord(Take(g, total), n, bytes, segment, i) == PackedLoad(Slice(Take(g, total), at, size), i)
    ensures SegmentByte(g, n, bytes, segment, i, t) == if i * (W / 8) + t < size then StreamByte(g, at + i * (W / 8) + t) else 0
  {
    hide PackedLoad, Slice, Take, StreamByte;
  }

  lemma PartByte(g: Gen, total: nat, at: nat, size: nat, i: nat, t: nat)
    requires at + size <= total && t < W / 8
    ensures
      var x := PackedLoad(Slice(Take(g, total), at, size), i);
      x < Pow2(W) && x / Pow2(8 * t) % 256 == if i * (W / 8) + t < size then StreamByte(g, at + i * (W / 8) + t) else 0
  {
    hide *;
    var part, u := Slice(Take(g, total), at, size), i * (W / 8) + t;
    PackedByte(part, i, t);
    if u < size {
      SliceOfStream(g, total, at, size, u);
    } else {
      SliceLength(Take(g, total), at, size);
    }
  }

  lemma SliceLength(s: seq<Byte>, at: nat, len: nat)
    ensures |Slice(s, at, len)| <= len
  {
  }

  lemma SegmentFits(segments: nat, n: nat, bytes: nat, segment: nat)
    requires segment < segments
    ensures segment * (n * bytes) + n * bytes <= segments * n * bytes
  {
    var size := n * bytes;
    assert segments * n * bytes == segments * size;
    MulMono(size, segment + 1, segments);
    assert size * (segment + 1) == segment * size + size && size * segments == segments * size;
  }

  /** x is the number whose W / 8 bytes are the ones party p draws for element i. */
  ghost predicate DrawnBytes(x: nat, g: Gen, n: nat, k: nat, i: nat) {
    x < Pow2(W) && forall t :: 0 <= t < W / 8 ==> x / Pow2(8 * t) % 256 == SegmentByte(g, n, (k + 7) / 8, 0, i, t)
  }

  lemma SameDrawnBytes(x: nat, y: nat, g: Gen, n: nat, k: nat, i: nat)
    requires DrawnBytes(x, g, n, k, i) && DrawnBytes(y, g, n, k, i)
    ensures x == y
  {
    hide SegmentByte, Pow2;
    forall t | 0 <= t < W / 8 ensures SameByte(x, y, t) {
      assert x / Pow2(8 * t) % 256 == SegmentByte(g, n, (k + 7) / 8, 0, i, t);
    }
    assert 8 * (W / 8) == W;
    BytesDetermine(x, y, W / 8);
  }

  /** The private word of a party is the number its stream spells. */
  lemma PrivateWordBytes(g: Gen, n: nat, k: nat, i: nat)
    ensures DrawnBytes(SegmentWord(Take(g, RequestSize(1 * n, k)), n, BytesFor(k), 0, i), g, n, k, i)
  {
    var x := SegmentWord(Take(g, RequestSize(1 * n, k)), n, BytesFor(k), 0, i);
    hide SegmentByte, Pow2, SegmentWord;
    forall t | 0 <= t < W / 8 ensures x / Pow2(8 * t) % 256 == SegmentByte(g, n, (k + 7) / 8, 0, i, t) {
      SegmentWordByte(g, 1, n, k, 0, i, t);
    }
    SegmentWordByte(g, 1, n, k, 0, i, 0);
  }

  /** The number r and b_2 share is the sum of the two numbers that parties 1 and 2 spell on their private streams. */
  lemma EdaNumberByBytes(g: Three<Gen>, n: nat, k: nat, i: nat, x: nat, y: nat)
    requires DrawnBytes(x, g.p1, n, k, i) && DrawnBytes(y, g.p2, n, k, i)
    ensures EdaNumber(g, n, k, i) == x + y
  {
    hide DrawnBytes, SegmentWord;
    PrivateWordBytes(g.p1, n, k, i);
    PrivateWordBytes(g.p2, n, k, i);
    var r := PrivateWords(g, n, k, i);
    SameDrawnBytes(x, r.p1, g.p1, n, k, i);
    SameDrawnBytes(y, r.p2, g.p2, n, k, i);
  }

  lemma PrivateIsDrawn(g: Three<Gen>, n: nat, k: nat, i: nat)
    ensures PrivateWords(g, n, k, i) == DrawnSegment(g, 1, n, k, 0, i)
  {
  }

  /** The three draws: own numbers, own masks, the other holder's masks. */
  method DrawContributions(n: nat, segments: nat, k: nat, net: Net)
    returns (r: Three<seq<Byte>>, own: Three<seq<Byte>>, other: Three<seq<Byte>>, ghost g2: Three<Gen>)
    requires InStep(net) && 1 <= k <= W && 1 <= n && segments * n >= 1
    modifies net.p1, net.p2, net.p3
    ensures InStep(net) && g2 == old(Private(net)) && Private(net) == Advanced(g2, RequestSize(n, k))
    ensures forall t: nat, i: nat ::
      SegmentWords(own, n, BytesFor(k), t, i) == FromNext(SegmentWords(other, n, BytesFor(k), t, i))
    ensures forall i: nat :: SegmentWords(r, n, BytesFor(k), 0, i) == PrivateWords(g2, n, k, i)
  {
    ghost var g0, g1 := Slots(net, 0), Slots(net, 1);
    g2 := Slots(net, 2);
    PairedAdvance(g0, g1, RequestSize(segments * n, k));
    assert Valid(net) && g2 == Private(net) && 1 * n == n;
    hide *;
    r := DrawSegments(net, 2, 1, n, k);
    own := DrawSegments(net, 1, segments, n, k);
    other := DrawSegments(net, 0, segments, n, k);
    KeptInStep(net);
    forall t: nat, i: nat
      ensures SegmentWords(own, n, BytesFor(k), t, i) == FromNext(SegmentWords(other, n, BytesFor(k), t, i))
    {
      PairedSegments(g0, g1, segments, n, k, t, i);
    }
    forall i: nat ensures SegmentWords(r, n, BytesFor(k), 0, i) == PrivateWords(g2, n, k, i) {
      PrivateIsDrawn(g2, n, k, i);
    }
  }

  /** `Rss_GenerateRandomShares`: res shares the sums; rBitwise holds party 1's and then party 2's numbers. */
  method GenerateRandomShares(res: array<Sharing>, rBitwise: array<Sharing>, k: nat, net: Net) returns (ghost g: Three<Gen>)
    requires InStep(net) && 1 <= k <= W && 1 <= res.Length && rBitwise.Length == 3 * res.Length && res != rBitwise
    modifies res, rBitwise, net.p1, net.p2, net.p3
    ensures InStep(net) && g == old(Private(net)) && Private(net) == Advanced(g, RequestSize(res.Length, k))
    ensures forall i :: 0 <= i < res.Length ==>
      Contributed(res[i], rBitwise[i], rBitwise[res.Length + i], PrivateWords(g, res.Length, k, i), k)
  {
    hide *;
    var r, own, other: Three<seq<Byte>>;
    r, own, other, g := DrawContributions(res.Length, 2, k, net);
    var send := ComputeSend(r, own, res.Length, k);
    CombineContributions(res, rBitwise, r, own, other, send, k);
  }

  /** The exchange and the sums. */
  method CombineContributions(res: array<Sharing>, rBitwise: array<Sharing>, r: Three<seq<Byte>>, own: Three<seq<Byte>>,
                              other: Three<seq<Byte>>, send: array<Public>, k: nat)
    requires 1 <= k <= W && 1 <= res.Length && rBitwise.Length == 3 * res.Length && res != rBitwise
    requires send.Length == 2 * res.Length && SendWords(send, r, own, res.Length, k, res.Length)
    requires forall t: nat, i: nat ::
      SegmentWords(own, res.Length, BytesFor(k), t, i) == FromNext(SegmentWords(other, res.Length, BytesFor(k), t, i))
    modifies res, rBitwise, send
    ensures forall i :: 0 <= i < res.Length ==>
      Contributed(res[i], rBitwise[i], rBitwise[res.Length + i], SegmentWords(r, res.Length, BytesFor(k), 0, i), k)
  {
    hide MaskAll, FromNext, SegmentWords, BytesFor, SubtractMask, XorMask, FromParty1, FromParty2, Add, Contributed;
    var n, bytes := res.Length, BytesFor(k);
    var recv := Exchange(send, k);
    for i := 0 to n
      invariant forall m :: 0 <= m < i ==> Contributed(res[m], rBitwise[m], rBitwise[n + m], SegmentWords(r, n, bytes, 0, m), k)
      modifies res, rBitwise
    {
      assert ArithSend(old(send[i]), r, own, n, k, i) && XorSend(old(send[n + i]), r, own, n, k, i);
      var own0, own1 := SegmentWords(own, n, bytes, 0, i), SegmentWords(own, n, bytes, 1, i);
      var other0, other1 := SegmentWords(other, n, bytes, 0, i), SegmentWords(other, n, bytes, 1, i);
      ContributionElement(SegmentWords(r, n, bytes, 0, i), own0, own1, other0, other1, k);
      res[i] := Add(FromParty1(send[i], own0, other0, recv[i]), FromParty2(send[i], own0, other0, recv[i]));
      rBitwise[i] := FromParty1(send[n + i], own1, other1, recv[n + i]);
      rBitwise[n + i] := FromParty2(send[n + i], own1, other1, recv[n + i]);
    }
  }

  // ---------- Rss_edaBit ----------

  /** r and b_2 share the same number, one additively and one bit by bit. */
  ghost predicate SharesNumber(r: Sharing, b2: Sharing, v: nat, k: nat) {
    Additive(r, v, k) && Bitwise(b2, v, k)
  }

  lemma BitwiseAs(x: Sharing, v: nat, w: nat, k: nat)
    requires Bitwise(x, v, k) && Cong(v, w, k)
    ensures Bitwise(x, w, k)
  {
  }

  lemma BitwiseValue(x: Sharing, v: nat, k: nat)
    requires Bitwise(x, v, k)
    ensures XorValue(x, k) == v % Pow2(k) && Cong(XorValue(x, k), v, k) && Agreed(x, k)
  {
    hide Cong;
    CongMod(XorSum(x), k);
    SameMod(XorSum(x), v, k);
    CongTrans(XorValue(x, k), XorSum(x), v, k);
  }

  /** The opened bits of b_2 are the binary digits of the secret of r. */
  lemma SharesNumberMeans(r: Sharing, b2: Sharing, v: nat, k: nat)
    requires SharesNumber(r, b2, v, k)
    ensures Agreed(r, k) && Agreed(b2, k) && XorValue(b2, k) == Value(r, k) == v % Pow2(k)
  {
  }

  /** Adding the bitwise contributions gives the bits of the sum. */
  lemma EdaElement(res: Sharing, a: Sharing, b: Sharing, b2: Sharing, w: Public, k: nat)
    requires Contributed(res, a, b, w, k) && Bitwise(b2, XorValue(a, k) + XorValue(b, k), k)
    ensures SharesNumber(res, b2, w.p1 + w.p2, k)
  {
    hide Cong, Additive, Bitwise;
    BitwiseValue(a, w.p1, k);
    BitwiseValue(b, w.p2, k);
    CongAdd(XorValue(a, k), w.p1, XorValue(b, k), w.p2, k);
    BitwiseAs(b2, XorValue(a, k) + XorValue(b, k), w.p1 + w.p2, k);
  }

  /** The operands `Rss_nBitAdd` copies out: the first and the second n contributions. */
  method SplitContributions(rBitwise: array<Sharing>, n: nat) returns (a: array<Sharing>, b: array<Sharing>)
    requires 2 * n <= rBitwise.Length
    ensures fresh(a) && fresh(b) && a != b && a.Length == b.Length == n
    ensures forall i :: 0 <= i < n ==> a[i] == rBitwise[i] && b[i] == rBitwise[n + i]
  {
    a := new Sharing[n];
    b := new Sharing[n];
    for i := 0 to n
      invariant forall m :: 0 <= m < i ==> a[m] == rBitwise[m] && b[m] == rBitwise[n + m]
      modifies a, b
    {
      a[i] := rBitwise[i];
      b[i] := rBitwise[n + i];
    }
  }

  /** `Rss_edaBit`: r and b_2 share one number of parties 1 and 2, whatever they drew. */
  method EdaBit(r: array<Sharing>, b2: array<Sharing>, k: nat, net: Net)
    requires InStep(net) && 1 <= k <= W && 1 <= r.Length == b2.Length && r != b2
    modifies r, b2, net.p1, net.p2, net.p3
    ensures InStep(net) && Private(net) == Advanced(old(Private(net)), RequestSize(r.Length, k))
    ensures forall i :: 0 <= i < r.Length ==>
      SharesNumber(r[i], b2[i], EdaNumber(old(Private(net)), r.Length, k, i), k)
  {
    hide *;
    var a, b, g := Contributions(r, k, net);
    BitAdd.BitAdd(b2, a, b, k, net);
    forall i | 0 <= i < r.Length ensures SharesNumber(r[i], b2[i], EdaNumber(g, r.Length, k, i), k) {
      assert Contributed(r[i], a[i], b[i], PrivateWords(g, r.Length, k, i), k);
      EdaElement(r[i], a[i], b[i], b2[i], PrivateWords(g, r.Length, k, i), k);
      EdaNumberIs(g, r.Length, k, i);
    }
  }

  /** The shared contributions of parties 1 and 2, as the operands of the adder; r is their sum. */
  method Contributions(r: array<Sharing>, k: nat, net: Net) returns (a: array<Sharing>, b: array<Sharing>,
          ghost g: Three<Gen>)
    requires InStep(net) && 1 <= k <= W && 1 <= r.Length
    modifies r, net.p1, net.p2, net.p3
    ensures InStep(net) && g == old(Private(net)) && Private(net) == Advanced(g, RequestSize(r.Length, k))
    ensures fresh(a) && fresh(b) && a != b && a.Length == b.Length == r.Length
    ensures forall i :: 0 <= i < r.Length ==>
      Contributed(r[i], a[i], b[i], PrivateWords(g, r.Length, k, i), k)
    ensures forall i :: 0 <= i < r.Length ==> Agreed(a[i], k) && Agreed(b[i], k)
  {
    hide *;
    var rBitwise := new Sharing[3 * r.Length];
    g := GenerateRandomShares(r, rBitwise, k, net);
    a, b := SplitContributions(rBitwise, r.Length);
    forall i | 0 <= i < r.Length
      ensures Contributed(r[i], a[i], b[i], PrivateWords(g, r.Length, k, i), k) && Agreed(a[i], k) && Agreed(b[i], k)
    {
      assert Contributed(r[i], rBitwise[i], rBitwise[r.Length + i], PrivateWords(g, r.Length, k, i), k);
      ContributedAgreed(r[i], a[i], b[i], PrivateWords(g, r.Length, k, i), k);
    }
  }

  lemma ContributedAgreed(res: Sharing, a: Sharing, b: Sharing, w: Public, k: nat)
    requires Contributed(res, a, b, w, k)
    ensures Agreed(a, k) && Agreed(b, k)
  {
  }

  lemma EdaNumberIs(g: Three<Gen>, n: nat, k: nat, i: nat)
    ensures EdaNumber(g, n, k, i) == PrivateWords(g, n, k, i).p1 + PrivateWords(g, n, k, i).p2
  {
  }
}
