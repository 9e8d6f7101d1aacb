/**
 The three parties in lockstep: drawing from their generators and exchanging words.

 Party p shares its slot-1 key with the next party, which keeps that key in slot 0.  `InStep` says that
 the two holders of every key are at the same point of its stream.
 */
module Cluster {
  import opened Ring
  import opened Words
  import opened Stream
  import opened NodeNetworks
  import opened Sharings

  type Net = Three<NodeNetwork>

  ghost predicate Valid(net: Net)
    reads net.p1, net.p2, net.p3
  {
    && net.p1 != net.p2 && net.p2 != net.p3 && net.p3 != net.p1
    && net.p1.Valid() && net.p2.Valid() && net.p3.Valid()
    && net.p1.ring == net.p2.ring == net.p3.ring
    && net.p1.numShares == net.p2.numShares == net.p3.numShares == 2
  }

  /** The generators in slot s of the three parties. */
  ghost function Slots(net: Net, s: nat): Three<Gen>
    requires Valid(net) && s < 3
    reads net.p1, net.p2, net.p3
  {
    Three(net.p1.Slot(s), net.p2.Slot(s), net.p3.Slot(s))
  }

  ghost function Advanced(g: Three<Gen>, n: nat): Three<Gen> {
    Three(Advance(g.p1, n), Advance(g.p2, n), Advance(g.p3, n))
  }

  /** The holders of each key have the same container and position. */
  ghost predicate Paired(g0: Three<Gen>, g1: Three<Gen>) {
    g1.p1 == g0.p2 && g1.p2 == g0.p3 && g1.p3 == g0.p1
  }

  ghost predicate InStep(net: Net)
    reads net.p1, net.p2, net.p3
  {
    Valid(net) && Paired(Slots(net, 0), Slots(net, 1))
  }

  /** The private generators. */
  ghost function Private(net: Net): Three<Gen>
    requires Valid(net)
    reads net.p1, net.p2, net.p3
  {
    Slots(net, 2)
  }

  /** The bytes the parties' next requests of n bytes return. */
  ghost function Bytes(g: Three<Gen>, n: nat): Three<seq<Byte>> {
    Three(Take(g.p1, n), Take(g.p2, n), Take(g.p3, n))
  }

  /** The seeds that the next party sends. */
  function SeedsFromNext(random: Three<seq<Byte>>): Three<seq<Byte>>
    requires |random.p1| >= 32 && |random.p2| >= 32 && |random.p3| >= 32
  {
    Three(random.p2[..32], random.p3[..32], random.p1[..32])
  }

  /**
   `prg_setup`: every party sends the seed of its slot 0 to the previous party, which installs it in
   slot 1; whatever the random bytes are, the generators start out in step.
   */
  method PrgSetup(net: Net, random: Three<seq<Byte>>)
    requires Valid(net) && |random.p1| == |random.p2| == |random.p3| == 64
    modifies net.p1, net.p2, net.p3
    ensures InStep(net)
    ensures net.p1.Slot(0) == Seeded(random.p1[..16], random.p1[16..32])
    ensures net.p2.Slot(0) == Seeded(random.p2[..16], random.p2[16..32])
    ensures net.p3.Slot(0) == Seeded(random.p3[..16], random.p3[16..32])
    ensures Private(net) == Three(Seeded(random.p1[48..], random.p1[32..48]), Seeded(random.p2[48..], random.p2[32..48]),
                                  Seeded(random.p3[48..], random.p3[32..48]))
  {
    var received := SeedsFromNext(random);
    net.p1.InstallKeys(random.p1, received.p1);
    net.p2.InstallKeys(random.p2, received.p2);
    net.p3.InstallKeys(random.p3, received.p3);
    assert random.p1[..32][..16] == random.p1[..16] && random.p1[..32][16..] == random.p1[16..32];
    assert random.p2[..32][..16] == random.p2[..16] && random.p2[..32][16..] == random.p2[16..32];
    assert random.p3[..32][..16] == random.p3[..16] && random.p3[..32][16..] == random.p3[16..32];
  }

  /** Each party draws n bytes from its slot s. */
  method Draw(net: Net, s: nat, n: nat) returns (buf: Three<seq<Byte>>)
    requires Valid(net) && s < 3 && n >= 1
    modifies net.p1, net.p2, net.p3
    ensures Valid(net)
    ensures buf == Bytes(old(Slots(net, s)), n)
    ensures Slots(net, s) == Advanced(old(Slots(net, s)), n)
    ensures forall t :: 0 <= t < 3 && t != s ==> Slots(net, t) == old(Slots(net, t))
  {
    var b1 := DrawOne(net.p1, s, n);
    var b2 := DrawOne(net.p2, s, n);
    var b3 := DrawOne(net.p3, s, n);
    buf := Three(b1, b2, b3);
  }

  method DrawOne(node: NodeNetwork, s: nat, n: nat) returns (buf: seq<Byte>)
    requires node.Valid() && s <= node.numShares && n >= 1
    modifies node
    ensures node.Valid()
    ensures buf == Take(old(node.Slot(s)), n)
    ensures node.Slot(s) == Advance(old(node.Slot(s)), n)
    ensures forall t :: 0 <= t <= node.numShares && t != s ==> node.Slot(t) == old(node.Slot(t))
  {
    var dest := new Byte[n];
    node.PrgGetrandom(s, n, dest);
    buf := dest[..];
  }

  // ---------- exchanging words ----------

  /** What each party receives when it sends v to the previous party. */
  function FromNext(v: Public): Public {
    Three(v.p2, v.p3, v.p1)
  }

  function MaskAll(v: Public, k: nat): Public {
    Three(Masked(v.p1, k), Masked(v.p2, k), Masked(v.p3, k))
  }

  const MAX_BUFFER_SIZE: nat := 229376

  /** The number of words in one message. */
  function ChunkSize(k: nat): nat
    requires k >= 1
  {
    MAX_BUFFER_SIZE / 3 / BytesFor(k)
  }

  /** The number of messages, less one. */
  function LastChunk(n: nat, count: nat): int
    requires n >= 1 && count >= 1
  {
    if n % count != 0 then n / count else n / count - 1
  }

  /** The messages cover exactly the n words. */
  lemma ChunksCover(n: nat, count: nat)
    requires n >= 1 && count >= 1
    ensures LastChunk(n, count) >= 0
    ensures count * LastChunk(n, count) < n <= (LastChunk(n, count) + 1) * count
  {
  }

  /**
   `SendAndGetDataFromPeer`: message by message, every party masks its words in place, sends them to
   the previous party and stores what the next party sent.
   */
  method Exchange(v: array<Public>, k: nat) returns (recv: array<Public>)
    requires 1 <= k <= W && v.Length >= 1
    modifies v
    ensures fresh(recv) && recv.Length == v.Length
    ensures forall i :: 0 <= i < v.Length ==> v[i] == MaskAll(old(v[i]), k) && recv[i] == FromNext(v[i])
  {
    recv := new Public[v.Length];
    var count := ChunkSize(k);
    var rounds := LastChunk(v.Length, count);
    ChunksCover(v.Length, count);
    ghost var done := 0;
    var start := 0;
    for r := 0 to rounds + 1
      invariant start == r * count && done == if start < v.Length then start else v.Length
      invariant forall i :: 0 <= i < done ==> v[i] == MaskAll(old(v[i]), k) && recv[i] == FromNext(v[i])
      invariant forall i :: done <= i < v.Length ==> v[i] == old(v[i])
    {
      hide MaskAll, FromNext;
      MulMono(count, r, rounds);
      done := ExchangeChunk(v, recv, start, count, k);
      start := NextStart(r, start, count);
    }
  }

  method NextStart(r: nat, start: nat, count: nat) returns (start': nat)
    requires start == r * count
    ensures start' == start + count == (r + 1) * count
  {
    start' := start + count;
  }

  /** One message: the words start .. start + amount, or up to the end. */
  method ExchangeChunk(v: array<Public>, recv: array<Public>, start: nat, amount: nat, k: nat) returns (end: nat)
    requires v != recv && v.Length == recv.Length && start <= v.Length
    modifies v, recv
    ensures end == if start + amount > v.Length then v.Length else start + amount
    ensures forall i :: start <= i < end ==> v[i] == MaskAll(old(v[i]), k) && recv[i] == FromNext(v[i])
    ensures forall i :: 0 <= i < start || end <= i < v.Length ==> v[i] == old(v[i]) && recv[i] == old(recv[i])
  {
    end := if start + amount > v.Length then v.Length else start + amount;
    for i := start to end
      invariant forall j :: start <= j < i ==> v[j] == MaskAll(old(v[j]), k) && recv[j] == FromNext(v[j])
      invariant forall j :: 0 <= j < start || i <= j < v.Length ==> v[j] == old(v[j]) && recv[j] == old(recv[j])
    {
      v[i] := MaskAll(v[i], k);
      recv[i] := FromNext(OnWire(v[i], k));
      MaskedOnWire(v[i], k);
    }
  }

  function OnWire(v: Public, k: nat): Public {
    Three(Wire(v.p1, k), Wire(v.p2, k), Wire(v.p3, k))
  }

  lemma MaskedOnWire(v: Public, k: nat)
    requires v.p1 < Pow2(k) && v.p2 < Pow2(k) && v.p3 < Pow2(k)
    ensures OnWire(v, k) == v
  {
    WireExact(v.p1, k);
    WireExact(v.p2, k);
    WireExact(v.p3, k);
  }

  // ---------- keeping the generators in step ----------

  lemma PairedAdvance(g0: Three<Gen>, g1: Three<Gen>, n: nat)
    requires Paired(g0, g1)
    ensures Paired(Advanced(g0, n), Advanced(g1, n))
  {
  }

  lemma KeptInStep(net: Net)
    requires Valid(net) && Paired(Slots(net, 0), Slots(net, 1))
    ensures InStep(net) && Private(net) == Slots(net, 2)
  {
  }
}
