/**
 The keyed byte stream behind `prg_getrandom`.

 A generator is a 16-byte container, a position inside it and a key.  Its output is meant to be one
 infinite stream: the container, its successor under the block function, the successor of that, and
 so on, starting at the position.  The block function itself (`prg_aes`) is any fixed function.
 */
module Stream {
  import opened Ring
  import opened Words

  type Block = b: seq<Byte> | |b| == 16 witness seq(16, _ => 0)

  /** The block function of a key. */
  const Aes: (Block, Block) -> Block

  /** key, random_container and P_container of one slot. */
  datatype Gen = Gen(key: Block, container: Block, pos: nat)

  ghost predicate InBlock(g: Gen) {
    g.pos <= 16
  }

  /** The n-th block after the container. */
  function Chain(key: Block, b: Block, n: nat): Block {
    if n == 0 then b else Aes(key, Chain(key, b, n - 1))
  }

  /** Byte t of the stream that starts at the generator's position. */
  function StreamByte(g: Gen, t: nat): Byte {
    Chain(g.key, g.container, (g.pos + t) / 16)[(g.pos + t) % 16]
  }

  /** The next n bytes of the stream. */
  function Take(g: Gen, n: nat): (s: seq<Byte>)
    ensures |s| == n
  {
    seq(n, t requires t >= 0 => StreamByte(g, t))
  }

  /** The block that holds stream position p; a block is left only when a byte beyond it is needed. */
  function BlockIndex(p: nat): nat {
    if p == 0 then 0 else (p - 1) / 16
  }

  /** The generator once n bytes have been taken. */
  function Advance(g: Gen, n: nat): (g': Gen)
    ensures InBlock(g')
  {
    var p := g.pos + n;
    Gen(g.key, Chain(g.key, g.container, BlockIndex(p)), p - 16 * BlockIndex(p))
  }

  lemma {:induction false} ChainAdd(key: Block, b: Block, m: nat, n: nat)
    ensures Chain(key, Chain(key, b, m), n) == Chain(key, b, m + n)
    decreases n
  {
    if n > 0 {
      ChainAdd(key, b, m, n - 1);
    }
  }

  lemma AdvanceByte(g: Gen, m: nat, t: nat)
    ensures StreamByte(Advance(g, m), t) == StreamByte(g, m + t)
  {
    var p := g.pos + m;
    ChainAdd(g.key, g.container, BlockIndex(p), (p - 16 * BlockIndex(p) + t) / 16);
  }

  // The stream through the block function: the rest of the container, the container's successor, and the
  // stream of the successor from there on.

  lemma ContainerFirst(g: Gen, t: nat)
    requires g.pos + t < 16
    ensures StreamByte(g, t) == g.container[g.pos + t]
  {
  }

  lemma SuccessorNext(g: Gen, t: nat)
    requires g.pos <= 16 && t < 16
    ensures StreamByte(g, 16 - g.pos + t) == Aes(g.key, g.container)[t]
  {
    assert Chain(g.key, g.container, 1) == Aes(g.key, Chain(g.key, g.container, 0));
  }

  /** Stepping the container shifts the stream by one block. */
  lemma StepShifts(key: Block, b: Block, p: nat, t: nat)
    ensures StreamByte(Gen(key, Aes(key, b), p), t) == StreamByte(Gen(key, b, p), t + 16)
  {
    ChainAdd(key, b, 1, (p + t) / 16);
    assert Chain(key, b, 1) == Aes(key, Chain(key, b, 0));
  }

  /** A request returns the stream's bytes in order; the next request goes on where it stopped. */
  lemma TakeAt(g: Gen, n: nat, t: nat)
    requires t < n
    ensures Take(g, n)[t] == StreamByte(g, t)
  {
  }

  /** A request that ends inside the container keeps it, one that ends inside its successor steps it once. */
  lemma AdvanceOneBlock(g: Gen, n: nat)
    requires g.pos <= 16 && g.pos + n <= 32
    ensures Advance(g, n) == if g.pos + n <= 16 then Gen(g.key, g.container, g.pos + n)
                             else Gen(g.key, Aes(g.key, g.container), g.pos + n - 16)
  {
    assert Chain(g.key, g.container, 1) == Aes(g.key, Chain(g.key, g.container, 0));
  }

  /** One request of m + n bytes returns what a request of m and then one of n return, ... */
  lemma SplitTake(g: Gen, m: nat, n: nat)
    ensures Take(g, m + n) == Take(g, m) + Take(Advance(g, m), n)
  {
    forall t | 0 <= t < n ensures Take(g, m + n)[m + t] == Take(Advance(g, m), n)[t] {
      AdvanceByte(g, m, t);
    }
  }

  /** ... and leaves the generator in the same state. */
  lemma SplitAdvance(g: Gen, m: nat, n: nat)
    requires n >= 1
    ensures Advance(Advance(g, m), n) == Advance(g, m + n)
  {
    var p := g.pos + m;
    var i := BlockIndex(p);
    ChainAdd(g.key, g.container, i, BlockIndex(p - 16 * i + n));
  }

  /** The bytes and the final state of any sequence of positive requests. */
  function TakeAll(g: Gen, requests: seq<nat>): seq<Byte>
    decreases |requests|
  {
    if requests == [] then [] else Take(g, requests[0]) + TakeAll(Advance(g, requests[0]), requests[1..])
  }

  function AdvanceAll(g: Gen, requests: seq<nat>): Gen
    decreases |requests|
  {
    if requests == [] then g else AdvanceAll(Advance(g, requests[0]), requests[1..])
  }

  function Total(requests: seq<nat>): nat {
    if requests == [] then 0 else requests[0] + Total(requests[1..])
  }

  /** However the requests are cut, the output is one prefix of one stream. */
  lemma {:induction false} RequestsAreOneStream(g: Gen, requests: seq<nat>)
    requires forall i :: 0 <= i < |requests| ==> requests[i] >= 1
    ensures TakeAll(g, requests) == Take(g, Total(requests))
    ensures requests != [] ==> AdvanceAll(g, requests) == Advance(g, Total(requests))
    decreases |requests|
  {
    if requests != [] {
      var n, rest := requests[0], requests[1..];
      RequestsAreOneStream(Advance(g, n), rest);
      SplitTake(g, n, Total(rest));
      if rest != [] {
        assert rest[0] >= 1;
        SplitAdvance(g, n, Total(rest));
      }
    }
  }

  // ---------- whole blocks ----------

  /** The rest of the current block. */
  lemma TakeTail(g: Gen, n: nat)
    requires InBlock(g) && g.pos + n <= 16
    ensures Take(g, n) == g.container[g.pos..g.pos + n]
  {
  }

  /** The part of the stream that lies in block i. */
  lemma TakeBlock(g: Gen, i: nat, n: nat)
    requires InBlock(g) && i >= 1 && n <= 16
    ensures Take(g, 16 * i - g.pos + n) == Take(g, 16 * i - g.pos) + Chain(g.key, g.container, i)[..n]
  {
  }
}
