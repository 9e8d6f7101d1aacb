/**
 One computing party's network object: its generators and its mask tables.

 Slots 0 and 1 hold the keys this party shares with a neighbour, slot 2 its private key.
 */
module NodeNetworks {
  import opened Ring
  import opened Words
  import opened Stream

  /** The number of block-function calls a request of n bytes needs at position p. */
  function BlockRounds(n: nat, p: nat): nat
    requires n >= 1
  {
    (n - 16 + p + 15) / 16
  }

  lemma RoundsIsBlockIndex(n: nat, p: nat)
    requires n >= 1
    ensures BlockRounds(n, p) == BlockIndex(p + n)
  {
  }

  /** A buffer whose front has been overwritten. */
  function Written(before: seq<Byte>, s: seq<Byte>): seq<Byte>
    requires |s| <= |before|
  {
    s + before[|s|..]
  }

  lemma WriteOn(before: seq<Byte>, a: seq<Byte>, b: seq<Byte>)
    requires |a| + |b| <= |before|
    ensures Written(before, a)[..|a|] + b + Written(before, a)[|a| + |b|..] == Written(before, a + b)
  {
  }

  /** memcpy of a whole source to dest + at. */
  method Memcpy(dest: array<Byte>, at: nat, src: seq<Byte>)
    requires at + |src| <= dest.Length
    modifies dest
    ensures dest[..] == old(dest[..at]) + src + old(dest[at + |src|..])
  {
    for i := 0 to |src|
      invariant dest[..] == old(dest[..at]) + src[..i] + old(dest[at + i..])
    {
      dest[at + i] := src[i];
    }
  }

  // ---------- mask tables ----------

  /** The alternating word after n rounds of "or in (i is even), shift left". */
  function Alternating(n: nat): nat {
    if n == 0 then 0 else Wrap(Or(Alternating(n - 1), ToNat((n - 1) % 2 == 0)) * 2)
  }

  /** EVEN[r] and ODD[r] as the constructor computes them. */
  function EvenMask(r: nat): nat {
    And(Alternating(W + 1) / 2, Mask(r))
  }

  function OddMask(r: nat): nat {
    And(Alternating(W + 1), Mask(r))
  }

  lemma {:induction false} AlternatingBit(n: nat, j: nat)
    requires j < W
    ensures Bit(Alternating(n), j) == (1 <= j <= n && (n - j) % 2 == 0)
    decreases n
  {
    if n == 0 {
      BitZero(j);
    } else {
      var x := Or(Alternating(n - 1), ToNat((n - 1) % 2 == 0));
      hide Bit, Alternating, Or, Wrap;
      DoubleBit(x, j);
      if j > 0 {
        AlternatingBit(n - 1, j - 1);
        BitOr(Alternating(n - 1), ToNat((n - 1) % 2 == 0), j - 1);
        SmallBits((n - 1) % 2 == 0, j - 1);
      }
      AlternatingStep(n);
    }
  }

  lemma AlternatingStep(n: nat)
    requires n > 0
    ensures Alternating(n) == Wrap(Or(Alternating(n - 1), ToNat((n - 1) % 2 == 0)) * 2)
  {
  }

  lemma SmallBits(b: bool, j: nat)
    ensures Bit(ToNat(b), j) == (b && j == 0)
  {
    if j > 0 {
      BitZero(j - 1);
    }
  }

  /** EVEN[r] selects the even positions below r, ODD[r] the odd ones. */
  lemma MaskBits(r: nat, j: nat)
    requires r < W && j < W
    ensures Bit(EvenMask(r), j) == (j < r && j % 2 == 0)
    ensures Bit(OddMask(r), j) == (j < r && j % 2 == 1)
  {
    hide Bit, Alternating, And;
    var x := Alternating(W + 1);
    AndMask(x / 2, r);
    AndMask(x, r);
    BitMod(x / 2, r, j);
    BitMod(x, r, j);
    AlternatingBit(W + 1, j);
    if j < r {
      AlternatingBit(W + 1, j + 1);
      NextBitUp(x, j);
    }
  }

  lemma NextBitUp(x: nat, j: nat)
    ensures Bit(x / 2, j) == Bit(x, j + 1)
  {
  }

  class NodeNetwork {
    const id: nat
    const ring: nat
    const numShares: nat
    const shift: seq<nat>
    const even: seq<nat>
    const odd: seq<nat>
    var prgKey: seq<Block>
    var container: seq<Block>
    var position: seq<nat>

    ghost predicate Valid()
      reads this
    {
      && |prgKey| == |container| == |position| == numShares + 1
      && (forall s :: 0 <= s < numShares + 1 ==> position[s] <= 16)
      && TablesBuilt()
    }

    ghost predicate TablesBuilt() {
      && ring + 2 <= W
      && |shift| == ring + 22 && |even| == |odd| == ring + 1
      && (forall r :: 0 <= r <= ring + 21 && r <= W ==> shift[r] == Mask(r))
      && (forall r :: 0 <= r <= ring ==> even[r] == EvenMask(r) && odd[r] == OddMask(r))
    }

    /**
     The constructor's tables.  Where the protocols mask with SHIFT[r], the model writes `Masked`: the
     same words, for every entry up to the word width (see `ShiftCuts`).
     */
    constructor (id: nat, ring: nat, numShares: nat)
      requires ring + 2 <= W
      ensures Valid() && this.id == id && this.ring == ring && this.numShares == numShares
    {
      this.id, this.ring, this.numShares := id, ring, numShares;
      var s := BuildShift(ring);
      var e, o := BuildEvenOdd(ring, s);
      shift, even, odd := s, e, o;
      var zero: Block := seq(16, _ => 0);
      prgKey, container, position := seq(numShares + 1, _ => zero), seq(numShares + 1, _ => zero), seq(numShares + 1, _ => 0);
    }

    /** x & SHIFT[r] is x mod 2^r, for every r the table has an entry for. */
    lemma ShiftCuts(x: nat, r: nat)
      requires Valid() && r <= ring + 21 && r <= W
      ensures And(x, shift[r]) == Masked(x, r) == x % Pow2(r)
    {
      AndMask(x, r);
    }

    /** The generator in slot s. */
    function Slot(s: nat): Gen
      requires s < |prgKey| && s < |container| && s < |position|
      reads this
    {
      Gen(prgKey[s], container[s], position[s])
    }

    /**
     The end of `prg_setup`: the generators are seeded from the 64 random bytes read locally and the 32
     bytes received, and every container is stepped once.
     */
    method InstallKeys(random: seq<Byte>, received: seq<Byte>)
      requires Valid() && numShares == 2 && |random| == 64 && |received| == 32
      modifies this`prgKey, this`container, this`position
      ensures Valid()
      ensures Slot(0) == Seeded(random[..16], random[16..32])
      ensures Slot(1) == Seeded(received[..16], received[16..])
      ensures Slot(2) == Seeded(random[48..], random[32..48])
    {
      StartGenerators([random[16..32], received[16..], random[32..48]], [random[..16], received[..16], random[48..]]);
    }

    /** The common end of the set-ups: every container is stepped once, every position starts at 0. */
    method StartGenerators(keys: seq<Block>, seeds: seq<Block>)
      requires Valid() && |keys| == |seeds| == numShares + 1
      modifies this`prgKey, this`container, this`position
      ensures Valid()
      ensures forall s :: 0 <= s <= numShares ==> Slot(s) == Seeded(seeds[s], keys[s])
    {
      var stepped := seeds;
      for s := 0 to |seeds|
        invariant |stepped| == |seeds|
        invariant forall t :: 0 <= t < |seeds| ==> stepped[t] == if t < s then Aes(keys[t], seeds[t]) else seeds[t]
      {
        stepped := stepped[s := Aes(keys[s], stepped[s])];
      }
      prgKey, container, position := keys, stepped, seq(|seeds|, _ => 0);
    }

    /** `prg_getrandom`: the next n bytes of slot s go to the front of dest. */
    method PrgGetrandom(s: nat, n: nat, dest: array<Byte>)
      requires Valid() && s <= numShares && 1 <= n <= dest.Length
      modifies this`container, this`position, dest
      ensures Valid()
      ensures dest[..] == Written(old(dest[..]), Take(old(Slot(s)), n))
      ensures Slot(s) == Advance(old(Slot(s)), n)
      ensures forall t :: 0 <= t <= numShares && t != s ==> Slot(t) == old(Slot(t))
    {
      var g := Slot(s);
      var rounds := BlockRounds(n, g.pos);
      RoundsIsBlockIndex(n, g.pos);
      if rounds == 0 {
        Memcpy(dest, 0, container[s][g.pos..g.pos + n]);
        TakeTail(g, n);
        position := position[s := g.pos + n];
      } else {
        var left, last := FillBlocks(g, n, rounds, dest);
        container := container[s := last];
        position := position[s := left];
      }
    }
  }

  /** A generator fresh from a seed: the container stepped once, nothing taken yet. */
  function Seeded(start: Block, key: Block): Gen {
    Gen(key, Aes(key, start), 0)
  }

  /** The first block a seeded generator returns is the seed's, encrypted once. */
  lemma SeededStream(start: Block, key: Block, t: nat)
    requires t < 16
    ensures StreamByte(Seeded(start, key), t) == Aes(key, start)[t]
  {
    ContainerFirst(Seeded(start, key), t);
  }

  /**
   SHIFT[i] = (1 << i) - 1, with the word-width entry set by hand.  Entries past the word width come from a
   shift the language leaves undefined; zero stands for them.
   */
  method BuildShift(ring: nat) returns (s: seq<nat>)
    requires ring + 2 <= W
    ensures |s| == ring + 22 && forall r :: 0 <= r <= ring + 21 && r <= W ==> s[r] == Mask(r)
  {
    hide Wrap, Mask;
    s := [];
    for i := 0 to ring + 22
      invariant |s| == i && forall r :: 0 <= r < i && r <= W ==> s[r] == Mask(r)
    {
      var entry := if i == W then Wrap(-1) else if i < W then Wrap(Wrap(Pow2(i)) - 1) else 0;
      if i <= W {
        ShiftEntry(i);
      }
      s := s + [entry];
    }
  }

  lemma ShiftEntry(i: nat)
    requires i <= W
    ensures i == W ==> Wrap(-1) == Mask(i)
    ensures i < W ==> Wrap(Wrap(Pow2(i)) - 1) == Mask(i)
  {
    if i == W {
      WrapMinusOne();
    } else {
      WrapPow2(i);
      Pow2Mono(i + 1, W);
      hide Wrap;
      WrapSmall(Pow2(i) - 1);
    }
  }

  method BuildEvenOdd(ring: nat, shift: seq<nat>) returns (e: seq<nat>, o: seq<nat>)
    requires ring + 2 <= W && |shift| == ring + 22 && forall r :: 0 <= r <= ring + 21 && r <= W ==> shift[r] == Mask(r)
    ensures |e| == |o| == ring + 1
    ensures forall r :: 0 <= r <= ring ==> e[r] == EvenMask(r) && o[r] == OddMask(r)
  {
    hide Or, And, Wrap, Mask;
    var temp := 0;
    for i := 0 to W + 1
      invariant temp == Alternating(i)
    {
      temp := Or(temp, ToNat(i % 2 == 0));
      temp := Wrap(temp * 2);
    }
    e, o := [], [];
    for i := 0 to ring + 1
      invariant |e| == |o| == i
      invariant forall r :: 0 <= r < i ==> e[r] == EvenMask(r) && o[r] == OddMask(r)
    {
      e := e + [And(temp / 2, shift[i])];
      o := o + [And(temp, shift[i])];
    }
  }

  /** A request that leaves the current block: the returned block is the new container. */
  method FillBlocks(g: Gen, n: nat, rounds: nat, dest: array<Byte>) returns (left: nat, last: Block)
    requires InBlock(g) && 1 <= rounds && 16 * rounds < g.pos + n <= 16 * rounds + 16 && n <= dest.Length
    modifies dest
    ensures left == g.pos + n - 16 * rounds
    ensures last == Chain(g.key, g.container, rounds)
    ensures dest[..] == Written(old(dest[..]), Take(g, n))
  {
    ghost var before := dest[..];
    Memcpy(dest, 0, g.container[g.pos..]);
    TakeTail(g, 16 - g.pos);
    last := g.container;
    assert last == Chain(g.key, g.container, 0);
    hide Take, Chain;
    for i := 1 to rounds
      invariant last == Chain(g.key, g.container, i - 1)
      invariant dest[..] == Written(before, Take(g, 16 * i - g.pos))
    {
      last := NextBlock(g, i, last);
      WriteBlock(g, i, 16, last, dest, before);
    }
    last := NextBlock(g, rounds, last);
    left := n - 16 * (rounds - 1) - (16 - g.pos);
    WriteBlock(g, rounds, left, last, dest, before);
  }

  method NextBlock(g: Gen, i: nat, b: Block) returns (b': Block)
    requires i >= 1 && b == Chain(g.key, g.container, i - 1)
    ensures b' == Chain(g.key, g.container, i)
  {
    b' := Aes(g.key, b);
  }

  /** Writes the first n bytes of block i behind the stream written so far. */
  method WriteBlock(g: Gen, i: nat, n: nat, b: Block, dest: array<Byte>, ghost before: seq<Byte>)
    requires InBlock(g) && i >= 1 && n <= 16 && 16 * i - g.pos + n <= dest.Length == |before|
    requires b == Chain(g.key, g.container, i)
    requires dest[..] == Written(before, Take(g, 16 * i - g.pos))
    modifies dest
    ensures dest[..] == Written(before, Take(g, 16 * i - g.pos + n))
  {
    Memcpy(dest, 16 * i - g.pos, b[..n]);
    TakeBlock(g, i, n);
    WriteOn(before, Take(g, 16 * i - g.pos), b[..n]);
  }
}
