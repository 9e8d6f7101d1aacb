/**
 Handing out the five-party keys (`prg_setup_mp`): every party makes two keys and sends each to the two
 other holders of its share.
 */
module FivePartySetup {
  import opened Words
  import opened Stream
  import opened NodeNetworks
  import opened FiveParty
  import opened FivePartyMult

  type Seed = s: seq<Byte> | |s| == 32 witness seq(32, _ => 0)

  function FromSeed(s: Seed): Gen {
    Seeded(s[..16], s[16..])
  }

  /** The seed of the key a party makes for its share 2, and for its share 3. */
  function SeedA(random: seq<Byte>): Seed
    requires |random| == 96
  {
    random[..32]
  }

  function SeedB(random: seq<Byte>): Seed
    requires |random| == 96
  {
    random[32..64]
  }

  function PrivateSeed(random: seq<Byte>): Seed
    requires |random| == 96
  {
    random[64..]
  }

  /** The party that makes the key of share e. */
  function MakerOf(e: nat): nat
    requires e < 10
  {
    if e < 5 then Turn(e, 3) else Turn(e - 5, 1)
  }

  /** The generator of every share's key. */
  function Generators(random: seq<seq<Byte>>): (g: seq<Gen>)
    requires |random| == 5 && forall p :: 0 <= p < 5 ==> |random[p]| == 96
    ensures |g| == 10
  {
    seq(10, e requires 0 <= e < 10 => FromSeed(if e < 5 then SeedB(random[MakerOf(e)]) else SeedA(random[MakerOf(e)])))
  }

  /** The seed in slot t of party p: two of its own, four received over the routes. */
  function SlotSeed(random: seq<seq<Byte>>, p: nat, t: nat): Seed
    requires |random| == 5 && (forall q :: 0 <= q < 5 ==> |random[q]| == 96) && p < 5 && t <= 6
  {
    match t
    case 0 => SeedB(random[Turn(p, 4)])
    case 1 => SeedA(random[Turn(p, 2)])
    case 2 => SeedA(random[p])
    case 3 => SeedB(random[p])
    case 4 => SeedA(random[Turn(p, 3)])
    case 5 => SeedB(random[Turn(p, 1)])
    case _ => PrivateSeed(random[p])
  }

  /** Every route ends at a holder of the sender's share. */
  lemma SeedsReachHolders(random: seq<seq<Byte>>, p: nat, t: nat)
    requires |random| == 5 && (forall q :: 0 <= q < 5 ==> |random[q]| == 96) && p < 5 && t < 6
    ensures FromSeed(SlotSeed(random, p, t)) == Generators(random)[ShareOf(p, t)]
  {
    hide Turn, FromSeed, SeedA, SeedB;
    TurnIs(p, 0);
    match t
    case 0 => TurnTurn(p, 1, 3);
    case 1 => TurnTurn(p, 1, 1);
    case 2 => TurnTurn(p, 4, 1);
    case 3 => TurnTurn(p, 2, 3);
    case 4 => TurnTurn(p, 2, 1);
    case _ => TurnTurn(p, 3, 3);
  }

  /** The generators in a party's own slots, byte by byte of what it drew. */
  lemma OwnKeys(random: seq<seq<Byte>>, p: nat)
    requires |random| == 5 && (forall q :: 0 <= q < 5 ==> |random[q]| == 96) && p < 5
    ensures Generators(random)[ShareOf(p, 2)] == Seeded(random[p][..16], random[p][16..32])
    ensures Generators(random)[ShareOf(p, 3)] == Seeded(random[p][32..48], random[p][48..64])
    ensures FromSeed(PrivateSeed(random[p])) == Seeded(random[p][64..80], random[p][80..])
  {
    SeedsReachHolders(random, p, 2);
    SeedsReachHolders(random, p, 3);
    hide Generators, ShareOf;
    var r := random[p];
    assert r[..32][..16] == r[..16] && r[..32][16..] == r[16..32];
    assert r[32..64][..16] == r[32..48] && r[32..64][16..] == r[48..64];
    assert r[64..][..16] == r[64..80] && r[64..][16..] == r[80..];
  }

  /**
   `prg_setup_mp`: whatever the parties draw, the three holders of each share start with one generator, the one
   its maker has in slot 2 or 3 from its own random bytes.
   */
  method PrgSetup5(net: seq<NodeNetwork>, random: seq<seq<Byte>>)
    requires Valid5(net) && |random| == 5 && forall p :: 0 <= p < 5 ==> |random[p]| == 96
    modifies net
    ensures Follows(net, Generators(random))
    ensures forall p :: 0 <= p < 5 ==>
      && net[p].Slot(2) == Seeded(random[p][..16], random[p][16..32])
      && net[p].Slot(3) == Seeded(random[p][32..48], random[p][48..64])
      && net[p].Slot(6) == Seeded(random[p][64..80], random[p][80..])
  {
    hide FromSeed, Generators, SlotSeed, Turn, NodeFollows, PrivateSeed;
    for p := 0 to 5
      invariant Valid5(net)
      invariant forall q :: 0 <= q < p ==> NodeFollows(net[q], Generators(random), q)
      invariant forall q :: 0 <= q < p ==> net[q].Slot(6) == FromSeed(PrivateSeed(random[q]))
    {
      InstallKeys5(net[p], random, p);
    }
    NodesFollow(net, Generators(random));
    forall p | 0 <= p < 5
      ensures net[p].Slot(2) == Seeded(random[p][..16], random[p][16..32])
      ensures net[p].Slot(3) == Seeded(random[p][32..48], random[p][48..64])
      ensures net[p].Slot(6) == Seeded(random[p][64..80], random[p][80..])
    {
      OwnKeys(random, p);
      assert net[p].Slot(6) == FromSeed(PrivateSeed(random[p]));
    }
  }

  method InstallKeys5(node: NodeNetwork, random: seq<seq<Byte>>, p: nat)
    requires node.Valid() && node.numShares == 6 && p < 5
    requires |random| == 5 && forall q :: 0 <= q < 5 ==> |random[q]| == 96
    modifies node`prgKey, node`container, node`position
    ensures node.Valid() && NodeFollows(node, Generators(random), p) && node.Slot(6) == FromSeed(PrivateSeed(random[p]))
  {
    hide Generators, ShareOf, Turn;
    var seeds := seq(7, t requires 0 <= t < 7 => SlotSeed(random, p, t));
    node.StartGenerators(seq(7, t requires 0 <= t < 7 => seeds[t][16..]), seq(7, t requires 0 <= t < 7 => seeds[t][..16]));
    forall t | 0 <= t < 6 ensures node.Slot(t) == Generators(random)[ShareOf(p, t)] {
      SeedsReachHolders(random, p, t);
    }
  }
}
