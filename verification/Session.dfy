/**
 Whole runs: any script of three-party calls after `prg_setup`.

 Whatever the script and whatever the random bytes, at every point of the run the holders of every share
 agree, both holders of every key are at the same point of its stream, and the secrets are those of the
 machine on plain numbers.
 */
module Session {
  import opened Ring
  import opened Words
  import opened Stream
  import opened Sharings
  import opened Cluster
  import opened Machine
  import opened Calls

  /** Runs one call on the registers. */
  method Execute(call: Call, ghost f: Formats, regs: seq<array<Sharing>>, pubs: seq<array<Public>>, net: Net, ghost s: Memory)
    returns (ghost noise: seq<nat>)
    requires Start(call, f, s, regs, pubs, net)
    modifies regs, pubs, net.p1, net.p2, net.p3
    ensures Finish(call, f, s, noise, regs, pubs, net)
  {
    hide *;
    match call {
    case Multiply(_, _, _, _) => noise := RunMultiply(call, f, regs, pubs, net, s);
    case MultiplyBits(_, _, _, _) => noise := RunMultiplyBits(call, f, regs, pubs, net, s);
    case MultiplyBytes(_, _, _) => noise := RunMultiplyBytes(call, f, regs, pubs, net, s);
    case MultiplyFixed(_, _, _, _, _) => noise := RunMultiplyFixed(call, f, regs, pubs, net, s);
    case MultiplyOpen(_, _, _, _) => noise := RunMultiplyOpen(call, f, regs, pubs, net, s);
    case Open(_, _, _) => noise := RunOpen(call, f, regs, pubs, net, s);
    case OpenBits(_, _, _) => noise := RunOpenBits(call, f, regs, pubs, net, s);
    case AddBits(_, _, _, _) => noise := RunAddBits(call, f, regs, pubs, net, s);
    case AddOpenedBits(_, _, _, _) => noise := RunAddOpenedBits(call, f, regs, pubs, net, s);
    case CompareBits(_, _, _, _) => noise := RunCompareBits(call, f, regs, pubs, net, s);
    case BitsToSums(_, _, _) => noise := RunBitsToSums(call, f, regs, pubs, net, s);
    case TopBit(_, _, _) => noise := RunTopBit(call, f, regs, pubs, net, s);
    case Larger(_, _, _, _) => noise := RunLarger(call, f, regs, pubs, net, s);
    case LargerFixed(_, _, _, _, _) => noise := RunLargerFixed(call, f, regs, pubs, net, s);
    case SmallerFixed(_, _, _, _, _) => noise := RunSmallerFixed(call, f, regs, pubs, net, s);
    case Clamp(_, _, _, _, _) => noise := RunClamp(call, f, regs, pubs, net, s);
    case Truncate(_, _, _, _) => noise := RunTruncate(call, f, regs, pubs, net, s);
    case TruncateScaled(_, _, _, _, _, _) => noise := RunTruncateScaled(call, f, regs, pubs, net, s);
    case Convert(_, _, _, _) => noise := RunConvert(call, f, regs, pubs, net, s);
    case RandomBits(_, _) => noise := RunRandomBits(call, f, regs, pubs, net, s);
    case RandomNumbers(_, _, _) => noise := RunRandomNumbers(call, f, regs, pubs, net, s);
    case RandomTruncated(_, _, _, _, _) => noise := RunRandomTruncated(call, f, regs, pubs, net, s);
    case MatrixProduct(_, _, _, _, _) => noise := RunMatrixProduct(call, f, regs, pubs, net, s);
    case Convolve(_, _, _, _, _, _) => noise := RunConvolve(call, f, regs, pubs, net, s);
    case Pool(_, _, _, _, _, _) => noise := RunPool(call, f, regs, pubs, net, s);
    }
  }

  // ---------- scripts ----------

  /** The formats before call j. */
  function FormatsAt(script: seq<Call>, f: Formats, j: nat): (f': Formats)
    requires j <= |script|
    ensures |f'.shared| == |f.shared| && |f'.public| == |f.public|
  {
    if j == 0 then f else NextFormats(FormatsAt(script, f, j - 1), script[j - 1])
  }

  /** Every call finds registers of the kinds it works on. */
  predicate AllowedScript(script: seq<Call>, f: Formats, ring: nat) {
    forall j :: 0 <= j < |script| ==> Allowed(script[j], FormatsAt(script, f, j), ring)
  }

  /** One step of the machine on plain numbers. */
  ghost predicate Step(call: Call, f: Formats, s: Memory, ring: nat, noise: seq<nat>, s': Memory) {
    Ready(call, f, s, ring) && s' == Next(call, f, s, ring, noise)
  }

  /** The run of the machine on plain numbers, for what the calls draw. */
  ghost predicate Trace(trace: seq<Memory>, script: seq<Call>, f: Formats, ring: nat, noises: seq<seq<nat>>) {
    && |trace| == |script| + 1 && |noises| == |script|
    && forall j :: 0 <= j < |script| ==> Step(script[j], FormatsAt(script, f, j), trace[j], ring, noises[j], trace[j + 1])
  }

  // ---------- what the parties store ----------

  /** Everything the parties store at one point of a run: registers, and the generators of slots 0 and 1. */
  datatype Snapshot = Snapshot(contents: Contents, slot0: Three<Gen>, slot1: Three<Gen>)

  ghost function Now(regs: seq<array<Sharing>>, pubs: seq<array<Public>>, net: Net): Snapshot
    requires Valid(net)
    reads regs, pubs, net.p1, net.p2, net.p3
  {
    Snapshot(Stored(regs, pubs), Slots(net, 0), Slots(net, 1))
  }

  /** The registers hold the memory, and the two holders of every key are at the same point of its stream. */
  ghost predicate Consistent(f: Formats, s: Memory, x: Snapshot) {
    Holds(f, s, x.contents) && Paired(x.slot0, x.slot1)
  }

  /** The number an element holds. */
  function NumberOf(content: Content, x: Sharing): nat {
    match content
    case Sums(k) => Value(x, k)
    case Xors(k) => XorValue(x, k)
    case Bits(k) => XorValue(x, k)
    case _ => 0
  }

  /** The numbers in the registers. */
  function Inputs(f: Formats, x: Contents): (s: Memory)
    requires |x.shared| == |f.shared|
  {
    Memory(
      seq(|x.shared|, r requires 0 <= r < |x.shared| =>
        seq(|x.shared[r]|, i requires 0 <= i < |x.shared[r]| => NumberOf(f.shared[r].content, x.shared[r][i]))),
      seq(|x.public|, o requires 0 <= o < |x.public| =>
        seq(|x.public[o]|, i requires 0 <= i < |x.public[o]| => x.public[o][i].p1)))
  }

  /** Registers that a run may start from: of their formats' lengths, and consistent. */
  ghost predicate Loaded(f: Formats, x: Contents) {
    && |x.shared| == |f.shared| && |x.public| == |f.public|
    && (forall r :: 0 <= r < |f.shared| ==> LoadedShares(f.shared[r], x.shared[r]))
    && (forall o :: 0 <= o < |f.public| ==> LoadedWords(f.public[o], x.public[o]))
  }

  ghost predicate LoadedShares(format: Format, x: seq<Sharing>) {
    |x| == format.length && forall i :: 0 <= i < |x| ==> match format.content
      case Unused => true
      case Sums(k) => Agreed(x[i], k)
      case Xors(k) => Agreed(x[i], k)
      case Bits(k) => Agreed(x[i], k) && XorValue(x[i], k) < 2
      case Opened => false
  }

  ghost predicate LoadedWords(format: Format, x: seq<Public>) {
    |x| == format.length && (format.content == Opened ==> forall i :: 0 <= i < |x| ==> Known(x[i], x[i].p1))
  }

  lemma InputsHold(f: Formats, x: Contents)
    requires Loaded(f, x)
    ensures Holds(f, Inputs(f, x), x)
  {
    hide Agreed, Value, XorValue;
    var s := Inputs(f, x);
    forall r | 0 <= r < |f.shared| ensures RegisterHolds(f.shared[r], s.shared[r], x.shared[r]) {
      assert LoadedShares(f.shared[r], x.shared[r]);
    }
    forall o | 0 <= o < |f.public| ensures PublicHolds(f.public[o], s.public[o], x.public[o]) {
      assert LoadedWords(f.public[o], x.public[o]);
    }
  }

  // ---------- runs ----------

  /** The first j calls of a run, as recorded. */
  ghost predicate Recorded(script: seq<Call>, f: Formats, ring: nat, trace: seq<Memory>, noises: seq<seq<nat>>,
          history: seq<Snapshot>, j: nat) {
    && j <= |script| && |trace| == |history| == j + 1 && |noises| == j
    && (forall i :: 0 <= i < j ==> Step(script[i], FormatsAt(script, f, i), trace[i], ring, noises[i], trace[i + 1]))
    && (forall i :: 0 <= i <= j ==> Consistent(FormatsAt(script, f, i), trace[i], history[i]))
  }

  lemma RecordNothing(script: seq<Call>, f: Formats, ring: nat, s: Memory, x: Snapshot)
    requires Consistent(f, s, x)
    ensures FormatsAt(script, f, 0) == f && Recorded(script, f, ring, [s], [], [x], 0)
  {
  }

  lemma RecordNext(script: seq<Call>, f: Formats, ring: nat, trace: seq<Memory>, noises: seq<seq<nat>>,
          history: seq<Snapshot>, j: nat, s: Memory, noise: seq<nat>, x: Snapshot)
    requires Recorded(script, f, ring, trace, noises, history, j) && j < |script|
    requires Step(script[j], FormatsAt(script, f, j), trace[j], ring, noise, s) && Consistent(FormatsAt(script, f, j + 1), s, x)
    ensures Recorded(script, f, ring, trace + [s], noises + [noise], history + [x], j + 1)
  {
    hide Step, Consistent, FormatsAt;
  }

  lemma RecordedAll(script: seq<Call>, f: Formats, ring: nat, trace: seq<Memory>, noises: seq<seq<nat>>,
          history: seq<Snapshot>)
    requires Recorded(script, f, ring, trace, noises, history, |script|)
    ensures Trace(trace, script, f, ring, noises) && |history| == |script| + 1
    ensures forall j :: 0 <= j <= |script| ==> Consistent(FormatsAt(script, f, j), trace[j], history[j])
  {
    hide Step, Consistent, FormatsAt;
  }

  /**
   Set-up and any script of calls.  The trace is the run of the machine on the numbers the registers start
   with, and the history is what the parties store after set-up and after every call: at every point the
   registers hold the trace's numbers, with agreeing shares, and the generators are in step.
   */
  method Run(script: seq<Call>, ghost f: Formats, regs: seq<array<Sharing>>, pubs: seq<array<Public>>, net: Net,
          random: Three<seq<Byte>>)
    returns (ghost trace: seq<Memory>, ghost noises: seq<seq<nat>>, ghost history: seq<Snapshot>)
    requires Valid(net) && |random.p1| == |random.p2| == |random.p3| == 64
    requires Distinct(regs, pubs) && Loaded(f, Stored(regs, pubs)) && AllowedScript(script, f, net.p1.ring)
    modifies regs, pubs, net.p1, net.p2, net.p3
    ensures InStep(net) && Trace(trace, script, f, net.p1.ring, noises) && trace[0] == Inputs(f, old(Stored(regs, pubs)))
    ensures |history| == |script| + 1
    ensures history[0].contents == old(Stored(regs, pubs)) && history[|script|] == Now(regs, pubs, net)
    ensures forall j :: 0 <= j <= |script| ==> Consistent(FormatsAt(script, f, j), trace[j], history[j])
  {
    ghost var start := Stored(regs, pubs);
    InputsHold(f, start);
    hide *;
    PrgSetup(net, random);
    StoredSame(regs, pubs, start);
    trace, noises, history := RunScript(script, f, regs, pubs, net, Inputs(f, start));
    RecordedAll(script, f, net.p1.ring, trace, noises, history);
  }

  lemma StoredSame(regs: seq<array<Sharing>>, pubs: seq<array<Public>>, x: Contents)
    requires |x.shared| == |regs| && |x.public| == |pubs|
    requires forall r :: 0 <= r < |regs| ==> x.shared[r] == regs[r][..]
    requires forall o :: 0 <= o < |pubs| ==> x.public[o] == pubs[o][..]
    ensures Stored(regs, pubs) == x
  {
    assert Stored(regs, pubs).shared == x.shared;
    assert Stored(regs, pubs).public == x.public;
  }

  /** The calls one after the other. */
  method RunScript(script: seq<Call>, ghost f: Formats, regs: seq<array<Sharing>>, pubs: seq<array<Public>>, net: Net,
          ghost s: Memory)
    returns (ghost trace: seq<Memory>, ghost noises: seq<seq<nat>>, ghost history: seq<Snapshot>)
    requires InStep(net) && Valid(net) && Distinct(regs, pubs) && Holds(f, s, Stored(regs, pubs))
    requires AllowedScript(script, f, net.p1.ring)
    modifies regs, pubs, net.p1, net.p2, net.p3
    ensures InStep(net) && Valid(net) && Recorded(script, f, net.p1.ring, trace, noises, history, |script|)
    ensures |trace| == |history| == |script| + 1 && trace[0] == s && history[0].contents == old(Stored(regs, pubs))
    ensures history[|script|] == Now(regs, pubs, net)
  {
    hide *;
    NowConsistent(f, s, regs, pubs, net);
    trace, noises, history := [s], [], [Now(regs, pubs, net)];
    RecordNothing(script, f, net.p1.ring, s, history[0]);
    for j := 0 to |script|
      invariant InStep(net) && Valid(net) && |trace| == |history| == j + 1 && trace[0] == s
      invariant history[0].contents == old(Stored(regs, pubs)) && history[j] == Now(regs, pubs, net)
      invariant Recorded(script, f, net.p1.ring, trace, noises, history, j)
      invariant Holds(FormatsAt(script, f, j), trace[j], Stored(regs, pubs))
    {
      ghost var s', noise := ExecuteNext(script, f, j, regs, pubs, net, trace[j]);
      NowConsistent(FormatsAt(script, f, j + 1), s', regs, pubs, net);
      RecordNext(script, f, net.p1.ring, trace, noises, history, j, s', noise, Now(regs, pubs, net));
      trace, noises, history := trace + [s'], noises + [noise], history + [Now(regs, pubs, net)];
    }
  }

  lemma NowConsistent(f: Formats, s: Memory, regs: seq<array<Sharing>>, pubs: seq<array<Public>>, net: Net)
    requires InStep(net) && Valid(net) && Holds(f, s, Stored(regs, pubs))
    ensures Consistent(f, s, Now(regs, pubs, net)) && Now(regs, pubs, net).contents == Stored(regs, pubs)
  {
    hide Holds;
  }

  method ExecuteNext(script: seq<Call>, ghost f: Formats, j: nat, regs: seq<array<Sharing>>, pubs: seq<array<Public>>, net: Net,
          ghost s: Memory)
    returns (ghost s': Memory, ghost noise: seq<nat>)
    requires InStep(net) && j < |script| && AllowedScript(script, f, net.p1.ring) && Distinct(regs, pubs)
    requires Holds(FormatsAt(script, f, j), s, Stored(regs, pubs))
    modifies regs, pubs, net.p1, net.p2, net.p3
    ensures InStep(net) && Valid(net) && Holds(FormatsAt(script, f, j + 1), s', Stored(regs, pubs))
    ensures Step(script[j], FormatsAt(script, f, j), s, net.p1.ring, noise, s')
  {
    ghost var g := FormatsAt(script, f, j);
    HoldsSized(g, s, Stored(regs, pubs));
    HoldsParts(g, s, Stored(regs, pubs));
    hide InStep, Allowed, Sized, Holds, Distinct, Next, NextFormats;
    noise := Execute(script[j], g, regs, pubs, net, s);
    InStepValid(net);
    s' := Next(script[j], g, s, net.p1.ring, noise);
  }
}
