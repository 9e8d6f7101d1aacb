/**
 Running the calls of `Machine` on registers of shares: every protocol realises its call.
 */
module Calls {
  import opened Ring
  import opened Words
  import opened Stream
  import opened Sharings
  import opened Cluster
  import opened BitShares
  import opened Linear
  import opened Machine
  import Multiplication
  import PublicProduct
  import Opening
  import RandBits
  import BitAdd
  import BitLT
  import EdaBits
  import EdaBitTruncs
  import B2a
  import MSB
  import LT
  import ReLU6
  import Truncation
  import Convert
  import MatMult
  import Convolution
  import MaxPool

  /** What the registers store. */
  ghost function Stored(regs: seq<array<Sharing>>, pubs: seq<array<Public>>): (x: Contents)
    reads regs, pubs
    ensures |x.shared| == |regs| && |x.public| == |pubs|
    ensures forall r :: 0 <= r < |regs| ==> x.shared[r] == regs[r][..]
    ensures forall o :: 0 <= o < |pubs| ==> x.public[o] == pubs[o][..]
  {
    Contents(seq(|regs|, r requires 0 <= r < |regs| reads regs => regs[r][..]),
             seq(|pubs|, o requires 0 <= o < |pubs| reads pubs => pubs[o][..]))
  }

  /** Registers are different arrays. */
  ghost predicate Distinct(regs: seq<array<Sharing>>, pubs: seq<array<Public>>) {
    && (forall q, r :: 0 <= q < r < |regs| ==> regs[q] != regs[r])
    && (forall q, o :: 0 <= q < o < |pubs| ==> pubs[q] != pubs[o])
  }

  /** Everything is in place for the call. */
  ghost predicate Start(call: Call, f: Formats, s: Memory, regs: seq<array<Sharing>>, pubs: seq<array<Public>>, net: Net)
    reads regs, pubs, net.p1, net.p2, net.p3
  {
    && InStep(net) && Ready(call, f, s, net.p1.ring) && Distinct(regs, pubs) && Holds(f, s, Stored(regs, pubs))
    && |regs| == |f.shared| == |s.shared| && |pubs| == |f.public| == |s.public|
  }

  /** The registers hold the machine's next memory, and the generators are in step. */
  ghost predicate Finish(call: Call, f: Formats, s: Memory, noise: seq<nat>, regs: seq<array<Sharing>>,
          pubs: seq<array<Public>>, net: Net)
    reads regs, pubs, net.p1, net.p2, net.p3
  {
    && InStep(net) && Ready(call, f, s, net.p1.ring)
    && Holds(NextFormats(f, call), Next(call, f, s, net.p1.ring, noise), Stored(regs, pubs))
  }

  // ---------- operands ----------

  /** A register of additive shares as an operand. */
  lemma SumsOperand(f: Formats, s: Memory, regs: seq<array<Sharing>>, pubs: seq<array<Public>>, r: nat, k: nat)
    requires Holds(f, s, Stored(regs, pubs)) && Has(f, r, Sums(k))
    ensures r < |regs| && regs[r].Length == f.shared[r].length
    ensures forall i :: 0 <= i < regs[r].Length ==>
      Agreed(regs[r][i], k) && Value(regs[r][i], k) == At(s.shared, r, i) && Additive(regs[r][i], At(s.shared, r, i), k)
  {
    hide Agreed, Value, Additive;
    assert RegisterHolds(f.shared[r], s.shared[r], regs[r][..]);
    forall i | 0 <= i < regs[r].Length
      ensures Agreed(regs[r][i], k) && Value(regs[r][i], k) == At(s.shared, r, i) && Additive(regs[r][i], At(s.shared, r, i), k)
    {
      assert ElementHolds(f.shared[r].content, s.shared[r][i], regs[r][..][i]);
      AdditiveValue(regs[r][i], k);
    }
  }

  /** A register of bitwise shares as an operand. */
  lemma XorsOperand(f: Formats, s: Memory, regs: seq<array<Sharing>>, pubs: seq<array<Public>>, r: nat, k: nat)
    requires Holds(f, s, Stored(regs, pubs)) && HasXors(f, r, k)
    ensures r < |regs| && regs[r].Length == f.shared[r].length
    ensures forall i :: 0 <= i < regs[r].Length ==> Agreed(regs[r][i], k) && XorValue(regs[r][i], k) == At(s.shared, r, i)
  {
    hide Agreed, XorValue;
    assert RegisterHolds(f.shared[r], s.shared[r], regs[r][..]);
    forall i | 0 <= i < regs[r].Length ensures Agreed(regs[r][i], k) && XorValue(regs[r][i], k) == At(s.shared, r, i) {
      assert ElementHolds(f.shared[r].content, s.shared[r][i], regs[r][..][i]);
    }
  }

  /** A register of single bits. */
  lemma BitsOperand(f: Formats, s: Memory, regs: seq<array<Sharing>>, pubs: seq<array<Public>>, r: nat, k: nat)
    requires Holds(f, s, Stored(regs, pubs)) && Has(f, r, Bits(k))
    ensures r < |regs| && forall i :: 0 <= i < regs[r].Length ==> XorValue(regs[r][i], k) < 2
  {
    hide Agreed, XorValue;
    assert RegisterHolds(f.shared[r], s.shared[r], regs[r][..]);
    forall i | 0 <= i < regs[r].Length ensures XorValue(regs[r][i], k) < 2 {
      assert ElementHolds(f.shared[r].content, s.shared[r][i], regs[r][..][i]);
    }
  }

  /** A register of opened words. */
  lemma WordsOperand(f: Formats, s: Memory, regs: seq<array<Sharing>>, pubs: seq<array<Public>>, o: nat)
    requires Holds(f, s, Stored(regs, pubs)) && HasWords(f, o)
    ensures o < |pubs| && pubs[o].Length == f.public[o].length
    ensures forall i :: 0 <= i < pubs[o].Length ==> Known(pubs[o][i], At(s.public, o, i))
  {
    hide Known;
    assert PublicHolds(f.public[o], s.public[o], pubs[o][..]);
    forall i | 0 <= i < pubs[o].Length ensures Known(pubs[o][i], At(s.public, o, i)) {
      assert Known(pubs[o][..][i], s.public[o][i]);
    }
  }

  lemma LengthOf(f: Formats, s: Memory, regs: seq<array<Sharing>>, pubs: seq<array<Public>>, c: nat)
    requires Holds(f, s, Stored(regs, pubs)) && c < |f.shared|
    ensures c < |regs| && regs[c].Length == f.shared[c].length
  {
    assert RegisterHolds(f.shared[c], s.shared[c], regs[c][..]);
  }

  // ---------- results ----------

  predicate SingleTarget(call: Call) {
    !(call.MultiplyOpen? || call.Open? || call.OpenBits? || call.RandomNumbers? || call.RandomTruncated?)
  }

  /** Only register c has changed, and it holds the call's result. */
  lemma OneTarget(call: Call, f: Formats, s: Memory, ring: nat, noise: seq<nat>, before: Contents, after: Contents)
    requires Ready(call, f, s, ring) && Holds(f, s, before) && SingleTarget(call)
    requires |after.shared| == |f.shared| && after.public == before.public
    requires forall r :: 0 <= r < |f.shared| && r != call.c ==> after.shared[r] == before.shared[r]
    requires call.c < |f.shared| && Wrote(call, f, s, ring, noise, call.c, after.shared[call.c])
    ensures Holds(NextFormats(f, call), Next(call, f, s, ring, noise), after)
  {
    SingleWrites(call);
    hide *;
    HoldsParts(f, s, before);
    forall r | 0 <= r < |f.shared|
      ensures if r in Writes(call) then Wrote(call, f, s, ring, noise, r, after.shared[r])
        else RegisterHolds(f.shared[r], s.shared[r], after.shared[r])
    {
    }
    Concludes(call, f, s, ring, noise, after);
  }

  lemma SingleWrites(call: Call)
    requires SingleTarget(call)
    ensures forall r :: r in Writes(call) <==> r == call.c
    ensures forall o :: !Publishes(call, o)
  {
  }

  lemma HoldsParts(f: Formats, s: Memory, x: Contents)
    requires Holds(f, s, x)
    ensures |s.shared| == |x.shared| == |f.shared| && |s.public| == |x.public| == |f.public|
    ensures forall r :: 0 <= r < |f.shared| ==> RegisterHolds(f.shared[r], s.shared[r], x.shared[r])
    ensures forall o :: 0 <= o < |f.public| ==> PublicHolds(f.public[o], s.public[o], x.public[o])
  {
    hide RegisterHolds, PublicHolds;
  }

  // ---------- elements ----------

  lemma ProductElement(x: Sharing, a: Sharing, b: Sharing, u: nat, v: nat, k: nat)
    requires Additive(x, Sum(a) * Sum(b), k) && Additive(a, u, k) && Additive(b, v, k)
    ensures Additive(x, u * v, k)
  {
    hide Additive, Sum;
    LT.ProductOfValues(a, u, b, v, k);
    AdditiveAs(x, Sum(a) * Sum(b), u * v, k);
  }

  lemma AndElement(x: Sharing, a: Sharing, b: Sharing, u: nat, v: nat, k: nat)
    requires AndOf(x, a, b, k) && Agreed(a, k) && Agreed(b, k) && XorValue(a, k) == u && XorValue(b, k) == v
    ensures Bitwise(x, And(u, v), k)
  {
    hide AndOf, And, Agreed, XorSum;
    CongMod(XorSum(a), k);
    CongSym(u, XorSum(a), k);
    CongMod(XorSum(b), k);
    CongSym(v, XorSum(b), k);
    AndOfBitwise(x, a, u, b, v, k);
  }

  lemma ComparedElement(x: Sharing, u: nat, v: nat, k: nat)
    requires BitLT.BitResult(x, u % Pow2(k) < v)
    ensures Bitwise(x, ToNat(u % Pow2(k) < v), k)
  {
    hide BitLT.BitResult, Bitwise;
    B2a.BitResultBitwise(x, u % Pow2(k) < v, k);
  }

  lemma RandomBitElement(x: Sharing, k: nat)
    requires k >= 1 && RandBits.SharedBit(x, k)
    ensures Additive(x, Value(x, k) % 2, k)
  {
    MSB.SharedBitValue(x, k);
    hide Additive, Value;
  }

  // ---------- one method for each protocol ----------

  lemma InStepValid(net: Net)
    requires InStep(net)
    ensures Valid(net)
  {
  }

  /** The number drawn for element i. */
  lemma NoiseIs(noise: seq<nat>, g: Three<Gen>, n: nat, k: nat, i: nat)
    requires |noise| == n && i < n && noise[i] == EdaBits.EdaNumber(g, n, k, i)
    ensures NoiseAt(noise, i) == EdaBits.EdaNumber(g, n, k, i)
    ensures NoiseAt(noise, i) % Pow2(k) == Truncation.MaskNumber(g, n, k, i)
  {
    hide EdaBits.EdaNumber;
  }

  lemma KnownWords(p: array<Public>, v: seq<seq<nat>>, o: nat)
    requires forall i :: 0 <= i < p.Length ==> Known(p[i], At(v, o, i))
    ensures forall i :: 0 <= i < p.Length ==> Known(p[i], p[i].p1) && p[i].p1 == At(v, o, i)
  {
  }

  lemma MultiplyMeans(call: Call, f: Formats, s: Memory, ring: nat, x: seq<Sharing>)
    requires Ready(call, f, s, ring) && call.Multiply? && |x| == f.shared[call.c].length
    requires forall i :: 0 <= i < |x| ==> Additive(x[i], At(s.shared, call.a, i) * At(s.shared, call.b, i), call.k)
    ensures Wrote(call, f, s, ring, [], call.c, x)
  {
    hide Additive, At;
  }

  method RunMultiply(call: Call, ghost f: Formats, regs: seq<array<Sharing>>, pubs: seq<array<Public>>,
          net: Net, ghost s: Memory)
    returns (ghost noise: seq<nat>)
    requires Start(call, f, s, regs, pubs, net) && call.Multiply?
    modifies regs, pubs, net.p1, net.p2, net.p3
    ensures Finish(call, f, s, noise, regs, pubs, net)
  {
    hide InStep, Valid, Holds, Sized, Writes, Meaning, Next, NextFormats, Stored, At, Agreed, Value, XorValue, Additive, Known;
    var Multiply(c, a, b, k) := call;
    noise := [];
    ghost var ring, before := net.p1.ring, Stored(regs, pubs);
    SumsOperand(f, s, regs, pubs, a, k);
    SumsOperand(f, s, regs, pubs, b, k);
    LengthOf(f, s, regs, pubs, c);
    BitLT.RingBelowWord(net);
    hide *;
    var x := regs[c];
    Multiplication.Mult(x, regs[a], regs[b], k, net);
    forall i | 0 <= i < x.Length ensures Additive(x[i], At(s.shared, a, i) * At(s.shared, b, i), k) {
      assert Additive(regs[a][i], At(s.shared, a, i), k) && Additive(regs[b][i], At(s.shared, b, i), k);
      ProductElement(x[i], regs[a][i], regs[b][i], At(s.shared, a, i), At(s.shared, b, i), k);
    }
    MultiplyMeans(call, f, s, ring, x[..]);
    OneTarget(call, f, s, ring, noise, before, Stored(regs, pubs));
  }

  lemma MultiplyBitsMeans(call: Call, f: Formats, s: Memory, ring: nat, x: seq<Sharing>)
    requires Ready(call, f, s, ring) && call.MultiplyBits? && |x| == f.shared[call.c].length
    requires forall i :: 0 <= i < |x| ==> Bitwise(x[i], And(At(s.shared, call.a, i), At(s.shared, call.b, i)), call.k)
    ensures Wrote(call, f, s, ring, [], call.c, x)
  {
    hide Agreed, Cong, XorSum, At;
  }

  method RunMultiplyBits(call: Call, ghost f: Formats, regs: seq<array<Sharing>>, pubs: seq<array<Public>>,
          net: Net, ghost s: Memory)
    returns (ghost noise: seq<nat>)
    requires Start(call, f, s, regs, pubs, net) && call.MultiplyBits?
    modifies regs, pubs, net.p1, net.p2, net.p3
    ensures Finish(call, f, s, noise, regs, pubs, net)
  {
    hide InStep, Valid, Holds, Sized, Writes, Meaning, Next, NextFormats, Stored, At, Agreed, Value, XorValue, Additive, Known;
    var MultiplyBits(c, a, b, k) := call;
    noise := [];
    ghost var ring, before := net.p1.ring, Stored(regs, pubs);
    XorsOperand(f, s, regs, pubs, a, k);
    XorsOperand(f, s, regs, pubs, b, k);
    LengthOf(f, s, regs, pubs, c);
    BitLT.RingBelowWord(net);
    hide *;
    var x := regs[c];
    Multiplication.MultBitwise(x, regs[a], regs[b], k, net);
    forall i | 0 <= i < x.Length ensures Bitwise(x[i], And(At(s.shared, a, i), At(s.shared, b, i)), k) {
      AndElement(x[i], regs[a][i], regs[b][i], At(s.shared, a, i), At(s.shared, b, i), k);
    }
    MultiplyBitsMeans(call, f, s, ring, x[..]);
    OneTarget(call, f, s, ring, noise, before, Stored(regs, pubs));
  }

  lemma MultiplyBytesMeans(call: Call, f: Formats, s: Memory, ring: nat, x: seq<Sharing>)
    requires Ready(call, f, s, ring) && call.MultiplyBytes? && |x| == f.shared[call.c].length
    requires forall i :: 0 <= i < |x| ==> Bitwise(x[i], And(At(s.shared, call.a, i), At(s.shared, call.b, i)), 8)
    ensures Wrote(call, f, s, ring, [], call.c, x)
  {
    hide Agreed, Cong, XorSum, At;
  }

  method RunMultiplyBytes(call: Call, ghost f: Formats, regs: seq<array<Sharing>>, pubs: seq<array<Public>>,
          net: Net, ghost s: Memory)
    returns (ghost noise: seq<nat>)
    requires Start(call, f, s, regs, pubs, net) && call.MultiplyBytes?
    modifies regs, pubs, net.p1, net.p2, net.p3
    ensures Finish(call, f, s, noise, regs, pubs, net)
  {
    hide InStep, Valid, Holds, Sized, Writes, Meaning, Next, NextFormats, Stored, At, Agreed, Value, XorValue, Additive, Known;
    var MultiplyBytes(c, a, b) := call;
    noise := [];
    ghost var ring, before := net.p1.ring, Stored(regs, pubs);
    XorsOperand(f, s, regs, pubs, a, 8);
    XorsOperand(f, s, regs, pubs, b, 8);
    LengthOf(f, s, regs, pubs, c);
    BitLT.RingBelowWord(net);
    hide *;
    var x := regs[c];
    Multiplication.MultByte(x, regs[a], regs[b], net);
    forall i | 0 <= i < x.Length ensures Bitwise(x[i], And(At(s.shared, a, i), At(s.shared, b, i)), 8) {
      AndElement(x[i], regs[a][i], regs[b][i], At(s.shared, a, i), At(s.shared, b, i), 8);
    }
    MultiplyBytesMeans(call, f, s, ring, x[..]);
    OneTarget(call, f, s, ring, noise, before, Stored(regs, pubs));
  }

  lemma MultiplyFixedMeans(call: Call, f: Formats, s: Memory, ring: nat, x: seq<Sharing>)
    requires Ready(call, f, s, ring) && call.MultiplyFixed? && |x| == f.shared[call.c].length
    requires forall i :: 0 <= i < |x| ==> Additive(x[i], At(s.shared, call.a, i) * At(s.shared, call.b, call.index), call.k)
    ensures Wrote(call, f, s, ring, [], call.c, x)
  {
    hide Additive, At;
  }

  method RunMultiplyFixed(call: Call, ghost f: Formats, regs: seq<array<Sharing>>, pubs: seq<array<Public>>,
          net: Net, ghost s: Memory)
    returns (ghost noise: seq<nat>)
    requires Start(call, f, s, regs, pubs, net) && call.MultiplyFixed?
    modifies regs, pubs, net.p1, net.p2, net.p3
    ensures Finish(call, f, s, noise, regs, pubs, net)
  {
    hide InStep, Valid, Holds, Sized, Writes, Meaning, Next, NextFormats, Stored, At, Agreed, Value, XorValue, Additive, Known;
    var MultiplyFixed(c, a, b, index, k) := call;
    noise := [];
    ghost var ring, before := net.p1.ring, Stored(regs, pubs);
    SumsOperand(f, s, regs, pubs, a, k);
    SumsOperand(f, s, regs, pubs, b, k);
    LengthOf(f, s, regs, pubs, c);
    BitLT.RingBelowWord(net);
    hide *;
    var x := regs[c];
    PublicProduct.MultFixedB(x, regs[a], regs[b], index, k, net);
    forall i | 0 <= i < x.Length ensures Additive(x[i], At(s.shared, a, i) * At(s.shared, b, index), k) {
      assert Additive(old(regs[a][i]), At(s.shared, a, i), k) && Additive(old(regs[b][index]), At(s.shared, b, index), k);
      ProductElement(x[i], old(regs[a][i]), old(regs[b][index]), At(s.shared, a, i), At(s.shared, b, index), k);
    }
    MultiplyFixedMeans(call, f, s, ring, x[..]);
    OneTarget(call, f, s, ring, noise, before, Stored(regs, pubs));
  }

  lemma AddBitsMeans(call: Call, f: Formats, s: Memory, ring: nat, x: seq<Sharing>)
    requires Ready(call, f, s, ring) && call.AddBits? && |x| == f.shared[call.c].length
    requires forall i :: 0 <= i < |x| ==> Bitwise(x[i], At(s.shared, call.a, i) + At(s.shared, call.b, i), call.k)
    ensures Wrote(call, f, s, ring, [], call.c, x)
  {
    hide Agreed, Cong, XorSum, At;
  }

  method RunAddBits(call: Call, ghost f: Formats, regs: seq<array<Sharing>>, pubs: seq<array<Public>>,
          net: Net, ghost s: Memory)
    returns (ghost noise: seq<nat>)
    requires Start(call, f, s, regs, pubs, net) && call.AddBits?
    modifies regs, pubs, net.p1, net.p2, net.p3
    ensures Finish(call, f, s, noise, regs, pubs, net)
  {
    hide InStep, Valid, Holds, Sized, Writes, Meaning, Next, NextFormats, Stored, At, Agreed, Value, XorValue, Additive, Known;
    var AddBits(c, a, b, k) := call;
    noise := [];
    ghost var ring, before := net.p1.ring, Stored(regs, pubs);
    XorsOperand(f, s, regs, pubs, a, k);
    XorsOperand(f, s, regs, pubs, b, k);
    LengthOf(f, s, regs, pubs, c);
    BitLT.RingBelowWord(net);
    hide *;
    var x := regs[c];
    BitAdd.BitAdd(x, regs[a], regs[b], k, net);
    forall i | 0 <= i < x.Length ensures Bitwise(x[i], At(s.shared, a, i) + At(s.shared, b, i), k) {
      assert XorValue(regs[a][i], k) == At(s.shared, a, i) && XorValue(regs[b][i], k) == At(s.shared, b, i);
    }
    AddBitsMeans(call, f, s, ring, x[..]);
    OneTarget(call, f, s, ring, noise, before, Stored(regs, pubs));
  }

  lemma AddOpenedBitsMeans(call: Call, f: Formats, s: Memory, ring: nat, x: seq<Sharing>)
    requires Ready(call, f, s, ring) && call.AddOpenedBits? && |x| == f.shared[call.c].length
    requires forall i :: 0 <= i < |x| ==> Bitwise(x[i], At(s.public, call.o, i) + At(s.shared, call.b, i), call.k)
    ensures Wrote(call, f, s, ring, [], call.c, x)
  {
    hide Agreed, Cong, XorSum, At;
  }

  method RunAddOpenedBits(call: Call, ghost f: Formats, regs: seq<array<Sharing>>, pubs: seq<array<Public>>,
          net: Net, ghost s: Memory)
    returns (ghost noise: seq<nat>)
    requires Start(call, f, s, regs, pubs, net) && call.AddOpenedBits?
    modifies regs, pubs, net.p1, net.p2, net.p3
    ensures Finish(call, f, s, noise, regs, pubs, net)
  {
    hide InStep, Valid, Holds, Sized, Writes, Meaning, Next, NextFormats, Stored, At, Agreed, Value, XorValue, Additive, Known;
    var AddOpenedBits(c, o, b, k) := call;
    noise := [];
    ghost var ring, before := net.p1.ring, Stored(regs, pubs);
    WordsOperand(f, s, regs, pubs, o);
    XorsOperand(f, s, regs, pubs, b, k);
    KnownWords(pubs[o], s.public, o);
    LengthOf(f, s, regs, pubs, c);
    BitLT.RingBelowWord(net);
    hide *;
    var x := regs[c];
    BitAdd.BitAddPublic(x, pubs[o], regs[b], k, net);
    forall i | 0 <= i < x.Length ensures Bitwise(x[i], At(s.public, o, i) + At(s.shared, b, i), k) {
      assert pubs[o][i].p1 == At(s.public, o, i) && XorValue(regs[b][i], k) == At(s.shared, b, i);
    }
    AddOpenedBitsMeans(call, f, s, ring, x[..]);
    OneTarget(call, f, s, ring, noise, before, Stored(regs, pubs));
  }

  lemma CompareBitsMeans(call: Call, f: Formats, s: Memory, ring: nat, x: seq<Sharing>)
    requires Ready(call, f, s, ring) && call.CompareBits? && |x| == f.shared[call.c].length
    requires forall i :: 0 <= i < |x| ==>
      Bitwise(x[i], ToNat(At(s.public, call.o, i) % Pow2(call.k) < At(s.shared, call.b, i)), call.k)
    ensures Wrote(call, f, s, ring, [], call.c, x)
  {
    hide Agreed, Cong, XorSum, At;
  }

  method RunCompareBits(call: Call, ghost f: Formats, regs: seq<array<Sharing>>, pubs: seq<array<Public>>,
          net: Net, ghost s: Memory)
    returns (ghost noise: seq<nat>)
    requires Start(call, f, s, regs, pubs, net) && call.CompareBits?
    modifies regs, pubs, net.p1, net.p2, net.p3
    ensures Finish(call, f, s, noise, regs, pubs, net)
  {
    hide InStep, Valid, Holds, Sized, Writes, Meaning, Next, NextFormats, Stored, At, Agreed, Value, XorValue, Additive, Known;
    var CompareBits(c, o, b, k) := call;
    noise := [];
    ghost var ring, before := net.p1.ring, Stored(regs, pubs);
    WordsOperand(f, s, regs, pubs, o);
    XorsOperand(f, s, regs, pubs, b, k);
    KnownWords(pubs[o], s.public, o);
    LengthOf(f, s, regs, pubs, c);
    BitLT.RingBelowWord(net);
    hide *;
    var x := regs[c];
    BitLT.BitLT(x, pubs[o], regs[b], k, net);
    forall i | 0 <= i < x.Length ensures Bitwise(x[i], ToNat(At(s.public, o, i) % Pow2(k) < At(s.shared, b, i)), k) {
      assert pubs[o][i].p1 == At(s.public, o, i) && XorValue(old(regs[b][i]), k) == At(s.shared, b, i);
      ComparedElement(x[i], At(s.public, o, i), At(s.shared, b, i), k);
    }
    CompareBitsMeans(call, f, s, ring, x[..]);
    OneTarget(call, f, s, ring, noise, before, Stored(regs, pubs));
  }

  lemma BitsToSumsMeans(call: Call, f: Formats, s: Memory, ring: nat, x: seq<Sharing>)
    requires Ready(call, f, s, ring) && call.BitsToSums? && |x| == f.shared[call.c].length
    requires forall i :: 0 <= i < |x| ==> Additive(x[i], At(s.shared, call.a, i), call.k)
    ensures Wrote(call, f, s, ring, [], call.c, x)
  {
    hide Additive, At;
  }

  method RunBitsToSums(call: Call, ghost f: Formats, regs: seq<array<Sharing>>, pubs: seq<array<Public>>,
          net: Net, ghost s: Memory)
    returns (ghost noise: seq<nat>)
    requires Start(call, f, s, regs, pubs, net) && call.BitsToSums?
    modifies regs, pubs, net.p1, net.p2, net.p3
    ensures Finish(call, f, s, noise, regs, pubs, net)
  {
    hide InStep, Valid, Holds, Sized, Writes, Meaning, Next, NextFormats, Stored, At, Agreed, Value, XorValue, Additive, Known;
    var BitsToSums(c, a, k) := call;
    noise := [];
    ghost var ring, before := net.p1.ring, Stored(regs, pubs);
    XorsOperand(f, s, regs, pubs, a, k);
    BitsOperand(f, s, regs, pubs, a, k);
    LengthOf(f, s, regs, pubs, c);
    BitLT.RingBelowWord(net);
    hide *;
    var x := regs[c];
    B2a.B2a(x, regs[a], k, net);
    forall i | 0 <= i < x.Length ensures Additive(x[i], At(s.shared, a, i), k) {
      assert XorValue(old(regs[a][i]), k) == At(s.shared, a, i);
    }
    BitsToSumsMeans(call, f, s, ring, x[..]);
    OneTarget(call, f, s, ring, noise, before, Stored(regs, pubs));
  }

  lemma TopBitMeans(call: Call, f: Formats, s: Memory, ring: nat, x: seq<Sharing>)
    requires Ready(call, f, s, ring) && call.TopBit? && |x| == f.shared[call.c].length
    requires forall i :: 0 <= i < |x| ==> Additive(x[i], GetBit(At(s.shared, call.a, i), call.k - 1), call.k)
    ensures Wrote(call, f, s, ring, [], call.c, x)
  {
    hide Additive, At;
  }

  method RunTopBit(call: Call, ghost f: Formats, regs: seq<array<Sharing>>, pubs: seq<array<Public>>,
          net: Net, ghost s: Memory)
    returns (ghost noise: seq<nat>)
    requires Start(call, f, s, regs, pubs, net) && call.TopBit?
    modifies regs, pubs, net.p1, net.p2, net.p3
    ensures Finish(call, f, s, noise, regs, pubs, net)
  {
    hide InStep, Valid, Holds, Sized, Writes, Meaning, Next, NextFormats, Stored, At, Agreed, Value, XorValue, Additive, Known;
    var TopBit(c, a, k) := call;
    noise := [];
    ghost var ring, before := net.p1.ring, Stored(regs, pubs);
    SumsOperand(f, s, regs, pubs, a, k);
    LengthOf(f, s, regs, pubs, c);
    BitLT.RingBelowWord(net);
    hide *;
    var x := regs[c];
    MSB.NewMSB(x, regs[a], k, net);
    forall i | 0 <= i < x.Length ensures Additive(x[i], GetBit(At(s.shared, a, i), k - 1), k) {
      assert Value(old(regs[a][i]), k) == At(s.shared, a, i);
    }
    TopBitMeans(call, f, s, ring, x[..]);
    OneTarget(call, f, s, ring, noise, before, Stored(regs, pubs));
  }

  lemma LargerMeans(call: Call, f: Formats, s: Memory, ring: nat, x: seq<Sharing>)
    requires Ready(call, f, s, ring) && call.Larger? && |x| == f.shared[call.c].length
    requires forall i :: 0 <= i < |x| ==>
      Additive(x[i], LT.PickLarger(At(s.shared, call.a, i), At(s.shared, call.b, i), call.k), call.k)
    ensures Wrote(call, f, s, ring, [], call.c, x)
  {
    hide Additive, At;
  }

  method RunLarger(call: Call, ghost f: Formats, regs: seq<array<Sharing>>, pubs: seq<array<Public>>,
          net: Net, ghost s: Memory)
    returns (ghost noise: seq<nat>)
    requires Start(call, f, s, regs, pubs, net) && call.Larger?
    modifies regs, pubs, net.p1, net.p2, net.p3
    ensures Finish(call, f, s, noise, regs, pubs, net)
  {
    hide InStep, Valid, Holds, Sized, Writes, Meaning, Next, NextFormats, Stored, At, Agreed, Value, XorValue, Additive, Known;
    var Larger(c, a, b, k) := call;
    noise := [];
    ghost var ring, before := net.p1.ring, Stored(regs, pubs);
    SumsOperand(f, s, regs, pubs, a, k);
    SumsOperand(f, s, regs, pubs, b, k);
    LengthOf(f, s, regs, pubs, c);
    BitLT.RingBelowWord(net);
    hide *;
    var x := regs[c];
    LT.NewLT(x, regs[a], regs[b], k, net);
    forall i | 0 <= i < x.Length ensures Additive(x[i], LT.PickLarger(At(s.shared, a, i), At(s.shared, b, i), k), k) {
      assert Value(old(regs[a][i]), k) == At(s.shared, a, i) && Value(old(regs[b][i]), k) == At(s.shared, b, i);
    }
    LargerMeans(call, f, s, ring, x[..]);
    OneTarget(call, f, s, ring, noise, before, Stored(regs, pubs));
  }

  lemma LargerFixedMeans(call: Call, f: Formats, s: Memory, ring: nat, x: seq<Sharing>)
    requires Ready(call, f, s, ring) && call.LargerFixed? && |x| == f.shared[call.c].length
    requires forall i :: 0 <= i < |x| ==>
      Additive(x[i], LT.PickLarger(At(s.shared, call.a, i), At(s.shared, call.b, call.index), call.k), call.k)
    ensures Wrote(call, f, s, ring, [], call.c, x)
  {
    hide Additive, At;
  }

  method RunLargerFixed(call: Call, ghost f: Formats, regs: seq<array<Sharing>>, pubs: seq<array<Public>>,
          net: Net, ghost s: Memory)
    returns (ghost noise: seq<nat>)
    requires Start(call, f, s, regs, pubs, net) && call.LargerFixed?
    modifies regs, pubs, net.p1, net.p2, net.p3
    ensures Finish(call, f, s, noise, regs, pubs, net)
  {
    hide InStep, Valid, Holds, Sized, Writes, Meaning, Next, NextFormats, Stored, At, Agreed, Value, XorValue, Additive, Known;
    var LargerFixed(c, a, b, index, k) := call;
    noise := [];
    ghost var ring, before := net.p1.ring, Stored(regs, pubs);
    SumsOperand(f, s, regs, pubs, a, k);
    SumsOperand(f, s, regs, pubs, b, k);
    LengthOf(f, s, regs, pubs, c);
    BitLT.RingBelowWord(net);
    hide *;
    var x := regs[c];
    LT.FixedLT(x, regs[a], regs[b], k, index, net);
    forall i | 0 <= i < x.Length ensures Additive(x[i], LT.PickLarger(At(s.shared, a, i), At(s.shared, b, index), k), k) {
      assert Value(old(regs[a][i]), k) == At(s.shared, a, i) && Value(old(regs[b][index]), k) == At(s.shared, b, index);
    }
    LargerFixedMeans(call, f, s, ring, x[..]);
    OneTarget(call, f, s, ring, noise, before, Stored(regs, pubs));
  }

  lemma SmallerFixedMeans(call: Call, f: Formats, s: Memory, ring: nat, x: seq<Sharing>)
    requires Ready(call, f, s, ring) && call.SmallerFixed? && |x| == f.shared[call.c].length
    requires forall i :: 0 <= i < |x| ==>
      Additive(x[i], LT.PickSmaller(At(s.shared, call.a, i), At(s.shared, call.b, call.index), call.k), call.k)
    ensures Wrote(call, f, s, ring, [], call.c, x)
  {
    hide Additive, At;
  }

  method RunSmallerFixed(call: Call, ghost f: Formats, regs: seq<array<Sharing>>, pubs: seq<array<Public>>,
          net: Net, ghost s: Memory)
    returns (ghost noise: seq<nat>)
    requires Start(call, f, s, regs, pubs, net) && call.SmallerFixed?
    modifies regs, pubs, net.p1, net.p2, net.p3
    ensures Finish(call, f, s, noise, regs, pubs, net)
  {
    hide InStep, Valid, Holds, Sized, Writes, Meaning, Next, NextFormats, Stored, At, Agreed, Value, XorValue, Additive, Known;
    var SmallerFixed(c, a, b, index, k) := call;
    noise := [];
    ghost var ring, before := net.p1.ring, Stored(regs, pubs);
    SumsOperand(f, s, regs, pubs, a, k);
    SumsOperand(f, s, regs, pubs, b, k);
    LengthOf(f, s, regs, pubs, c);
    BitLT.RingBelowWord(net);
    hide *;
    var x := regs[c];
    LT.FixedGT(x, regs[a], regs[b], k, index, net);
    forall i | 0 <= i < x.Length ensures Additive(x[i], LT.PickSmaller(At(s.shared, a, i), At(s.shared, b, index), k), k) {
      assert Value(old(regs[a][i]), k) == At(s.shared, a, i) && Value(old(regs[b][index]), k) == At(s.shared, b, index);
    }
    SmallerFixedMeans(call, f, s, ring, x[..]);
    OneTarget(call, f, s, ring, noise, before, Stored(regs, pubs));
  }

  lemma ClampMeans(call: Call, f: Formats, s: Memory, ring: nat, x: seq<Sharing>)
    requires Ready(call, f, s, ring) && call.Clamp? && |x| == f.shared[call.c].length
    requires forall i :: 0 <= i < |x| ==>
      Additive(x[i], ReLU6.Clamped(At(s.shared, call.a, i), At(s.shared, call.b, call.index), call.k), call.k)
    ensures Wrote(call, f, s, ring, [], call.c, x)
  {
    hide Additive, At;
  }

  method RunClamp(call: Call, ghost f: Formats, regs: seq<array<Sharing>>, pubs: seq<array<Public>>,
          net: Net, ghost s: Memory)
    returns (ghost noise: seq<nat>)
    requires Start(call, f, s, regs, pubs, net) && call.Clamp?
    modifies regs, pubs, net.p1, net.p2, net.p3
    ensures Finish(call, f, s, noise, regs, pubs, net)
  {
    hide InStep, Valid, Holds, Sized, Writes, Meaning, Next, NextFormats, Stored, At, Agreed, Value, XorValue, Additive, Known;
    var Clamp(c, a, b, index, k) := call;
    noise := [];
    ghost var ring, before := net.p1.ring, Stored(regs, pubs);
    SumsOperand(f, s, regs, pubs, a, k);
    SumsOperand(f, s, regs, pubs, b, k);
    LengthOf(f, s, regs, pubs, c);
    BitLT.RingBelowWord(net);
    hide *;
    var x := regs[c];
    ReLU6.ReLU6Alpha(x, regs[a], regs[b], k, index, net);
    forall i | 0 <= i < x.Length ensures Additive(x[i], ReLU6.Clamped(At(s.shared, a, i), At(s.shared, b, index), k), k) {
      assert Value(old(regs[a][i]), k) == At(s.shared, a, i) && Value(regs[b][index], k) == At(s.shared, b, index);
    }
    ClampMeans(call, f, s, ring, x[..]);
    OneTarget(call, f, s, ring, noise, before, Stored(regs, pubs));
  }

  lemma TruncateMeans(call: Call, f: Formats, s: Memory, ring: nat, noise: seq<nat>, x: seq<Sharing>)
    requires Ready(call, f, s, ring) && call.Truncate? && |x| == f.shared[call.c].length
    requires forall i :: 0 <= i < |x| ==>
      Additive(x[i], Truncation.Truncated(At(s.shared, call.a, i), NoiseAt(noise, i) % Pow2(call.k), call.m, call.k), call.k)
    ensures Wrote(call, f, s, ring, noise, call.c, x)
  {
    hide Additive, At;
  }

  method RunTruncate(call: Call, ghost f: Formats, regs: seq<array<Sharing>>, pubs: seq<array<Public>>,
          net: Net, ghost s: Memory)
    returns (ghost noise: seq<nat>)
    requires Start(call, f, s, regs, pubs, net) && call.Truncate?
    modifies regs, pubs, net.p1, net.p2, net.p3
    ensures Finish(call, f, s, noise, regs, pubs, net)
  {
    hide InStep, Valid, Holds, Sized, Writes, Meaning, Next, NextFormats, Stored, At, Agreed, Value, XorValue, Additive, Known;
    var Truncate(c, a, m, k) := call;
    noise := [];
    ghost var ring, before := net.p1.ring, Stored(regs, pubs);
    SumsOperand(f, s, regs, pubs, a, k);
    LengthOf(f, s, regs, pubs, c);
    BitLT.RingBelowWord(net);
    InStepValid(net);
    ghost var g, n := Private(net), regs[c].Length;
    hide *;
    var x := regs[c];
    Truncation.TruncPr1(x, regs[a], m, k, net);
    noise := seq(n, i requires 0 <= i < n => EdaBits.EdaNumber(g, n, k, i));
    forall i | 0 <= i < x.Length
      ensures Additive(x[i], Truncation.Truncated(At(s.shared, a, i), NoiseAt(noise, i) % Pow2(k), m, k), k)
    {
      assert Value(old(regs[a][i]), k) == At(s.shared, a, i);
      NoiseIs(noise, g, n, k, i);
    }
    TruncateMeans(call, f, s, ring, noise, x[..]);
    OneTarget(call, f, s, ring, noise, before, Stored(regs, pubs));
  }

  lemma TruncateScaledMeans(call: Call, f: Formats, s: Memory, ring: nat, noise: seq<nat>, x: seq<Sharing>)
    requires Ready(call, f, s, ring) && call.TruncateScaled? && |x| == f.shared[call.c].length
    requires forall i :: 0 <= i < |x| ==>
      Additive(x[i], Truncation.Truncated(At(s.shared, call.a, i) * At(s.shared, call.b, call.index) % Pow2(call.k),
                                  NoiseAt(noise, i) % Pow2(call.k), call.m, call.k), call.k)
    ensures Wrote(call, f, s, ring, noise, call.c, x)
  {
    hide Additive, At;
  }

  method RunTruncateScaled(call: Call, ghost f: Formats, regs: seq<array<Sharing>>, pubs: seq<array<Public>>,
          net: Net, ghost s: Memory)
    returns (ghost noise: seq<nat>)
    requires Start(call, f, s, regs, pubs, net) && call.TruncateScaled?
    modifies regs, pubs, net.p1, net.p2, net.p3
    ensures Finish(call, f, s, noise, regs, pubs, net)
  {
    hide InStep, Valid, Holds, Sized, Writes, Meaning, Next, NextFormats, Stored, At, Agreed, Value, XorValue, Additive, Known;
    var TruncateScaled(c, a, b, index, m, k) := call;
    noise := [];
    ghost var ring, before := net.p1.ring, Stored(regs, pubs);
    SumsOperand(f, s, regs, pubs, a, k);
    SumsOperand(f, s, regs, pubs, b, k);
    LengthOf(f, s, regs, pubs, c);
    BitLT.RingBelowWord(net);
    InStepValid(net);
    ghost var g, n := Private(net), regs[c].Length;
    hide *;
    var x := regs[c];
    Truncation.TruncPriv(x, regs[a], regs[b], m, index, k, net);
    noise := seq(n, i requires 0 <= i < n => EdaBits.EdaNumber(g, n, k, i));
    forall i | 0 <= i < x.Length
      ensures Additive(x[i], Truncation.Truncated(At(s.shared, a, i) * At(s.shared, b, index) % Pow2(k),
                                          NoiseAt(noise, i) % Pow2(k), m, k), k)
    {
      assert Value(old(regs[a][i]), k) == At(s.shared, a, i) && Value(old(regs[b][index]), k) == At(s.shared, b, index);
      NoiseIs(noise, g, n, k, i);
    }
    TruncateScaledMeans(call, f, s, ring, noise, x[..]);
    OneTarget(call, f, s, ring, noise, before, Stored(regs, pubs));
  }

  lemma ConvertMeans(call: Call, f: Formats, s: Memory, ring: nat, x: seq<Sharing>)
    requires Ready(call, f, s, ring) && call.Convert? && |x| == f.shared[call.c].length
    requires forall i :: 0 <= i < |x| ==> Additive(x[i], At(s.shared, call.a, i), call.k')
    ensures Wrote(call, f, s, ring, [], call.c, x)
  {
    hide Additive, At;
  }

  method RunConvert(call: Call, ghost f: Formats, regs: seq<array<Sharing>>, pubs: seq<array<Public>>,
          net: Net, ghost s: Memory)
    returns (ghost noise: seq<nat>)
    requires Start(call, f, s, regs, pubs, net) && call.Convert?
    modifies regs, pubs, net.p1, net.p2, net.p3
    ensures Finish(call, f, s, noise, regs, pubs, net)
  {
    hide InStep, Valid, Holds, Sized, Writes, Meaning, Next, NextFormats, Stored, At, Agreed, Value, XorValue, Additive, Known;
    var Convert(c, a, k, k') := call;
    noise := [];
    ghost var ring, before := net.p1.ring, Stored(regs, pubs);
    SumsOperand(f, s, regs, pubs, a, k);
    LengthOf(f, s, regs, pubs, c);
    BitLT.RingBelowWord(net);
    hide *;
    var x := regs[c];
    Convert.ConvertRing(x, regs[a], k, k', net);
    forall i | 0 <= i < x.Length ensures Additive(x[i], At(s.shared, a, i), k') {
      assert Value(old(regs[a][i]), k) == At(s.shared, a, i);
    }
    ConvertMeans(call, f, s, ring, x[..]);
    OneTarget(call, f, s, ring, noise, before, Stored(regs, pubs));
  }

  lemma RandomBitsMeans(call: Call, f: Formats, s: Memory, ring: nat, noise: seq<nat>, x: seq<Sharing>)
    requires Ready(call, f, s, ring) && call.RandomBits? && |x| == f.shared[call.c].length
    requires forall i :: 0 <= i < |x| ==> Additive(x[i], NoiseAt(noise, i) % 2, call.k)
    ensures Wrote(call, f, s, ring, noise, call.c, x)
  {
    hide Additive, At;
  }

  method RunRandomBits(call: Call, ghost f: Formats, regs: seq<array<Sharing>>, pubs: seq<array<Public>>,
          net: Net, ghost s: Memory)
    returns (ghost noise: seq<nat>)
    requires Start(call, f, s, regs, pubs, net) && call.RandomBits?
    modifies regs, pubs, net.p1, net.p2, net.p3
    ensures Finish(call, f, s, noise, regs, pubs, net)
  {
    hide InStep, Valid, Holds, Sized, Writes, Meaning, Next, NextFormats, Stored, At, Agreed, Value, XorValue, Additive, Known;
    var RandomBits(c, k) := call;
    noise := [];
    ghost var ring, before := net.p1.ring, Stored(regs, pubs);
    LengthOf(f, s, regs, pubs, c);
    BitLT.RingBelowWord(net);
    hide *;
    var x := regs[c];
    RandBits.RandBit(x, k, net);
    noise := seq(x.Length, i requires 0 <= i < x.Length reads x => Value(x[i], k));
    forall i | 0 <= i < x.Length ensures Additive(x[i], NoiseAt(noise, i) % 2, k) {
      RandomBitElement(x[i], k);
      assert NoiseAt(noise, i) == Value(x[i], k);
    }
    RandomBitsMeans(call, f, s, ring, noise, x[..]);
    OneTarget(call, f, s, ring, noise, before, Stored(regs, pubs));
  }

  // ---------- products of matrices, convolution, pooling ----------

  /** The values in a register, as constants, have the same secrets. */
  lemma SameAsConstants(x: seq<Sharing>, v: seq<nat>, k: nat)
    requires |x| == |v| && forall t :: 0 <= t < |x| ==> Value(x[t], k) == v[t]
    ensures MatMult.SameSecrets(x, PublicConstants(v), k)
    ensures forall t :: 0 <= t < |x| ==> Value(x[t], k) == Value(PublicConstants(v)[t], k)
  {
    hide Cong, Sum, PublicConstant;
    forall t | 0 <= t < |x|
      ensures Cong(Sum(x[t]), Sum(PublicConstants(v)[t]), k) && Value(x[t], k) == Value(PublicConstants(v)[t], k)
    {
      assert Sum(PublicConstant(v[t])) == v[t];
      CongMod(Sum(x[t]), k);
      CongSym(Value(x[t], k), Sum(x[t]), k);
      SameMod(Sum(x[t]), v[t], k);
    }
  }

  lemma MatrixElement(x: Sharing, a: seq<Sharing>, b: seq<Sharing>, u: seq<nat>, v: seq<nat>, sh: MatMult.Shape, q: nat,
          l: nat, i: nat, j: nat, k: nat)
    requires MatMult.Proper(sh) && |a| == |u| == MatMult.SizeA(sh) && |b| == |v| == MatMult.SizeB(sh)
    requires q < MatMult.SizeC(sh) && (l, i, j) == EntryOf(sh, q) && l < sh.batch && i < sh.m && j < sh.s
    requires Additive(x, MatMult.EntryProduct(a, b, sh, l, i, j), k)
    requires MatMult.SameSecrets(a, PublicConstants(u), k) && MatMult.SameSecrets(b, PublicConstants(v), k)
    ensures Additive(x, EntryAt(PublicConstants(u), PublicConstants(v), sh, q), k)
  {
    hide Additive, Cong, MatMult.EntryProduct, MatMult.SameSecrets, MatMult.SizeA, MatMult.SizeB, MatMult.SizeC;
    EntryInside(sh, q);
    MatMult.EntryProductCong(a, b, PublicConstants(u), PublicConstants(v), sh, l, i, j, k);
    AdditiveAs(x, MatMult.EntryProduct(a, b, sh, l, i, j), EntryAt(PublicConstants(u), PublicConstants(v), sh, q), k);
  }

  lemma MatrixProductMeans(call: Call, f: Formats, s: Memory, ring: nat, x: seq<Sharing>)
    requires Ready(call, f, s, ring) && call.MatrixProduct? && |x| == f.shared[call.c].length
    requires forall i :: 0 <= i < |x| ==> Additive(x[i], MatrixMeaning(call, f, s, ring, i), call.k)
    ensures Wrote(call, f, s, ring, [], call.c, x)
  {
    hide Additive, MatrixMeaning;
  }

  /** The numbers of a register, and their registers' facts as a sequence. */
  lemma SumsVector(f: Formats, s: Memory, regs: seq<array<Sharing>>, pubs: seq<array<Public>>, r: nat, k: nat)
    requires Holds(f, s, Stored(regs, pubs)) && Has(f, r, Sums(k)) && Sized(f, s)
    ensures r < |regs| && r < |s.shared| && regs[r].Length == |regs[r][..]| == |s.shared[r]| == f.shared[r].length
    ensures MatMult.AllAgreed(regs[r][..], k) && MatMult.SameSecrets(regs[r][..], PublicConstants(s.shared[r]), k)
    ensures forall t :: 0 <= t < regs[r].Length ==> Agreed(regs[r][t], k)
    ensures forall t :: 0 <= t < regs[r].Length ==> Value(regs[r][..][t], k) == Value(PublicConstants(s.shared[r])[t], k)
  {
    SumsOperand(f, s, regs, pubs, r, k);
    hide Agreed, Value, Additive, PublicConstants, MatMult.SameSecrets;
    SameAsConstants(regs[r][..], s.shared[r], k);
  }

  method RunMatrixProduct(call: Call, ghost f: Formats, regs: seq<array<Sharing>>, pubs: seq<array<Public>>,
          net: Net, ghost s: Memory)
    returns (ghost noise: seq<nat>)
    requires Start(call, f, s, regs, pubs, net) && call.MatrixProduct?
    modifies regs, pubs, net.p1, net.p2, net.p3
    ensures Finish(call, f, s, noise, regs, pubs, net)
  {
    hide InStep, Valid, Holds, Sized, Writes, Meaning, Next, NextFormats, Stored, At, Agreed, Value, XorValue, Additive, Known;
    hide MatMult.SizeA, MatMult.SizeB, MatMult.SizeC, MatMult.AllAgreed, MatMult.SameSecrets;
    var MatrixProduct(c, a, b, sh, k) := call;
    noise := [];
    ghost var ring, before := net.p1.ring, Stored(regs, pubs);
    SumsVector(f, s, regs, pubs, a, k);
    SumsVector(f, s, regs, pubs, b, k);
    LengthOf(f, s, regs, pubs, c);
    ghost var sa, sb, u, v := regs[a][..], regs[b][..], s.shared[a], s.shared[b];
    hide *;
    var x := regs[c];
    MatMult.MatMultBatch(x, regs[a], regs[b], sh, k, net);
    forall q | 0 <= q < x.Length ensures Additive(x[q], MatrixMeaning(call, f, s, ring, q), k) {
      EntryInside(sh, q);
      ghost var e := EntryOf(sh, q);
      assert Additive(x[MatMult.AtC(sh, e.0, e.1, e.2)], MatMult.EntryProduct(sa, sb, sh, e.0, e.1, e.2), k);
      MatrixElement(x[q], sa, sb, u, v, sh, q, e.0, e.1, e.2, k);
      MatrixMeaningIs(call, f, s, ring, q);
    }
    MatrixProductMeans(call, f, s, ring, x[..]);
    OneTarget(call, f, s, ring, noise, before, Stored(regs, pubs));
  }

  lemma MatrixMeaningIs(call: Call, f: Formats, s: Memory, ring: nat, q: nat)
    requires Ready(call, f, s, ring) && call.MatrixProduct? && q < f.shared[call.c].length
    ensures |s.shared[call.a]| == MatMult.SizeA(call.shape) && |s.shared[call.b]| == MatMult.SizeB(call.shape)
    ensures MatrixMeaning(call, f, s, ring, q)
      == EntryAt(PublicConstants(s.shared[call.a]), PublicConstants(s.shared[call.b]), call.shape, q)
  {
    hide EntryAt, MatMult.SizeA, MatMult.SizeB, MatMult.SizeC;
  }

  lemma ConvolveMeans(call: Call, f: Formats, s: Memory, ring: nat, x: seq<Sharing>)
    requires Ready(call, f, s, ring) && call.Convolve? && |x| == f.shared[call.c].length
    requires forall i :: 0 <= i < |x| ==> Additive(x[i], ConvolveMeaning(call, f, s, ring, i), call.k)
    ensures Wrote(call, f, s, ring, [], call.c, x)
  {
    hide Additive, ConvolveMeaning;
  }

  lemma ConvolveElement(x: Sharing, w: seq<Sharing>, y: seq<Sharing>, call: Call, f: Formats, s: Memory, ring: nat, q: nat)
    requires Ready(call, f, s, ring) && call.Convolve? && q < f.shared[call.c].length
    requires Convolution.Sized(w, y, call.layer, call.outputs)
    requires MatMult.SameSecrets(w, PublicConstants(s.shared[call.a]), call.k)
    requires MatMult.SameSecrets(y, PublicConstants(s.shared[call.b]), call.k)
    requires var p := SpotOf(call.layer, call.outputs, q);
      Convolution.OnGrid(call.layer, call.outputs, p)
      && Additive(x, Convolution.ConvolutionSum(w, y, call.layer, call.outputs, p, call.layer.channels), call.k)
    ensures Additive(x, ConvolveMeaning(call, f, s, ring, q), call.k)
  {
    hide Additive, Cong, Convolution.ConvolutionSum, MatMult.SameSecrets, MatMult.SizeC, SpotOf, Convolution.Pixels,
      Convolution.Patch, Convolution.OnGrid, PublicConstants;
    var p, w', y' := SpotOf(call.layer, call.outputs, q), PublicConstants(s.shared[call.a]), PublicConstants(s.shared[call.b]);
    Convolution.ConvolutionSumCong(w, y, w', y', call.layer, call.outputs, p, call.layer.channels, call.k);
    AdditiveAs(x, Convolution.ConvolutionSum(w, y, call.layer, call.outputs, p, call.layer.channels),
               ConvolveMeaning(call, f, s, ring, q), call.k);
  }

  lemma OneKernelMatrix(im: Convolution.Layer, outputs: nat)
    requires Convolution.Fits(im)
    ensures MatMult.SizeA(Convolution.ShapeOf(im, outputs)) == Index(outputs, Convolution.Patch(im), 0)
  {
    hide Convolution.Patch, Convolution.Rows, Convolution.Columns;
  }

  method RunConvolve(call: Call, ghost f: Formats, regs: seq<array<Sharing>>, pubs: seq<array<Public>>,
          net: Net, ghost s: Memory)
    returns (ghost noise: seq<nat>)
    requires Start(call, f, s, regs, pubs, net) && call.Convolve?
    modifies regs, pubs, net.p1, net.p2, net.p3
    ensures Finish(call, f, s, noise, regs, pubs, net)
  {
    hide InStep, Valid, Holds, Sized, Writes, Meaning, Next, NextFormats, Stored, At, Agreed, Value, XorValue, Additive, Known;
    hide MatMult.SizeA, MatMult.SizeC, Convolution.Pixels, Convolution.Patch, Convolution.ShapeOf, MatMult.AllAgreed,
      MatMult.SameSecrets;
    var Convolve(c, a, b, im, outputs, k) := call;
    noise := [];
    ghost var ring, before := net.p1.ring, Stored(regs, pubs);
    SumsVector(f, s, regs, pubs, a, k);
    SumsVector(f, s, regs, pubs, b, k);
    LengthOf(f, s, regs, pubs, c);
    OneKernelMatrix(im, outputs);
    ghost var sa, sb := regs[a][..], regs[b][..];
    hide *;
    var x := regs[c];
    var cols := new Sharing[Convolution.Cells(im)];
    Convolution.Convolve(x, regs[a], regs[b], cols, im, outputs, k, net);
    forall q | 0 <= q < x.Length ensures Additive(x[q], ConvolveMeaning(call, f, s, ring, q), k) {
      SpotInside(im, outputs, q);
      ghost var p := SpotOf(im, outputs, q);
      assert Additive(x[Convolution.OutputAt(im, outputs, p)], Convolution.ConvolutionSum(sa, sb, im, outputs, p, im.channels), k);
      ConvolveElement(x[q], sa, sb, call, f, s, ring, q);
    }
    ConvolveMeans(call, f, s, ring, x[..]);
    OneTarget(call, f, s, ring, noise, before, Stored(regs, pubs));
  }

  lemma PoolMeans(call: Call, f: Formats, s: Memory, ring: nat, x: seq<Sharing>)
    requires Ready(call, f, s, ring) && call.Pool? && |x| == f.shared[call.c].length
    requires forall i :: 0 <= i < |x| ==> Additive(x[i], PoolMeaning(call, f, s, ring, i), call.k)
    ensures Wrote(call, f, s, ring, [], call.c, x)
  {
    hide Additive, PoolMeaning;
  }

  lemma PoolElement(x: Sharing, a: seq<Sharing>, call: Call, f: Formats, s: Memory, ring: nat, q: nat)
    requires Ready(call, f, s, ring) && call.Pool? && q < f.shared[call.c].length && |a| == |s.shared[call.a]|
    requires forall t :: 0 <= t < |a| ==> Value(a[t], call.k) == Value(PublicConstants(s.shared[call.a])[t], call.k)
    requires 2 * MaxPool.Upper(call.hn, q) + 1 < |a| && 2 * MaxPool.Lower(call.hm, call.hn, q) + 1 < |a|
    requires Additive(x, MaxPool.Pooled(a, call.k, call.hm, call.hn, q), call.k)
    ensures Additive(x, PoolMeaning(call, f, s, ring, q), call.k)
  {
    hide Additive, Value, MaxPool.Pooled, MaxPool.Upper, MaxPool.Lower, PublicConstants;
    MaxPool.PooledSame(a, PublicConstants(s.shared[call.a]), call.k, call.hm, call.hn, q);
  }

  method RunPool(call: Call, ghost f: Formats, regs: seq<array<Sharing>>, pubs: seq<array<Public>>,
          net: Net, ghost s: Memory)
    returns (ghost noise: seq<nat>)
    requires Start(call, f, s, regs, pubs, net) && call.Pool?
    modifies regs, pubs, net.p1, net.p2, net.p3
    ensures Finish(call, f, s, noise, regs, pubs, net)
  {
    hide InStep, Valid, Holds, Sized, Writes, Meaning, Next, NextFormats, Stored, At, Agreed, Value, XorValue, Additive, Known;
    hide Index, MatMult.AllAgreed, MatMult.SameSecrets;
    var Pool(c, a, planes, hm, hn, k) := call;
    noise := [];
    ghost var ring, before := net.p1.ring, Stored(regs, pubs);
    SumsVector(f, s, regs, pubs, a, k);
    LengthOf(f, s, regs, pubs, c);
    ghost var sa := regs[a][..];
    hide *;
    var x := regs[c];
    MaxPool.EdaMaxPool(x, regs[a], planes, hm, hn, k, net);
    forall q | 0 <= q < x.Length ensures Additive(x[q], PoolMeaning(call, f, s, ring, q), k) {
      PoolElement(x[q], sa, call, f, s, ring, q);
    }
    PoolMeans(call, f, s, ring, x[..]);
    OneTarget(call, f, s, ring, noise, before, Stored(regs, pubs));
  }

  // ---------- several targets ----------

  /** Only the written registers have changed, and they hold the call's results. */
  lemma ManyTargets(call: Call, f: Formats, s: Memory, ring: nat, noise: seq<nat>, before: Contents, after: Contents)
    requires Ready(call, f, s, ring) && Holds(f, s, before) && (call.RandomNumbers? || call.RandomTruncated?)
    requires |after.shared| == |f.shared| && after.public == before.public
    requires forall r :: 0 <= r < |f.shared| ==>
      if r in Writes(call) then Wrote(call, f, s, ring, noise, r, after.shared[r]) else after.shared[r] == before.shared[r]
    ensures Holds(NextFormats(f, call), Next(call, f, s, ring, noise), after)
  {
    assert forall o :: !Publishes(call, o);
    hide *;
    HoldsParts(f, s, before);
    Concludes(call, f, s, ring, noise, after);
  }

  lemma RandomNumbersMeans(call: Call, f: Formats, s: Memory, ring: nat, noise: seq<nat>, x: seq<Sharing>, y: seq<Sharing>)
    requires Ready(call, f, s, ring) && call.RandomNumbers? && |x| == |y| == f.shared[call.c].length
    requires forall i :: 0 <= i < |x| ==> EdaBits.SharesNumber(x[i], y[i], NoiseAt(noise, i), call.k)
    ensures Wrote(call, f, s, ring, noise, call.c, x) && Wrote(call, f, s, ring, noise, call.b, y)
    ensures forall r :: r in Writes(call) <==> r == call.c || r == call.b
  {
    hide Agreed, Cong, Sum, XorSum, NoiseAt;
    forall i | 0 <= i < |x| ensures Additive(x[i], NoiseAt(noise, i), call.k) && Bitwise(y[i], NoiseAt(noise, i), call.k) {
      assert EdaBits.SharesNumber(x[i], y[i], NoiseAt(noise, i), call.k);
    }
  }

  method RunRandomNumbers(call: Call, ghost f: Formats, regs: seq<array<Sharing>>, pubs: seq<array<Public>>,
          net: Net, ghost s: Memory)
    returns (ghost noise: seq<nat>)
    requires Start(call, f, s, regs, pubs, net) && call.RandomNumbers?
    modifies regs, pubs, net.p1, net.p2, net.p3
    ensures Finish(call, f, s, noise, regs, pubs, net)
  {
    hide InStep, Valid, Holds, Sized, Writes, Meaning, Next, NextFormats, Stored, At, Agreed, Value, XorValue, Additive, Known;
    var RandomNumbers(c, b, k) := call;
    ghost var ring, before := net.p1.ring, Stored(regs, pubs);
    LengthOf(f, s, regs, pubs, c);
    LengthOf(f, s, regs, pubs, b);
    InStepValid(net);
    ghost var g, n := Private(net), regs[c].Length;
    hide *;
    var x, y := regs[c], regs[b];
    EdaBits.EdaBit(x, y, k, net);
    noise := seq(n, i requires 0 <= i < n => EdaBits.EdaNumber(g, n, k, i));
    forall i | 0 <= i < n ensures EdaBits.SharesNumber(x[i], y[i], NoiseAt(noise, i), k) {
      NoiseIs(noise, g, n, k, i);
    }
    RandomNumbersMeans(call, f, s, ring, noise, x[..], y[..]);
    ManyTargets(call, f, s, ring, noise, before, Stored(regs, pubs));
  }

  lemma RandomTruncatedMeans(call: Call, f: Formats, s: Memory, ring: nat, noise: seq<nat>, x: seq<Sharing>, y: seq<Sharing>,
          z: seq<Sharing>)
    requires Ready(call, f, s, ring) && call.RandomTruncated? && |x| == |y| == |z| == f.shared[call.c].length
    requires forall i :: 0 <= i < |x| ==> EdaBitTruncs.SharesTruncated(x[i], y[i], z[i], NoiseAt(noise, i), call.m, call.k)
    ensures Wrote(call, f, s, ring, noise, call.c, x) && Wrote(call, f, s, ring, noise, call.high, y)
    ensures Wrote(call, f, s, ring, noise, call.top, z)
    ensures forall r :: r in Writes(call) <==> r == call.c || r == call.high || r == call.top
  {
    hide Additive, NoiseAt, Quotient, GetBit;
    forall i | 0 <= i < |x|
      ensures Additive(x[i], NoiseAt(noise, i), call.k)
      ensures Additive(y[i], Quotient(NoiseAt(noise, i) % Pow2(call.k), Pow2(call.m)), call.k)
      ensures Additive(z[i], GetBit(NoiseAt(noise, i), call.k - 1), call.k)
    {
      assert EdaBitTruncs.SharesTruncated(x[i], y[i], z[i], NoiseAt(noise, i), call.m, call.k);
    }
  }

  method RunRandomTruncated(call: Call, ghost f: Formats, regs: seq<array<Sharing>>, pubs: seq<array<Public>>,
          net: Net, ghost s: Memory)
    returns (ghost noise: seq<nat>)
    requires Start(call, f, s, regs, pubs, net) && call.RandomTruncated?
    modifies regs, pubs, net.p1, net.p2, net.p3
    ensures Finish(call, f, s, noise, regs, pubs, net)
  {
    hide InStep, Valid, Holds, Sized, Writes, Meaning, Next, NextFormats, Stored, At, Agreed, Value, XorValue, Additive, Known;
    var RandomTruncated(c, high, top, m, k) := call;
    ghost var ring, before := net.p1.ring, Stored(regs, pubs);
    LengthOf(f, s, regs, pubs, c);
    LengthOf(f, s, regs, pubs, high);
    LengthOf(f, s, regs, pubs, top);
    InStepValid(net);
    ghost var g, n := Private(net), regs[c].Length;
    hide *;
    var x, y, z := regs[c], regs[high], regs[top];
    EdaBitTruncs.EdaBitTrunc(x, y, z, k, m, net);
    noise := seq(n, i requires 0 <= i < n => EdaBits.EdaNumber(g, n, k, i));
    forall i | 0 <= i < n ensures EdaBitTruncs.SharesTruncated(x[i], y[i], z[i], NoiseAt(noise, i), m, k) {
      NoiseIs(noise, g, n, k, i);
    }
    RandomTruncatedMeans(call, f, s, ring, noise, x[..], y[..], z[..]);
    ManyTargets(call, f, s, ring, noise, before, Stored(regs, pubs));
  }

  // ---------- published results ----------

  /** Register o has the published words; the shared registers still hold their numbers. */
  lemma OnePublished(call: Call, f: Formats, s: Memory, ring: nat, before: Contents, after: Contents)
    requires Ready(call, f, s, ring) && Holds(f, s, before) && (call.MultiplyOpen? || call.Open? || call.OpenBits?)
    requires |after.shared| == |f.shared| && |after.public| == |f.public|
    requires forall r :: 0 <= r < |f.shared| ==> RegisterHolds(f.shared[r], s.shared[r], after.shared[r])
    requires forall o :: 0 <= o < |f.public| && o != call.o ==> after.public[o] == before.public[o]
    requires call.o < |f.public| && Published(call, f, s, ring, call.o, after.public[call.o])
    ensures Holds(NextFormats(f, call), Next(call, f, s, ring, []), after)
  {
    assert Writes(call) == map[];
    assert forall o :: Publishes(call, o) <==> o == call.o;
    hide *;
    HoldsParts(f, s, before);
    Concludes(call, f, s, ring, [], after);
  }

  lemma PublicLengthOf(f: Formats, s: Memory, regs: seq<array<Sharing>>, pubs: seq<array<Public>>, o: nat)
    requires Holds(f, s, Stored(regs, pubs)) && o < |f.public|
    ensures o < |pubs| && pubs[o].Length == f.public[o].length
  {
    assert PublicHolds(f.public[o], s.public[o], pubs[o][..]);
  }

  lemma ProductValue(a: Sharing, b: Sharing, u: nat, v: nat, k: nat)
    requires Additive(a, u, k) && Additive(b, v, k)
    ensures Sum(a) * Sum(b) % Pow2(k) == u * v % Pow2(k)
  {
    hide Additive, Sum, Cong;
    LT.ProductOfValues(a, u, b, v, k);
    SameMod(Sum(a) * Sum(b), u * v, k);
  }

  lemma PublishedMeans(call: Call, f: Formats, s: Memory, ring: nat, x: seq<Public>)
    requires Ready(call, f, s, ring) && (call.MultiplyOpen? || call.Open? || call.OpenBits?)
    requires call.o < |f.public| && |x| == f.public[call.o].length
    requires forall i :: 0 <= i < |x| ==>
      Known(x[i], if call.MultiplyOpen? then At(s.shared, call.a, i) * At(s.shared, call.b, i) % Pow2(call.k)
                  else At(s.shared, call.a, i))
    ensures Published(call, f, s, ring, call.o, x)
  {
    hide Known, At;
  }

  method RunMultiplyOpen(call: Call, ghost f: Formats, regs: seq<array<Sharing>>, pubs: seq<array<Public>>,
          net: Net, ghost s: Memory)
    returns (ghost noise: seq<nat>)
    requires Start(call, f, s, regs, pubs, net) && call.MultiplyOpen?
    modifies regs, pubs, net.p1, net.p2, net.p3
    ensures Finish(call, f, s, noise, regs, pubs, net)
  {
    hide InStep, Valid, Holds, Sized, Writes, Meaning, Next, NextFormats, Stored, At, Agreed, Value, XorValue, Additive, Known;
    var MultiplyOpen(o, a, b, k) := call;
    noise := [];
    ghost var ring, before := net.p1.ring, Stored(regs, pubs);
    SumsOperand(f, s, regs, pubs, a, k);
    SumsOperand(f, s, regs, pubs, b, k);
    PublicLengthOf(f, s, regs, pubs, o);
    hide *;
    var x := pubs[o];
    PublicProduct.MultPub(x, regs[a], regs[b], k, net);
    forall i | 0 <= i < x.Length ensures Known(x[i], At(s.shared, a, i) * At(s.shared, b, i) % Pow2(k)) {
      assert Additive(regs[a][i], At(s.shared, a, i), k) && Additive(regs[b][i], At(s.shared, b, i), k);
      ProductValue(regs[a][i], regs[b][i], At(s.shared, a, i), At(s.shared, b, i), k);
    }
    PublishedMeans(call, f, s, ring, x[..]);
    HoldsParts(f, s, before);
    OnePublished(call, f, s, ring, before, Stored(regs, pubs));
  }

  predicate Masks(content: Content, k: nat) {
    content == Sums(k) || content == Xors(k) || content == Bits(k)
  }

  /** Masking slot 1 in place keeps what an element holds. */
  lemma MaskedHolds(content: Content, v: nat, x: Sharing, k: nat)
    requires ElementHolds(content, v, x) && Masks(content, k)
    ensures ElementHolds(content, v, Opening.MaskSlot1(x, k))
  {
    hide Agreed, Sum, XorSum, Opening.MaskSlot1;
    match content
    case Sums(k) => Opening.MaskSlot1Agreed(x, k);
    case Xors(k) => Opening.MaskSlot1Agreed(x, k);
    case Bits(k) => Opening.MaskSlot1Agreed(x, k);
  }

  lemma MaskedRegister(format: Format, v: seq<nat>, x: seq<Sharing>, y: seq<Sharing>, k: nat)
    requires RegisterHolds(format, v, x) && |y| == |x|
    requires Masks(format.content, k)
    requires forall i :: 0 <= i < |x| ==> y[i] == Opening.MaskSlot1(x[i], k)
    ensures RegisterHolds(format, v, y)
  {
    hide ElementHolds, Opening.MaskSlot1;
    forall i | 0 <= i < |y| ensures ElementHolds(format.content, v[i], y[i]) {
      assert ElementHolds(format.content, v[i], x[i]);
      MaskedHolds(format.content, v[i], x[i], k);
    }
  }

  method RunOpen(call: Call, ghost f: Formats, regs: seq<array<Sharing>>, pubs: seq<array<Public>>,
          net: Net, ghost s: Memory)
    returns (ghost noise: seq<nat>)
    requires Start(call, f, s, regs, pubs, net) && call.Open?
    modifies regs, pubs, net.p1, net.p2, net.p3
    ensures Finish(call, f, s, noise, regs, pubs, net)
  {
    hide InStep, Valid, Holds, Sized, Writes, Meaning, Next, NextFormats, Stored, At, Agreed, Value, XorValue, Additive, Known;
    var Open(o, a, k) := call;
    noise := [];
    ghost var ring, before := net.p1.ring, Stored(regs, pubs);
    SumsOperand(f, s, regs, pubs, a, k);
    PublicLengthOf(f, s, regs, pubs, o);
    assert Masks(f.shared[a].content, k);
    hide *;
    var x := pubs[o];
    Opening.Open(x, regs[a], k);
    forall i | 0 <= i < x.Length ensures Known(x[i], At(s.shared, a, i)) {
      assert Value(old(regs[a][i]), k) == At(s.shared, a, i);
    }
    PublishedMeans(call, f, s, ring, x[..]);
    HoldsParts(f, s, before);
    MaskedRegister(f.shared[a], s.shared[a], before.shared[a], regs[a][..], k);
    OnePublished(call, f, s, ring, before, Stored(regs, pubs));
  }

  method RunOpenBits(call: Call, ghost f: Formats, regs: seq<array<Sharing>>, pubs: seq<array<Public>>,
          net: Net, ghost s: Memory)
    returns (ghost noise: seq<nat>)
    requires Start(call, f, s, regs, pubs, net) && call.OpenBits?
    modifies regs, pubs, net.p1, net.p2, net.p3
    ensures Finish(call, f, s, noise, regs, pubs, net)
  {
    hide InStep, Valid, Holds, Sized, Writes, Meaning, Next, NextFormats, Stored, At, Agreed, Value, XorValue, Additive, Known;
    var OpenBits(o, a, k) := call;
    noise := [];
    ghost var ring, before := net.p1.ring, Stored(regs, pubs);
    XorsOperand(f, s, regs, pubs, a, k);
    PublicLengthOf(f, s, regs, pubs, o);
    assert Masks(f.shared[a].content, k);
    hide *;
    var x := pubs[o];
    Opening.OpenBitwise(x, regs[a], k);
    forall i | 0 <= i < x.Length ensures Known(x[i], At(s.shared, a, i)) {
      assert XorValue(old(regs[a][i]), k) == At(s.shared, a, i);
    }
    PublishedMeans(call, f, s, ring, x[..]);
    HoldsParts(f, s, before);
    MaskedRegister(f.shared[a], s.shared[a], before.shared[a], regs[a][..], k);
    OnePublished(call, f, s, ring, before, Stored(regs, pubs));
  }
}
