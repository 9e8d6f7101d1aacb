/**
 Turning bitwise shared bits into additive ones (`Rss_b2a`).

 A bit is opened under a shared random bit, of which only the low bits of the words are used; the
 random bit's additive sharing then undoes the mask.
 */
module B2a {
  import opened Ring
  import opened Words
  import opened Sharings
  import opened Cluster
  import opened Linear
  import opened RandBits
  import opened Opening
  import opened MSB
  import BitAdd
  import EdaBits
  import BitLT

  // ---------- bits of the masking words ----------

  /** The low bits of an additive sharing share the parity of its secret. */
  lemma LowBitShared(x: Sharing, v: nat, k: nat)
    requires k >= 1 && Additive(x, v, k)
    ensures HasBit(x, 0, v % 2 == 1)
  {
    hide Bit;
    AdditiveParity(x, v, k);
    LowBit(x.p1.s0);
    LowBit(x.p1.s1);
    LowBit(x.p2.s0);
    LowBit(x.p2.s1);
    LowBit(x.p3.s0);
    LowBit(x.p3.s1);
    ParityOfSum(x.p1.s0, x.p2.s0, x.p3.s0);
  }

  lemma AdditiveParity(x: Sharing, v: nat, k: nat)
    requires k >= 1 && Additive(x, v, k)
    ensures x.p1.s1 % 2 == x.p2.s0 % 2 && x.p2.s1 % 2 == x.p3.s0 % 2 && x.p3.s1 % 2 == x.p1.s0 % 2
    ensures Sum(x) % 2 == v % 2
  {
    hide Sum;
    AdditiveWeaken(x, v, k, 1);
    PowOne();
  }

  lemma ParityOfSum(x: nat, y: nat, z: nat)
    ensures ((x + y + z) % 2 == 1) == (((x % 2 == 1) != (y % 2 == 1)) != (z % 2 == 1))
  {
  }

  /** Words that are single bits share the same bit as a number of any width. */
  lemma BitResultBitwise(x: Sharing, v: bool, k: nat)
    requires BitLT.BitResult(x, v)
    ensures Bitwise(x, ToNat(v), k)
  {
    hide Bit, Bitwise;
    forall j | 0 <= j < k ensures BitAgreed(x, j) && Parity(x, j) == Bit(ToNat(v), j) {
      SmallBit(v);
      if j > 0 {
        NoHighBit(x.p1.s0, j);
        NoHighBit(x.p1.s1, j);
        NoHighBit(x.p2.s0, j);
        NoHighBit(x.p2.s1, j);
        NoHighBit(x.p3.s0, j);
        NoHighBit(x.p3.s1, j);
        NoHighBit(ToNat(v), j);
      }
    }
    BitwiseFromBits(x, ToNat(v), k);
  }

  lemma NoHighBit(x: nat, j: nat)
    requires x < 2 && j > 0
    ensures !Bit(x, j)
  {
  }

  lemma XorAllBitwise(x: Sharing, v: nat, y: Sharing, w: nat, k: nat)
    requires Bitwise(x, v, k) && Bitwise(y, w, k)
    ensures Bitwise(BitAdd.XorAll(x, y), Xor(v, w), k)
  {
    hide Bit, Bitwise, BitAdd.XorAll, Xor, BitAgreed, Parity;
    var z := BitAdd.XorAll(x, y);
    forall j | 0 <= j < k ensures BitAgreed(z, j) && Parity(z, j) == Bit(Xor(v, w), j) {
      BitwiseBit(x, v, k, j);
      BitwiseBit(y, w, k, j);
      BitAdd.XorAllBit(x, y, j, Bit(v, j), Bit(w, j));
      BitXor(v, w, j);
    }
    BitwiseFromBits(z, Xor(v, w), k);
  }

  lemma XorOfBits(t: nat, s: nat)
    requires t < 2 && s < 2
    ensures Xor(t, s) == t + s - 2 * t * s < 2
  {
  }

  // ---------- one element ----------

  /** a ^ GET_BIT(b, 0). */
  function MaskedBit(a: Sharing, b: Sharing): Sharing {
    BitAdd.XorAll(a, BitsAt(b, 0))
  }

  lemma BitNumber(s: nat)
    requires s < 2
    ensures ToNat(s % 2 == 1) == s
  {
  }

  lemma MaskedBitShared(a: Sharing, b: Sharing, t: nat, s: nat, k: nat)
    requires k >= 1 && Bitwise(a, t, k) && t < 2 && Additive(b, s, k) && s < 2
    ensures Bitwise(MaskedBit(a, b), Xor(t, s), k)
  {
    hide Bit, Bitwise, Additive, BitAdd.XorAll, BitsAt, Xor, BitLT.BitResult;
    LowBitShared(b, s, k);
    BitsAtResult(b, 0, s % 2 == 1);
    BitResultBitwise(BitsAt(b, 0), s % 2 == 1, k);
    BitNumber(s);
    XorAllBitwise(a, t, BitsAt(b, 0), s, k);
  }

  /** The masked bit is consistent, and its value is the exclusive or of the two bits. */
  lemma MaskedBitValue(a: Sharing, b: Sharing, k: nat)
    requires k >= 1 && Agreed(a, k) && XorValue(a, k) < 2 && SharedBit(b, k)
    ensures
      var t, s := XorValue(a, k), Value(b, k);
      Agreed(MaskedBit(a, b), k) && t < 2 && s < 2 && XorValue(MaskedBit(a, b), k) == t + s - 2 * t * s
  {
    SharedBitValue(b, k);
    hide *;
    var t, s := XorValue(a, k), Value(b, k);
    OwnValue(a, k);
    MaskedBitShared(a, b, t, s, k);
    XorOfBits(t, s);
    EdaBits.BitwiseValue(MaskedBit(a, b), t + s - 2 * t * s, k);
    TwoFits(k);
    ModSmall(t + s - 2 * t * s, k);
  }

  lemma TwoFits(k: nat)
    requires k >= 1
    ensures 2 <= Pow2(k)
  {
  }

  lemma OwnValue(a: Sharing, k: nat)
    requires Agreed(a, k)
    ensures Bitwise(a, XorValue(a, k), k)
  {
    CongMod(XorSum(a), k);
  }

  // ---------- the protocol ----------

  /**
   `Rss_b2a`: the bits that a shares bitwise are shared additively by res; res may be a.
   */
  method B2a(res: array<Sharing>, a: array<Sharing>, k: nat, net: Net)
    requires InStep(net) && 1 <= k && k + 2 <= W && 1 <= res.Length == a.Length
    requires forall i :: 0 <= i < a.Length ==> Agreed(a[i], k) && XorValue(a[i], k) < 2
    modifies res, net.p1, net.p2, net.p3
    ensures InStep(net) && Private(net) == old(Private(net))
    ensures forall i :: 0 <= i < res.Length ==> Additive(res[i], XorValue(old(a[i]), k), k)
  {
    hide *;
    var b := new Sharing[a.Length];
    RandBit(b, k, net);
    var c := OpenMasked(a, b, k);
    UnmaskAll(res, a, b, c, k);
  }

  /** The opened masked bit of one element. */
  ghost predicate Opened(c: Public, a: Sharing, b: Sharing, k: nat) {
    var t, s := XorValue(a, k), Value(b, k);
    t < 2 && s < 2 && 0 <= t + s - 2 * t * s && Known(c, t + s - 2 * t * s) && Additive(b, s, k)
  }

  method OpenMasked(a: array<Sharing>, b: array<Sharing>, k: nat) returns (c: array<Public>)
    requires 1 <= k <= W && 1 <= a.Length == b.Length
    requires forall i :: 0 <= i < a.Length ==> Agreed(a[i], k) && XorValue(a[i], k) < 2 && SharedBit(b[i], k)
    ensures fresh(c) && c.Length == a.Length
    ensures forall i :: 0 <= i < a.Length ==> Opened(c[i], a[i], b[i], k)
  {
    hide *;
    var sum := new Sharing[a.Length];
    for i := 0 to a.Length
      invariant forall m :: 0 <= m < i ==> sum[m] == MaskedBit(a[m], b[m]) && Agreed(sum[m], k)
      modifies sum
    {
      assert Agreed(a[i], k) && XorValue(a[i], k) < 2 && SharedBit(b[i], k);
      MaskedBitValue(a[i], b[i], k);
      sum[i] := MaskedBit(a[i], b[i]);
    }
    c := new Public[a.Length];
    label Masked:
    OpenBitwise(c, sum, k);
    forall i | 0 <= i < a.Length ensures Opened(c[i], a[i], b[i], k) {
      assert Agreed(a[i], k) && XorValue(a[i], k) < 2 && SharedBit(b[i], k);
      assert old@Masked(sum[i]) == MaskedBit(a[i], b[i]);
      OpenedElement(c[i], a[i], b[i], k);
    }
  }

  lemma OpenedElement(c: Public, a: Sharing, b: Sharing, k: nat)
    requires k >= 1 && Agreed(a, k) && XorValue(a, k) < 2 && SharedBit(b, k)
    requires Known(c, XorValue(MaskedBit(a, b), k))
    ensures Opened(c, a, b, k)
  {
    hide XorValue, Value, MaskedBit, Agreed, Additive, SharedBit;
    MaskedBitValue(a, b, k);
    SharedBitValue(b, k);
  }

  /** res = ai * c + b - 2 * c * b. */
  method UnmaskAll(res: array<Sharing>, a: array<Sharing>, b: array<Sharing>, c: array<Public>, k: nat)
    requires k <= W && res != b && res.Length == a.Length == b.Length == c.Length
    requires forall i :: 0 <= i < a.Length ==> Opened(c[i], a[i], b[i], k)
    modifies res
    ensures forall i :: 0 <= i < res.Length ==> Additive(res[i], XorValue(old(a[i]), k), k)
  {
    hide *;
    for i := 0 to res.Length
      invariant forall m :: 0 <= m < i ==> Additive(res[m], XorValue(old(a[m]), k), k)
    {
      UnmaskElement(c[i], old(a[i]), b[i], k);
      res[i] := RemoveBit(c[i], b[i]);
    }
  }

  lemma UnmaskElement(c: Public, a: Sharing, b: Sharing, k: nat)
    requires k <= W && Opened(c, a, b, k)
    ensures Additive(RemoveBit(c, b), XorValue(a, k), k)
  {
    hide Additive, RemoveBit, XorValue, Value;
    UnmaskAdditive(c, b, XorValue(a, k), Value(b, k), k);
  }
}
