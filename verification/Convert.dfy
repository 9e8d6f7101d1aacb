/**
 Conversion of a shared number from Z_{2^k} to Z_{2^k'} (`new_Rss_Convert`).

 The number is turned into bitwise shares under an edaBit; each bit is opened under a random bit shared
 over the new ring, unmasked there, and the bits are put together again.
 */
module Convert {
  import opened Ring
  import opened Words
  import opened Sharings
  import opened Cluster
  import opened Linear
  import opened RandBits
  import opened BitShares
  import opened EdaBits
  import opened Opening
  import opened MSB
  import BitAdd
  import B2a

  // ---------- from additive to bitwise ----------

  lemma DifferenceOpens(a: Sharing, r: Sharing, b2: Sharing, v: nat, k: nat)
    requires k <= W && Agreed(a, k) && SharesNumber(r, b2, v, k)
    ensures Agreed(Sub(a, r), k) && Cong(Value(Sub(a, r), k) + XorValue(b2, k), Value(a, k), k) && Agreed(b2, k)
  {
    hide Cong, Sub, Sum, Agreed, XorSum;
    AdditiveValue(a, k);
    SubAdditive(a, Value(a, k), r, v, k);
    AdditiveMeans(Sub(a, r), Value(a, k) - v, k);
    CongMod(Value(a, k) - v, k);
    BitwiseValue(b2, v, k);
    CongAdd(Value(Sub(a, r), k), Value(a, k) - v, XorValue(b2, k), v, k);
  }

  /** The opened difference: c plus the number that b2 shares is the secret. */
  ghost predicate Completes(c: Public, b2: Sharing, x: nat, k: nat) {
    Known(c, c.p1) && Agreed(b2, k) && Cong(c.p1 + XorValue(b2, k), x, k)
  }

  method OpenDifferences(a: array<Sharing>, r: array<Sharing>, b2: array<Sharing>, k: nat, ghost vs: seq<nat>)
    returns (c: array<Public>)
    requires 1 <= k <= W && 1 <= a.Length == r.Length == b2.Length == |vs|
    requires forall i :: 0 <= i < a.Length ==> Agreed(a[i], k) && SharesNumber(r[i], b2[i], vs[i], k)
    ensures fresh(c) && c.Length == a.Length
    ensures forall i :: 0 <= i < a.Length ==> Completes(c[i], b2[i], Value(a[i], k), k)
  {
    hide *;
    var sum := new Sharing[a.Length];
    for i := 0 to a.Length
      invariant forall m :: 0 <= m < i ==> sum[m] == Sub(a[m], r[m]) && Agreed(sum[m], k)
      modifies sum
    {
      DifferenceOpens(a[i], r[i], b2[i], vs[i], k);
      sum[i] := Sub(a[i], r[i]);
    }
    c := new Public[a.Length];
    label Summed:
    Open(c, sum, k);
    forall i | 0 <= i < a.Length ensures Completes(c[i], b2[i], Value(a[i], k), k) {
      assert old@Summed(sum[i]) == Sub(a[i], r[i]);
      assert Agreed(a[i], k) && SharesNumber(r[i], b2[i], vs[i], k);
      CompletesElement(c[i], a[i], r[i], b2[i], vs[i], k);
    }
  }

  lemma CompletesElement(c: Public, a: Sharing, r: Sharing, b2: Sharing, v: nat, k: nat)
    requires k <= W && Agreed(a, k) && SharesNumber(r, b2, v, k) && Known(c, Value(Sub(a, r), k))
    ensures Completes(c, b2, Value(a, k), k)
  {
    hide Cong, Sub, Value, Agreed, XorValue, SharesNumber;
    DifferenceOpens(a, r, b2, v, k);
  }

  /** The first half: every secret as a bitwise sharing. */
  method ToBits(a: array<Sharing>, k: nat, net: Net) returns (a2: array<Sharing>)
    requires InStep(net) && 1 <= k <= W && 1 <= a.Length
    requires forall i :: 0 <= i < a.Length ==> Agreed(a[i], k)
    modifies net.p1, net.p2, net.p3
    ensures InStep(net)
    ensures fresh(a2) && a2.Length == a.Length
    ensures forall i :: 0 <= i < a.Length ==> Bitwise(a2[i], Value(a[i], k), k)
  {
    hide *;
    var r := new Sharing[a.Length];
    var b2 := new Sharing[a.Length];
    ghost var vs := DrawNumbers(r, b2, k, net);
    var c := OpenDifferences(a, r, b2, k, vs);
    a2 := AddBits(a, c, b2, k, net);
  }

  method AddBits(a: array<Sharing>, c: array<Public>, b2: array<Sharing>, k: nat, net: Net) returns (a2: array<Sharing>)
    requires InStep(net) && 1 <= k <= W && 1 <= a.Length == c.Length == b2.Length
    requires forall i :: 0 <= i < a.Length ==> Completes(c[i], b2[i], Value(a[i], k), k)
    modifies net.p1, net.p2, net.p3
    ensures InStep(net)
    ensures fresh(a2) && a2.Length == a.Length
    ensures forall i :: 0 <= i < a.Length ==> Bitwise(a2[i], Value(a[i], k), k)
  {
    hide *;
    forall i | 0 <= i < a.Length
      ensures Known(c[i], c[i].p1) && Agreed(b2[i], k) && Cong(c[i].p1 + XorValue(b2[i], k), Value(a[i], k), k)
    {
      CompletesMeans(c[i], b2[i], Value(a[i], k), k);
    }
    a2 := new Sharing[a.Length];
    BitAdd.BitAddPublic(a2, c, b2, k, net);
    forall i | 0 <= i < a.Length ensures Bitwise(a2[i], Value(a[i], k), k) {
      BitwiseAs(a2[i], c[i].p1 + XorValue(b2[i], k), Value(a[i], k), k);
    }
  }

  lemma CompletesMeans(c: Public, b2: Sharing, x: nat, k: nat)
    requires Completes(c, b2, x, k)
    ensures Known(c, c.p1) && Agreed(b2, k) && Cong(c.p1 + XorValue(b2, k), x, k)
  {
    hide Cong, Agreed, XorValue;
  }

  // ---------- the masking word ----------

  /** The random bit that r shares over Z_{2^k'}. */
  function RandomBit(r: Sharing, k': nat): bool {
    Value(r, k') == 1
  }

  /** Bit t of x shares the random bit of r[t], for every t below k. */
  ghost predicate HasRandomBits(x: Sharing, r: seq<Sharing>, k: nat, k': nat)
    requires k <= |r|
  {
    forall t :: 0 <= t < k ==> HasBit(x, t, RandomBit(r[t], k'))
  }

  lemma LowBitOf(r: Sharing, k': nat)
    requires k' >= 1 && SharedBit(r, k')
    ensures HasBit(r, 0, RandomBit(r, k'))
  {
    SharedBitValue(r, k');
    hide HasBit, Additive, Value, SharedBit;
    B2a.LowBitShared(r, Value(r, k'), k');
    assert RandomBit(r, k') == (Value(r, k') % 2 == 1);
  }

  lemma SetRandomBit(x: Sharing, r: seq<Sharing>, t: nat, k': nat)
    requires t < |r| && k' >= 1 && SharedBit(r[t], k') && HasRandomBits(x, r, t, k')
    ensures HasRandomBits(CopyBit(x, t, r[t], 0), r, t + 1, k')
  {
    LowBitOf(r[t], k');
    hide BitAgreed, Parity, CopyBit, RandomBit, SharedBit;
    forall j | 0 <= j < t + 1 ensures HasBit(CopyBit(x, t, r[t], 0), j, RandomBit(r[j], k')) {
      CopiedBit(x, t, r[t], 0, j);
    }
  }

  /** One word r_2, built bit by bit over whatever it held. */
  method CollectBits(start: Sharing, r: seq<Sharing>, k': nat) returns (x: Sharing)
    requires k' >= 1 && forall t :: 0 <= t < |r| ==> SharedBit(r[t], k')
    ensures HasRandomBits(x, r, |r|, k')
  {
    hide HasBit, CopyBit, SharedBit, RandomBit;
    x := start;
    for t := 0 to |r|
      invariant HasRandomBits(x, r, t, k')
    {
      SetRandomBit(x, r, t, k');
      x := CopyBit(x, t, r[t], 0);
    }
  }

  lemma RowOf(u: array<Sharing>, i: nat, n: nat, k: nat)
    requires i < n && k >= 1 && u.Length == Index(n, k, 0)
    ensures |Row(u, i, k)| == k && Index(i, k, 0) + k <= u.Length
    ensures forall t :: 0 <= t < k ==> Row(u, i, k)[t] == u[Index(i, k, 0) + t]
  {
    MulMono(k, i + 1, n);
    assert Index(i, k, 0) == i * k;
  }

  /** `r_2`: the low bits of k random bits per word. */
  method MaskWords(rs: array<Sharing>, n: nat, k: nat, k': nat) returns (r2: array<Sharing>)
    requires 1 <= k && 1 <= k' && rs.Length == Index(n, k, 0)
    requires forall q :: 0 <= q < rs.Length ==> SharedBit(rs[q], k')
    ensures fresh(r2) && r2.Length == n
    ensures forall i :: 0 <= i < n ==> |Row(rs, i, k)| == k && HasRandomBits(r2[i], Row(rs, i, k), k, k')
  {
    hide *;
    r2 := new Sharing[n];
    for i := 0 to n
      invariant forall m :: 0 <= m < i ==> |Row(rs, m, k)| == k && HasRandomBits(r2[m], Row(rs, m, k), k, k')
      modifies r2
    {
      RowOf(rs, i, n, k);
      r2[i] := CollectBits(r2[i], Row(rs, i, k), k');
    }
  }

  // ---------- opening the masked bits ----------

  /** Bit t of the public word c is bit t of x under the random bit r[t]. */
  ghost predicate MaskedBits(c: Public, r: seq<Sharing>, x: nat, k: nat, k': nat)
    requires k <= |r|
  {
    Known(c, c.p1) && forall t :: 0 <= t < k ==> Bit(c.p1, t) == (Bit(x, t) != RandomBit(r[t], k'))
  }

  lemma MaskedSumBit(a2: Sharing, r2: Sharing, r: seq<Sharing>, x: nat, k: nat, k': nat, t: nat)
    requires t < k <= |r| && Bitwise(a2, x, k) && HasRandomBits(r2, r, k, k')
    ensures HasBit(BitAdd.XorAll(a2, r2), t, Bit(x, t) != RandomBit(r[t], k'))
  {
    hide Bit, Bitwise, BitAdd.XorAll, RandomBit, BitAgreed, Parity;
    BitwiseBit(a2, x, k, t);
    assert HasBit(r2, t, RandomBit(r[t], k'));
    BitAdd.XorAllBit(a2, r2, t, Bit(x, t), RandomBit(r[t], k'));
  }

  lemma MaskedSumAgreed(a2: Sharing, r2: Sharing, r: seq<Sharing>, x: nat, k: nat, k': nat)
    requires k <= |r| && Bitwise(a2, x, k) && HasRandomBits(r2, r, k, k')
    ensures Agreed(BitAdd.XorAll(a2, r2), k)
  {
    hide Bit, Bitwise, BitAdd.XorAll, RandomBit, BitAgreed, Parity, HasRandomBits;
    forall t | 0 <= t < k ensures BitAgreed(BitAdd.XorAll(a2, r2), t) {
      MaskedSumBit(a2, r2, r, x, k, k', t);
    }
    BitsAgreed(BitAdd.XorAll(a2, r2), k);
  }

  lemma MaskedBitsOpen(c: Public, a2: Sharing, r2: Sharing, r: seq<Sharing>, x: nat, k: nat, k': nat)
    requires k <= |r| && Bitwise(a2, x, k) && HasRandomBits(r2, r, k, k')
    requires Known(c, XorValue(BitAdd.XorAll(a2, r2), k))
    ensures MaskedBits(c, r, x, k, k')
  {
    hide Bit, Bitwise, BitAdd.XorAll, RandomBit, BitAgreed, Parity, HasRandomBits, XorValue, Agreed;
    MaskedSumAgreed(a2, r2, r, x, k, k');
    forall t | 0 <= t < k ensures Bit(c.p1, t) == (Bit(x, t) != RandomBit(r[t], k')) {
      MaskedSumBit(a2, r2, r, x, k, k', t);
      BitAdd.XorValueBit(BitAdd.XorAll(a2, r2), k, t);
    }
  }

  method OpenMaskedBits(a2: array<Sharing>, r2: array<Sharing>, rs: array<Sharing>, k: nat, k': nat, ghost xs: seq<nat>)
    returns (c: array<Public>)
    requires 1 <= k <= W && 1 <= a2.Length == r2.Length == |xs|
    requires forall i :: 0 <= i < a2.Length ==> Bitwise(a2[i], xs[i], k)
    requires forall i :: 0 <= i < a2.Length ==> |Row(rs, i, k)| == k && HasRandomBits(r2[i], Row(rs, i, k), k, k')
    ensures fresh(c) && c.Length == a2.Length
    ensures forall i :: 0 <= i < a2.Length ==> MaskedBits(c[i], Row(rs, i, k), xs[i], k, k')
  {
    hide *;
    var sum := new Sharing[a2.Length];
    for i := 0 to a2.Length
      invariant forall m :: 0 <= m < i ==> sum[m] == BitAdd.XorAll(a2[m], r2[m]) && Agreed(sum[m], k)
      modifies sum
    {
      assert Bitwise(a2[i], xs[i], k) && |Row(rs, i, k)| == k && HasRandomBits(r2[i], Row(rs, i, k), k, k');
      MaskedSumAgreed(a2[i], r2[i], Row(rs, i, k), xs[i], k, k');
      sum[i] := BitAdd.XorAll(a2[i], r2[i]);
    }
    c := new Public[a2.Length];
    label Summed:
    OpenBitwise(c, sum, k);
    forall i | 0 <= i < a2.Length ensures MaskedBits(c[i], Row(rs, i, k), xs[i], k, k') {
      assert Bitwise(a2[i], xs[i], k) && |Row(rs, i, k)| == k && HasRandomBits(r2[i], Row(rs, i, k), k, k');
      assert old@Summed(sum[i]) == BitAdd.XorAll(a2[i], r2[i]);
      MaskedBitsOpen(c[i], a2[i], r2[i], Row(rs, i, k), xs[i], k, k');
    }
  }

  // ---------- unmasking over the new ring ----------

  /** a_k_prime: ai * c_t + r - 2 * c_t * r. */
  lemma UnmaskedBit(c: Public, r: seq<Sharing>, x: nat, k: nat, k': nat, t: nat)
    requires t < k <= |r| && 1 <= k' <= W && MaskedBits(c, r, x, k, k') && SharedBit(r[t], k')
    ensures Additive(RemoveBit(BitOfEach(c, t), r[t]), GetBit(x, t), k')
  {
    SharedBitValue(r[t], k');
    hide Bit, Additive, RemoveBit, BitOfEach, Value, SharedBit;
    assert Bit(c.p1, t) == (Bit(x, t) != RandomBit(r[t], k'));
    var u, s := GetBit(x, t), Value(r[t], k');
    BitOfKnown(c, c.p1, t);
    assert GetBit(c.p1, t) == u + s - 2 * u * s;
    UnmaskAdditive(BitOfEach(c, t), r[t], u, s, k');
  }

  method UnmaskRow(aK: array<Sharing>, q: nat, c: Public, rs: array<Sharing>, i: nat, k: nat, k': nat, ghost x: nat)
    requires aK != rs && q + k <= aK.Length && 1 <= k' <= W && |Row(rs, i, k)| == k && MaskedBits(c, Row(rs, i, k), x, k, k')
    requires forall t :: 0 <= t < k ==> SharedBit(Row(rs, i, k)[t], k')
    modifies aK
    ensures forall r :: q <= r < q + k ==> Additive(aK[r], GetBit(x, r - q), k')
    ensures forall r :: 0 <= r < q ==> aK[r] == old(aK[r])
  {
    hide *;
    var row := Row(rs, i, k);
    for t := 0 to k
      invariant forall r :: q <= r < q + t ==> Additive(aK[r], GetBit(x, r - q), k')
      invariant forall r :: 0 <= r < q ==> aK[r] == old(aK[r])
    {
      UnmaskedBit(c, row, x, k, k', t);
      aK[q + t] := RemoveBit(BitOfEach(c, t), row[t]);
    }
  }

  method UnmaskBits(c: array<Public>, rs: array<Sharing>, k: nat, k': nat, ghost xs: seq<nat>) returns (aK: array<Sharing>)
    requires 1 <= k && 1 <= k' <= W && c.Length == |xs| && rs.Length == Index(c.Length, k, 0)
    requires forall q :: 0 <= q < rs.Length ==> SharedBit(rs[q], k')
    requires forall i :: 0 <= i < c.Length ==> |Row(rs, i, k)| == k && MaskedBits(c[i], Row(rs, i, k), xs[i], k, k')
    ensures fresh(aK) && aK.Length == Index(c.Length, k, 0)
    ensures forall r :: 0 <= r < aK.Length ==>
      Element(r, k) < c.Length && Additive(aK[r], GetBit(xs[Element(r, k)], Offset(r, k)), k')
  {
    ghost var n := c.Length;
    assert Index(0, k, 0) == 0;
    hide *;
    aK := new Sharing[Index(c.Length, k, 0)];
    var q := 0;
    for i := 0 to c.Length
      invariant q == Index(i, k, 0)
      invariant forall r :: 0 <= r < q ==> Element(r, k) < n && Additive(aK[r], GetBit(xs[Element(r, k)], Offset(r, k)), k')
      modifies aK
    {
      q := UnmaskElement(aK, q, c[i], rs, i, n, k, k', xs[i]);
    }
  }

  /** The k bits of element i, which stand at q .. q+k. */
  method UnmaskElement(aK: array<Sharing>, q: nat, c: Public, rs: array<Sharing>, i: nat, ghost n: nat, k: nat,
          k': nat, ghost x: nat)
    returns (end: nat)
    requires aK != rs && 1 <= k && 1 <= k' <= W && i < n && q == Index(i, k, 0) && rs.Length == aK.Length == Index(n, k, 0)
    requires |Row(rs, i, k)| == k && MaskedBits(c, Row(rs, i, k), x, k, k')
    requires forall r :: 0 <= r < rs.Length ==> SharedBit(rs[r], k')
    modifies aK
    ensures q < end == Index(i + 1, k, 0) <= aK.Length
    ensures forall r :: q <= r < end ==> Element(r, k) == i && Additive(aK[r], GetBit(x, Offset(r, k)), k')
    ensures forall r :: 0 <= r < q ==> aK[r] == old(aK[r])
  {
    hide *;
    IndexParts(i, n, k, 0);
    IndexPlus(i, k, k);
    RowOf(rs, i, n, k);
    UnmaskRow(aK, q, c, rs, i, k, k', x);
    forall r | q <= r < q + k ensures Element(r, k) == i && Offset(r, k) == r - q {
      IndexParts(i, n, k, r - q);
      IndexPlus(i, k, r - q);
    }
    end := q + k;
  }

  // ---------- putting the bits together ----------

  lemma AddBit(acc: Sharing, b: Sharing, x: nat, t: nat, k': nat)
    requires k' <= W && Additive(acc, x % Pow2(t), k') && Additive(b, GetBit(x, t), k')
    ensures Additive(Add(acc, Shift(b, t)), x % Pow2(t + 1), k')
  {
    hide Additive, Add, Shift, Bit, Pow2;
    ShiftAdditive(b, GetBit(x, t), t, k');
    AddAdditive(acc, x % Pow2(t), Shift(b, t), GetBit(x, t) * Pow2(t), k');
    ModSplit(x, t);
  }

  lemma NoBits(x: nat, k: nat)
    ensures Additive(Three(Pair(0, 0), Pair(0, 0), Pair(0, 0)), x % Pow2(0), k)
  {
  }

  method Recompose(aK: array<Sharing>, q: nat, k: nat, k': nat, ghost x: nat) returns (acc: Sharing)
    requires k' <= W && q + k <= aK.Length
    requires forall r :: q <= r < q + k ==> Additive(aK[r], GetBit(x, r - q), k')
    ensures Additive(acc, x % Pow2(k), k')
  {
    hide *;
    acc := Three(Pair(0, 0), Pair(0, 0), Pair(0, 0));
    NoBits(x, k');
    for t := 0 to k
      invariant Additive(acc, x % Pow2(t), k')
    {
      assert Additive(aK[q + t], GetBit(x, q + t - q), k');
      AddBit(acc, aK[q + t], x, t, k');
      acc := Add(acc, Shift(aK[q + t], t));
    }
  }

  method RecomposeAll(res: array<Sharing>, aK: array<Sharing>, k: nat, k': nat, ghost xs: seq<nat>)
    requires 1 <= k && k' <= W && res != aK && res.Length == |xs| && aK.Length == Index(res.Length, k, 0)
    requires forall i :: 0 <= i < |xs| ==> xs[i] < Pow2(k)
    requires forall r :: 0 <= r < aK.Length ==>
      Element(r, k) < res.Length && Additive(aK[r], GetBit(xs[Element(r, k)], Offset(r, k)), k')
    modifies res
    ensures forall i :: 0 <= i < res.Length ==> Additive(res[i], xs[i], k')
  {
    ghost var n := res.Length;
    assert Index(0, k, 0) == 0;
    hide *;
    var q := 0;
    for j := 0 to res.Length
      invariant q == Index(j, k, 0)
      invariant forall i :: 0 <= i < j ==> Additive(res[i], xs[i], k')
    {
      IndexParts(j, n, k, 0);
      IndexPlus(j, k, k);
      forall r | q <= r < q + k ensures Additive(aK[r], GetBit(xs[j], r - q), k') {
        IndexParts(j, n, k, r - q);
        IndexPlus(j, k, r - q);
        assert Element(r, k) == j && Offset(r, k) == r - q;
      }
      var acc := Recompose(aK, q, k, k', xs[j]);
      ModSmall(xs[j], k);
      res[j] := acc;
      q := q + k;
    }
  }

  // ---------- the protocol ----------

  /**
   `new_Rss_Convert`: the integer that a shares over Z_{2^k} is shared by res over Z_{2^k'}; res may be a.
   */
  method ConvertRing(res: array<Sharing>, a: array<Sharing>, k: nat, k': nat, net: Net)
    requires InStep(net) && 1 <= k <= W && 1 <= k' && k' + 2 <= W && 1 <= res.Length == a.Length
    requires forall i :: 0 <= i < a.Length ==> Agreed(a[i], k)
    modifies res, net.p1, net.p2, net.p3
    ensures InStep(net)
    ensures forall i :: 0 <= i < res.Length ==> Additive(res[i], Value(old(a[i]), k), k')
  {
    hide *;
    ghost var xs := seq(a.Length, i requires 0 <= i < a.Length reads a => Value(a[i], k));
    var rs := RandomBits(a.Length, k, k', net);
    var a2 := ToBits(a, k, net);
    forall i | 0 <= i < a.Length ensures xs[i] < Pow2(k) {
      ValueBelow(old(a[i]), k);
    }
    ConvertBits(res, a2, rs, k, k', xs);
  }

  method RandomBits(n: nat, k: nat, k': nat, net: Net) returns (rs: array<Sharing>)
    requires InStep(net) && 1 <= k && 1 <= k' && k' + 2 <= W && 1 <= n
    modifies net.p1, net.p2, net.p3
    ensures InStep(net)
    ensures fresh(rs) && rs.Length == Index(n, k, 0) && forall q :: 0 <= q < rs.Length ==> SharedBit(rs[q], k')
  {
    MulMono(k, 1, n);
    assert Index(n, k, 0) >= 1;
    hide *;
    rs := new Sharing[Index(n, k, 0)];
    RandBit(rs, k', net);
  }

  /** The second half. */
  method ConvertBits(res: array<Sharing>, a2: array<Sharing>, rs: array<Sharing>, k: nat, k': nat, ghost xs: seq<nat>)
    requires 1 <= k <= W && 1 <= k' <= W && 1 <= res.Length == a2.Length == |xs| && rs.Length == Index(res.Length, k, 0)
    requires forall q :: 0 <= q < rs.Length ==> SharedBit(rs[q], k')
    requires forall i :: 0 <= i < |xs| ==> Bitwise(a2[i], xs[i], k) && xs[i] < Pow2(k)
    modifies res
    ensures forall i :: 0 <= i < res.Length ==> Additive(res[i], xs[i], k')
  {
    hide *;
    var r2 := MaskWords(rs, a2.Length, k, k');
    var c := OpenMaskedBits(a2, r2, rs, k, k', xs);
    var aK := UnmaskBits(c, rs, k, k', xs);
    RecomposeAll(res, aK, k, k', xs);
  }
}
