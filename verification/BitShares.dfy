/**
 Moving single bits between shared words, and multiplying packed bits.

 GET_BIT and SET_BIT act alike on every word the parties hold, so they move the shared bit.
 */
module BitShares {
  import opened Ring
  import opened Words
  import opened Sharings
  import opened Cluster
  import opened Multiplication
  import opened Carries

  // ---------- SET_BIT on shares ----------

  /** SET_BIT(x, n, GET_BIT(y, m)) at every party. */
  function CopyBit(x: Sharing, n: nat, y: Sharing, m: nat): Sharing {
    Three(Pair(SetBit(x.p1.s0, n, GetBit(y.p1.s0, m)), SetBit(x.p1.s1, n, GetBit(y.p1.s1, m))),
          Pair(SetBit(x.p2.s0, n, GetBit(y.p2.s0, m)), SetBit(x.p2.s1, n, GetBit(y.p2.s1, m))),
          Pair(SetBit(x.p3.s0, n, GetBit(y.p3.s0, m)), SetBit(x.p3.s1, n, GetBit(y.p3.s1, m))))
  }

  /** SET_BIT(x, n, GET_BIT(y, m) ^ GET_BIT(z, l)) on one word. */
  function SetXor(x: nat, n: nat, y: nat, m: nat, z: nat, l: nat): nat {
    SetBit(x, n, Xor(GetBit(y, m), GetBit(z, l)))
  }

  function XorBits(x: Sharing, n: nat, y: Sharing, m: nat, z: Sharing, l: nat): Sharing {
    Three(Pair(SetXor(x.p1.s0, n, y.p1.s0, m, z.p1.s0, l), SetXor(x.p1.s1, n, y.p1.s1, m, z.p1.s1, l)),
          Pair(SetXor(x.p2.s0, n, y.p2.s0, m, z.p2.s0, l), SetXor(x.p2.s1, n, y.p2.s1, m, z.p2.s1, l)),
          Pair(SetXor(x.p3.s0, n, y.p3.s0, m, z.p3.s0, l), SetXor(x.p3.s1, n, y.p3.s1, m, z.p3.s1, l)))
  }

  lemma CopyBitWord(x: nat, n: nat, y: nat, m: nat, j: nat)
    ensures Bit(SetBit(x, n, GetBit(y, m)), j) == if j == n then Bit(y, m) else Bit(x, j)
  {
  }

  lemma SetXorWord(x: nat, n: nat, y: nat, m: nat, z: nat, l: nat, j: nat)
    ensures Bit(SetXor(x, n, y, m, z, l), j) == if j == n then Bit(y, m) != Bit(z, l) else Bit(x, j)
  {
    hide Bit;
    BitSetBit(x, n, Xor(GetBit(y, m), GetBit(z, l)), j);
    assert Xor(1, 1) == 0 && Xor(0, 1) == 1 && Xor(1, 0) == 1 && Xor(0, 0) == 0;
  }

  lemma CopiedBit(x: Sharing, n: nat, y: Sharing, m: nat, j: nat)
    ensures BitAgreed(CopyBit(x, n, y, m), j) == if j == n then BitAgreed(y, m) else BitAgreed(x, j)
    ensures Parity(CopyBit(x, n, y, m), j) == if j == n then Parity(y, m) else Parity(x, j)
  {
    hide Bit, SetBit, GetBit;
    CopyBitWord(x.p1.s0, n, y.p1.s0, m, j);
    CopyBitWord(x.p1.s1, n, y.p1.s1, m, j);
    CopyBitWord(x.p2.s0, n, y.p2.s0, m, j);
    CopyBitWord(x.p2.s1, n, y.p2.s1, m, j);
    CopyBitWord(x.p3.s0, n, y.p3.s0, m, j);
    CopyBitWord(x.p3.s1, n, y.p3.s1, m, j);
  }

  lemma XoredBit(x: Sharing, n: nat, y: Sharing, m: nat, z: Sharing, l: nat, j: nat)
    ensures j != n ==> BitAgreed(XorBits(x, n, y, m, z, l), j) == BitAgreed(x, j)
    ensures j != n ==> Parity(XorBits(x, n, y, m, z, l), j) == Parity(x, j)
    ensures BitAgreed(y, m) && BitAgreed(z, l) ==>
      HasBit(XorBits(x, n, y, m, z, l), n, Parity(y, m) != Parity(z, l))
  {
    hide Bit, SetXor;
    forall i | i == j || i == n
      ensures BitAgreed(XorBits(x, n, y, m, z, l), i) ==
        if i == n then
          && (Bit(y.p1.s1, m) != Bit(z.p1.s1, l)) == (Bit(y.p2.s0, m) != Bit(z.p2.s0, l))
          && (Bit(y.p2.s1, m) != Bit(z.p2.s1, l)) == (Bit(y.p3.s0, m) != Bit(z.p3.s0, l))
          && (Bit(y.p3.s1, m) != Bit(z.p3.s1, l)) == (Bit(y.p1.s0, m) != Bit(z.p1.s0, l))
        else BitAgreed(x, i)
      ensures Parity(XorBits(x, n, y, m, z, l), i) == if i == n then Parity(y, m) != Parity(z, l) else Parity(x, i)
    {
      SetXorWord(x.p1.s0, n, y.p1.s0, m, z.p1.s0, l, i);
      SetXorWord(x.p1.s1, n, y.p1.s1, m, z.p1.s1, l, i);
      SetXorWord(x.p2.s0, n, y.p2.s0, m, z.p2.s0, l, i);
      SetXorWord(x.p2.s1, n, y.p2.s1, m, z.p2.s1, l, i);
      SetXorWord(x.p3.s0, n, y.p3.s0, m, z.p3.s0, l, i);
      SetXorWord(x.p3.s1, n, y.p3.s1, m, z.p3.s1, l, i);
    }
  }

  // ---------- shared pairs ----------

  /** Bit j of p and g share the pair v. */
  ghost predicate HasPair(p: Sharing, g: Sharing, j: nat, v: PG) {
    HasBit(p, j, v.p) && HasBit(g, j, v.g)
  }

  /** The low bits of p and g share the pairs of s. */
  ghost predicate SharePairs(p: Sharing, g: Sharing, s: seq<PG>) {
    forall j :: 0 <= j < |s| ==> HasPair(p, g, j, s[j])
  }

  // ---------- bytes ----------

  /** Byte t of a word. */
  function ByteOf(x: nat, t: nat): nat {
    x / Pow2(8 * t) % 256
  }

  function BytesOf(x: Sharing, t: nat): Sharing {
    Three(Pair(ByteOf(x.p1.s0, t), ByteOf(x.p1.s1, t)),
          Pair(ByteOf(x.p2.s0, t), ByteOf(x.p2.s1, t)),
          Pair(ByteOf(x.p3.s0, t), ByteOf(x.p3.s1, t)))
  }

  lemma ByteOfBit(x: nat, t: nat, b: nat)
    requires b < 8
    ensures Bit(ByteOf(x, t), b) == Bit(x, 8 * t + b)
  {
    hide Bit;
    BitShift(x, 8 * t, b);
    EightBits();
    BitMod(x / Pow2(8 * t), 8, b);
  }

  lemma EightBits()
    ensures Pow2(8) == 256
  {
  }

  lemma BytesOfBit(x: Sharing, t: nat, b: nat)
    requires b < 8
    ensures BitAgreed(BytesOf(x, t), b) == BitAgreed(x, 8 * t + b)
    ensures Parity(BytesOf(x, t), b) == Parity(x, 8 * t + b)
  {
    hide Bit, ByteOf;
    ByteOfBit(x.p1.s0, t, b);
    ByteOfBit(x.p1.s1, t, b);
    ByteOfBit(x.p2.s0, t, b);
    ByteOfBit(x.p2.s1, t, b);
    ByteOfBit(x.p3.s0, t, b);
    ByteOfBit(x.p3.s1, t, b);
  }

  /** Where byte t of element i stands when every element has nb bytes. */
  function Index(i: nat, nb: nat, t: nat): nat {
    i * nb + t
  }

  /** The element, and the byte of it, that stand at q. */
  function Element(q: nat, nb: nat): nat
    requires nb >= 1
  {
    Quotient(q, nb)
  }

  function Offset(q: nat, nb: nat): nat
    requires nb >= 1
  {
    q % nb
  }

  lemma IndexParts(i: nat, n: nat, nb: nat, t: nat)
    requires i < n && t < nb
    ensures Index(i, nb, t) < Index(n, nb, 0) && Index(i + 1, nb, 0) <= Index(n, nb, 0)
    ensures Index(i + 1, nb, 0) == Index(i, nb, nb)
    ensures Index(i, nb, t + 1) == Index(i, nb, t) + 1 && Index(i, nb, t) == Index(i, nb, 0) + t
    ensures Element(Index(i, nb, t), nb) == i && Offset(Index(i, nb, t), nb) == t
  {
    MulMono(nb, i + 1, n);
    DivModUnique(i * nb + t, nb, i, t);
  }

  /** Element i's bytes. */
  function Row(u: array<Sharing>, i: nat, nb: nat): seq<Sharing>
    reads u
  {
    if i * nb + nb <= u.Length then u[i * nb..i * nb + nb] else []
  }

  /** memcpy of the low nb bytes of every word, element after element. */
  method SplitBytes(x: array<Sharing>, nb: nat) returns (bytes: array<Sharing>)
    requires nb >= 1
    ensures fresh(bytes) && bytes.Length == Index(x.Length, nb, 0)
    ensures forall q :: 0 <= q < bytes.Length ==>
      Element(q, nb) < x.Length && bytes[q] == BytesOf(x[Element(q, nb)], Offset(q, nb))
  {
    ghost var n := x.Length;
    assert Index(0, nb, 0) == 0;
    hide *;
    bytes := new Sharing[Index(x.Length, nb, 0)];
    var q := 0;
    for i := 0 to x.Length
      invariant q == Index(i, nb, 0)
      invariant forall r :: 0 <= r < q ==> Element(r, nb) < n && bytes[r] == BytesOf(x[Element(r, nb)], Offset(r, nb))
      modifies bytes
    {
      IndexParts(i, n, nb, 0);
      IndexPlus(i, nb, nb);
      SplitWord(bytes, q, x[i], nb);
      forall r | q <= r < q + nb ensures Element(r, nb) == i && Offset(r, nb) == r - q {
        IndexParts(i, n, nb, r - q);
      }
      q := q + nb;
    }
  }

  lemma IndexPlus(i: nat, nb: nat, t: nat)
    ensures Index(i, nb, t) == Index(i, nb, 0) + t
  {
  }

  /** The bytes of one word, from position q on. */
  method SplitWord(bytes: array<Sharing>, q: nat, x: Sharing, nb: nat)
    requires q + nb <= bytes.Length
    modifies bytes
    ensures forall r :: q <= r < q + nb ==> bytes[r] == BytesOf(x, r - q)
    ensures forall r :: 0 <= r < q ==> bytes[r] == old(bytes[r])
  {
    hide *;
    for t := 0 to nb
      invariant forall r :: q <= r < q + t ==> bytes[r] == BytesOf(x, r - q)
      invariant forall r :: 0 <= r < q ==> bytes[r] == old(bytes[r])
    {
      bytes[q + t] := BytesOf(x, t);
    }
  }

  /** Bit m of the packed product of two words is the product of their bits m. */
  ghost predicate PackedAnd(row: seq<Sharing>, a: Sharing, b: Sharing, bits: nat) {
    && |row| == BytesFor(bits)
    && forall m :: 0 <= m < bits && BitAgreed(a, m) && BitAgreed(b, m) ==>
      HasBit(row[m / 8], m % 8, Parity(a, m) && Parity(b, m))
  }

  lemma PackedAndBit(byte: Sharing, a: Sharing, b: Sharing, m: nat)
    requires AndOf(byte, BytesOf(a, m / 8), BytesOf(b, m / 8), 8)
    requires BitAgreed(a, m) && BitAgreed(b, m)
    ensures HasBit(byte, m % 8, Parity(a, m) && Parity(b, m))
  {
    hide BytesOf, BitAgreed, Parity;
    BytesOfBit(a, m / 8, m % 8);
    BytesOfBit(b, m / 8, m % 8);
    assert HasBit(byte, m % 8, Parity(BytesOf(a, m / 8), m % 8) && Parity(BytesOf(b, m / 8), m % 8));
  }

  lemma PackedRow(row: seq<Sharing>, a: Sharing, b: Sharing, bits: nat)
    requires |row| == BytesFor(bits)
    requires forall t :: 0 <= t < |row| ==> AndOf(row[t], BytesOf(a, t), BytesOf(b, t), 8)
    ensures PackedAnd(row, a, b, bits)
  {
    hide AndOf, BytesOf, HasBit, Parity, BitAgreed;
    forall m | 0 <= m < bits && BitAgreed(a, m) && BitAgreed(b, m)
      ensures HasBit(row[m / 8], m % 8, Parity(a, m) && Parity(b, m))
    {
      assert AndOf(row[m / 8], BytesOf(a, m / 8), BytesOf(b, m / 8), 8);
      PackedAndBit(row[m / 8], a, b, m);
    }
  }

  /** Packs the low bits of every word into bytes and multiplies the bytes. */
  method MultiplyPacked(a: array<Sharing>, b: array<Sharing>, bits: nat, net: Net) returns (u: array<Sharing>)
    requires InStep(net) && bits >= 1 && 1 <= a.Length == b.Length
    modifies net.p1, net.p2, net.p3
    ensures InStep(net) && Private(net) == old(Private(net))
    ensures fresh(u) && u.Length == Index(a.Length, BytesFor(bits), 0)
    ensures forall i :: 0 <= i < a.Length ==> PackedAnd(Row(u, i, BytesFor(bits)), a[i], b[i], bits)
  {
    hide *;
    var nb := BytesFor(bits);
    BytesEnough(bits);
    var ab := SplitBytes(a, nb);
    var bb := SplitBytes(b, nb);
    IndexParts(0, a.Length, nb, 0);
    u := new Sharing[Index(a.Length, nb, 0)];
    MultByte(u, ab, bb, net);
    forall i | 0 <= i < a.Length ensures PackedAnd(Row(u, i, nb), a[i], b[i], bits) {
      RowOfProducts(u, ab, bb, a, b, i, bits, nb);
    }
  }

  lemma RowOfProducts(u: array<Sharing>, ab: array<Sharing>, bb: array<Sharing>, a: array<Sharing>, b: array<Sharing>,
                      i: nat, bits: nat, nb: nat)
    requires bits >= 1 && nb == BytesFor(bits) >= 1 && a.Length == b.Length && i < a.Length
    requires u.Length == ab.Length == bb.Length == Index(a.Length, nb, 0)
    requires forall q :: 0 <= q < u.Length ==> AndOf(u[q], ab[q], bb[q], 8)
    requires forall q :: 0 <= q < u.Length ==>
      Element(q, nb) < a.Length && ab[q] == BytesOf(a[Element(q, nb)], Offset(q, nb))
    requires forall q :: 0 <= q < u.Length ==>
      Element(q, nb) < a.Length && bb[q] == BytesOf(b[Element(q, nb)], Offset(q, nb))
    ensures PackedAnd(Row(u, i, nb), a[i], b[i], bits)
  {
    var row := Row(u, i, nb);
    IndexParts(i, a.Length, nb, 0);
    assert i * nb == Index(i, nb, 0) && i * nb + nb == Index(i, nb, nb);
    assert |row| == nb;
    hide *;
    forall t | 0 <= t < nb ensures AndOf(row[t], BytesOf(a[i], t), BytesOf(b[i], t), 8) {
      IndexParts(i, a.Length, nb, t);
      RowEntry(u, i, nb, t);
    }
    PackedRow(row, a[i], b[i], bits);
  }

  lemma RowEntry(u: array<Sharing>, i: nat, nb: nat, t: nat)
    requires Index(i, nb, nb) <= u.Length && t < nb
    ensures |Row(u, i, nb)| == nb && Index(i, nb, t) < u.Length && Row(u, i, nb)[t] == u[Index(i, nb, t)]
  {
    var first := i * nb;
    assert Row(u, i, nb) == u[first..first + nb];
  }
}
