/**
 Replicated secret sharing among three parties.

 A secret is the sum (or the bitwise exclusive or) of three shares.  Party p holds shares p+1 and p+2
 (mod 3), so slot 1 of each party repeats slot 0 of the next one.
 */
module Sharings {
  import opened Ring
  import opened Words

  /** One value for each party. */
  datatype Three<+T> = Three(p1: T, p2: T, p3: T)

  /** The two words one party holds. */
  datatype Pair = Pair(s0: nat, s1: nat)

  /** What the three parties hold of one secret. */
  type Sharing = Three<Pair>

  /** A word every party has its own copy of. */
  type Public = Three<nat>

  /** Every share has the same value, mod 2^k, at both of its holders. */
  ghost predicate Agreed(x: Sharing, k: nat) {
    && Cong(x.p1.s1, x.p2.s0, k)
    && Cong(x.p2.s1, x.p3.s0, k)
    && Cong(x.p3.s1, x.p1.s0, k)
  }

  /** The sharing made of separately stored slots. */
  function Zip(s0: Public, s1: Public): Sharing {
    Three(Pair(s0.p1, s1.p1), Pair(s0.p2, s1.p2), Pair(s0.p3, s1.p3))
  }

  // ---------- additive sharings ----------

  function Sum(x: Sharing): nat {
    x.p1.s0 + x.p2.s0 + x.p3.s0
  }

  /** The secret of an additive sharing over Z_{2^k}. */
  function Value(x: Sharing, k: nat): nat {
    Sum(x) % Pow2(k)
  }

  /** x is a consistent additive sharing of v over Z_{2^k}. */
  ghost predicate Additive(x: Sharing, v: int, k: nat) {
    Agreed(x, k) && Cong(Sum(x), v, k)
  }

  /** The value may be replaced by a congruent one. */
  lemma AdditiveAs(x: Sharing, v: int, w: int, k: nat)
    requires Additive(x, v, k) && Cong(v, w, k)
    ensures Additive(x, w, k)
  {
  }

  // ---------- bitwise sharings ----------

  function XorSum(x: Sharing): nat {
    Xor(Xor(x.p1.s0, x.p2.s0), x.p3.s0)
  }

  /** The k-bit secret of a bitwise sharing. */
  function XorValue(x: Sharing, k: nat): nat {
    XorSum(x) % Pow2(k)
  }

  /** x is a consistent bitwise sharing of the k-bit number v. */
  ghost predicate Bitwise(x: Sharing, v: nat, k: nat) {
    Agreed(x, k) && Cong(XorSum(x), v, k)
  }

  /** Every party has the word v. */
  ghost predicate Known(x: Public, v: nat) {
    x == Three(v, v, v)
  }

  /** The share (slot) in which a public constant is counted: share 2, at parties 1 and 3. */
  const Ai: Sharing := Three(Pair(1, 0), Pair(0, 0), Pair(0, 1))

  // ---------- bit view ----------

  /** The secret bit j of a bitwise sharing. */
  predicate Parity(x: Sharing, j: nat) {
    (Bit(x.p1.s0, j) != Bit(x.p2.s0, j)) != Bit(x.p3.s0, j)
  }

  predicate BitAgreed(x: Sharing, j: nat) {
    && Bit(x.p1.s1, j) == Bit(x.p2.s0, j)
    && Bit(x.p2.s1, j) == Bit(x.p3.s0, j)
    && Bit(x.p3.s1, j) == Bit(x.p1.s0, j)
  }

  /** Bit j of x is a consistent sharing of the bit v. */
  ghost predicate HasBit(x: Sharing, j: nat, v: bool) {
    BitAgreed(x, j) && Parity(x, j) == v
  }

  /** Each of the low k bits of c shares the conjunction of that bit of a and of b. */
  ghost predicate AndOf(c: Sharing, a: Sharing, b: Sharing, k: nat) {
    forall j :: 0 <= j < k && BitAgreed(a, j) && BitAgreed(b, j) ==> HasBit(c, j, Parity(a, j) && Parity(b, j))
  }

  lemma XorSumBit(x: Sharing, j: nat)
    ensures Bit(XorSum(x), j) == Parity(x, j)
  {
    BitXor(x.p1.s0, x.p2.s0, j);
    BitXor(Xor(x.p1.s0, x.p2.s0), x.p3.s0, j);
  }

  lemma BitsAgreed(x: Sharing, k: nat)
    requires forall j :: 0 <= j < k ==> BitAgreed(x, j)
    ensures Agreed(x, k)
  {
    hide Cong, Bit;
    forall j | 0 <= j < k
      ensures Bit(x.p1.s1, j) == Bit(x.p2.s0, j)
      ensures Bit(x.p2.s1, j) == Bit(x.p3.s0, j)
      ensures Bit(x.p3.s1, j) == Bit(x.p1.s0, j)
    {
      assert BitAgreed(x, j);
    }
    BitsCong(x.p1.s1, x.p2.s0, k);
    BitsCong(x.p2.s1, x.p3.s0, k);
    BitsCong(x.p3.s1, x.p1.s0, k);
  }

  lemma AgreedBit(x: Sharing, k: nat, j: nat)
    requires Agreed(x, k) && j < k
    ensures BitAgreed(x, j)
  {
    hide Cong, Bit;
    CongBit(x.p1.s1, x.p2.s0, k, j);
    CongBit(x.p2.s1, x.p3.s0, k, j);
    CongBit(x.p3.s1, x.p1.s0, k, j);
  }

  /** A bitwise sharing, bit by bit. */
  lemma BitwiseFromBits(x: Sharing, v: nat, k: nat)
    requires forall j :: 0 <= j < k ==> BitAgreed(x, j) && Parity(x, j) == Bit(v, j)
    ensures Bitwise(x, v, k)
  {
    hide Cong, Bit, Parity, BitAgreed, XorSum;
    BitsAgreed(x, k);
    forall j | 0 <= j < k ensures Bit(XorSum(x), j) == Bit(v, j) {
      XorSumBit(x, j);
    }
    BitsCong(XorSum(x), v, k);
  }

  lemma BitwiseBit(x: Sharing, v: nat, k: nat, j: nat)
    requires Bitwise(x, v, k) && j < k
    ensures BitAgreed(x, j) && Parity(x, j) == Bit(v, j)
  {
    hide Cong, Bit, Parity, BitAgreed, XorSum;
    AgreedBit(x, k, j);
    XorSumBit(x, j);
    CongBit(XorSum(x), v, k, j);
  }

  /** On consistent operands, conjunction bit by bit is conjunction of the secrets. */
  lemma AndOfBitwise(c: Sharing, a: Sharing, x: nat, b: Sharing, y: nat, k: nat)
    requires AndOf(c, a, b, k) && Bitwise(a, x, k) && Bitwise(b, y, k)
    ensures Bitwise(c, And(x, y), k)
  {
    hide Cong, Bit, Parity, BitAgreed, XorSum, And, Bitwise;
    forall j | 0 <= j < k ensures BitAgreed(c, j) && Parity(c, j) == Bit(And(x, y), j) {
      BitwiseBit(a, x, k, j);
      BitwiseBit(b, y, k, j);
      BitAnd(x, y, j);
      assert HasBit(c, j, Parity(a, j) && Parity(b, j));
    }
    BitwiseFromBits(c, And(x, y), k);
  }

  // ---------- vectors of sharings ----------

  /** A new vector that holds x everywhere. */
  method Repeat(x: Sharing, n: nat) returns (v: array<Sharing>)
    ensures fresh(v) && v.Length == n
    ensures forall i :: 0 <= i < n ==> v[i] == x
  {
    v := new Sharing[n];
    for i := 0 to n
      invariant forall j :: 0 <= j < i ==> v[j] == x
    {
      v[i] := x;
    }
  }

  method CopyVector(v: array<Sharing>, source: array<Sharing>)
    requires v.Length == source.Length
    modifies v
    ensures forall i :: 0 <= i < v.Length ==> v[i] == old(source[i])
  {
    for i := 0 to v.Length
      invariant forall j :: 0 <= j < i ==> v[j] == old(source[j])
      invariant forall j :: i <= j < v.Length ==> source[j] == old(source[j])
    {
      v[i] := source[i];
    }
  }
}
