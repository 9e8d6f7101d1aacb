/**
 Machine words (`Lint`) and their bits.

 The word width is fixed when the program is compiled: 32 bits for small rings, 64 for large ones.
 Memory cells hold naturals; every arithmetic operation reduces to the word width, so a cell that
 has never been written may hold anything at all.
 */
module Words {
  import opened Ring

  type WordWidth = w: nat | w == 32 || w == 64 witness 32
  const W: WordWidth

  // ---------- arithmetic on unsigned words ----------

  /** The word that holds x: unsigned arithmetic wraps. */
  function Wrap(x: int): nat {
    x % Pow2(W)
  }

  lemma WrapCong(x: int, k: nat)
    requires k <= W
    ensures Cong(Wrap(x), x, k)
  {
    CongMod(x, W);
    CongWeaken(Wrap(x), x, W, k);
  }

  /** Adding to or subtracting from a wrapped word. */
  lemma WrapAdd(x: int, y: int, z: int, k: nat)
    requires k <= W && Cong(x, y, k)
    ensures Cong(Wrap(x + z), y + z, k) && Cong(Wrap(x - z), y - z, k)
  {
    hide Cong, Wrap;
    CongRefl(z, k);
    CongAdd(x, y, z, z, k);
    WrapCong(x + z, k);
    WrapCong(x - z, k);
    CongTrans(Wrap(x + z), x + z, y + z, k);
    CongTrans(Wrap(x - z), x - z, y - z, k);
  }

  lemma WrapParity(x: int)
    ensures Wrap(x) % 2 == x % 2
  {
    WrapCong(x, 1);
    assert Pow2(1) == 2;
  }

  lemma WrapPow2(j: nat)
    requires j < W
    ensures Wrap(Pow2(j)) == Pow2(j)
  {
    Pow2Mono(j + 1, W);
    ModSmall(Pow2(j), W);
  }

  lemma WrapMinusOne()
    ensures Wrap(-1) == Mask(W)
  {
    var p := Pow2(W);
    DivModUnique(-1, p, -1, p - 1);
  }

  lemma WrapSmall(x: nat)
    requires x < Pow2(W)
    ensures Wrap(x) == x
  {
    ModSmall(x, W);
  }

  /** The mask with the low k bits set: SHIFT[k]. */
  function Mask(k: nat): nat {
    Pow2(k) - 1
  }

  /** x & SHIFT[k]. */
  function Masked(x: nat, k: nat): (r: nat)
    ensures r == x % Pow2(k)
  {
    AndMask(x, k);
    And(x, Mask(k))
  }

  // ---------- words and bytes ----------

  type Byte = b: nat | b < 256

  /** The number of bytes that hold k bits. */
  function BytesFor(k: nat): nat {
    (k + 7) / 8
  }

  lemma BytesForIs(k: nat)
    ensures BytesFor(k) == (k + 7) / 8
  {
  }

  lemma BytesEnough(k: nat)
    ensures k <= 8 * BytesFor(k) < k + 8
    ensures k >= 1 ==> BytesFor(k) >= 1
  {
  }

  function LittleEndian(b: seq<Byte>): nat {
    if b == [] then 0 else b[0] + 256 * LittleEndian(b[1..])
  }

  /** memcpy of the i-th group of `bytes` bytes of a buffer into a cleared word. */
  function Load(buf: seq<Byte>, i: nat, bytes: nat): nat {
    if (i + 1) * bytes <= |buf| then LittleEndian(buf[i * bytes..(i + 1) * bytes]) else 0
  }

  lemma {:induction false} LittleEndianBound(b: seq<Byte>)
    ensures LittleEndian(b) < Pow2(8 * |b|)
  {
    if b != [] {
      LittleEndianBound(b[1..]);
      Pow2Add(8, 8 * |b[1..]|);
      assert Pow2(8) == 256;
    }
  }

  /** Byte t of the number is byte t of the sequence; above its end the number is zero. */
  lemma {:induction false} LittleEndianByte(b: seq<Byte>, t: nat)
    ensures LittleEndian(b) / Pow2(8 * t) % 256 == if t < |b| then b[t] else 0
    decreases |b|
  {
    if b == [] {
      DivModUnique(0, Pow2(8 * t), 0, 0);
    } else if t > 0 {
      LittleEndianByte(b[1..], t - 1);
      ByteDown(LittleEndian(b), t);
      DivModUnique(LittleEndian(b), 256, LittleEndian(b[1..]), b[0]);
    }
  }

  lemma ByteDown(x: nat, t: nat)
    requires t >= 1
    ensures x / Pow2(8 * t) == x / 256 / Pow2(8 * (t - 1))
  {
    var p, y := Pow2(8 * (t - 1)), x / 256;
    Pow2Add(8, 8 * (t - 1));
    assert Pow2(8) == 256;
    DivSplit(y, p);
    assert 256 * (p * (y / p)) == (256 * p) * (y / p);
    DivModUnique(x, 256 * p, y / p, 256 * (y % p) + x % 256);
  }

  /** Byte t of the word loaded at i is byte t of the i-th group. */
  lemma LoadByte(buf: seq<Byte>, i: nat, bytes: nat, t: nat)
    requires (i + 1) * bytes <= |buf|
    ensures t < bytes ==> i * bytes + t < |buf| && Load(buf, i, bytes) / Pow2(8 * t) % 256 == buf[i * bytes + t]
    ensures t >= bytes ==> Load(buf, i, bytes) / Pow2(8 * t) % 256 == 0
  {
    assert (i + 1) * bytes == i * bytes + bytes;
    var group := buf[i * bytes..(i + 1) * bytes];
    LittleEndianByte(group, t);
  }

  /** A number is determined by its bytes. */
  lemma {:induction false} BytesDetermine(x: nat, y: nat, n: nat)
    requires x < Pow2(8 * n) && y < Pow2(8 * n)
    requires forall t :: 0 <= t < n ==> SameByte(x, y, t)
    ensures x == y
  {
    if n > 0 {
      assert SameByte(x, y, 0);
      forall t | 0 <= t < n - 1 ensures SameByte(x / 256, y / 256, t) {
        assert SameByte(x, y, t + 1);
        NextByteSame(x, y, t);
      }
      BelowDown(x, n);
      BelowDown(y, n);
      BytesDetermine(x / 256, y / 256, n - 1);
      LowByteSame(x, y);
    }
  }

  predicate SameByte(x: nat, y: nat, t: nat) {
    x / Pow2(8 * t) % 256 == y / Pow2(8 * t) % 256
  }

  lemma NextByteSame(x: nat, y: nat, t: nat)
    requires SameByte(x, y, t + 1)
    ensures SameByte(x / 256, y / 256, t)
  {
    ByteDown(x, t + 1);
    ByteDown(y, t + 1);
  }

  lemma LowByteSame(x: nat, y: nat)
    requires SameByte(x, y, 0) && x / 256 == y / 256
    ensures x == y
  {
    assert x / Pow2(0) == x && y / Pow2(0) == y;
  }

  lemma BelowDown(x: nat, n: nat)
    requires n >= 1 && x < Pow2(8 * n)
    ensures x / 256 < Pow2(8 * (n - 1))
  {
    Pow2Add(8, 8 * (n - 1));
    assert Pow2(8) == 256;
  }

  /** memcpy of v over the low `bytes` bytes of a word; the bytes above keep what was there. */
  function CopyLow(word: nat, v: nat, bytes: nat): nat {
    Above(word, Pow2(8 * bytes)) + v
  }

  /** The part of a word at and above the power of two p. */
  function Above(word: nat, p: nat): nat
    requires p >= 1
  {
    word / p * p
  }

  lemma CopyLowCong(word: nat, v: nat, bytes: nat, k: nat)
    requires k <= 8 * bytes
    ensures Cong(CopyLow(word, v, bytes), v, k)
  {
    hide Cong;
    var q := word / Pow2(8 * bytes);
    CongIntro(CopyLow(word, v, bytes), v, 8 * bytes, q);
    CongWeaken(CopyLow(word, v, bytes), v, 8 * bytes, k);
  }

  /** What arrives when the low BytesFor(k) bytes of a word are sent: enough for a masked word. */
  function Wire(x: nat, k: nat): nat {
    x % Pow2(8 * BytesFor(k))
  }

  lemma WireExact(x: nat, k: nat)
    requires x < Pow2(k)
    ensures Wire(x, k) == x
  {
    Pow2Mono(k, 8 * BytesFor(k));
    ModSmall(x, 8 * BytesFor(k));
  }

  // ---------- single bits ----------

  predicate Bit(x: nat, i: nat)
    decreases i
  {
    if i == 0 then x % 2 == 1 else Bit(x / 2, i - 1)
  }

  function ToNat(b: bool): nat {
    if b then 1 else 0
  }

  /** GET_BIT: (x >> i) & 1. */
  function GetBit(x: nat, i: nat): nat {
    ToNat(Bit(x, i))
  }

  /** SET_BIT: x with bit i replaced by the low bit of b. */
  function SetBit(x: nat, i: nat, b: nat): nat
    decreases i
  {
    if i == 0 then x / 2 * 2 + b % 2 else x % 2 + 2 * SetBit(x / 2, i - 1, b)
  }

  function Xor(x: nat, y: nat): nat {
    if x == 0 then y else (x + y) % 2 + 2 * Xor(x / 2, y / 2)
  }

  function And(x: nat, y: nat): nat {
    if x == 0 then 0 else (x % 2) * (y % 2) + 2 * And(x / 2, y / 2)
  }

  function Or(x: nat, y: nat): nat {
    if x == 0 then y else (if x % 2 + y % 2 == 0 then 0 else 1) + 2 * Or(x / 2, y / 2)
  }

  lemma XorParts(x: nat, y: nat)
    requires x > 0
    ensures Xor(x, y) % 2 == (x + y) % 2 && Xor(x, y) / 2 == Xor(x / 2, y / 2)
  {
  }

  lemma ParityOfTwo(x: nat, y: nat)
    ensures ((x + y) % 2 == 1) == ((x % 2 == 1) != (y % 2 == 1))
  {
  }

  lemma {:induction false} BitXor(x: nat, y: nat, i: nat)
    ensures Bit(Xor(x, y), i) == (Bit(x, i) != Bit(y, i))
  {
    if x == 0 {
      BitZero(i);
    } else {
      XorParts(x, y);
      ParityOfTwo(x, y);
      hide Xor;
      if i > 0 {
        BitXor(x / 2, y / 2, i - 1);
      }
    }
  }

  lemma {:induction false} BitAnd(x: nat, y: nat, i: nat)
    ensures Bit(And(x, y), i) == (Bit(x, i) && Bit(y, i))
  {
    if x == 0 {
      BitZero(i);
    } else if i > 0 {
      BitAnd(x / 2, y / 2, i - 1);
    }
  }

  lemma {:induction false} BitOr(x: nat, y: nat, i: nat)
    ensures Bit(Or(x, y), i) == (Bit(x, i) || Bit(y, i))
  {
    if x == 0 {
      BitZero(i);
    } else if i > 0 {
      BitOr(x / 2, y / 2, i - 1);
    }
  }

  lemma {:induction false} BitSetBit(x: nat, i: nat, b: nat, j: nat)
    ensures Bit(SetBit(x, i, b), j) == if j == i then b % 2 == 1 else Bit(x, j)
  {
    if i > 0 && j > 0 {
      BitSetBit(x / 2, i - 1, b, j - 1);
    }
  }

  lemma BitZero(i: nat)
    ensures !Bit(0, i)
  {
  }

  // ---------- bits and arithmetic ----------

  /** Halving a congruence peels off the lowest bit. */
  lemma CongHalf(x: nat, y: nat, k: nat)
    ensures Cong(x, y, k + 1) <==> x % 2 == y % 2 && Cong(x / 2, y / 2, k)
  {
    ModStep(x, k);
    ModStep(y, k);
  }

  lemma ModStep(x: nat, k: nat)
    ensures x % Pow2(k + 1) == x % 2 + 2 * (x / 2 % Pow2(k))
    ensures x / Pow2(k + 1) == x / 2 / Pow2(k)
  {
    var p, h := Pow2(k), x / 2;
    assert h == p * (h / p) + h % p;
    assert 2 * (p * (h / p)) == Pow2(k + 1) * (h / p);
    DivModUnique(x, Pow2(k + 1), h / p, x % 2 + 2 * (h % p));
  }

  /** Words with equal low k bits are equal in Z_{2^k}... */
  lemma {:induction false} BitsCong(x: nat, y: nat, k: nat)
    requires forall i :: 0 <= i < k ==> Bit(x, i) == Bit(y, i)
    ensures Cong(x, y, k)
    decreases k
  {
    if k > 0 {
      hide Cong;
      assert Bit(x, 0) == Bit(y, 0);
      forall i | 0 <= i < k - 1 ensures Bit(x / 2, i) == Bit(y / 2, i) {
        assert Bit(x, i + 1) == Bit(y, i + 1);
      }
      BitsCong(x / 2, y / 2, k - 1);
      CongHalf(x, y, k - 1);
    }
  }

  /** ... and conversely. */
  lemma {:induction false} CongBit(x: nat, y: nat, k: nat, i: nat)
    requires Cong(x, y, k) && i < k
    ensures Bit(x, i) == Bit(y, i)
    decreases i
  {
    hide Cong;
    CongHalf(x, y, k - 1);
    if i > 0 {
      CongBit(x / 2, y / 2, k - 1, i - 1);
    }
  }

  lemma {:induction false} BitMod(x: nat, k: nat, i: nat)
    ensures Bit(x % Pow2(k), i) == (i < k && Bit(x, i))
    decreases k
  {
    if k == 0 {
      BitZero(i);
    } else {
      ModStep(x, k - 1);
      hide Pow2;
      var m := x % Pow2(k);
      HalvesOf(m, x % 2, x / 2 % Pow2(k - 1));
      if i > 0 {
        assert Bit(m, i) == Bit(m / 2, i - 1);
        BitMod(x / 2, k - 1, i - 1);
      }
    }
  }

  lemma HalvesOf(m: nat, low: nat, high: nat)
    requires low < 2 && m == low + 2 * high
    ensures m % 2 == low && m / 2 == high
  {
  }

  lemma BitShift(x: nat, j: nat, i: nat)
    ensures Bit(Quotient(x, Pow2(j)), i) == Bit(x, i + j)
  {
    if j > 0 {
      ModStep(x, j - 1);
      BitShift(x / 2, j - 1, i);
    }
  }

  /** GET_BIT by its own shift and mask. */
  lemma GetBitIsShift(x: nat, i: nat)
    ensures GetBit(x, i) == x / Pow2(i) % 2
  {
    BitShift(x, i, 0);
  }

  lemma MaskParts(k: nat)
    requires k > 0
    ensures Mask(k) % 2 == 1 && Mask(k) / 2 == Mask(k - 1)
  {
  }

  lemma AndParts(x: nat, m: nat)
    requires x > 0 && m % 2 == 1
    ensures And(x, m) == x % 2 + 2 * And(x / 2, m / 2)
  {
  }

  /** x & SHIFT[k] is the canonical representative of x. */
  lemma {:induction false} AndMask(x: nat, k: nat)
    ensures And(x, Mask(k)) == x % Pow2(k)
    decreases k
  {
    if k == 0 {
      AndZero(x);
    } else if x == 0 {
      ModSmall(0, k);
    } else {
      hide And, Mask, Pow2;
      MaskParts(k);
      AndParts(x, Mask(k));
      AndMask(x / 2, k - 1);
      ModStep(x, k - 1);
    }
  }

  lemma AndZero(x: nat)
    ensures And(x, 0) == 0
  {
  }

  /** Masking with a single bit keeps that bit in its place. */
  lemma AndPow2(x: nat, j: nat)
    ensures And(x, Pow2(j)) == GetBit(x, j) * Pow2(j)
  {
    if x == 0 {
      BitZero(j);
    } else if j == 0 {
      AndZero(x / 2);
    } else {
      AndPow2(x / 2, j - 1);
    }
  }

  /** The residue mod 2^{k+1} is the residue mod 2^k plus bit k. */
  lemma ModSplit(x: nat, k: nat)
    ensures x % Pow2(k + 1) == x % Pow2(k) + GetBit(x, k) * Pow2(k)
  {
    ModStep(x, k);
    if k > 0 {
      ModStep(x, k - 1);
      ModSplit(x / 2, k - 1);
    }
  }

  /** All bits of a mask are set. */
  lemma {:induction false} MaskBit(k: nat, j: nat)
    requires j < k
    ensures Bit(Mask(k), j)
    decreases j
  {
    var m := Mask(k);
    assert m % 2 == 1 && m / 2 == Mask(k - 1);
    if j > 0 {
      MaskBit(k - 1, j - 1);
    }
  }

  /** Subtracting from the mask flips every bit. */
  lemma {:induction false} ComplementBit(v: nat, k: nat, j: nat)
    requires v < Pow2(k) && j < k
    ensures Bit(Mask(k) - v, j) == !Bit(v, j)
    decreases j
  {
    var c := Mask(k) - v;
    assert c % 2 == 1 - v % 2 && c / 2 == Mask(k - 1) - v / 2;
    if j > 0 {
      ComplementBit(v / 2, k - 1, j - 1);
    }
  }

  lemma DoubleBit(x: nat, j: nat)
    requires j < W
    ensures Bit(Wrap(x * 2), j) == (j > 0 && Bit(x, j - 1))
  {
    ShiftedBit(x, j);
    hide Bit;
    BitMod(x * 2, W, j);
  }

  lemma ShiftedBit(x: nat, j: nat)
    ensures Bit(x * 2, j) == (j > 0 && Bit(x, j - 1))
  {
  }

  /** Numbers with the same bits are the same. */
  lemma SameBits(x: nat, y: nat)
    requires forall i: nat :: Bit(x, i) == Bit(y, i)
    ensures x == y
  {
    hide *;
    BelowPow2(x);
    BelowPow2(y);
    Pow2Mono(x, x + y);
    Pow2Mono(y, x + y);
    BitsCong(x, y, x + y);
    CongUnique(x, y, x + y);
  }

  lemma BelowPow2(x: nat)
    ensures x < Pow2(x)
  {
  }
}
