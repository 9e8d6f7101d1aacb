/**
 Seven-party multiplication (`Rss_Mult_7pc`), given that the holders of a share's key are at the same point
 of its stream.
 */
module SevenPartyMult {
  import opened Ring
  import opened Words
  import opened Stream
  import opened NodeNetworks
  import opened FiveParty
  import opened SevenParty
  import Multiplication
  import FivePartyMult

  type Words20 = s: seq<nat> | |s| == 20 witness seq(20, _ => 0)

  const NoWords20: Words20 := seq(20, _ => 0)

  /** What the seven parties hold of one secret. */
  type Sharing7 = x: seq<Words20> | |x| == 7 witness [NoWords20, NoWords20, NoWords20, NoWords20, NoWords20, NoWords20, NoWords20]

  /** One word per party. */
  type Words7 = v: seq<nat> | |v| == 7 witness [0, 0, 0, 0, 0, 0, 0]

  // ---------- the tables ----------

  function After7(id: nat, d: nat): nat
    requires id >= 1
  {
    (id + d - 1) % 7 + 1
  }

  /** How far the parties that miss share t are from the party that holds it there. */
  function Offsets(t: nat): (nat, nat, nat) {
    match t
    case 0 => (1, 2, 3)
    case 1 => (1, 2, 4)
    case 2 => (1, 2, 5)
    case 3 => (1, 2, 6)
    case 4 => (1, 3, 4)
    case 5 => (1, 3, 5)
    case 6 => (1, 3, 6)
    case 7 => (1, 4, 5)
    case 8 => (1, 4, 6)
    case 9 => (1, 5, 6)
    case 10 => (2, 3, 4)
    case 11 => (2, 3, 5)
    case 12 => (2, 3, 6)
    case 13 => (2, 4, 5)
    case 14 => (2, 4, 6)
    case 15 => (2, 5, 6)
    case 16 => (3, 4, 5)
    case 17 => (3, 4, 6)
    case 18 => (3, 5, 6)
    case _ => (4, 5, 6)
  }

  /** T_map_7pc of party id. */
  function TMap7(id: nat, t: nat): (nat, nat, nat)
    requires id >= 1
  {
    (After7(id, Offsets(t).0), After7(id, Offsets(t).1), After7(id, Offsets(t).2))
  }

  predicate OneOf(x: nat, T: (nat, nat, nat)) {
    x == T.0 || x == T.1 || x == T.2
  }

  /** `chi_p_prime_in_T_7`. */
  predicate ChiInT7(p': nat, T: (nat, nat, nat))
    requires p' >= 1
  {
    OneOf(After7(p', 1), T) && OneOf(After7(p', 2), T) && OneOf(After7(p', 3), T)
  }

  /** The condition under which a party's inner loop adds a mask word of share t for party p'. */
  predicate Masks7(id: nat, t: nat, p': nat)
    requires id >= 1 && p' >= 1
  {
    || (p' != id && !OneOf(p', TMap7(id, t)) && !ChiInT7(p', TMap7(id, t)))
    || (p' == id && !ChiInT7(id, TMap7(id, t)))
  }

  /** The same by the distance d of p' from the party. */
  predicate MasksAt(t: nat, d: nat) {
    MasksFor(Offsets(t), d)
  }

  predicate MasksFor(s: (nat, nat, nat), d: nat) {
    !OneOf(d, s) && !(OneOf(Below7(d + 1), s) && OneOf(Below7(d + 2), s) && OneOf(Below7(d + 3), s))
  }

  lemma After7Is(p: nat, d: nat)
    requires p < 7 && d < 7
    ensures After7(p + 1, d) == Turn7(p, d) + 1
  {
  }

  lemma SameTurn(p: nat, d: nat, d': nat)
    requires p < 7 && d < 7 && d' < 7
    ensures Turn7(p, d) == Turn7(p, d') <==> d == d'
  {
  }

  lemma OffsetsRange(t: nat)
    ensures var s := Offsets(t); 1 <= s.0 <= 6 && 1 <= s.1 <= 6 && 1 <= s.2 <= 6
  {
  }

  lemma OneOfTurned(p: nat, t: nat, d: nat)
    requires p < 7 && d < 7
    ensures OneOf(Turn7(p, d) + 1, TMap7(p + 1, t)) == OneOf(d, Offsets(t))
  {
    hide Turn7, After7, Offsets;
    OffsetsRange(t);
    var s := Offsets(t);
    After7Is(p, s.0);
    After7Is(p, s.1);
    After7Is(p, s.2);
    SameTurn(p, d, s.0);
    SameTurn(p, d, s.1);
    SameTurn(p, d, s.2);
  }

  lemma MasksByDistance(p: nat, t: nat, d: nat)
    requires p < 7 && d < 7
    ensures Masks7(p + 1, t, Turn7(p, d) + 1) == MasksAt(t, d)
  {
    hide Turn7, After7, Offsets, OneOf, TMap7;
    OffsetsRange(t);
    NotSelf(t);
    var q := Turn7(p, d);
    OneOfTurned(p, t, d);
    After7Is(q, 1);
    After7Is(q, 2);
    After7Is(q, 3);
    Turn7Turn(p, d, 1);
    Turn7Turn(p, d, 2);
    Turn7Turn(p, d, 3);
    OneOfTurned(p, t, Below7(d + 1));
    OneOfTurned(p, t, Below7(d + 2));
    OneOfTurned(p, t, Below7(d + 3));
    SameTurn(p, d, 0);
    Turn7Is(p, 0);
  }

  /** No party misses a share it holds. */
  lemma NotSelf(t: nat)
    ensures !OneOf(0, Offsets(t))
  {
  }

  // ---------- counting masks ----------

  function CountFor(s: (nat, nat, nat)): nat {
    ToNat(MasksFor(s, 0)) + ToNat(MasksFor(s, 1)) + ToNat(MasksFor(s, 2)) + ToNat(MasksFor(s, 3))
    + ToNat(MasksFor(s, 4)) + ToNat(MasksFor(s, 5)) + ToNat(MasksFor(s, 6))
  }

  lemma CountTriple(x: nat, y: nat, z: nat)
    requires 1 <= x < y < z <= 6
    ensures CountFor((x, y, z)) == (if z == x + 2 then 3 else 4) && (MasksFor((x, y, z), 0) <==> z != 3)
  {
  }

  lemma SlotTriples(t: nat)
    requires t < 20
    ensures var s := Offsets(t); 1 <= s.0 < s.1 < s.2 <= 6 && (s.2 == s.0 + 2 <==> Kind(t) == 0) && (s.2 == 3 <==> t == 0)
  {
  }

  /** Three parties owe a share of three consecutive parties a mask, four any other; the own product goes to slot 0. */
  lemma CountIs(t: nat)
    requires t < 20
    ensures CountFor(Offsets(t)) == (if Kind(t) == 0 then 3 else 4) && (MasksAt(t, 0) <==> t != 0)
  {
    hide Offsets, Kind, CountFor, MasksFor;
    SlotTriples(t);
    CountTriple(Offsets(t).0, Offsets(t).1, Offsets(t).2);
  }

  /** How many of the parties before q owe the share in slot t of party p a mask. */
  function Count7(p: nat, t: nat, q: nat): nat
    requires p < 7 && q <= 7
  {
    if q == 0 then 0 else Count7(p, t, q - 1) + ToNat(Masks7(p + 1, t, q))
  }

  lemma CountAll(p: nat, t: nat)
    requires p < 7 && t < 20
    ensures Count7(p, t, 7) == if Kind(t) == 0 then 3 else 4
  {
    hide Masks7, MasksAt, CountFor, Kind, Turn7, Offsets;
    var s := seq(7, q requires 0 <= q < 7 => ToNat(Masks7(p + 1, t, q + 1)));
    Count7Sum(p, t);
    RotatedSeven(s, p);
    forall d | 0 <= d < 7 ensures s[Turn7(p, d)] == ToNat(MasksAt(t, d)) {
      MasksByDistance(p, t, d);
    }
    CountForIs(t);
    CountIs(t);
  }

  lemma CountForIs(t: nat)
    ensures CountFor(Offsets(t)) == ToNat(MasksAt(t, 0)) + ToNat(MasksAt(t, 1)) + ToNat(MasksAt(t, 2)) + ToNat(MasksAt(t, 3))
      + ToNat(MasksAt(t, 4)) + ToNat(MasksAt(t, 5)) + ToNat(MasksAt(t, 6))
  {
  }

  lemma Count7Sum(p: nat, t: nat)
    requires p < 7
    ensures Count7(p, t, 7) == ToNat(Masks7(p + 1, t, 1)) + ToNat(Masks7(p + 1, t, 2)) + ToNat(Masks7(p + 1, t, 3))
      + ToNat(Masks7(p + 1, t, 4)) + ToNat(Masks7(p + 1, t, 5)) + ToNat(Masks7(p + 1, t, 6)) + ToNat(Masks7(p + 1, t, 7))
  {
    hide Masks7;
    assert Count7(p, t, 1) == ToNat(Masks7(p + 1, t, 1));
    assert Count7(p, t, 3) == Count7(p, t, 1) + ToNat(Masks7(p + 1, t, 2)) + ToNat(Masks7(p + 1, t, 3));
    assert Count7(p, t, 5) == Count7(p, t, 3) + ToNat(Masks7(p + 1, t, 4)) + ToNat(Masks7(p + 1, t, 5));
  }

  lemma OwnMasks(p: nat, t: nat)
    requires p < 7 && t < 20
    ensures Masks7(p + 1, t, p + 1) <==> t != 0
  {
    hide Masks7, MasksAt, Turn7, Kind, CountFor;
    MasksByDistance(p, t, 0);
    Turn7Is(p, 0);
    CountIs(t);
  }

  // ---------- the double loop ----------

  /** n times the mask, added up in words. */
  function Repeated(z: nat, n: nat): nat {
    if n == 0 then 0 else Wrap(Repeated(z, n - 1) + z)
  }

  /** The party's product after the masks of its first t shares have been taken off. */
  function Masking7(p: nat, v: nat, z: Words20, t: nat): nat
    requires p < 7 && t <= 20
  {
    if t == 0 then v else if Masks7(p + 1, t - 1, p + 1) then Wrap(Masking7(p, v, z, t - 1) - z[t - 1]) else Masking7(p, v, z, t - 1)
  }

  /** One party's loops over parties and shares, z[t] being the word of share t's key. */
  method MaskLoop7(p: nat, v0: nat, z: Words20) returns (c: Words20, v: nat)
    requires p < 7
    ensures forall t :: 0 <= t < 20 ==> c[t] == Repeated(z[t], Count7(p, t, 7))
    ensures v == Masking7(p, v0, z, 20)
  {
    hide Wrap, Masks7;
    c, v := seq(20, _ => 0), v0;
    for q := 0 to 7
      invariant forall t :: 0 <= t < 20 ==> c[t] == Repeated(z[t], Count7(p, t, q))
      invariant v == if q <= p then v0 else Masking7(p, v0, z, 20)
    {
      c, v := MaskFor7(p, q, v0, z, c, v);
    }
  }

  method MaskFor7(p: nat, q: nat, ghost v0: nat, z: Words20, c0: Words20, w: nat) returns (c: Words20, v: nat)
    requires p < 7 && q < 7 && forall t :: 0 <= t < 20 ==> c0[t] == Repeated(z[t], Count7(p, t, q))
    requires w == if q <= p then v0 else Masking7(p, v0, z, 20)
    ensures forall t :: 0 <= t < 20 ==> c[t] == Repeated(z[t], Count7(p, t, q + 1))
    ensures v == if q < p then v0 else Masking7(p, v0, z, 20)
  {
    hide Wrap, TMap7, OneOf, ChiInT7, Masks7;
    c, v := c0, w;
    for t := 0 to 20
      invariant forall u :: 0 <= u < 20 ==> c[u] == Repeated(z[u], Count7(p, u, if u < t then q + 1 else q))
      invariant v == if q < p then v0 else if q == p then Masking7(p, v0, z, t) else Masking7(p, v0, z, 20)
    {
      MasksIs(p, t, q);
      if q + 1 != p + 1 && !OneOf(q + 1, TMap7(p + 1, t)) && !ChiInT7(q + 1, TMap7(p + 1, t)) {
        c := c[t := Wrap(c[t] + z[t])];
      } else if q + 1 == p + 1 && !ChiInT7(p + 1, TMap7(p + 1, t)) {
        c := c[t := Wrap(c[t] + z[t])];
        v := Wrap(v - z[t]);
      }
    }
  }

  lemma MasksIs(p: nat, t: nat, q: nat)
    ensures Masks7(p + 1, t, q + 1) == (
      || (q + 1 != p + 1 && !OneOf(q + 1, TMap7(p + 1, t)) && !ChiInT7(q + 1, TMap7(p + 1, t)))
      || (q + 1 == p + 1 && !ChiInT7(p + 1, TMap7(p + 1, t))))
  {
  }

  lemma {:induction false} RepeatedCong(z: nat, n: nat, k: nat)
    requires k <= W
    ensures Cong(Repeated(z, n), n * z, k)
  {
    hide Cong, Wrap;
    if n == 0 {
      CongRefl(0, k);
    } else {
      RepeatedCong(z, n - 1, k);
      WrapAdd(Repeated(z, n - 1), (n - 1) * z, z, k);
      assert (n - 1) * z + z == n * z;
    }
  }

  /** The first t words. */
  function Prefix(z: Words20, t: nat): nat
    requires t <= 20
  {
    if t == 0 then 0 else Prefix(z, t - 1) + z[t - 1]
  }

  lemma {:induction false} Masking7Cong(p: nat, v: nat, z: Words20, t: nat, k: nat)
    requires p < 7 && 1 <= t <= 20 && k <= W
    ensures Cong(Masking7(p, v, z, t), v - (Prefix(z, t) - z[0]), k)
  {
    hide Cong, Wrap, Masks7;
    OwnMasks(p, t - 1);
    if t == 1 {
      assert Masking7(p, v, z, 0) == v && Prefix(z, 1) == z[0];
      CongRefl(v, k);
    } else {
      Masking7Cong(p, v, z, t - 1, k);
      WrapAdd(Masking7(p, v, z, t - 1), v - (Prefix(z, t - 1) - z[0]), z[t - 1], k);
    }
  }

  lemma PrefixAll(z: Words20)
    ensures Prefix(z, 20) == Sum20(z)
  {
    assert Prefix(z, 1) == z[0];
    assert Prefix(z, 3) == Prefix(z, 1) + z[1] + z[2];
    assert Prefix(z, 5) == Prefix(z, 3) + z[3] + z[4];
    assert Prefix(z, 7) == Prefix(z, 5) + z[5] + z[6];
    assert Prefix(z, 9) == Prefix(z, 7) + z[7] + z[8];
    assert Prefix(z, 11) == Prefix(z, 9) + z[9] + z[10];
    assert Prefix(z, 13) == Prefix(z, 11) + z[11] + z[12];
    assert Prefix(z, 15) == Prefix(z, 13) + z[13] + z[14];
    assert Prefix(z, 17) == Prefix(z, 15) + z[15] + z[16];
    assert Prefix(z, 19) == Prefix(z, 17) + z[17] + z[18];
  }

  // ---------- congruent words ----------

  function Gap(x: int, y: int, k: nat): int {
    (x - y) / Pow2(k)
  }

  lemma GapIs(x: int, y: int, k: nat)
    requires Cong(x, y, k)
    ensures x == y + Gap(x, y, k) * Pow2(k)
  {
    var q := CongElim(x, y, k);
    DivModUnique(x - y, Pow2(k), q, 0);
  }

  function Gaps(x: seq<int>, y: seq<int>, k: nat): (g: seq<int>)
    requires |x| == |y|
    ensures |g| == |x|
  {
    seq(|x|, i requires 0 <= i < |x| => Gap(x[i], y[i], k))
  }

  ghost predicate AllCong(x: seq<int>, y: seq<int>, k: nat) {
    |x| == |y| && forall i :: 0 <= i < |x| ==> Cong(x[i], y[i], k)
  }

  lemma AllGaps(x: seq<int>, y: seq<int>, k: nat)
    requires AllCong(x, y, k)
    ensures forall i :: 0 <= i < |x| ==> x[i] == y[i] + Gaps(x, y, k)[i] * Pow2(k)
  {
    hide Cong, Gap, Pow2;
    forall i | 0 <= i < |x| ensures x[i] == y[i] + Gaps(x, y, k)[i] * Pow2(k) {
      GapIs(x[i], y[i], k);
    }
  }

  lemma Sum20Linear(x: Twenty, y: Twenty, g: Twenty, p: int)
    requires forall i :: 0 <= i < 20 ==> x[i] == y[i] + g[i] * p
    ensures Sum20(x) == Sum20(y) + Sum20(g) * p
  {
  }

  lemma Sum20Cong(x: Twenty, y: Twenty, k: nat)
    requires AllCong(x, y, k)
    ensures Cong(Sum20(x), Sum20(y), k)
  {
    hide Sum20, Gap, Pow2, Cong;
    AllGaps(x, y, k);
    Sum20Linear(x, y, Gaps(x, y, k), Pow2(k));
    CongIntro(Sum20(x), Sum20(y), k, Sum20(Gaps(x, y, k)));
  }

  lemma CofactorLinear(x: Twenty, y: Twenty, g: Twenty, p: int, t: nat)
    requires t < 20 && forall i :: 0 <= i < 20 ==> x[i] == y[i] + g[i] * p
    ensures Cofactor7(x, t) == Cofactor7(y, t) + Cofactor7(g, t) * p
  {
    hide Sum20, Cofactor7;
    Sum20Linear(x, y, g, p);
    if t < 10 {
      EarlyCofactorLinear(x, y, g, p, t);
    } else {
      LateCofactorLinear(x, y, g, p, t);
    }
  }

  lemma EarlyCofactorLinear(x: Twenty, y: Twenty, g: Twenty, p: int, t: nat)
    requires t < 10 && forall i :: 0 <= i < 20 ==> x[i] == y[i] + g[i] * p
    requires Sum20(x) == Sum20(y) + Sum20(g) * p
    ensures Cofactor7(x, t) == Cofactor7(y, t) + Cofactor7(g, t) * p
  {
  }

  lemma LateCofactorLinear(x: Twenty, y: Twenty, g: Twenty, p: int, t: nat)
    requires 10 <= t < 20 && forall i :: 0 <= i < 20 ==> x[i] == y[i] + g[i] * p
    requires Sum20(x) == Sum20(y) + Sum20(g) * p
    ensures Cofactor7(x, t) == Cofactor7(y, t) + Cofactor7(g, t) * p
  {
  }

  lemma CofactorCong(x: Twenty, y: Twenty, t: nat, k: nat)
    requires t < 20 && AllCong(x, y, k)
    ensures Cong(Cofactor7(x, t), Cofactor7(y, t), k)
  {
    hide Cofactor7, Gap, Pow2, Cong;
    AllGaps(x, y, k);
    CofactorLinear(x, y, Gaps(x, y, k), Pow2(k), t);
    CongIntro(Cofactor7(x, t), Cofactor7(y, t), k, Cofactor7(Gaps(x, y, k), t));
  }

  lemma Local7Cong(a: Twenty, a': Twenty, b: Twenty, b': Twenty, k: nat)
    requires AllCong(a, a', k) && AllCong(b, b', k)
    ensures Cong(Local7(a, b), Local7(a', b'), k)
  {
    hide Cofactor7, Times, Sum20, Cong;
    var x := seq(20, t requires 0 <= t < 20 => Times(a[t], Cofactor7(b, t)));
    var y := seq(20, t requires 0 <= t < 20 => Times(a'[t], Cofactor7(b', t)));
    forall t | 0 <= t < 20 ensures Cong(x[t], y[t], k) {
      CofactorCong(b, b', t, k);
      TimesCong(a[t], a'[t], Cofactor7(b, t), Cofactor7(b', t), k);
    }
    Sum20Cong(x, y, k);
  }

  function SumOf7(s: seq<int>): int
    requires |s| == 7
  {
    s[0] + s[1] + s[2] + s[3] + s[4] + s[5] + s[6]
  }

  lemma SumOf7Cong(x: seq<int>, y: seq<int>, k: nat)
    requires |x| == 7 && AllCong(x, y, k)
    ensures Cong(SumOf7(x), SumOf7(y), k)
  {
    hide Cong, Gap, Pow2;
    AllGaps(x, y, k);
    var g, p := Gaps(x, y, k), Pow2(k);
    SevenTimes(g[0], g[1], g[2], g[3], g[4], g[5], g[6], p);
    CongIntro(SumOf7(x), SumOf7(y), k, SumOf7(g));
  }

  lemma SevenTimes(x0: int, x1: int, x2: int, x3: int, x4: int, x5: int, x6: int, p: int)
    ensures (x0 + x1 + x2 + x3 + x4 + x5 + x6) * p == x0 * p + x1 * p + x2 * p + x3 * p + x4 * p + x5 * p + x6 * p
  {
  }

  // ---------- sharings ----------

  /** Share e at one of its holders: kind o is held in a slot of rotation 1 or more. */
  function FirstSlot(o: nat): nat
    requires o < 5
  {
    if o == 0 then 0 else if o == 1 then 1 else if o == 2 then 2 else if o == 3 then 3 else 5
  }

  function Canon7(x: Sharing7, e: nat): nat
    requires e < 35
  {
    x[Turn7(e % 7, 6)][FirstSlot(e / 7)]
  }

  ghost predicate Agreed7(x: Sharing7, k: nat) {
    forall p, t :: 0 <= p < 7 && 0 <= t < 20 ==> Cong(x[p][t], Canon7(x, ShareOf7(p, t)), k)
  }

  function Canons7(x: Sharing7): (s: Shares35)
    ensures forall e :: 0 <= e < 35 ==> s[e] >= 0
  {
    seq(35, e requires 0 <= e < 35 => Canon7(x, e))
  }

  /** The secret, before reduction. */
  function Sum35(x: Sharing7): int {
    Total35(Canons7(x))
  }

  ghost predicate Additive7(x: Sharing7, v: int, k: nat) {
    Agreed7(x, k) && Cong(Sum35(x), v, k)
  }

  lemma ViewCong(x: Sharing7, p: nat, k: nat)
    requires Agreed7(x, k) && p < 7
    ensures AllCong(x[p], View7(Canons7(x), p), k)
  {
  }

  // ---------- one element ----------

  /** Share e of the result, from the mask z of its key and the masked products. */
  function SharePart7(e: nat, z: nat, vs: Words7): nat
    requires e < 35
  {
    if e < 7 then Wrap(Repeated(z, 3) + vs[Turn7(e, 6)]) else Repeated(z, 4)
  }

  ghost predicate Reshared7(c: Sharing7, z: seq<nat>, vs: Words7)
    requires |z| == 35
  {
    forall p, t :: 0 <= p < 7 && 0 <= t < 20 ==> c[p][t] == SharePart7(ShareOf7(p, t), z[ShareOf7(p, t)], vs)
  }

  lemma CanonIsShare7(e: nat)
    requires e < 35
    ensures e / 7 < 5 && ShareOf7(Turn7(e % 7, 6), FirstSlot(e / 7)) == e
  {
    var o, x := e / 7, e % 7;
    assert e == 7 * o + x;
    hide Turn7;
    Turn7Turn(x, 6, 1);
    Turn7Is(x, 0);
  }

  lemma ResharedCanon7(c: Sharing7, z: seq<nat>, vs: Words7, e: nat)
    requires |z| == 35 && Reshared7(c, z, vs) && e < 35
    ensures Canon7(c, e) == SharePart7(e, z[e], vs)
  {
    CanonIsShare7(e);
    hide SharePart7, Turn7, ShareOf7, FirstSlot;
  }

  lemma ResharedAgreed7(c: Sharing7, z: seq<nat>, vs: Words7, k: nat)
    requires |z| == 35 && Reshared7(c, z, vs)
    ensures Agreed7(c, k)
  {
    hide SharePart7, ShareOf7, Canon7, Cong;
    forall p, t | 0 <= p < 7 && 0 <= t < 20 ensures Cong(c[p][t], Canon7(c, ShareOf7(p, t)), k) {
      ResharedCanon7(c, z, vs, ShareOf7(p, t));
      CongRefl(c[p][t], k);
    }
  }

  /** What share e amounts to. */
  function PartValue(e: nat, z: int, vs: Words7): int
    requires e < 35
  {
    if e < 7 then 3 * z + vs[Turn7(e, 6)] else 4 * z
  }

  lemma SharePart7Cong(e: nat, z: nat, vs: Words7, k: nat)
    requires e < 35 && k <= W
    ensures Cong(SharePart7(e, z, vs), PartValue(e, z, vs), k)
  {
    hide Cong, Wrap, Repeated, Turn7;
    RepeatedCong(z, 3, k);
    RepeatedCong(z, 4, k);
    if e < 7 {
      WrapAdd(Repeated(z, 3), 3 * z, vs[Turn7(e, 6)], k);
    }
  }

  function PartValues(z: seq<nat>, vs: Words7): Shares35
    requires |z| == 35
  {
    seq(35, e requires 0 <= e < 35 => PartValue(e, z[e], vs))
  }

  lemma Total35Cong(x: Shares35, y: Shares35, k: nat)
    requires AllCong(x, y, k)
    ensures Cong(Total35(x), Total35(y), k)
  {
    hide Cong, SumOf7;
    forall o | 0 <= o < 5 ensures Cong(Sum7(x, o), Sum7(y, o), k) {
      Sum7Cong(x, y, o, k);
    }
    hide Sum7;
    Add2(Sum7(x, 0), Sum7(x, 1), Sum7(y, 0), Sum7(y, 1), k);
    Add2(Sum7(x, 0) + Sum7(x, 1), Sum7(x, 2), Sum7(y, 0) + Sum7(y, 1), Sum7(y, 2), k);
    Add2(Sum7(x, 0) + Sum7(x, 1) + Sum7(x, 2), Sum7(x, 3), Sum7(y, 0) + Sum7(y, 1) + Sum7(y, 2), Sum7(y, 3), k);
    Add2(Sum7(x, 0) + Sum7(x, 1) + Sum7(x, 2) + Sum7(x, 3), Sum7(x, 4),
         Sum7(y, 0) + Sum7(y, 1) + Sum7(y, 2) + Sum7(y, 3), Sum7(y, 4), k);
  }

  lemma Sum7Cong(x: Shares35, y: Shares35, o: nat, k: nat)
    requires AllCong(x, y, k) && o < 5
    ensures Cong(Sum7(x, o), Sum7(y, o), k)
  {
    hide Cong;
    SumOf7Cong(x[7 * o..7 * o + 7], y[7 * o..7 * o + 7], k);
  }

  /** All masks put on. */
  function MaskTotal7(z: Shares35): int {
    4 * Total35(z) - Sum7(z, 0)
  }

  lemma PartTotal(z: seq<nat>, vs: Words7)
    requires |z| == 35
    ensures Total35(PartValues(z, vs)) == SumOf7(vs) + MaskTotal7(z)
  {
  }

  lemma ResharedSum7(c: Sharing7, z: seq<nat>, vs: Words7, k: nat)
    requires |z| == 35 && Reshared7(c, z, vs) && k <= W
    ensures Cong(Sum35(c), SumOf7(vs) + MaskTotal7(z), k)
  {
    hide Cong, Reshared7, SharePart7, Canon7, PartValue, Total35, SumOf7, MaskTotal7;
    forall e | 0 <= e < 35 ensures Cong(Canons7(c)[e], PartValues(z, vs)[e], k) {
      ResharedCanon7(c, z, vs, e);
      SharePart7Cong(e, z[e], vs, k);
    }
    Total35Cong(Canons7(c), PartValues(z, vs), k);
    PartTotal(z, vs);
  }

  /** The masks one party takes off. */
  function OffMasks7(v: Twenty): int {
    Sum20(v) - v[0]
  }

  /** Slot t of all parties shows every share of its kind once. */
  lemma SlotTotal(z: Shares35, t: nat)
    requires t < 20
    ensures View7(z, 0)[t] + View7(z, 1)[t] + View7(z, 2)[t] + View7(z, 3)[t] + View7(z, 4)[t] + View7(z, 5)[t] + View7(z, 6)[t]
      == Sum7(z, Kind(t))
  {
    hide Turn7, Kind, Rotation, Sum7;
    RotatedKind(z, Rotation(t), Kind(t));
    forall p | 0 <= p < 7 ensures View7(z, p)[t] == Seen(z, Rotation(t), Kind(t), p) {
      Turn7Is(p, Rotation(t));
      Turn7Is(Rotation(t), p);
    }
    hide View7, Seen;
  }

  lemma OffTotal7(z: Shares35)
    ensures OffMasks7(View7(z, 0)) + OffMasks7(View7(z, 1)) + OffMasks7(View7(z, 2)) + OffMasks7(View7(z, 3))
      + OffMasks7(View7(z, 4)) + OffMasks7(View7(z, 5)) + OffMasks7(View7(z, 6)) == MaskTotal7(z)
  {
    hide View7, Sum7, Kind;
    var s := seq(20, t requires 0 <= t < 20 =>
      View7(z, 0)[t] + View7(z, 1)[t] + View7(z, 2)[t] + View7(z, 3)[t] + View7(z, 4)[t] + View7(z, 5)[t] + View7(z, 6)[t]);
    forall t | 0 <= t < 20 ensures s[t] == Sum7(z, Kind(t)) {
      SlotTotal(z, t);
    }
    KindsOf(s, z);
  }

  /** Four slots are of each kind. */
  lemma KindsOf(s: Twenty, z: Shares35)
    requires forall t :: 0 <= t < 20 ==> s[t] == Sum7(z, Kind(t))
    ensures Sum20(s) == 4 * Total35(z) && s[0] == Sum7(z, 0)
  {
  }

  ghost predicate MaskedProduct7(v: nat, p: nat, a: Sharing7, b: Sharing7, z: seq<nat>, k: nat)
    requires p < 7 && |z| == 35
  {
    v == Masked(Masking7(p, WordOf(Local7(a[p], b[p])), NatView(z, p), 20), k)
  }

  /** The word of an integer. */
  function WordOf(x: int): nat {
    Wrap(x)
  }

  /** Party p's words of the thirty-five masks. */
  function NatView(z: seq<nat>, p: nat): (v: Words20)
    requires |z| == 35
    ensures v == View7(z, p)
  {
    seq(20, t requires 0 <= t < 20 => z[ShareOf7(p, t)])
  }

  lemma MaskedProduct7Cong(v: nat, p: nat, a: Sharing7, b: Sharing7, z: seq<nat>, k: nat)
    requires p < 7 && |z| == 35 && k <= W && Agreed7(a, k) && Agreed7(b, k) && MaskedProduct7(v, p, a, b, z, k)
    ensures Cong(v, Local7(View7(Canons7(a), p), View7(Canons7(b), p)) - OffMasks7(View7(z, p)), k)
  {
    hide Cong, Wrap, Local7, Agreed7, Masking7, Canons7, View7, Sum20, NatView, AllCong;
    ViewCong(a, p, k);
    ViewCong(b, p, k);
    Local7Cong(a[p], View7(Canons7(a), p), b[p], View7(Canons7(b), p), k);
    var l, l', y := Local7(a[p], b[p]), Local7(View7(Canons7(a), p), View7(Canons7(b), p)), OffMasks7(View7(z, p));
    WrapCong(l, k);
    var w := NatView(z, p);
    Masking7Cong(p, Wrap(l), w, 20, k);
    PrefixAll(w);
    assert w == View7(z, p) && Prefix(w, 20) - w[0] == y;
    CongTrans(Wrap(l), l, l', k);
    CongRefl(y, k);
    CongAdd(Wrap(l), l', y, y, k);
    var m := Masking7(p, Wrap(l), w, 20);
    CongMod(m, k);
    CongTrans(v, m, Wrap(l) - y, k);
    CongTrans(v, Wrap(l) - y, l' - y, k);
  }

  /** The thirty-five reshared sums share the product of the secrets. */
  lemma Product7(c: Sharing7, a: Sharing7, b: Sharing7, z: seq<nat>, vs: Words7, k: nat)
    requires |z| == 35 && k <= W && Agreed7(a, k) && Agreed7(b, k) && Reshared7(c, z, vs)
    requires forall p :: 0 <= p < 7 ==> MaskedProduct7(vs[p], p, a, b, z, k)
    ensures Additive7(c, Sum35(a) * Sum35(b), k)
  {
    hide Cong, Agreed7, MaskedProduct7, Reshared7, MaskTotal7, Local7, View7, OffMasks7, Canons7, Total35, SumOf7;
    ResharedAgreed7(c, z, vs, k);
    ResharedSum7(c, z, vs, k);
    var y := seq(7, p requires 0 <= p < 7 => Local7(View7(Canons7(a), p), View7(Canons7(b), p)) - OffMasks7(View7(z, p)));
    forall p | 0 <= p < 7 ensures Cong(vs[p], y[p], k) {
      MaskedProduct7Cong(vs[p], p, a, b, z, k);
    }
    SumOf7Cong(vs, y, k);
    EveryProductOnce7(Canons7(a), Canons7(b));
    OffTotal7(z);
    SumOf7Is(y);
    var s, t, m := SumOf7(vs), Sum35(a) * Sum35(b), MaskTotal7(z);
    assert SumOf7(y) == t - m;
    CongRefl(m, k);
    CongAdd(s, t - m, m, m, k);
    CongTrans(Sum35(c), s + m, t, k);
  }

  lemma SumOf7Is(y: seq<int>)
    requires |y| == 7
    ensures SumOf7(y) == y[0] + y[1] + y[2] + y[3] + y[4] + y[5] + y[6]
  {
  }

  // ---------- the protocol ----------

  function MaskWords7(v: Words7, k: nat): Words7 {
    [Masked(v[0], k), Masked(v[1], k), Masked(v[2], k), Masked(v[3], k), Masked(v[4], k), Masked(v[5], k), Masked(v[6], k)]
  }

  /** c[19] += recv[0], c[16] += recv[1], c[10] += recv[2], c[0] += v at one party. */
  function Received7(c: Words20, v: nat, r0: nat, r1: nat, r2: nat): Words20 {
    seq(20, t requires 0 <= t < 20 =>
      if t == 19 then Wrap(c[t] + r0) else if t == 16 then Wrap(c[t] + r1) else if t == 10 then Wrap(c[t] + r2)
      else if t == 0 then Wrap(c[t] + v) else c[t])
  }

  /** At party p the words come from the parties three, two and one places on. */
  function ReceivedAt(c: Words20, w: Words7, p: nat): Words20
    requires p < 7
  {
    Received7(c, w[p], w[Turn7(p, 3)], w[Turn7(p, 2)], w[Turn7(p, 1)])
  }

  /** What party p holds of one element before the exchange. */
  ghost predicate PreparedAt(c: Words20, v: nat, a: Sharing7, b: Sharing7, z: seq<nat>, p: nat)
    requires |z| == 35 && p < 7
  {
    && (forall t :: 0 <= t < 20 ==> c[t] == Repeated(z[ShareOf7(p, t)], if Kind(t) == 0 then 3 else 4))
    && v == Masking7(p, WordOf(Local7(a[p], b[p])), NatView(z, p), 20)
  }

  method PrepareAt(a: Sharing7, b: Sharing7, word: Words20, p: nat, ghost z: seq<nat>) returns (c: Words20, v: nat)
    requires |z| == 35 && p < 7 && word == NatView(z, p)
    ensures PreparedAt(c, v, a, b, z, p)
  {
    hide Repeated, Masking7, Local7, Wrap, Kind, ShareOf7, Count7, WordOf;
    c, v := MaskLoop7(p, WordOf(Local7(a[p], b[p])), word);
    forall t | 0 <= t < 20 ensures c[t] == Repeated(z[ShareOf7(p, t)], if Kind(t) == 0 then 3 else 4) {
      CountAll(p, t);
    }
  }

  /** The sums arrive exactly at the holders of the shares they belong to. */
  lemma ArrivesAt7(c: Words20, v: nat, a: Sharing7, b: Sharing7, z: seq<nat>, w: Words7, p: nat, t: nat)
    requires |z| == 35 && p < 7 && t < 20 && PreparedAt(c, v, a, b, z, p)
    ensures ReceivedAt(c, w, p)[t] == SharePart7(ShareOf7(p, t), z[ShareOf7(p, t)], w)
  {
    hide Repeated, Wrap, Masking7, Local7, Turn7, NatView, WordOf, Kind, Rotation, ShareOf7, SharePart7;
    ConsecutiveSlots(t);
    Turn7Is(p, 0);
    var e := ShareOf7(p, t);
    ShareIs(p, t);
    SharePartIs(e, z[e], w);
    if Kind(t) == 0 {
      Turn7Turn(p, Rotation(t), 6);
    }
  }

  lemma ShareIs(p: nat, t: nat)
    requires t < 20
    ensures ShareOf7(p, t) == 7 * Kind(t) + Turn7(p, Rotation(t))
  {
  }

  lemma SharePartIs(e: nat, z: nat, vs: Words7)
    requires e < 35
    ensures SharePart7(e, z, vs) == if e < 7 then Wrap(Repeated(z, 3) + vs[Turn7(e, 6)]) else Repeated(z, 4)
  {
  }

  /** The slots with shares of three consecutive parties. */
  lemma ConsecutiveSlots(t: nat)
    requires t < 20
    ensures Kind(t) == 0 <==> t == 0 || t == 10 || t == 16 || t == 19
    ensures Kind(t) == 0 ==> Rotation(t) == if t == 0 then 1 else if t == 10 then 2 else if t == 16 then 3 else 4
  {
  }

  ghost predicate PreparedAll(c: Sharing7, v: Words7, a: Sharing7, b: Sharing7, z: seq<nat>)
    requires |z| == 35
  {
    forall p :: 0 <= p < 7 ==> PreparedAt(c[p], v[p], a, b, z, p)
  }

  method PrepareElement7(a: Sharing7, b: Sharing7, words: Sharing7, ghost z: seq<nat>) returns (c: Sharing7, v: Words7)
    requires |z| == 35 && forall p :: 0 <= p < 7 ==> words[p] == NatView(z, p)
    ensures PreparedAll(c, v, a, b, z)
  {
    hide PreparedAt, NatView;
    c, v := [NoWords20, NoWords20, NoWords20, NoWords20, NoWords20, NoWords20, NoWords20], [0, 0, 0, 0, 0, 0, 0];
    for p := 0 to 7
      invariant forall q :: 0 <= q < p ==> PreparedAt(c[q], v[q], a, b, z, q)
    {
      var cp, vp := PrepareAt(a, b, words[p], p, z);
      c, v := c[p := cp], v[p := vp];
    }
  }

  method ReceiveElement7(c: Sharing7, v: Words7, k: nat, ghost a: Sharing7, ghost b: Sharing7, ghost z: seq<nat>)
    returns (r: Sharing7)
    requires |z| == 35 && 1 <= k <= W && PreparedAll(c, v, a, b, z) && Agreed7(a, k) && Agreed7(b, k)
    ensures Additive7(r, Sum35(a) * Sum35(b), k)
  {
    hide PreparedAt, Agreed7, Additive7, Sum35, ReceivedAt, SharePart7, ShareOf7, Masked;
    var w := MaskWords7(v, k);
    r := c;
    for p := 0 to 7
      invariant forall q :: p <= q < 7 ==> r[q] == c[q]
      invariant forall q, t :: 0 <= q < p && 0 <= t < 20 ==> r[q][t] == SharePart7(ShareOf7(q, t), z[ShareOf7(q, t)], w)
    {
      assert PreparedAt(c[p], v[p], a, b, z, p);
      forall t | 0 <= t < 20 ensures ReceivedAt(c[p], w, p)[t] == SharePart7(ShareOf7(p, t), z[ShareOf7(p, t)], w) {
        ArrivesAt7(c[p], v[p], a, b, z, w, p, t);
      }
      r := r[p := ReceivedAt(c[p], w, p)];
    }
    MaskedEach(c, v, a, b, z, k);
    Product7(r, a, b, z, w, k);
  }

  lemma MaskedEach(c: Sharing7, v: Words7, a: Sharing7, b: Sharing7, z: seq<nat>, k: nat)
    requires |z| == 35 && PreparedAll(c, v, a, b, z)
    ensures forall p :: 0 <= p < 7 ==> MaskedProduct7(MaskWords7(v, k)[p], p, a, b, z, k)
  {
    hide Masking7, Local7, NatView, ShareOf7, Repeated, Kind, Masked, WordOf;
    forall p | 0 <= p < 7 ensures MaskedProduct7(MaskWords7(v, k)[p], p, a, b, z, k) {
      assert PreparedAt(c[p], v[p], a, b, z, p);
    }
  }

  /**
   Everything after the draws: c shares the products of the secrets of a and b, whatever mask words zs[i]
   the holders have in common.
   */
  method MultiplyWith7(c: array<Sharing7>, a: array<Sharing7>, b: array<Sharing7>, words: array<Sharing7>, k: nat,
          ghost zs: seq<seq<nat>>)
    requires 1 <= k <= W && c.Length == a.Length == b.Length == words.Length == |zs| && c != a && c != b && c != words
    requires forall i :: 0 <= i < a.Length ==> Agreed7(a[i], k) && Agreed7(b[i], k)
    requires forall i :: 0 <= i < a.Length ==> |zs[i]| == 35
    requires forall i, p :: 0 <= i < a.Length && 0 <= p < 7 ==> words[i][p] == NatView(zs[i], p)
    modifies c
    ensures forall i :: 0 <= i < c.Length ==> Additive7(c[i], Sum35(a[i]) * Sum35(b[i]), k)
  {
    hide *;
    var v := new Words7[c.Length](_ => [0, 0, 0, 0, 0, 0, 0]);
    for i := 0 to c.Length
      invariant forall j :: 0 <= j < i ==> PreparedAll(c[j], v[j], a[j], b[j], zs[j])
      modifies c, v
    {
      c[i], v[i] := PrepareElement7(a[i], b[i], words[i], zs[i]);
    }
    label Prepared:
    for i := 0 to c.Length
      invariant forall j :: 0 <= j < i ==> Additive7(c[j], Sum35(a[j]) * Sum35(b[j]), k)
      invariant forall j :: i <= j < c.Length ==> c[j] == old@Prepared(c[j])
      modifies c
    {
      assert PreparedAll(old@Prepared(c[i]), v[i], a[i], b[i], zs[i]);
      assert Agreed7(a[i], k) && Agreed7(b[i], k);
      c[i] := ReceiveElement7(c[i], v[i], k, a[i], b[i], zs[i]);
    }
  }

  // ---------- the draws ----------

  ghost predicate Valid7(net: seq<NodeNetwork>)
    reads net
  {
    && |net| == 7
    && (forall p, q :: 0 <= p < q < 7 ==> net[p] != net[q])
    && forall p :: 0 <= p < 7 ==> net[p].Valid() && net[p].numShares == 20
  }

  /** The four holders of every share's key are at the same point of its stream. */
  ghost predicate Follows7(net: seq<NodeNetwork>, gens: seq<Gen>)
    reads net
  {
    Valid7(net) && |gens| == 35 && forall p :: 0 <= p < 7 ==> NodeFollows7(net[p], gens, p)
  }

  ghost predicate NodeFollows7(node: NodeNetwork, gens: seq<Gen>, p: nat)
    requires |gens| == 35
    reads node
  {
    node.Valid() && node.numShares == 20 && forall t :: 0 <= t < 20 ==> node.Slot(t) == gens[ShareOf7(p, t)]
  }

  /** prg_ctrs: how many words per element are drawn for a slot, and for a share. */
  function PrgCtr7(t: nat): nat
    requires t < 20
  {
    [3, 4, 4, 4, 4, 4, 4, 4, 4, 4, 3, 4, 4, 4, 4, 4, 3, 4, 4, 3][t]
  }

  function ShareCtr7(e: nat): nat {
    if e < 7 then 3 else 4
  }

  /** Every holder draws as much of a share's stream: as many words as there are owing parties. */
  lemma SameCtr(p: nat, t: nat)
    requires p < 7 && t < 20
    ensures PrgCtr7(t) == ShareCtr7(ShareOf7(p, t)) == Count7(p, t, 7)
  {
    CountAll(p, t);
    hide Count7, Turn7, Rotation;
  }

  ghost function Sizes7(n: nat, k: nat): (s: seq<nat>)
    ensures |s| == 35
  {
    seq(35, e requires 0 <= e < 35 => Multiplication.RequestSize(ShareCtr7(e) * n, k))
  }

  function Counts7(n: nat, k: nat): (s: seq<nat>)
    ensures |s| == 20
  {
    seq(20, t requires 0 <= t < 20 => Multiplication.RequestSize(PrgCtr7(t) * n, k))
  }

  lemma Counts7AreSizes(n: nat, k: nat)
    requires n >= 1 && k >= 1
    ensures forall t :: 0 <= t < 20 ==> Counts7(n, k)[t] >= 1
    ensures forall p, t :: 0 <= p < 7 && 0 <= t < 20 ==> Counts7(n, k)[t] == Sizes7(n, k)[ShareOf7(p, t)]
  {
    hide Multiplication.RequestSize, ShareOf7, Count7;
    forall p, t | 0 <= p < 7 && 0 <= t < 20 ensures PrgCtr7(t) == ShareCtr7(ShareOf7(p, t)) && PrgCtr7(t) >= 1 {
      SameCtr(p, t);
    }
    assert forall t :: 0 <= t < 20 ==> PrgCtr7(t) >= 1 && PrgCtr7(t) * n >= 1;
  }

  ghost function AdvanceEach7(gens: seq<Gen>, sizes: seq<nat>): (r: seq<Gen>)
    requires |gens| == |sizes| == 35
    ensures |r| == 35
  {
    seq(35, e requires 0 <= e < 35 => Advance(gens[e], sizes[e]))
  }

  ghost function TakeEach7(gens: seq<Gen>, sizes: seq<nat>): (r: seq<seq<Byte>>)
    requires |gens| == |sizes| == 35
    ensures |r| == 35
  {
    seq(35, e requires 0 <= e < 35 => Take(gens[e], sizes[e]))
  }

  /** The bytes party p holds of each share's stream. */
  ghost predicate Holds7(buf: seq<seq<Byte>>, streams: seq<seq<Byte>>, p: nat)
    requires |streams| == 35
  {
    |buf| == 20 && forall t :: 0 <= t < 20 ==> buf[t] == streams[ShareOf7(p, t)]
  }

  /** A party's draws from its twenty slots, in order. */
  method DrawTwenty(node: NodeNetwork, counts: seq<nat>) returns (buf: seq<seq<Byte>>)
    requires node.Valid() && node.numShares == 20 && |counts| == 20 && forall t :: 0 <= t < 20 ==> counts[t] >= 1
    modifies node`container, node`position
    ensures node.Valid() && |buf| == 20
    ensures forall t :: 0 <= t < 20 ==> buf[t] == Take(old(node.Slot(t)), counts[t])
    ensures forall t :: 0 <= t < 20 ==> node.Slot(t) == Advance(old(node.Slot(t)), counts[t])
    ensures node.Slot(20) == old(node.Slot(20))
  {
    hide Take, Advance;
    buf := [];
    for t := 0 to 20
      invariant node.Valid() && |buf| == t
      invariant forall u :: 0 <= u < t ==> buf[u] == Take(old(node.Slot(u)), counts[u])
      invariant forall u :: 0 <= u < t ==> node.Slot(u) == Advance(old(node.Slot(u)), counts[u])
      invariant forall u :: t <= u <= 20 ==> node.Slot(u) == old(node.Slot(u))
    {
      var dest := new Byte[counts[t]];
      node.PrgGetrandom(t, counts[t], dest);
      buf := buf + [dest[..]];
    }
  }

  method DrawNode7(node: NodeNetwork, counts: seq<nat>, ghost gens: seq<Gen>, ghost sizes: seq<nat>, ghost p: nat)
    returns (b: seq<seq<Byte>>)
    requires |gens| == |sizes| == 35 && NodeFollows7(node, gens, p) && |counts| == 20
    requires forall t :: 0 <= t < 20 ==> counts[t] >= 1 && counts[t] == sizes[ShareOf7(p, t)]
    modifies node
    ensures NodeFollows7(node, AdvanceEach7(gens, sizes), p) && Holds7(b, TakeEach7(gens, sizes), p)
    ensures node.Valid() && node.numShares == 20 && node.Slot(20) == old(node.Slot(20))
  {
    hide Take, Advance, ShareOf7;
    b := DrawTwenty(node, counts);
  }

  /** Every party draws from its slots; the holders of a key stay together. */
  method DrawShares7(net: seq<NodeNetwork>, counts: seq<nat>, ghost gens: seq<Gen>, ghost sizes: seq<nat>)
    returns (buf: seq<seq<seq<Byte>>>)
    requires Follows7(net, gens) && |counts| == 20 && |sizes| == 35 && forall t :: 0 <= t < 20 ==> counts[t] >= 1
    requires forall p, t :: 0 <= p < 7 && 0 <= t < 20 ==> counts[t] == sizes[ShareOf7(p, t)]
    modifies net
    ensures Follows7(net, AdvanceEach7(gens, sizes))
    ensures |buf| == 7 && forall p :: 0 <= p < 7 ==> Holds7(buf[p], TakeEach7(gens, sizes), p)
  {
    hide Take, Advance, ShareOf7, Holds7, NodeFollows7, AdvanceEach7, TakeEach7;
    buf := [];
    for p := 0 to 7
      invariant Valid7(net) && |buf| == p
      invariant forall q :: 0 <= q < p ==> Holds7(buf[q], TakeEach7(gens, sizes), q)
      invariant forall q :: 0 <= q < p ==> NodeFollows7(net[q], AdvanceEach7(gens, sizes), q)
      invariant forall q :: p <= q < 7 ==> NodeFollows7(net[q], gens, q)
    {
      var b := DrawNode7(net[p], counts, gens, sizes, p);
      buf := buf + [b];
    }
  }

  /** The words that mask element i: the tracker is reset for every party and share. */
  ghost function MaskWordsOf(streams: seq<seq<Byte>>, i: nat, bytes: nat): (z: seq<nat>)
    requires |streams| == 35
    ensures |z| == 35
  {
    seq(35, e requires 0 <= e < 35 => FivePartyMult.StreamWord(streams[e], ShareCtr7(e), i, bytes))
  }

  function LoadTwenty(buf: seq<seq<Byte>>, i: nat, bytes: nat): Words20
    requires |buf| == 20
  {
    seq(20, t requires 0 <= t < 20 => FivePartyMult.StreamWord(buf[t], PrgCtr7(t), i, bytes))
  }

  lemma LoadedTwenty(buf: seq<seq<Byte>>, streams: seq<seq<Byte>>, p: nat, i: nat, bytes: nat)
    requires |streams| == 35 && p < 7 && Holds7(buf, streams, p)
    ensures LoadTwenty(buf, i, bytes) == NatView(MaskWordsOf(streams, i, bytes), p)
  {
    hide FivePartyMult.StreamWord, ShareOf7, PrgCtr7, Count7;
    forall t | 0 <= t < 20 ensures PrgCtr7(t) == ShareCtr7(ShareOf7(p, t)) {
      SameCtr(p, t);
    }
  }

  /** The words every party loads for every element. */
  method LoadAll7(buf: seq<seq<seq<Byte>>>, n: nat, bytes: nat, ghost streams: seq<seq<Byte>>) returns (words: array<Sharing7>)
    requires |streams| == 35 && |buf| == 7 && forall p :: 0 <= p < 7 ==> |buf[p]| == 20 && Holds7(buf[p], streams, p)
    ensures fresh(words) && words.Length == n
    ensures forall i, p :: 0 <= i < n && 0 <= p < 7 ==> words[i][p] == NatView(MaskWordsOf(streams, i, bytes), p)
  {
    hide LoadTwenty, NatView, MaskWordsOf, Holds7;
    words := new Sharing7[n];
    for i := 0 to n
      invariant forall j, p :: 0 <= j < i && 0 <= p < 7 ==> words[j][p] == NatView(MaskWordsOf(streams, j, bytes), p)
      modifies words
    {
      forall p | 0 <= p < 7 ensures LoadTwenty(buf[p], i, bytes) == NatView(MaskWordsOf(streams, i, bytes), p) {
        LoadedTwenty(buf[p], streams, p, i, bytes);
      }
      words[i] := [LoadTwenty(buf[0], i, bytes), LoadTwenty(buf[1], i, bytes), LoadTwenty(buf[2], i, bytes),
                   LoadTwenty(buf[3], i, bytes), LoadTwenty(buf[4], i, bytes), LoadTwenty(buf[5], i, bytes),
                   LoadTwenty(buf[6], i, bytes)];
    }
  }

  lemma TwentyBuffers(buf: seq<seq<Byte>>, streams: seq<seq<Byte>>, p: nat)
    requires |streams| == 35 && Holds7(buf, streams, p)
    ensures |buf| == 20
  {
  }

  /**
   `Rss_Mult_7pc`: for all inputs and generator contents c shares the products of the secrets of a and b, and
   the holders of every key stay together.
   */
  method Mult7(c: array<Sharing7>, a: array<Sharing7>, b: array<Sharing7>, k: nat, net: seq<NodeNetwork>,
          ghost gens: seq<Gen>)
    requires Follows7(net, gens) && 1 <= k <= W && 1 <= c.Length == a.Length == b.Length && c != a && c != b
    requires forall i :: 0 <= i < a.Length ==> Agreed7(a[i], k) && Agreed7(b[i], k)
    modifies c, net
    ensures Follows7(net, AdvanceEach7(gens, Sizes7(c.Length, k)))
    ensures forall i :: 0 <= i < c.Length ==> Additive7(c[i], Sum35(a[i]) * Sum35(b[i]), k)
  {
    assert |gens| == 35 && |net| == 7;
    Counts7AreSizes(c.Length, k);
    ghost var streams := TakeEach7(gens, Sizes7(c.Length, k));
    hide *;
    var buf := DrawShares7(net, Counts7(c.Length, k), gens, Sizes7(c.Length, k));
    forall p | 0 <= p < 7 ensures |buf[p]| == 20 {
      TwentyBuffers(buf[p], streams, p);
    }
    var words := LoadAll7(buf, c.Length, BytesFor(k), streams);
    ghost var zs := seq(c.Length, i requires 0 <= i < c.Length => MaskWordsOf(streams, i, BytesFor(k)));
    MultiplyWith7(c, a, b, words, k, zs);
  }
}
