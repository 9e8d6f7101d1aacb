/**
 Seven parties, three of which may be corrupted: each of the thirty-five shares is missing at three parties
 and held by the other four (`Rss_Mult_7pc`).

 Up to rotation there are five kinds of shares.  Share 7*o+x misses the parties x, x+1 and x+2 for o = 0;
 x, x+1, x+3; x, x+1, x+4; x, x+1, x+5; and x, x+2, x+4 (mod 7) for o = 1 .. 4.
 */
module SevenParty {
  import opened Ring
  import opened Words
  import opened FiveParty

  type Twenty = s: seq<int> | |s| == 20 witness seq(20, _ => 0)

  type Shares35 = s: seq<int> | |s| == 35 witness seq(35, _ => 0)

  // ---------- rotation ----------

  function Turn7(p: nat, d: nat): (q: nat)
    ensures q < 7
  {
    (p + d) % 7
  }

  lemma Turn7Is(p: nat, d: nat)
    requires p < 7 && d < 7
    ensures Turn7(p, d) == if p + d < 7 then p + d else p + d - 7
  {
  }

  function Below7(d: nat): nat {
    if d < 7 then d else d - 7
  }

  lemma Turn7Turn(p: nat, d: nat, d': nat)
    requires p < 7 && d < 7 && d' < 7
    ensures Turn7(Turn7(p, d), d') == Turn7(p, Below7(d + d'))
  {
    hide Turn7;
    Turn7Is(p, d);
    Turn7Is(Turn7(p, d), d');
    Turn7Is(p, Below7(d + d'));
  }

  /** The kind of the share in slot t, and how far it is rotated from the party that holds it there. */
  function Kind(t: nat): (o: nat)
    requires t < 20
    ensures o < 5
  {
    if t == 1 || t == 9 || t == 11 || t == 17 then 1
    else if t == 2 || t == 7 || t == 12 || t == 15 then 2
    else if t == 3 || t == 4 || t == 13 || t == 18 then 3
    else if t == 5 || t == 6 || t == 8 || t == 14 then 4
    else 0
  }

  function Rotation(t: nat): (r: nat)
    requires t < 20
    ensures 1 <= r <= 6
  {
    if t == 10 || t == 11 || t == 12 || t == 14 then 2
    else if t == 4 || t == 16 || t == 17 then 3
    else if t == 7 || t == 8 || t == 13 || t == 19 then 4
    else if t == 9 || t == 15 || t == 18 then 5
    else if t == 6 then 6
    else 1
  }

  function ShareOf7(p: nat, t: nat): (e: nat)
    requires t < 20
    ensures e < 35
  {
    7 * Kind(t) + Turn7(p, Rotation(t))
  }

  /** Party p's view of the thirty-five shares. */
  function View7(b: Shares35, p: nat): Twenty {
    seq(20, t requires 0 <= t < 20 => b[ShareOf7(p, t)])
  }

  /** Share d places on from x among those of kind o. */
  function Seen(b: Shares35, x: nat, o: nat, d: nat): int
    requires o < 5
  {
    b[7 * o + Turn7(x, d)]
  }

  lemma TurnedView7(b: Shares35, x: nat, d: nat, t: nat)
    requires x < 7 && d < 7 && t < 20
    ensures View7(b, Turn7(x, d))[t] == Seen(b, x, Kind(t), Below7(d + Rotation(t)))
  {
    hide Turn7, Kind, Rotation;
    Turn7Turn(x, d, Rotation(t));
  }

  // ---------- sums ----------

  function Sum20(s: Twenty): int {
    s[0] + s[1] + s[2] + s[3] + s[4] + s[5] + s[6] + s[7] + s[8] + s[9] + s[10] + s[11] + s[12] + s[13] + s[14]
    + s[15] + s[16] + s[17] + s[18] + s[19]
  }

  /** The shares of one kind. */
  function Sum7(s: Shares35, o: nat): int
    requires o < 5
  {
    s[7 * o] + s[7 * o + 1] + s[7 * o + 2] + s[7 * o + 3] + s[7 * o + 4] + s[7 * o + 5] + s[7 * o + 6]
  }

  function Total35(s: Shares35): int {
    Sum7(s, 0) + Sum7(s, 1) + Sum7(s, 2) + Sum7(s, 3) + Sum7(s, 4)
  }

  lemma RotatedSeven(s: seq<int>, x: nat)
    requires |s| == 7 && x < 7
    ensures s[Turn7(x, 0)] + s[Turn7(x, 1)] + s[Turn7(x, 2)] + s[Turn7(x, 3)] + s[Turn7(x, 4)] + s[Turn7(x, 5)] + s[Turn7(x, 6)]
      == s[0] + s[1] + s[2] + s[3] + s[4] + s[5] + s[6]
  {
    hide Turn7;
    Turn7Is(x, 0);
    Turn7Is(x, 1);
    Turn7Is(x, 2);
    Turn7Is(x, 3);
    Turn7Is(x, 4);
    Turn7Is(x, 5);
    Turn7Is(x, 6);
    if x == 0 {
    } else if x == 1 {
    } else if x == 2 {
    } else if x == 3 {
    } else if x == 4 {
    } else if x == 5 {
    } else {
    }
  }

  lemma RotatedKind(b: Shares35, x: nat, o: nat)
    requires x < 7 && o < 5
    ensures Seen(b, x, o, 0) + Seen(b, x, o, 1) + Seen(b, x, o, 2) + Seen(b, x, o, 3) + Seen(b, x, o, 4) + Seen(b, x, o, 5)
      + Seen(b, x, o, 6) == Sum7(b, o)
  {
    hide Turn7;
    RotatedSeven(b[7 * o..7 * o + 7], x);
  }

  lemma RotatedTotal35(b: Shares35, x: nat)
    requires x < 7
    ensures Seen(b, x, 0, 0) + Seen(b, x, 0, 1) + Seen(b, x, 0, 2) + Seen(b, x, 0, 3) + Seen(b, x, 0, 4) + Seen(b, x, 0, 5)
      + Seen(b, x, 0, 6) + Seen(b, x, 1, 0) + Seen(b, x, 1, 1) + Seen(b, x, 1, 2) + Seen(b, x, 1, 3)
      + Seen(b, x, 1, 4) + Seen(b, x, 1, 5) + Seen(b, x, 1, 6) + Seen(b, x, 2, 0) + Seen(b, x, 2, 1)
      + Seen(b, x, 2, 2) + Seen(b, x, 2, 3) + Seen(b, x, 2, 4) + Seen(b, x, 2, 5) + Seen(b, x, 2, 6)
      + Seen(b, x, 3, 0) + Seen(b, x, 3, 1) + Seen(b, x, 3, 2) + Seen(b, x, 3, 3) + Seen(b, x, 3, 4)
      + Seen(b, x, 3, 5) + Seen(b, x, 3, 6) + Seen(b, x, 4, 0) + Seen(b, x, 4, 1) + Seen(b, x, 4, 2)
      + Seen(b, x, 4, 3) + Seen(b, x, 4, 4) + Seen(b, x, 4, 5) + Seen(b, x, 4, 6)
      == Total35(b)
  {
    hide Seen, Sum7;
    RotatedKind(b, x, 0);
    RotatedKind(b, x, 1);
    RotatedKind(b, x, 2);
    RotatedKind(b, x, 3);
    RotatedKind(b, x, 4);
  }

  // ---------- the local products ----------

  /** What a party multiplies its share t of the first operand by. */
  function Cofactor7(v: Twenty, t: nat): int {
    match t
    case 4 => v[0] + v[1] + v[2] + v[3] + v[10] + v[11] + v[12] + v[13] + v[15]
    case 6 => v[2] + v[5] + v[7] + v[9] + v[11] + v[13]
    case 7 => v[0] + v[4] + v[5] + v[6] + v[10] + v[11] + v[12]
    case 8 => v[0] + v[4] + v[5] + v[10] + v[11] + v[16]
    case 9 => v[1] + v[4] + v[7] + v[8] + v[10] + v[13]
    case 10 => v[0] + v[1] + v[2] + v[3] + v[4] + v[5] + v[9]
    case 11 => v[0] + v[1] + v[4] + v[6] + v[7] + v[8]
    case 12 => v[0] + v[1] + v[2] + v[4] + v[5] + v[7]
    case 13 => v[0] + v[4] + v[5] + v[6]
    case 14 => v[2] + v[4] + v[5]
    case 15 => v[1] + v[4]
    case 16 => v[0] + v[1] + v[2] + v[3] + v[15]
    case 17 => v[0] + v[1] + v[2]
    case 18 => v[1] + v[8]
    case 19 => v[0] + v[5] + v[6]
    case _ => Sum20(v)
  }

  /** The cross products one party forms. */
  function Local7(a: Twenty, b: Twenty): int {
    Sum20(seq(20, t requires 0 <= t < 20 => Times(a[t], Cofactor7(b, t))))
  }

  // ---------- every product once ----------

  /** What party p forms with its share t of the first operand. */
  function Term(a: Shares35, b: Shares35, p: nat, t: nat): int
    requires t < 20
  {
    Times(a[ShareOf7(p, t)], Cofactor7(View7(b, p), t))
  }

  /** The slots in which the holders of a share of kind o have it. */
  function SlotOf(o: nat, i: nat): (t: nat)
    requires o < 5 && i < 4
    ensures t < 20 && Kind(t) == o
  {
    [[0, 10, 16, 19], [1, 9, 11, 17], [2, 7, 12, 15], [3, 4, 13, 18], [5, 6, 8, 14]][o][i]
  }

  /** The cofactor at the party that holds share x of its kind in slot t. */
  function HolderCofactor(b: Shares35, x: nat, t: nat): int
    requires t < 20
  {
    Cofactor7(View7(b, Turn7(x, 7 - Rotation(t))), t)
  }

  lemma HolderView(b: Shares35, x: nat, t: nat, d: nat)
    requires x < 7 && t < 20 && d + Rotation(t) == 7
    ensures HolderCofactor(b, x, t) == Cofactor7(View7(b, Turn7(x, d)), t)
    ensures forall u :: 0 <= u < 20 ==> View7(b, Turn7(x, d))[u] == Seen(b, x, Kind(u), Below7(d + Rotation(u)))
  {
    hide Turn7, Seen, View7, Kind, Cofactor7;
    forall u | 0 <= u < 20 ensures View7(b, Turn7(x, d))[u] == Seen(b, x, Kind(u), Below7(d + Rotation(u))) {
      TurnedView7(b, x, d, u);
    }
  }

  lemma Kind0Cofactors(b: Shares35, x: nat)
    requires x < 7
    ensures HolderCofactor(b, x, 0) + HolderCofactor(b, x, 10) + HolderCofactor(b, x, 16) + HolderCofactor(b, x, 19) == Total35(b)
  {
    hide Turn7, Seen, Total35, View7, HolderCofactor;
    RotatedTotal35(b, x);
    HolderView(b, x, 0, 6);
    HolderView(b, x, 10, 5);
    HolderView(b, x, 16, 4);
    HolderView(b, x, 19, 3);
  }

  lemma Kind1Cofactors(b: Shares35, x: nat)
    requires x < 7
    ensures HolderCofactor(b, x, 1) + HolderCofactor(b, x, 9) + HolderCofactor(b, x, 11) + HolderCofactor(b, x, 17) == Total35(b)
  {
    hide Turn7, Seen, Total35, View7, HolderCofactor;
    RotatedTotal35(b, x);
    HolderView(b, x, 1, 6);
    HolderView(b, x, 9, 2);
    HolderView(b, x, 11, 5);
    HolderView(b, x, 17, 4);
  }

  lemma Kind2Cofactors(b: Shares35, x: nat)
    requires x < 7
    ensures HolderCofactor(b, x, 2) + HolderCofactor(b, x, 7) + HolderCofactor(b, x, 12) + HolderCofactor(b, x, 15) == Total35(b)
  {
    hide Turn7, Seen, Total35, View7, HolderCofactor;
    RotatedTotal35(b, x);
    HolderView(b, x, 2, 6);
    HolderView(b, x, 7, 3);
    HolderView(b, x, 12, 5);
    HolderView(b, x, 15, 2);
  }

  lemma Kind3Cofactors(b: Shares35, x: nat)
    requires x < 7
    ensures HolderCofactor(b, x, 3) + HolderCofactor(b, x, 4) + HolderCofactor(b, x, 13) + HolderCofactor(b, x, 18) == Total35(b)
  {
    hide Turn7, Seen, Total35, View7, HolderCofactor;
    RotatedTotal35(b, x);
    HolderView(b, x, 3, 6);
    HolderView(b, x, 4, 4);
    HolderView(b, x, 13, 3);
    HolderView(b, x, 18, 2);
  }

  lemma Kind4Cofactors(b: Shares35, x: nat)
    requires x < 7
    ensures HolderCofactor(b, x, 5) + HolderCofactor(b, x, 6) + HolderCofactor(b, x, 8) + HolderCofactor(b, x, 14) == Total35(b)
  {
    hide Turn7, Seen, Total35, View7, HolderCofactor;
    RotatedTotal35(b, x);
    HolderView(b, x, 5, 6);
    HolderView(b, x, 6, 1);
    HolderView(b, x, 8, 3);
    HolderView(b, x, 14, 5);
  }

  /** The four holders' cofactors of one share make up the whole second operand. */
  lemma HolderCofactors(b: Shares35, x: nat, o: nat)
    requires x < 7 && o < 5
    ensures HolderCofactor(b, x, SlotOf(o, 0)) + HolderCofactor(b, x, SlotOf(o, 1)) + HolderCofactor(b, x, SlotOf(o, 2))
      + HolderCofactor(b, x, SlotOf(o, 3)) == Total35(b)
  {
    hide HolderCofactor, Total35;
    match o
    case 0 => Kind0Cofactors(b, x);
    case 1 => Kind1Cofactors(b, x);
    case 2 => Kind2Cofactors(b, x);
    case 3 => Kind3Cofactors(b, x);
    case _ => Kind4Cofactors(b, x);
  }

  /** The terms of all parties for slot t. */
  function SlotTotal(a: Shares35, b: Shares35, t: nat): int
    requires t < 20
  {
    Term(a, b, 0, t) + Term(a, b, 1, t) + Term(a, b, 2, t) + Term(a, b, 3, t) + Term(a, b, 4, t) + Term(a, b, 5, t)
    + Term(a, b, 6, t)
  }

  /** The same terms, share by share of that kind. */
  function ByShare(a: Shares35, b: Shares35, t: nat): (s: seq<int>)
    requires t < 20
    ensures |s| == 7
  {
    seq(7, x requires 0 <= x < 7 => Times(a[7 * Kind(t) + x], HolderCofactor(b, x, t)))
  }

  lemma TermAtShare(a: Shares35, b: Shares35, p: nat, t: nat)
    requires p < 7 && t < 20
    ensures Term(a, b, p, t) == ByShare(a, b, t)[Turn7(Rotation(t), p)]
  {
    hide Times, Cofactor7, View7, Turn7, Kind, Rotation;
    var r := Rotation(t);
    Turn7Is(r, p);
    Turn7Is(p, r);
    Turn7Turn(p, r, 7 - r);
    Turn7Is(p, 0);
  }

  lemma SlotByShare(a: Shares35, b: Shares35, t: nat)
    requires t < 20
    ensures var s := ByShare(a, b, t); SlotTotal(a, b, t) == s[0] + s[1] + s[2] + s[3] + s[4] + s[5] + s[6]
  {
    hide Term, ByShare, Turn7, Rotation;
    RotatedSeven(ByShare(a, b, t), Rotation(t));
    TermAtShare(a, b, 0, t);
    TermAtShare(a, b, 1, t);
    TermAtShare(a, b, 2, t);
    TermAtShare(a, b, 3, t);
    TermAtShare(a, b, 4, t);
    TermAtShare(a, b, 5, t);
    TermAtShare(a, b, 6, t);
  }

  /** Every share of one kind is multiplied by the whole second operand. */
  lemma KindTotal(a: Shares35, b: Shares35, o: nat)
    requires o < 5
    ensures SlotTotal(a, b, SlotOf(o, 0)) + SlotTotal(a, b, SlotOf(o, 1)) + SlotTotal(a, b, SlotOf(o, 2))
      + SlotTotal(a, b, SlotOf(o, 3)) == Sum7(a, o) * Total35(b)
  {
    hide Times, HolderCofactor, SlotTotal, SlotOf, Total35, Kind;
    var t0, t1, t2, t3 := SlotOf(o, 0), SlotOf(o, 1), SlotOf(o, 2), SlotOf(o, 3);
    SlotByShare(a, b, t0);
    SlotByShare(a, b, t1);
    SlotByShare(a, b, t2);
    SlotByShare(a, b, t3);
    var s0, s1, s2, s3 := ByShare(a, b, t0), ByShare(a, b, t1), ByShare(a, b, t2), ByShare(a, b, t3);
    forall x: nat | x < 7 ensures s0[x] + s1[x] + s2[x] + s3[x] == Times(a[7 * o + x], Total35(b)) {
      HolderCofactors(b, x, o);
      FourTimes(a[7 * o + x], HolderCofactor(b, x, t0), HolderCofactor(b, x, t1), HolderCofactor(b, x, t2), HolderCofactor(b, x, t3));
    }
    KindFactor(a, Total35(b), o);
  }

  lemma FourTimes(x: int, u: int, v: int, w: int, z: int)
    ensures Times(x, u) + Times(x, v) + Times(x, w) + Times(x, z) == Times(x, u + v + w + z)
  {
  }

  lemma KindFactor(a: Shares35, y: int, o: nat)
    requires o < 5
    ensures Times(a[7 * o], y) + Times(a[7 * o + 1], y) + Times(a[7 * o + 2], y) + Times(a[7 * o + 3], y)
      + Times(a[7 * o + 4], y) + Times(a[7 * o + 5], y) + Times(a[7 * o + 6], y) == Sum7(a, o) * y
  {
  }

  lemma LocalByTerms(a: Shares35, b: Shares35, p: nat)
    requires p < 7
    ensures Local7(View7(a, p), View7(b, p)) == Sum20(TermsOf(a, b, p))
  {
    hide Times, Cofactor7, ShareOf7;
    var x, y := View7(a, p), View7(b, p);
    assert seq(20, t requires 0 <= t < 20 => Times(x[t], Cofactor7(y, t))) == TermsOf(a, b, p);
  }

  function TermsOf(a: Shares35, b: Shares35, p: nat): Twenty {
    seq(20, t requires 0 <= t < 20 => Term(a, b, p, t))
  }

  function SlotTotals(a: Shares35, b: Shares35): Twenty {
    seq(20, t requires 0 <= t < 20 => SlotTotal(a, b, t))
  }

  /** Party by party or slot by slot, the terms are the same. */
  lemma TermsBySlot(a: Shares35, b: Shares35)
    ensures Sum20(TermsOf(a, b, 0)) + Sum20(TermsOf(a, b, 1)) + Sum20(TermsOf(a, b, 2)) + Sum20(TermsOf(a, b, 3))
      + Sum20(TermsOf(a, b, 4)) + Sum20(TermsOf(a, b, 5)) + Sum20(TermsOf(a, b, 6)) == Sum20(SlotTotals(a, b))
  {
    hide Term;
  }

  /** Slot by slot or kind by kind. */
  lemma SlotsByKind(s: Twenty)
    ensures Sum20(s) == KindSum(s, 0) + KindSum(s, 1) + KindSum(s, 2) + KindSum(s, 3) + KindSum(s, 4)
  {
  }

  function KindSum(s: Twenty, o: nat): int
    requires o < 5
  {
    s[SlotOf(o, 0)] + s[SlotOf(o, 1)] + s[SlotOf(o, 2)] + s[SlotOf(o, 3)]
  }

  /** Together the seven parties form every one of the 1225 cross products exactly once. */
  lemma EveryProductOnce7(a: Shares35, b: Shares35)
    ensures Local7(View7(a, 0), View7(b, 0)) + Local7(View7(a, 1), View7(b, 1)) + Local7(View7(a, 2), View7(b, 2))
      + Local7(View7(a, 3), View7(b, 3)) + Local7(View7(a, 4), View7(b, 4)) + Local7(View7(a, 5), View7(b, 5))
      + Local7(View7(a, 6), View7(b, 6)) == Total35(a) * Total35(b)
  {
    hide Local7, View7, Sum7, Total35, Sum20, SlotTotal, TermsOf, SlotOf;
    LocalByTerms(a, b, 0);
    LocalByTerms(a, b, 1);
    LocalByTerms(a, b, 2);
    LocalByTerms(a, b, 3);
    LocalByTerms(a, b, 4);
    LocalByTerms(a, b, 5);
    LocalByTerms(a, b, 6);
    TermsBySlot(a, b);
    SlotsByKind(SlotTotals(a, b));
    KindTotal(a, b, 0);
    KindTotal(a, b, 1);
    KindTotal(a, b, 2);
    KindTotal(a, b, 3);
    KindTotal(a, b, 4);
    TotalOfKinds(a);
    FiveTimes7(Sum7(a, 0), Sum7(a, 1), Sum7(a, 2), Sum7(a, 3), Sum7(a, 4), Total35(b));
  }

  lemma TotalOfKinds(a: Shares35)
    ensures Total35(a) == Sum7(a, 0) + Sum7(a, 1) + Sum7(a, 2) + Sum7(a, 3) + Sum7(a, 4)
  {
  }

  lemma FiveTimes7(x0: int, x1: int, x2: int, x3: int, x4: int, y: int)
    ensures (x0 + x1 + x2 + x3 + x4) * y == x0 * y + x1 * y + x2 * y + x3 * y + x4 * y
  {
  }
}
