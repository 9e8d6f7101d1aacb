/**
 Five parties, two of which may be corrupted: every one of the ten shares is missing at two parties and
 held by the other three.

 Parties are counted from 0 here; the tables keep the source's identifiers 1 .. 5.
 */
module FiveParty {
  import opened Ring
  import opened Words

  /** What one party holds: a word for each of its six shares. */
  type Six = s: seq<nat> | |s| == 6 witness [0, 0, 0, 0, 0, 0]

  const NoWords: Six := [0, 0, 0, 0, 0, 0]

  /** What the five parties hold of one secret. */
  type Sharing5 = x: seq<Six> | |x| == 5 witness [NoWords, NoWords, NoWords, NoWords, NoWords]

  /** One word per party. */
  type Words5 = v: seq<nat> | |v| == 5 witness [0, 0, 0, 0, 0]

  // ---------- the tables ----------

  /** The identifier d places after id. */
  function After(id: nat, d: nat): nat
    requires id >= 1
  {
    (id + d - 1) % 5 + 1
  }

  /** T_map_5pc of party id: the two parties that miss share t. */
  function TMap(id: nat, t: nat): (nat, nat)
    requires id >= 1 && t < 6
  {
    match t
    case 0 => (After(id, 1), After(id, 2))
    case 1 => (After(id, 1), After(id, 3))
    case 2 => (After(id, 1), After(id, 4))
    case 3 => (After(id, 2), After(id, 3))
    case 4 => (After(id, 2), After(id, 4))
    case _ => (After(id, 3), After(id, 4))
  }

  /** `chi_p_prime_in_T`: the share is the one that misses the two parties after p'. */
  predicate ChiInT(p': nat, T: (nat, nat))
    requires p' >= 1
  {
    (After(p', 1) == T.0 && After(p', 2) == T.1) || (After(p', 1) == T.1 && After(p', 2) == T.0)
  }

  /** `p_prime_in_T`. */
  predicate InT(p': nat, T: (nat, nat)) {
    p' == T.0 || p' == T.1
  }

  /** The condition under which a party's inner loop adds a mask word of share t for party p'. */
  predicate Masks(id: nat, t: nat, p': nat)
    requires id >= 1 && p' >= 1 && t < 6
  {
    || (p' != id && !InT(p', TMap(id, t)) && !ChiInT(p', TMap(id, t)))
    || (p' == id && !ChiInT(id, TMap(id, t)))
  }

  // ---------- the ten shares ----------

  /** The party d places after p. */
  function Turn(p: nat, d: nat): (q: nat)
    ensures q < 5
  {
    (p + d) % 5
  }

  lemma TurnIs(p: nat, d: nat)
    requires p < 5 && d < 5
    ensures Turn(p, d) == if p + d < 5 then p + d else p + d - 5
    ensures After(p + 1, d) == Turn(p, d) + 1
  {
  }

  lemma TurnTurn(p: nat, d: nat, d': nat)
    requires p < 5 && d < 5 && d' < 5
    ensures Turn(Turn(p, d), d') == Turn(p, if d + d' < 5 then d + d' else d + d' - 5)
  {
    hide Turn;
    TurnIs(p, d);
    TurnIs(Turn(p, d), d');
    TurnIs(p, if d + d' < 5 then d + d' else d + d' - 5);
  }

  /** Share j misses parties j and j+1, share 5+j parties j and j+2 (mod 5). */
  function ShareOf(p: nat, t: nat): (e: nat)
    requires p < 5 && t < 6
    ensures e < 10
  {
    match t
    case 0 => Turn(p, 1)
    case 1 => 5 + Turn(p, 1)
    case 2 => 5 + Turn(p, 4)
    case 3 => Turn(p, 2)
    case 4 => 5 + Turn(p, 2)
    case _ => Turn(p, 3)
  }

  predicate Misses(q: nat, e: nat)
    requires q < 5 && e < 10
  {
    if e < 5 then q == e || q == Turn(e, 1) else q == e - 5 || q == Turn(e - 5, 2)
  }

  /** Party q contributes a mask to share e: it holds e and e is not where its own product goes. */
  predicate Owes(q: nat, e: nat)
    requires q < 5 && e < 10
  {
    !Misses(q, e) && e != Turn(q, 1)
  }

  /** The places, counted from a party, of the two parties that miss its share t. */
  function Gaps5(t: nat): (nat, nat) {
    match t
    case 0 => (1, 2)
    case 1 => (1, 3)
    case 2 => (4, 1)
    case 3 => (2, 3)
    case 4 => (2, 4)
    case _ => (3, 4)
  }

  lemma MissedPlaces(p: nat, t: nat, q: nat)
    requires p < 5 && t < 6 && q < 5
    ensures Misses(q, ShareOf(p, t)) <==> q == Turn(p, Gaps5(t).0) || q == Turn(p, Gaps5(t).1)
  {
    hide Turn, After;
    match t
    case 0 => TurnTurn(p, 1, 1);
    case 1 => TurnTurn(p, 1, 2);
    case 2 => TurnTurn(p, 4, 2);
    case 3 => TurnTurn(p, 2, 1);
    case 4 => TurnTurn(p, 2, 2);
    case _ => TurnTurn(p, 3, 1);
  }

  lemma MappedPlaces(p: nat, t: nat)
    requires p < 5 && t < 6
    ensures
      var T, u, v := TMap(p + 1, t), Turn(p, Gaps5(t).0) + 1, Turn(p, Gaps5(t).1) + 1;
      T == (u, v) || T == (v, u)
  {
  }

  /** The two parties that miss share t of party p. */
  lemma MissingParties(p: nat, t: nat, q: nat)
    requires p < 5 && t < 6 && q < 5
    ensures
      var T := TMap(p + 1, t);
      && 1 <= T.0 <= 5 && 1 <= T.1 <= 5 && T.0 != T.1 && T.0 != p + 1 && T.1 != p + 1
      && Misses(q, ShareOf(p, t)) == (q + 1 == T.0 || q + 1 == T.1)
  {
    MissedPlaces(p, t, q);
    MappedPlaces(p, t);
    hide Turn, After, TMap, Misses, ShareOf;
    TurnIs(p, Gaps5(t).0);
    TurnIs(p, Gaps5(t).1);
  }

  lemma ChiShare(p: nat, t: nat, q: nat)
    requires p < 5 && t < 6 && q < 5
    ensures ChiInT(q + 1, TMap(p + 1, t)) == (ShareOf(p, t) == Turn(q, 1))
  {
    hide Turn, After;
    TurnIs(p, 1);
    TurnIs(p, 2);
    TurnIs(p, 3);
    TurnIs(p, 4);
    TurnIs(q, 1);
    TurnIs(q, 2);
  }

  /** The tables describe the shares: the missing parties, the routes, and the masking condition. */
  lemma TablesAreShares(p: nat, t: nat, q: nat)
    requires p < 5 && t < 6 && q < 5
    ensures InT(q + 1, TMap(p + 1, t)) == Misses(q, ShareOf(p, t))
    ensures ChiInT(q + 1, TMap(p + 1, t)) == (ShareOf(p, t) == Turn(q, 1))
    ensures Masks(p + 1, t, q + 1) == Owes(q, ShareOf(p, t))
  {
    hide Turn, ShareOf, Misses, ChiInT, TMap;
    MissingParties(p, t, p);
    MissingParties(p, t, q);
    ChiShare(p, t, q);
  }

  /** Every share is held by exactly the three parties it does not miss. */
  lemma HoldersAreNotMissing(e: nat, q: nat)
    requires e < 10 && q < 5
    ensures !Misses(q, e) <==> exists t :: 0 <= t < 6 && ShareOf(q, t) == e
  {
    hide Turn, After;
    TurnIs(q, 1);
    TurnIs(q, 2);
    TurnIs(q, 3);
    TurnIs(q, 4);
    TurnIs(if e < 5 then e else e - 5, 1);
    TurnIs(if e < 5 then e else e - 5, 2);
    if !Misses(q, e) {
      var t := if e == Turn(q, 1) then 0 else if e == Turn(q, 2) then 3 else if e == Turn(q, 3) then 5
        else if e == 5 + Turn(q, 1) then 1 else if e == 5 + Turn(q, 4) then 2 else 4;
      assert ShareOf(q, t) == e;
    }
  }

  // ---------- sharings ----------

  /** Share e at one of its holders. */
  function Canon(x: Sharing5, e: nat): nat
    requires e < 10
  {
    if e < 5 then x[Turn(e, 4)][0] else x[Turn(e - 5, 4)][1]
  }

  /** The three holders of every share agree on it mod 2^k. */
  ghost predicate Agreed5(x: Sharing5, k: nat) {
    forall p, t :: 0 <= p < 5 && 0 <= t < 6 ==> Cong(x[p][t], Canon(x, ShareOf(p, t)), k)
  }

  function Sum5(x: Sharing5): nat {
    Canon(x, 0) + Canon(x, 1) + Canon(x, 2) + Canon(x, 3) + Canon(x, 4)
    + Canon(x, 5) + Canon(x, 6) + Canon(x, 7) + Canon(x, 8) + Canon(x, 9)
  }

  /** x is a consistent sharing of v over Z_{2^k}. */
  ghost predicate Additive5(x: Sharing5, v: int, k: nat) {
    Agreed5(x, k) && Cong(Sum5(x), v, k)
  }

  // ---------- the local products cover the product of the secrets ----------

  /** A product the algebra below does not look into. */
  function Times(x: int, y: int): int {
    x * y
  }

  /** The cross products one party forms. */
  function Local(a: Six, b: Six): int {
    Times(a[0], b[0] + b[1] + b[2] + b[3] + b[4] + b[5])
    + Times(a[1], b[0] + b[1] + b[2] + b[3] + b[4] + b[5])
    + Times(a[2], b[1] + b[3])
    + Times(a[3], b[0] + b[2])
    + Times(a[4], b[0] + b[1])
    + Times(a[5], b[0] + b[4])
  }

  lemma TimesCong(x: int, x': int, y: int, y': int, k: nat)
    requires Cong(x, x', k) && Cong(y, y', k)
    ensures Cong(Times(x, y), Times(x', y'), k)
  {
    CongMul(x, x', y, y', k);
  }

  lemma Add2(x1: int, x2: int, y1: int, y2: int, k: nat)
    requires Cong(x1, y1, k) && Cong(x2, y2, k)
    ensures Cong(x1 + x2, y1 + y2, k)
  {
    hide Cong;
    CongAdd(x1, y1, x2, y2, k);
  }

  lemma Add6(x1: int, x2: int, x3: int, x4: int, x5: int, x6: int, y1: int, y2: int, y3: int, y4: int, y5: int,
          y6: int, k: nat)
    requires Cong(x1, y1, k) && Cong(x2, y2, k) && Cong(x3, y3, k) && Cong(x4, y4, k) && Cong(x5, y5, k) && Cong(x6, y6, k)
    ensures Cong(x1 + x2 + x3 + x4 + x5 + x6, y1 + y2 + y3 + y4 + y5 + y6, k)
  {
    hide Cong;
    Add2(x1, x2, y1, y2, k);
    Add2(x1 + x2, x3, y1 + y2, y3, k);
    Add2(x1 + x2 + x3, x4, y1 + y2 + y3, y4, k);
    Add2(x1 + x2 + x3 + x4, x5, y1 + y2 + y3 + y4, y5, k);
    Add2(x1 + x2 + x3 + x4 + x5, x6, y1 + y2 + y3 + y4 + y5, y6, k);
  }

  ghost predicate SameWords(x: Six, y: Six, k: nat) {
    && Cong(x[0], y[0], k) && Cong(x[1], y[1], k) && Cong(x[2], y[2], k)
    && Cong(x[3], y[3], k) && Cong(x[4], y[4], k) && Cong(x[5], y[5], k)
  }

  /** The sums a party multiplies with. */
  lemma FactorsCong(b: Six, b': Six, k: nat)
    requires SameWords(b, b', k)
    ensures Cong(b[0] + b[1] + b[2] + b[3] + b[4] + b[5], b'[0] + b'[1] + b'[2] + b'[3] + b'[4] + b'[5], k)
    ensures Cong(b[1] + b[3], b'[1] + b'[3], k) && Cong(b[0] + b[2], b'[0] + b'[2], k)
    ensures Cong(b[0] + b[1], b'[0] + b'[1], k) && Cong(b[0] + b[4], b'[0] + b'[4], k)
  {
    hide Cong;
    Add6(b[0], b[1], b[2], b[3], b[4], b[5], b'[0], b'[1], b'[2], b'[3], b'[4], b'[5], k);
    Add2(b[1], b[3], b'[1], b'[3], k);
    Add2(b[0], b[2], b'[0], b'[2], k);
    Add2(b[0], b[1], b'[0], b'[1], k);
    Add2(b[0], b[4], b'[0], b'[4], k);
  }

  lemma LocalCong(a: Six, a': Six, b: Six, b': Six, k: nat)
    requires SameWords(a, a', k) && SameWords(b, b', k)
    ensures Cong(Local(a, b), Local(a', b'), k)
  {
    hide Cong, Times;
    FactorsCong(b, b', k);
    var all, all' := b[0] + b[1] + b[2] + b[3] + b[4] + b[5], b'[0] + b'[1] + b'[2] + b'[3] + b'[4] + b'[5];
    var u, v, w, x := b[1] + b[3], b[0] + b[2], b[0] + b[1], b[0] + b[4];
    var u', v', w', x' := b'[1] + b'[3], b'[0] + b'[2], b'[0] + b'[1], b'[0] + b'[4];
    assert Local(a, b) == Times(a[0], all) + Times(a[1], all) + Times(a[2], u) + Times(a[3], v) + Times(a[4], w) + Times(a[5], x);
    assert Local(a', b') == Times(a'[0], all') + Times(a'[1], all') + Times(a'[2], u') + Times(a'[3], v') + Times(a'[4], w') + Times(a'[5], x');
    hide SameWords, Local;
    TimesCong(a[0], a'[0], all, all', k);
    TimesCong(a[1], a'[1], all, all', k);
    TimesCong(a[2], a'[2], u, u', k);
    TimesCong(a[3], a'[3], v, v', k);
    TimesCong(a[4], a'[4], w, w', k);
    TimesCong(a[5], a'[5], x, x', k);
    Add6(Times(a[0], all), Times(a[1], all), Times(a[2], u), Times(a[3], v), Times(a[4], w), Times(a[5], x),
         Times(a'[0], all'), Times(a'[1], all'), Times(a'[2], u'), Times(a'[3], v'), Times(a'[4], w'), Times(a'[5], x'), k);
  }

  /** What party p would hold if every share were as Canon has it. */
  function CanonSix(x: Sharing5, p: nat): Six
    requires p < 5
  {
    [Canon(x, ShareOf(p, 0)), Canon(x, ShareOf(p, 1)), Canon(x, ShareOf(p, 2)),
     Canon(x, ShareOf(p, 3)), Canon(x, ShareOf(p, 4)), Canon(x, ShareOf(p, 5))]
  }

  lemma CanonSame(x: Sharing5, p: nat, k: nat)
    requires Agreed5(x, k) && p < 5
    ensures SameWords(x[p], CanonSix(x, p), k)
  {
  }

  /** The view party p has of ten shares. */
  function View(a: seq<nat>, p: nat): Six
    requires |a| == 10 && p < 5
  {
    [a[ShareOf(p, 0)], a[ShareOf(p, 1)], a[ShareOf(p, 2)], a[ShareOf(p, 3)], a[ShareOf(p, 4)], a[ShareOf(p, 5)]]
  }

  function TotalOf(a: seq<nat>): nat
    requires |a| == 10
  {
    a[0] + a[1] + a[2] + a[3] + a[4] + a[5] + a[6] + a[7] + a[8] + a[9]
  }

  lemma RotatedFive(b0: int, b1: int, b2: int, b3: int, b4: int, e: nat)
    requires e < 5
    ensures
      var s := [b0, b1, b2, b3, b4];
      s[Turn(e, 0)] + s[Turn(e, 1)] + s[Turn(e, 2)] + s[Turn(e, 3)] + s[Turn(e, 4)] == b0 + b1 + b2 + b3 + b4
  {
  }

  lemma RotatedTotal(b: seq<nat>, e: nat)
    requires |b| == 10 && e < 5
    ensures b[Turn(e, 0)] + b[Turn(e, 1)] + b[Turn(e, 2)] + b[Turn(e, 3)] + b[Turn(e, 4)]
      + b[5 + Turn(e, 0)] + b[5 + Turn(e, 1)] + b[5 + Turn(e, 2)] + b[5 + Turn(e, 3)] + b[5 + Turn(e, 4)] == TotalOf(b)
  {
    hide Turn;
    RotatedFive(b[0], b[1], b[2], b[3], b[4], e);
    RotatedFive(b[5], b[6], b[7], b[8], b[9], e);
    var s, s' := [b[0], b[1], b[2], b[3], b[4]], [b[5], b[6], b[7], b[8], b[9]];
    forall d: nat ensures s[Turn(e, d)] == b[Turn(e, d)] && s'[Turn(e, d)] == b[5 + Turn(e, d)] {
    }
  }

  /** The shares that party Turn(e, d) sees, seen from e. */
  lemma TurnedView(b: seq<nat>, e: nat, d: nat)
    requires |b| == 10 && e < 5 && 1 <= d < 5
    ensures View(b, Turn(e, d)) == [
      b[Turn(e, if d < 4 then d + 1 else 0)], b[5 + Turn(e, if d < 4 then d + 1 else 0)],
      b[5 + Turn(e, d - 1)], b[Turn(e, if d < 3 then d + 2 else d - 3)],
      b[5 + Turn(e, if d < 3 then d + 2 else d - 3)], b[Turn(e, if d < 2 then d + 3 else d - 2)]]
  {
    hide Turn;
    TurnTurn(e, d, 1);
    TurnTurn(e, d, 2);
    TurnTurn(e, d, 3);
    TurnTurn(e, d, 4);
  }

  /** Together the five parties form every one of the hundred cross products exactly once. */
  lemma EveryProductOnce(a: seq<nat>, b: seq<nat>)
    requires |a| == |b| == 10
    ensures Local(View(a, 0), View(b, 0)) + Local(View(a, 1), View(b, 1)) + Local(View(a, 2), View(b, 2))
      + Local(View(a, 3), View(b, 3)) + Local(View(a, 4), View(b, 4)) == TotalOf(a) * TotalOf(b)
  {
  }
}
