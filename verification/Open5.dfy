/**
 Five-party opening (`Rss_Open_mp`): each party receives the four shares it misses as two sums.
 */
module FivePartyOpen {
  import opened Ring
  import opened Words
  import opened FiveParty
  import opened FivePartyMult

  /** What party p sends to the next and to the previous party. */
  function SentForward(x: Six): nat {
    Wrap(x[0] + x[1])
  }

  function SentBack(x: Six): nat {
    Wrap(x[4] + x[5])
  }

  /** res at one party: its own six shares and the two sums received, cut to k bits. */
  function OpenedWord(x: Six, r0: nat, r1: nat, k: nat): nat {
    Masked(Wrap(x[0] + x[1] + x[2] + x[3] + x[4] + x[5] + r0 + r1), k)
  }

  /** The sum that arrives from the previous party and the one from the next party. */
  function Arrived0(a: Sharing5, p: nat, k: nat): nat
    requires p < 5
  {
    Masked(SentForward(a[Turn(p, 4)]), k)
  }

  function Arrived1(a: Sharing5, p: nat, k: nat): nat
    requires p < 5
  {
    Masked(SentBack(a[Turn(p, 1)]), k)
  }

  lemma MaskedPair(x: nat, y: nat, x': nat, y': nat, k: nat)
    requires k <= W && Cong(x, x', k) && Cong(y, y', k)
    ensures Cong(Masked(Wrap(x + y), k), x' + y', k)
  {
    hide Cong, Wrap;
    CongAdd(x, x', y, y', k);
    WrapCong(x + y, k);
    CongMod(Wrap(x + y), k);
    CongTrans(Masked(Wrap(x + y), k), Wrap(x + y), x + y, k);
    CongTrans(Masked(Wrap(x + y), k), x + y, x' + y', k);
  }

  /** The six own shares and the four received ones are all ten. */
  lemma OpenCovers(c: seq<nat>, p: nat)
    requires |c| == 10 && p < 5
    ensures
      var x, y, z := View(c, p), View(c, Turn(p, 4)), View(c, Turn(p, 1));
      x[0] + x[1] + x[2] + x[3] + x[4] + x[5] + (y[0] + y[1]) + (z[4] + z[5]) == TotalOf(c)
  {
    hide Turn, TotalOf, View;
    RotatedTotal(c, p);
    TurnedView(c, p, 4);
    TurnedView(c, p, 1);
    OwnView(c, p);
  }

  lemma OwnView(c: seq<nat>, p: nat)
    requires |c| == 10 && p < 5
    ensures View(c, p) == [c[Turn(p, 1)], c[5 + Turn(p, 1)], c[5 + Turn(p, 4)], c[Turn(p, 2)], c[5 + Turn(p, 2)], c[Turn(p, 3)]]
  {
  }

  lemma HoldsView(a: Sharing5, p: nat, k: nat)
    requires Agreed5(a, k) && p < 5
    ensures SameWords(a[p], View(Canons(a), p), k)
  {
  }

  lemma OpenedIsSum(a: Sharing5, p: nat, k: nat)
    requires k <= W && Agreed5(a, k) && p < 5
    ensures OpenedWord(a[p], Arrived0(a, p, k), Arrived1(a, p, k), k) == Sum5(a) % Pow2(k)
  {
    hide Cong, Wrap, Agreed5, Turn, TotalOf, View, Canons, Sum5, Masked;
    var x, y, z := View(Canons(a), p), View(Canons(a), Turn(p, 4)), View(Canons(a), Turn(p, 1));
    HoldsView(a, p, k);
    HoldsView(a, Turn(p, 4), k);
    HoldsView(a, Turn(p, 1), k);
    var r0, r1 := Arrived0(a, p, k), Arrived1(a, p, k);
    MaskedPair(a[Turn(p, 4)][0], a[Turn(p, 4)][1], y[0], y[1], k);
    MaskedPair(a[Turn(p, 1)][4], a[Turn(p, 1)][5], z[4], z[5], k);
    OwnSum(a[p], x, r0, y[0] + y[1], r1, z[4] + z[5], k);
    OpenCovers(Canons(a), p);
    CanonsTotal(a);
    MaskedWord(a[p][0] + a[p][1] + a[p][2] + a[p][3] + a[p][4] + a[p][5] + r0 + r1, Sum5(a), k);
  }

  lemma OwnSum(x: Six, x': Six, r0: nat, s0: nat, r1: nat, s1: nat, k: nat)
    requires SameWords(x, x', k) && Cong(r0, s0, k) && Cong(r1, s1, k)
    ensures Cong(x[0] + x[1] + x[2] + x[3] + x[4] + x[5] + r0 + r1, x'[0] + x'[1] + x'[2] + x'[3] + x'[4] + x'[5] + s0 + s1, k)
  {
    hide Cong;
    Add6(x[0], x[1], x[2], x[3], x[4], x[5], x'[0], x'[1], x'[2], x'[3], x'[4], x'[5], k);
    var s, s' := x[0] + x[1] + x[2] + x[3] + x[4] + x[5], x'[0] + x'[1] + x'[2] + x'[3] + x'[4] + x'[5];
    Add2(s, r0, s', s0, k);
    Add2(s + r0, r1, s' + s0, s1, k);
  }

  lemma MaskedWord(x: nat, v: int, k: nat)
    requires k <= W && Cong(x, v, k)
    ensures Masked(Wrap(x), k) == v % Pow2(k)
  {
    WrapCong(x, k);
  }

  /** `Rss_Open_mp`: every party obtains the secret. */
  method Open5(res: array<Words5>, a: array<Sharing5>, k: nat)
    requires 1 <= k <= W && res.Length == a.Length
    requires forall i :: 0 <= i < a.Length ==> Agreed5(a[i], k)
    modifies res
    ensures forall i, p :: 0 <= i < a.Length && 0 <= p < 5 ==> res[i][p] == Sum5(a[i]) % Pow2(k)
  {
    hide *;
    for i := 0 to a.Length
      invariant forall j, p :: 0 <= j < i && 0 <= p < 5 ==> res[j][p] == Sum5(a[j]) % Pow2(k)
    {
      var row := OpenElement(a[i], k);
      res[i] := row;
    }
  }

  method OpenElement(a: Sharing5, k: nat) returns (row: Words5)
    requires 1 <= k <= W && Agreed5(a, k)
    ensures forall p :: 0 <= p < 5 ==> row[p] == Sum5(a) % Pow2(k)
  {
    hide *;
    row := [0, 0, 0, 0, 0];
    for p := 0 to 5
      invariant forall q :: 0 <= q < p ==> row[q] == Sum5(a) % Pow2(k)
    {
      OpenedIsSum(a, p, k);
      row := row[p := OpenedWord(a[p], Arrived0(a, p, k), Arrived1(a, p, k), k)];
    }
  }
}
