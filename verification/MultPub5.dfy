/**
 Five-party multiplication with a public result (`Rss_MultPub_mp`).

 Every holder of a share adds a word of its key to its cross products, two of them once and the third
 minus twice.  The words are copied all at once into storage that is never cleared, so behind the end of
 the random bytes each holder has whatever its memory held.
 */
module FivePartyMultPub {
  import opened Ring
  import opened Words
  import opened Stream
  import opened NodeNetworks
  import opened FiveParty
  import opened FivePartyMult
  import Multiplication
  import EdaBits
  import Opening5 = FivePartyOpen

  // ---------- signs ----------

  /** prg_ctrs of party id. */
  function Ctrs(id: nat): (c: seq<nat>)
    ensures |c| == 6
  {
    if id <= 2 then [1, 1, 1, 1, 1, 1] else if id == 3 then [2, 1, 1, 1, 1, 1]
    else if id == 4 then [2, 2, 2, 1, 1, 1] else [2, 2, 2, 2, 2, 2]
  }

  /** ops of party id. */
  function Ops(id: nat): seq<int> {
    if id <= 2 then [1, 1, 1, 1, 1, 1] else if id == 3 then [-1, -1, 1, 1, 1, 1, 1]
    else if id == 4 then [-1, -1, -1, -1, -1, -1, 1, 1, 1] else [-1, -1, -1, -1, -1, -1, -1, -1, -1, -1, -1, -1]
  }

  /** Where share j's signs start in ops. */
  function Start(id: nat, j: nat): nat
    requires j <= 6
  {
    if j == 0 then 0 else Start(id, j - 1) + Ctrs(id)[j - 1]
  }

  /** How often party id counts its word of share j in the end. */
  function Sign(id: nat, j: nat): int
    requires j < 6
  {
    if Ctrs(id)[j] == 2 then -2 else 1
  }

  lemma SignsOf(id: nat, j: nat)
    requires 1 <= id <= 5 && j < 6
    ensures Start(id, j) + Ctrs(id)[j] <= |Ops(id)| && 1 <= Ctrs(id)[j] <= 2
    ensures Ops(id)[Start(id, j)] == (if Ctrs(id)[j] == 2 then -1 else 1)
    ensures Ctrs(id)[j] == 2 ==> Ops(id)[Start(id, j) + 1] == -1
  {
    hide Start, Ops, Ctrs;
    StartIs(id, j);
    CtrAt(id, j);
    OpsAt(id, Start(id, j));
    OpsAt(id, Start(id, j) + 1);
  }

  lemma CtrAt(id: nat, j: nat)
    requires j < 6
    ensures Ctrs(id)[j] == if id <= 2 || (id == 3 && j >= 1) || (id == 4 && j >= 3) then 1 else 2
  {
  }

  lemma OpsAt(id: nat, x: nat)
    requires 1 <= id <= 5
    ensures |Ops(id)| == if id <= 2 then 6 else if id == 3 then 7 else if id == 4 then 9 else 12
    ensures x < |Ops(id)| ==> Ops(id)[x] == if id <= 2 || (id == 3 && x >= 2) || (id == 4 && x >= 6) then 1 else -1
  {
  }

  lemma {:induction false} StartIs(id: nat, j: nat)
    requires 1 <= id <= 5 && j <= 6
    ensures Start(id, j) ==
      if id <= 2 then j else if id == 3 then (if j == 0 then 0 else j + 1)
      else if id == 4 then (if j <= 3 then 2 * j else j + 3) else 2 * j
  {
    if j > 0 {
      StartIs(id, j - 1);
    }
  }

  /** The signed masks of one party. */
  function SignedSum(id: nat, x: Six): int {
    Sign(id, 0) * x[0] + Sign(id, 1) * x[1] + Sign(id, 2) * x[2] + Sign(id, 3) * x[3] + Sign(id, 4) * x[4] + Sign(id, 5) * x[5]
  }

  /** The signed masks of all parties. */
  function SignedTotal(x: Sharing5): int {
    SignedSum(1, x[0]) + SignedSum(2, x[1]) + SignedSum(3, x[2]) + SignedSum(4, x[3]) + SignedSum(5, x[4])
  }

  /** If the holders of every share have the same word, all signed masks cancel. */
  lemma SameWordsCancel(x: Sharing5, low: seq<nat>)
    requires |low| == 10 && forall p :: 0 <= p < 5 ==> x[p] == View(low, p)
    ensures SignedTotal(x) == 0
  {
  }

  // ---------- words loaded past the end ----------

  /** How many bytes of word i come from the n * BytesFor(k) random bytes. */
  function LoadedBytes(n: nat, k: nat, i: nat): nat {
    var all, before := n * BytesFor(k), i * (W / 8);
    if all <= before then 0 else if all - before >= W / 8 then W / 8 else all - before
  }

  /** v_a[i]: the random bytes that reach word i, over what the word held. */
  function LoadOver(word: nat, stream: seq<Byte>, n: nat, k: nat, i: nat): nat {
    CopyLow(word, EdaBits.PackedLoad(stream, i), LoadedBytes(n, k, i))
  }

  /** The part of the holders' memory that stays visible. */
  function Residue(junk: Sharing5, nb: nat): int {
    SignedTotal(HighParts(junk, Pow2(8 * nb))) * Pow2(8 * nb)
  }

  function HighPart(x: Six, d: nat): Six
    requires d >= 1
  {
    [Quotient(x[0], d), Quotient(x[1], d), Quotient(x[2], d), Quotient(x[3], d), Quotient(x[4], d), Quotient(x[5], d)]
  }

  function HighParts(x: Sharing5, d: nat): Sharing5
    requires d >= 1
  {
    [HighPart(x[0], d), HighPart(x[1], d), HighPart(x[2], d), HighPart(x[3], d), HighPart(x[4], d)]
  }

  /** Memory contents: machine words. */
  ghost predicate MachineWords(x: Sharing5) {
    forall p, t :: 0 <= p < 5 && 0 <= t < 6 ==> x[p][t] < Pow2(W)
  }

  /** Loaded far enough, nothing of the memory stays visible in the ring. */
  lemma ResidueHidden(junk: Sharing5, nb: nat, k: nat)
    requires 8 * nb >= k
    ensures Cong(Residue(junk, nb), 0, k)
  {
    hide SignedTotal, HighParts;
    CongIntro(Residue(junk, nb), 0, 8 * nb, SignedTotal(HighParts(junk, Pow2(8 * nb))));
    CongWeaken(Residue(junk, nb), 0, 8 * nb, k);
  }

  /** For all memory contents the residue vanishes in the ring if and only if k bits were loaded. */
  lemma ResidueVanishes(nb: nat, k: nat)
    requires k <= W
    ensures (forall junk: Sharing5 :: MachineWords(junk) ==> Cong(Residue(junk, nb), 0, k)) <==> 8 * nb >= k
  {
    if 8 * nb >= k {
      forall junk: Sharing5 ensures Cong(Residue(junk, nb), 0, k) {
        ResidueHidden(junk, nb, k);
      }
    } else {
      OneWordOfJunk(nb, k);
    }
  }

  /** Memory that is zero but for one word at party 1, with the lowest bit that stays visible set. */
  function StrayBit(nb: nat): Sharing5 {
    [[Pow2(8 * nb), 0, 0, 0, 0, 0], [0, 0, 0, 0, 0, 0], [0, 0, 0, 0, 0, 0], [0, 0, 0, 0, 0, 0], [0, 0, 0, 0, 0, 0]]
  }

  /** A single stray bit in a machine word is enough to spoil the result. */
  lemma OneWordOfJunk(nb: nat, k: nat)
    requires 8 * nb < k <= W
    ensures MachineWords(StrayBit(nb)) && !Cong(Residue(StrayBit(nb), nb), 0, k)
  {
    var d := Pow2(8 * nb);
    OneWordResidue(d);
    StrictPow2(8 * nb, k);
    StrictPow2(8 * nb, W);
    ModSmall(d, k);
    ModSmall(0, k);
  }

  lemma OneWordResidue(d: nat)
    requires d >= 1
    ensures SignedTotal(HighParts([[d, 0, 0, 0, 0, 0], [0, 0, 0, 0, 0, 0], [0, 0, 0, 0, 0, 0], [0, 0, 0, 0, 0, 0], [0, 0, 0, 0, 0, 0]], d)) == 1
  {
    DivModUnique(d, d, 1, 0);
    DivModUnique(0, d, 0, 0);
  }

  lemma StrictPow2(a: nat, b: nat)
    requires a < b
    ensures Pow2(a) < Pow2(b)
  {
  }

  /**
   All n words are loaded far enough exactly when there is only one of them or a k-bit word has as many
   bytes as a machine word.
   */
  lemma AllLoaded(n: nat, k: nat)
    requires n >= 1 && 1 <= k <= W
    ensures (forall i :: 0 <= i < n ==> 8 * LoadedBytes(n, k, i) >= k) <==> n == 1 || BytesFor(k) == W / 8
  {
    var b, w := BytesFor(k), W / 8;
    if n == 1 || b == w {
      forall i | 0 <= i < n ensures 8 * LoadedBytes(n, k, i) >= k {
        EnoughLoaded(n, b, w, i);
      }
    } else {
      LastWordShort(n, b, w);
      assert 8 * LoadedBytes(n, k, n - 1) < k;
    }
  }

  lemma EnoughLoaded(n: nat, b: nat, w: nat, i: nat)
    requires i < n && b <= w && (n == 1 || b == w)
    ensures n * b - i * w >= b
  {
    MulMono(w, i + 1, n);
  }

  lemma LastWordShort(n: nat, b: nat, w: nat)
    requires n >= 2 && b < w
    ensures n * b - (n - 1) * w <= b - 1
  {
  }

  // ---------- the sign loop ----------

  /** The signed masks of the first j shares. */
  function SignedPrefix(id: nat, x: Six, j: nat): int
    requires j <= 6
  {
    if j == 0 then 0 else SignedPrefix(id, x, j - 1) + Sign(id, j - 1) * x[j - 1]
  }

  /** One party's loops over its signed masks: l is its cross products. */
  method SignLoop(id: nat, l: nat, x: Six) returns (c: nat)
    requires 1 <= id <= 5
    ensures Cong(c, l + SignedSum(id, x), W)
  {
    hide *;
    c := l;
    CongRefl(l, W);
    PrefixStart(id, x);
    var signIndex := 0;
    for j := 0 to 6
      invariant signIndex == Start(id, j) && Cong(c, l + SignedPrefix(id, x, j), W)
    {
      c, signIndex := AddSigned(id, j, c, x[j], signIndex, l + SignedPrefix(id, x, j));
      PrefixNext(id, x, j);
    }
    PrefixIsSum(id, x);
  }

  lemma PrefixStart(id: nat, x: Six)
    ensures Start(id, 0) == 0 && SignedPrefix(id, x, 0) == 0
  {
  }

  lemma PrefixNext(id: nat, x: Six, j: nat)
    requires j < 6
    ensures SignedPrefix(id, x, j + 1) == SignedPrefix(id, x, j) + Sign(id, j) * x[j]
    ensures Start(id, j + 1) == Start(id, j) + Ctrs(id)[j]
  {
  }

  lemma PrefixIsSum(id: nat, x: Six)
    ensures SignedPrefix(id, x, 6) == SignedSum(id, x)
  {
    hide Sign, SignedPrefix, Start, Ctrs;
    PrefixStart(id, x);
    PrefixNext(id, x, 0);
    PrefixNext(id, x, 1);
    PrefixNext(id, x, 2);
    PrefixNext(id, x, 3);
    PrefixNext(id, x, 4);
    PrefixNext(id, x, 5);
  }

  /** The inner loop: the word of share j, as often and with the signs that ops lists. */
  method AddSigned(id: nat, j: nat, c0: nat, x: nat, start: nat, ghost y: int) returns (c: nat, signIndex: nat)
    requires 1 <= id <= 5 && j < 6 && start == Start(id, j) && Cong(c0, y, W)
    ensures signIndex == start + Ctrs(id)[j] && Cong(c, y + Sign(id, j) * x, W)
  {
    hide *;
    SignedTermIs(id, j, x);
    ghost var term := Ops(id)[start] * x;
    c, signIndex := c0, start;
    for v := 0 to Ctrs(id)[j]
      invariant signIndex == start + v
      invariant Cong(c, if v == 0 then y else if v == 1 then y + term else y + 2 * term, W)
    {
      SignedStep(c, if v == 0 then y else y + term, Ops(id)[signIndex], x);
      c := Wrap(c + Wrap(Ops(id)[signIndex]) * x);
      signIndex := signIndex + 1;
    }
  }

  lemma SignedTermIs(id: nat, j: nat, x: nat)
    requires 1 <= id <= 5 && j < 6
    ensures 1 <= Ctrs(id)[j] <= 2 && Start(id, j) + Ctrs(id)[j] <= |Ops(id)|
    ensures Ctrs(id)[j] == 1 ==> Sign(id, j) * x == Ops(id)[Start(id, j)] * x
    ensures Ctrs(id)[j] == 2 ==>
      Sign(id, j) * x == 2 * (Ops(id)[Start(id, j)] * x) && Ops(id)[Start(id, j) + 1] == Ops(id)[Start(id, j)]
  {
    SignsOf(id, j);
    hide Start, Ops, Ctrs;
  }

  lemma SignedStep(c: nat, y: int, s: int, x: nat)
    requires Cong(c, y, W)
    ensures Cong(Wrap(c + Wrap(s) * x), y + s * x, W)
  {
    hide Cong, Wrap;
    WrapCong(s, W);
    CongRefl(x, W);
    CongMul(Wrap(s), s, x, x, W);
    CongAdd(c, y, Wrap(s) * x, s * x, W);
    WrapCong(c + Wrap(s) * x, W);
    CongTrans(Wrap(c + Wrap(s) * x), c + Wrap(s) * x, y + s * x, W);
  }

  // ---------- the sum of all contributions ----------

  lemma SignedSplit(id: nat, x: Six, h: Six, l: Six, d: nat)
    requires forall j :: 0 <= j < 6 ==> x[j] == h[j] * d + l[j]
    ensures SignedSum(id, x) == SignedSum(id, h) * d + SignedSum(id, l)
  {
    hide Sign;
    forall j | 0 <= j < 6 ensures Sign(id, j) * x[j] == Sign(id, j) * h[j] * d + Sign(id, j) * l[j] {
      SignedTerm(Sign(id, j), x[j], h[j], l[j], d);
    }
    SixTimes(Sign(id, 0) * h[0], Sign(id, 1) * h[1], Sign(id, 2) * h[2], Sign(id, 3) * h[3], Sign(id, 4) * h[4], Sign(id, 5) * h[5], d);
  }

  lemma SignedTerm(s: int, x: int, h: int, l: int, d: int)
    requires x == h * d + l
    ensures s * x == s * h * d + s * l
  {
  }

  lemma SixTimes(x0: int, x1: int, x2: int, x3: int, x4: int, x5: int, d: int)
    ensures (x0 + x1 + x2 + x3 + x4 + x5) * d == x0 * d + x1 * d + x2 * d + x3 * d + x4 * d + x5 * d
  {
  }

  lemma FiveTimes(x0: int, x1: int, x2: int, x3: int, x4: int, d: int)
    ensures (x0 + x1 + x2 + x3 + x4) * d == x0 * d + x1 * d + x2 * d + x3 * d + x4 * d
  {
  }

  /** What the parties loaded of one element, over their junk. */
  ghost predicate LoadedRow(x: Sharing5, junk: Sharing5, low: seq<nat>, nb: nat)
    requires |low| == 10
  {
    forall p, t :: 0 <= p < 5 && 0 <= t < 6 ==> x[p][t] == CopyLow(junk[p][t], low[ShareOf(p, t)], nb)
  }

  lemma LoadedParts(x: Sharing5, junk: Sharing5, low: seq<nat>, nb: nat, p: nat)
    requires |low| == 10 && LoadedRow(x, junk, low, nb) && p < 5
    ensures forall t :: 0 <= t < 6 ==> x[p][t] == HighPart(junk[p], Pow2(8 * nb))[t] * Pow2(8 * nb) + View(low, p)[t]
  {
  }

  /** The common words cancel; what is left comes from above them. */
  lemma SignedTotalIsResidue(x: Sharing5, junk: Sharing5, low: seq<nat>, nb: nat)
    requires |low| == 10 && LoadedRow(x, junk, low, nb)
    ensures SignedTotal(x) == Residue(junk, nb)
  {
    hide Pow2, SignedSum, LoadedRow, HighPart, View, Sign;
    var d := Pow2(8 * nb);
    var common: Sharing5 := [View(low, 0), View(low, 1), View(low, 2), View(low, 3), View(low, 4)];
    SameWordsCancel(common, low);
    LoadedParts(x, junk, low, nb, 0);
    LoadedParts(x, junk, low, nb, 1);
    LoadedParts(x, junk, low, nb, 2);
    LoadedParts(x, junk, low, nb, 3);
    LoadedParts(x, junk, low, nb, 4);
    SignedSplit(1, x[0], HighPart(junk[0], d), View(low, 0), d);
    SignedSplit(2, x[1], HighPart(junk[1], d), View(low, 1), d);
    SignedSplit(3, x[2], HighPart(junk[2], d), View(low, 2), d);
    SignedSplit(4, x[3], HighPart(junk[3], d), View(low, 3), d);
    SignedSplit(5, x[4], HighPart(junk[4], d), View(low, 4), d);
    FiveTimes(SignedSum(1, HighPart(junk[0], d)), SignedSum(2, HighPart(junk[1], d)), SignedSum(3, HighPart(junk[2], d)),
              SignedSum(4, HighPart(junk[3], d)), SignedSum(5, HighPart(junk[4], d)), d);
  }

  /** c after the sign loop, at party p. */
  ghost predicate Contributes(c: nat, a: Sharing5, b: Sharing5, x: Sharing5, p: nat)
    requires p < 5
  {
    Cong(c, Wrap(Local(a[p], b[p])) + SignedSum(p + 1, x[p]), W)
  }

  lemma ContributionCong(c: nat, a: Sharing5, b: Sharing5, x: Sharing5, p: nat, k: nat)
    requires p < 5 && k <= W && Agreed5(a, k) && Agreed5(b, k) && Contributes(c, a, b, x, p)
    ensures Cong(c, Local(View(Canons(a), p), View(Canons(b), p)) + SignedSum(p + 1, x[p]), k)
  {
    hide Cong, Wrap, Local, Agreed5, Canons, View, SignedSum, SameWords;
    CanonsViewSame(a, p, k);
    CanonsViewSame(b, p, k);
    LocalCong(a[p], View(Canons(a), p), b[p], View(Canons(b), p), k);
    var l, l', s := Local(a[p], b[p]), Local(View(Canons(a), p), View(Canons(b), p)), SignedSum(p + 1, x[p]);
    CongWeaken(c, Wrap(l) + s, W, k);
    WrapCong(l, k);
    CongTrans(Wrap(l), l, l', k);
    CongRefl(s, k);
    CongAdd(Wrap(l), l', s, s, k);
    CongTrans(c, Wrap(l) + s, l' + s, k);
  }

  lemma ContributionsTotal(c: Words5, a: Sharing5, b: Sharing5, x: Sharing5, junk: Sharing5, low: seq<nat>, nb: nat, k: nat)
    requires k <= W && Agreed5(a, k) && Agreed5(b, k) && |low| == 10 && LoadedRow(x, junk, low, nb)
    requires forall p :: 0 <= p < 5 ==> Contributes(c[p], a, b, x, p)
    ensures Cong(c[0] + c[1] + c[2] + c[3] + c[4], Sum5(a) * Sum5(b) + Residue(junk, nb), k)
  {
    hide Cong, Local, Agreed5, Contributes, View, Canons, TotalOf, Sum5, SignedSum, LoadedRow, Residue;
    var y := seq(5, p requires 0 <= p < 5 => Local(View(Canons(a), p), View(Canons(b), p)) + SignedSum(p + 1, x[p]));
    forall p | 0 <= p < 5 ensures Cong(c[p], y[p], k) {
      ContributionCong(c[p], a, b, x, p, k);
    }
    Add5(c, y, k);
    EveryProductOnce(Canons(a), Canons(b));
    CanonsTotal(a);
    CanonsTotal(b);
    SignedTotalIsResidue(x, junk, low, nb);
  }

  /** The result at party p: its own word and the masked words of the others, its own slot being zero. */
  function Published(c: Words5, p: nat, k: nat): nat
    requires p < 5
  {
    var r := Received5(c, p, k);
    Masked(Wrap(c[p] + r[0] + r[1] + r[2] + r[3] + r[4]), k)
  }

  lemma PublishedIs(c: Words5, p: nat, v: int, k: nat)
    requires p < 5 && k <= W && Cong(c[0] + c[1] + c[2] + c[3] + c[4], v, k)
    ensures Published(c, p, k) == v % Pow2(k)
  {
    hide Cong, Wrap, Masked;
    var r, s := Received5(c, p, k), Others(c, p);
    forall q | 0 <= q < 5 ensures Cong(r[q], s[q], k) {
      ReceivedWord(c, p, q, k);
    }
    Add5(r, s, k);
    CongRefl(c[p], k);
    Add2(c[p], r[0] + r[1] + r[2] + r[3] + r[4], c[p], s[0] + s[1] + s[2] + s[3] + s[4], k);
    OwnAndOthers(c, p);
    CongTrans(c[p] + (r[0] + r[1] + r[2] + r[3] + r[4]), c[0] + c[1] + c[2] + c[3] + c[4], v, k);
    Opening5.MaskedWord(c[p] + r[0] + r[1] + r[2] + r[3] + r[4], v, k);
  }

  /** What party p received, and the words that were sent. */
  function Received5(c: Words5, p: nat, k: nat): Words5 {
    seq(5, q requires 0 <= q < 5 => if q == p then 0 else Masked(c[q], k))
  }

  function Others(c: Words5, p: nat): Words5 {
    seq(5, q requires 0 <= q < 5 => if q == p then 0 else c[q])
  }

  lemma ReceivedWord(c: Words5, p: nat, q: nat, k: nat)
    requires p < 5 && q < 5
    ensures Cong(Received5(c, p, k)[q], Others(c, p)[q], k)
  {
    CongMod(c[q], k);
    CongRefl(0, k);
    hide Cong;
  }

  lemma OwnAndOthers(c: Words5, p: nat)
    requires p < 5
    ensures var s := Others(c, p); c[p] + (s[0] + s[1] + s[2] + s[3] + s[4]) == c[0] + c[1] + c[2] + c[3] + c[4]
  {
  }

  // ---------- the protocol ----------

  ghost function PubSizes(n: nat, k: nat): (s: seq<nat>)
    ensures |s| == 10
  {
    seq(10, _ => Multiplication.RequestSize(n, k))
  }

  function PubCounts(n: nat, k: nat): (s: seq<nat>)
    ensures |s| == 6
  {
    seq(6, _ => Multiplication.RequestSize(n, k))
  }

  /** The low words of element i, by share. */
  ghost function LowWords(streams: seq<seq<Byte>>, i: nat): (low: seq<nat>)
    requires |streams| == 10
    ensures |low| == 10
  {
    seq(10, e requires 0 <= e < 10 => EdaBits.PackedLoad(streams[e], i))
  }

  function LoadSix(word: Six, buf: seq<seq<Byte>>, n: nat, k: nat, i: nat): Six
    requires |buf| == 6
  {
    [LoadOver(word[0], buf[0], n, k, i), LoadOver(word[1], buf[1], n, k, i), LoadOver(word[2], buf[2], n, k, i),
     LoadOver(word[3], buf[3], n, k, i), LoadOver(word[4], buf[4], n, k, i), LoadOver(word[5], buf[5], n, k, i)]
  }

  /** v_a of all parties for element i. */
  function LoadFive(junk: Sharing5, buf: seq<seq<seq<Byte>>>, n: nat, k: nat, i: nat): Sharing5
    requires |buf| == 5 && forall p :: 0 <= p < 5 ==> |buf[p]| == 6
  {
    [LoadSix(junk[0], buf[0], n, k, i), LoadSix(junk[1], buf[1], n, k, i), LoadSix(junk[2], buf[2], n, k, i),
     LoadSix(junk[3], buf[3], n, k, i), LoadSix(junk[4], buf[4], n, k, i)]
  }

  lemma LoadSixAt(word: Six, buf: seq<seq<Byte>>, streams: seq<seq<Byte>>, p: nat, n: nat, k: nat, i: nat, t: nat)
    requires |streams| == 10 && p < 5 && t < 6 && Holds(buf, streams, p)
    ensures LoadSix(word, buf, n, k, i)[t] == CopyLow(word[t], LowWords(streams, i)[ShareOf(p, t)], LoadedBytes(n, k, i))
  {
  }

  lemma LoadFiveRow(junk: Sharing5, buf: seq<seq<seq<Byte>>>, streams: seq<seq<Byte>>, n: nat, k: nat, i: nat)
    requires |streams| == 10 && |buf| == 5 && forall p :: 0 <= p < 5 ==> |buf[p]| == 6 && Holds(buf[p], streams, p)
    ensures LoadedRow(LoadFive(junk, buf, n, k, i), junk, LowWords(streams, i), LoadedBytes(n, k, i))
  {
    hide LoadSix, LoadedBytes, LowWords, CopyLow, ShareOf, Holds;
    var x := LoadFive(junk, buf, n, k, i);
    forall p, t | 0 <= p < 5 && 0 <= t < 6
      ensures x[p][t] == CopyLow(junk[p][t], LowWords(streams, i)[ShareOf(p, t)], LoadedBytes(n, k, i))
    {
      LoadSixAt(junk[p], buf[p], streams, p, n, k, i, t);
    }
  }

  /** One element at all parties, up to the multicast. */
  method ContributeElement(a: Sharing5, b: Sharing5, x: Sharing5) returns (c: Words5)
    ensures forall p :: 0 <= p < 5 ==> Contributes(c[p], a, b, x, p)
  {
    hide Cong, Wrap, Local, SignedSum;
    c := [0, 0, 0, 0, 0];
    for p := 0 to 5
      invariant forall q :: 0 <= q < p ==> Contributes(c[q], a, b, x, q)
    {
      var w := SignLoop(p + 1, Wrap(Local(a[p], b[p])), x[p]);
      c := c[p := w];
    }
  }

  method PublishElement(c: Words5, k: nat, ghost v: int) returns (r: Words5)
    requires k <= W && Cong(c[0] + c[1] + c[2] + c[3] + c[4], v, k)
    ensures forall p :: 0 <= p < 5 ==> r[p] == v % Pow2(k)
  {
    hide *;
    r := [0, 0, 0, 0, 0];
    for p := 0 to 5
      invariant forall q :: 0 <= q < p ==> r[q] == v % Pow2(k)
    {
      PublishedIs(c, p, v, k);
      r := r[p := Published(c, p, k)];
    }
  }

  /** What all parties obtain for one element. */
  function PublicProduct5(a: Sharing5, b: Sharing5, junk: Sharing5, n: nat, k: nat, i: nat): nat {
    (Sum5(a) * Sum5(b) + Residue(junk, LoadedBytes(n, k, i))) % Pow2(k)
  }

  /**
   `Rss_MultPub_mp`: all parties obtain the same word, the product of the secrets plus what the memory
   they allocated and did not clear leaves behind the loaded bytes.
   */
  method MultPub5(c: array<Words5>, a: array<Sharing5>, b: array<Sharing5>, k: nat, net: seq<NodeNetwork>,
          memory: seq<Sharing5>, ghost gens: seq<Gen>)
    requires Follows(net, gens) && 1 <= k <= W && 1 <= c.Length == a.Length == b.Length == |memory|
    requires forall i :: 0 <= i < a.Length ==> Agreed5(a[i], k) && Agreed5(b[i], k)
    modifies c, net
    ensures Follows(net, AdvanceEach(gens, PubSizes(c.Length, k)))
    ensures forall i, p :: 0 <= i < c.Length && 0 <= p < 5 ==>
      c[i][p] == PublicProduct5(a[i], b[i], memory[i], c.Length, k, i)
  {
    var n := c.Length;
    ghost var streams := TakeEach(gens, PubSizes(n, k));
    assert Valid5(net) && Multiplication.RequestSize(n, k) >= 1;
    hide *;
    PubCountsAreSizes(n, k);
    var buf := DrawShares(net, PubCounts(n, k), gens, PubSizes(n, k));
    forall p | 0 <= p < 5 ensures |buf[p]| == 6 {
      SixBuffers(buf[p], streams, p);
    }
    ContributeAll(c, a, b, k, memory, buf, streams);
    PublishAll(c, a, b, k, memory);
  }

  /** The loads over uncleared memory and the signed sums. */
  method ContributeAll(c: array<Words5>, a: array<Sharing5>, b: array<Sharing5>, k: nat, memory: seq<Sharing5>,
          buf: seq<seq<seq<Byte>>>, ghost streams: seq<seq<Byte>>)
    requires 1 <= k <= W && c.Length == a.Length == b.Length == |memory| && |streams| == 10
    requires forall i :: 0 <= i < a.Length ==> Agreed5(a[i], k) && Agreed5(b[i], k)
    requires |buf| == 5 && forall p :: 0 <= p < 5 ==> |buf[p]| == 6 && Holds(buf[p], streams, p)
    modifies c
    ensures forall i :: 0 <= i < c.Length ==>
      Cong(c[i][0] + c[i][1] + c[i][2] + c[i][3] + c[i][4],
           Sum5(a[i]) * Sum5(b[i]) + Residue(memory[i], LoadedBytes(c.Length, k, i)), k)
  {
    hide *;
    var n := c.Length;
    var va := new Sharing5[n](i requires 0 <= i < n => memory[i]);
    for i := 0 to n
      invariant forall j :: i <= j < n ==> va[j] == memory[j]
      invariant forall j :: 0 <= j < i ==>
        Cong(c[j][0] + c[j][1] + c[j][2] + c[j][3] + c[j][4], Sum5(a[j]) * Sum5(b[j]) + Residue(memory[j], LoadedBytes(n, k, j)), k)
      modifies c, va
    {
      va[i] := LoadFive(va[i], buf, n, k, i);
      LoadFiveRow(memory[i], buf, streams, n, k, i);
      var w := ContributeElement(a[i], b[i], va[i]);
      assert Agreed5(a[i], k) && Agreed5(b[i], k);
      ContributionsTotal(w, a[i], b[i], va[i], memory[i], LowWords(streams, i), LoadedBytes(n, k, i), k);
      c[i] := w;
    }
  }

  /** The multicast and the final sums. */
  method PublishAll(c: array<Words5>, a: array<Sharing5>, b: array<Sharing5>, k: nat, ghost junk: seq<Sharing5>)
    requires k <= W && c.Length == a.Length == b.Length == |junk|
    requires forall i :: 0 <= i < c.Length ==>
      Cong(c[i][0] + c[i][1] + c[i][2] + c[i][3] + c[i][4],
           Sum5(a[i]) * Sum5(b[i]) + Residue(junk[i], LoadedBytes(c.Length, k, i)), k)
    modifies c
    ensures forall i, p :: 0 <= i < c.Length && 0 <= p < 5 ==> c[i][p] == PublicProduct5(a[i], b[i], junk[i], c.Length, k, i)
  {
    hide *;
    for i := 0 to c.Length
      invariant forall j, p :: 0 <= j < i && 0 <= p < 5 ==> c[j][p] == PublicProduct5(a[j], b[j], junk[j], c.Length, k, j)
      invariant forall j :: i <= j < c.Length ==> c[j] == old(c[j])
    {
      ghost var v := Sum5(a[i]) * Sum5(b[i]) + Residue(junk[i], LoadedBytes(c.Length, k, i));
      var r := PublishElement(c[i], k, v);
      PublicProductIs(a[i], b[i], junk[i], c.Length, k, i);
      c[i] := r;
    }
  }

  lemma PublicProductIs(a: Sharing5, b: Sharing5, junk: Sharing5, n: nat, k: nat, i: nat)
    ensures PublicProduct5(a, b, junk, n, k, i) == (Sum5(a) * Sum5(b) + Residue(junk, LoadedBytes(n, k, i))) % Pow2(k)
  {
  }

  lemma PubCountsAreSizes(n: nat, k: nat)
    requires n >= 1 && k >= 1
    ensures forall t :: 0 <= t < 6 ==> PubCounts(n, k)[t] >= 1
    ensures forall p, t :: 0 <= p < 5 && 0 <= t < 6 ==> PubCounts(n, k)[t] == PubSizes(n, k)[ShareOf(p, t)]
  {
  }

  /**
   For all contents of the uncleared memory the opened words are the products if and only if there is one
   element or k-bit words fill the machine word's bytes.
   */
  lemma PublicProductExact(a: Sharing5, b: Sharing5, n: nat, k: nat)
    requires n >= 1 && 1 <= k <= W
    ensures (forall i: nat, junk: Sharing5 :: i < n && MachineWords(junk) ==>
        PublicProduct5(a, b, junk, n, k, i) == Sum5(a) * Sum5(b) % Pow2(k))
      <==> n == 1 || BytesFor(k) == W / 8
  {
    hide Sum5, Residue, BytesFor, LoadedBytes, PublicProduct5, MachineWords, StrayBit;
    AllLoaded(n, k);
    if n == 1 || BytesFor(k) == W / 8 {
      forall i: nat, junk: Sharing5 | i < n ensures PublicProduct5(a, b, junk, n, k, i) == Sum5(a) * Sum5(b) % Pow2(k) {
        assert 8 * LoadedBytes(n, k, i) >= k;
        ResidueHidden(junk, LoadedBytes(n, k, i), k);
        OpenedIsProduct(a, b, junk, n, k, i);
      }
    } else {
      var i :| 0 <= i < n && 8 * LoadedBytes(n, k, i) < k;
      StrayBitSpoils(a, b, n, k, i);
    }
  }

  /** Wherever a word is not loaded far enough, a stray bit in memory makes the opened word wrong. */
  lemma StrayBitSpoils(a: Sharing5, b: Sharing5, n: nat, k: nat, i: nat)
    requires 8 * LoadedBytes(n, k, i) < k <= W
    ensures
      var junk := StrayBit(LoadedBytes(n, k, i));
      MachineWords(junk) && PublicProduct5(a, b, junk, n, k, i) != Sum5(a) * Sum5(b) % Pow2(k)
  {
    hide Sum5, Residue, LoadedBytes, PublicProduct5, MachineWords, StrayBit;
    OneWordOfJunk(LoadedBytes(n, k, i), k);
    OpenedIsProduct(a, b, StrayBit(LoadedBytes(n, k, i)), n, k, i);
  }

  lemma OpenedIsProduct(a: Sharing5, b: Sharing5, junk: Sharing5, n: nat, k: nat, i: nat)
    ensures PublicProduct5(a, b, junk, n, k, i) == Sum5(a) * Sum5(b) % Pow2(k)
      <==> Cong(Residue(junk, LoadedBytes(n, k, i)), 0, k)
  {
    hide Sum5, Residue, LoadedBytes, PublicProduct5;
    PublicProductIs(a, b, junk, n, k, i);
    AddsNothing(Sum5(a) * Sum5(b), Residue(junk, LoadedBytes(n, k, i)), k);
  }

  lemma AddsNothing(v: int, r: int, k: nat)
    ensures (v + r) % Pow2(k) == v % Pow2(k) <==> Cong(r, 0, k)
  {
    hide Cong;
    if (v + r) % Pow2(k) == v % Pow2(k) {
      SameResidues(v + r, v, k);
      CongRefl(v, k);
      CongAdd(v + r, v, v, v, k);
    }
    if Cong(r, 0, k) {
      CongRefl(v, k);
      CongAdd(v, v, r, 0, k);
      SameMod(v + r, v, k);
    }
  }

  lemma SameResidues(x: int, y: int, k: nat)
    requires x % Pow2(k) == y % Pow2(k)
    ensures Cong(x, y, k)
  {
  }
}
