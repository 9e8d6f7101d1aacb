/**
 Opening a sharing: every party sends its slot-1 word back to the party that lacks it.

 The words are masked to the ring size in place before they are sent, so opening changes the sharing
 it opens, though not its secret.
 */
module Opening {
  import opened Ring
  import opened Words
  import opened Sharings
  import opened Cluster

  function Slot1(a: Sharing): Public {
    Three(a.p1.s1, a.p2.s1, a.p3.s1)
  }

  /** The sharing after its slot-1 words have been masked in place. */
  function MaskSlot1(a: Sharing, k: nat): Sharing {
    Three(a.p1.(s1 := Masked(a.p1.s1, k)), a.p2.(s1 := Masked(a.p2.s1, k)), a.p3.(s1 := Masked(a.p3.s1, k)))
  }

  /** The opened word of a party: its own two shares and the received one. */
  function OpenWords(a: Sharing, recv: Public, k: nat): Public {
    Three(Masked(Wrap(a.p1.s0 + a.p1.s1 + recv.p1), k),
          Masked(Wrap(a.p2.s0 + a.p2.s1 + recv.p2), k),
          Masked(Wrap(a.p3.s0 + a.p3.s1 + recv.p3), k))
  }

  function OpenXorWords(a: Sharing, recv: Public, k: nat): Public {
    Three(Masked(Xor(Xor(a.p1.s0, a.p1.s1), recv.p1), k),
          Masked(Xor(Xor(a.p2.s0, a.p2.s1), recv.p2), k),
          Masked(Xor(Xor(a.p3.s0, a.p3.s1), recv.p3), k))
  }

  /** The party that holds x and a copy of y, and receives a copy of z, opens their sum. */
  lemma OpenWord(x: nat, y: nat, z: nat, y': nat, z': nat, v: int, k: nat)
    requires k <= W && Cong(y', y, k) && Cong(z', z, k) && v == x + y + z
    ensures Masked(Wrap(x + y' + z'), k) == v % Pow2(k)
  {
    hide Cong, Wrap;
    WrapCong(x + y' + z', k);
    CongRefl(x, k);
    CongAdd(x, x, y', y, k);
    CongAdd(x + y', x + y, z', z, k);
    CongTrans(Wrap(x + y' + z'), x + y' + z', v, k);
    SameMod(Wrap(x + y' + z'), v, k);
  }

  lemma OpenXorWord(x: nat, y: nat, z: nat, y': nat, z': nat, v: nat, k: nat)
    requires Cong(y', y, k) && Cong(z', z, k)
    requires forall j :: 0 <= j < k ==> Bit(v, j) == ((Bit(x, j) != Bit(y, j)) != Bit(z, j))
    ensures Masked(Xor(Xor(x, y'), z'), k) == v % Pow2(k)
  {
    hide *;
    var w := Xor(Xor(x, y'), z');
    forall j | 0 <= j < k ensures Bit(w, j) == Bit(v, j) {
      CongBit(y', y, k, j);
      CongBit(z', z, k, j);
      BitXor(x, y', j);
      BitXor(Xor(x, y'), z', j);
    }
    BitsCong(w, v, k);
    SameMod(w, v, k);
  }

  /** Masking a held word leaves the sharing of the same secret. */
  lemma MaskedCong(x: nat, y: nat, k: nat)
    requires Cong(x, y, k)
    ensures Cong(Masked(x, k), y, k)
  {
    hide Cong;
    CongMod(x, k);
    CongTrans(Masked(x, k), x, y, k);
  }

  lemma MaskSlot1Agreed(a: Sharing, k: nat)
    requires Agreed(a, k)
    ensures Agreed(MaskSlot1(a, k), k)
    ensures Sum(MaskSlot1(a, k)) == Sum(a) && XorSum(MaskSlot1(a, k)) == XorSum(a)
  {
    hide Cong, Masked;
    MaskedCong(a.p1.s1, a.p2.s0, k);
    MaskedCong(a.p2.s1, a.p3.s0, k);
    MaskedCong(a.p3.s1, a.p1.s0, k);
  }

  lemma OpenElement(a: Sharing, k: nat)
    requires k <= W && Agreed(a, k)
    ensures
      var a' := MaskSlot1(a, k);
      Known(OpenWords(a', FromNext(Slot1(a')), k), Value(a, k))
  {
    hide Cong, Masked, Wrap;
    MaskSlot1Agreed(a, k);
    var x := MaskSlot1(a, k);
    OpenWord(x.p1.s0, x.p2.s0, x.p3.s0, x.p1.s1, x.p2.s1, Sum(x), k);
    OpenWord(x.p2.s0, x.p3.s0, x.p1.s0, x.p2.s1, x.p3.s1, Sum(x), k);
    OpenWord(x.p3.s0, x.p1.s0, x.p2.s0, x.p3.s1, x.p1.s1, Sum(x), k);
  }

  lemma OpenXorElement(a: Sharing, k: nat)
    requires Agreed(a, k)
    ensures
      var a' := MaskSlot1(a, k);
      Known(OpenXorWords(a', FromNext(Slot1(a')), k), XorValue(a, k))
  {
    hide Cong, Masked, Bit, Xor;
    MaskSlot1Agreed(a, k);
    var x := MaskSlot1(a, k);
    forall j | 0 <= j < k ensures Bit(XorSum(x), j) == Parity(x, j) {
      XorSumBit(x, j);
    }
    OpenXorWord(x.p1.s0, x.p2.s0, x.p3.s0, x.p1.s1, x.p2.s1, XorSum(x), k);
    OpenXorWord(x.p2.s0, x.p3.s0, x.p1.s0, x.p2.s1, x.p3.s1, XorSum(x), k);
    OpenXorWord(x.p3.s0, x.p1.s0, x.p2.s0, x.p3.s1, x.p1.s1, XorSum(x), k);
  }

  /** `Rss_Open`: every party learns the secret; the opened sharing keeps it. */
  method Open(res: array<Public>, a: array<Sharing>, k: nat)
    requires 1 <= k <= W && 1 <= res.Length == a.Length
    requires forall i :: 0 <= i < a.Length ==> Agreed(a[i], k)
    modifies res, a
    ensures forall i :: 0 <= i < a.Length ==> a[i] == MaskSlot1(old(a[i]), k)
    ensures forall i :: 0 <= i < a.Length ==> Known(res[i], Value(old(a[i]), k))
  {
    hide *;
    var recv := SendSlot1(a, k);
    for i := 0 to res.Length
      invariant forall j :: 0 <= j < a.Length ==>
        a[j] == MaskSlot1(old(a[j]), k) && recv[j] == FromNext(Slot1(a[j]))
      invariant forall j :: 0 <= j < i ==> Known(res[j], Value(old(a[j]), k))
    {
      OpenElement(old(a[i]), k);
      assert a[i] == MaskSlot1(old(a[i]), k) && recv[i] == FromNext(Slot1(a[i]));
      res[i] := OpenWords(a[i], recv[i], k);
    }
  }

  /** `Rss_Open_Bitwise`. */
  method OpenBitwise(res: array<Public>, a: array<Sharing>, k: nat)
    requires 1 <= k <= W && 1 <= res.Length == a.Length
    requires forall i :: 0 <= i < a.Length ==> Agreed(a[i], k)
    modifies res, a
    ensures forall i :: 0 <= i < a.Length ==> a[i] == MaskSlot1(old(a[i]), k)
    ensures forall i :: 0 <= i < a.Length ==> Known(res[i], XorValue(old(a[i]), k))
  {
    hide *;
    var recv := SendSlot1(a, k);
    for i := 0 to res.Length
      invariant forall j :: 0 <= j < a.Length ==>
        a[j] == MaskSlot1(old(a[j]), k) && recv[j] == FromNext(Slot1(a[j]))
      invariant forall j :: 0 <= j < i ==> Known(res[j], XorValue(old(a[j]), k))
    {
      OpenXorElement(old(a[i]), k);
      assert a[i] == MaskSlot1(old(a[i]), k) && recv[i] == FromNext(Slot1(a[i]));
      res[i] := OpenXorWords(a[i], recv[i], k);
    }
  }

  /** Sends slot 1, masking it in place. */
  method SendSlot1(a: array<Sharing>, k: nat) returns (recv: array<Public>)
    requires 1 <= k <= W && 1 <= a.Length
    modifies a
    ensures fresh(recv) && recv.Length == a.Length
    ensures forall i :: 0 <= i < a.Length ==> a[i] == MaskSlot1(old(a[i]), k) && recv[i] == FromNext(Slot1(a[i]))
  {
    hide *;
    var send := new Public[a.Length];
    for i := 0 to a.Length
      invariant forall j :: 0 <= j < a.Length ==> a[j] == old(a[j])
      invariant forall j :: 0 <= j < i ==> send[j] == Slot1(a[j])
    {
      send[i] := Slot1(a[i]);
    }
    recv := Exchange(send, k);
    for i := 0 to a.Length
      invariant forall j :: 0 <= j < i ==> a[j] == MaskSlot1(old(a[j]), k) && recv[j] == FromNext(Slot1(a[j]))
      invariant forall j :: i <= j < a.Length ==> a[j] == old(a[j])
      invariant forall j :: i <= j < a.Length ==> recv[j] == FromNext(MaskAll(Slot1(a[j]), k))
    {
      SlotsOfMasked(a[i], k);
      assert recv[i] == FromNext(MaskAll(Slot1(a[i]), k));
      a[i] := MaskSlot1(a[i], k);
    }
  }

  lemma SlotsOfMasked(a: Sharing, k: nat)
    ensures Slot1(MaskSlot1(a, k)) == MaskAll(Slot1(a), k)
  {
  }
}
