/**
 Multiplication with a public result, and multiplication by one fixed element.
 */
module PublicProduct {
  import opened Ring
  import opened Words
  import opened Stream
  import opened Sharings
  import opened Cluster
  import opened Multiplication

  // ---------- Rss_MultPub ----------

  /** The words loaded over whatever the destination held. */
  function LoadLow(word: Public, r: Public, bytes: nat): Public {
    Three(CopyLow(word.p1, r.p1, bytes), CopyLow(word.p2, r.p2, bytes), CopyLow(word.p3, r.p3, bytes))
  }

  /** Signs of the slot-0 draw (opa) and of the slot-1 draw (opb): over all parties they cancel. */
  const Opa: Three<int> := Three(1, -1, -1)
  const Opb: Three<int> := Three(1, 1, -1)

  function Contributions(a: Sharing, b: Sharing, va: Public, vb: Public): Public {
    Three(Wrap(LocalProduct(a.p1, b.p1) + Opb.p1 * vb.p1 + Opa.p1 * va.p1),
          Wrap(LocalProduct(a.p2, b.p2) + Opb.p2 * vb.p2 + Opa.p2 * va.p2),
          Wrap(LocalProduct(a.p3, b.p3) + Opb.p3 * vb.p3 + Opa.p3 * va.p3))
  }

  /** Each party adds the masked contributions it received to its own. */
  function Total3(c: Public, k: nat): Public {
    var m := MaskAll(c, k);
    Three(Masked(Wrap(c.p1 + m.p3 + m.p2), k),
          Masked(Wrap(c.p2 + m.p1 + m.p3), k),
          Masked(Wrap(c.p3 + m.p2 + m.p1), k))
  }

  lemma TotalWord(x: nat, y: nat, z: nat, v: int, k: nat)
    requires k <= W && Cong(x + y + z, v, k)
    ensures Masked(Wrap(x + Masked(z, k) + Masked(y, k)), k) == v % Pow2(k)
  {
    hide Cong, Wrap;
    var w := x + Masked(z, k) + Masked(y, k);
    CongMod(y, k);
    CongMod(z, k);
    CongRefl(x, k);
    Add3(x, Masked(z, k), Masked(y, k), x, z, y, k);
    WrapCong(w, k);
    CongTrans(w, x + z + y, v, k);
    CongTrans(Wrap(w), w, v, k);
    SameMod(Wrap(w), v, k);
  }

  lemma SameResidue(x: int, y: int, z: int, k: nat)
    requires Cong(x, z, k) && Cong(y, z, k)
    ensures Cong(x, y, k)
  {
  }

  /** The signed masks of the three parties sum to zero. */
  lemma SignedMasksCancel(l: Three<int>, va: Public, vb: Public, k: nat)
    requires Agreed(Zip(va, vb), k)
    ensures Cong((l.p1 + vb.p1 + va.p1) + (l.p2 + vb.p2 - va.p2) + (l.p3 - vb.p3 - va.p3), l.p1 + l.p2 + l.p3, k)
  {
    hide Cong;
    var s := l.p1 + l.p2 + l.p3;
    CongAdd(vb.p1, va.p2, vb.p2, va.p3, k);
    CongAdd(vb.p1 + vb.p2, va.p2 + va.p3, vb.p3, va.p1, k);
    CongRefl(s + va.p1 - va.p2 - va.p3, k);
    CongAdd(s + va.p1 - va.p2 - va.p3, s + va.p1 - va.p2 - va.p3, vb.p1 + vb.p2 - vb.p3, va.p2 + va.p3 - va.p1, k);
  }

  lemma MultPubElement(a: Sharing, b: Sharing, va: Public, vb: Public, k: nat)
    requires k <= W && Agreed(a, k) && Agreed(b, k)
    requires Agreed(Zip(va, vb), k)
    ensures Known(Total3(Contributions(a, b, va, vb), k), Sum(a) * Sum(b) % Pow2(k))
  {
    hide Cong, Wrap, LocalProduct, Masked, Sum, Agreed, Zip;
    var l := Three(LocalProduct(a.p1, b.p1), LocalProduct(a.p2, b.p2), LocalProduct(a.p3, b.p3));
    var x1, x2, x3 := l.p1 + vb.p1 + va.p1, l.p2 + vb.p2 - va.p2, l.p3 - vb.p3 - va.p3;
    var c := Contributions(a, b, va, vb);
    assert c == Three(Wrap(x1), Wrap(x2), Wrap(x3));
    SignedMasksCancel(l, va, vb, k);
    WrapCong(x1, k);
    WrapCong(x2, k);
    WrapCong(x3, k);
    Add3(c.p1, c.p2, c.p3, x1, x2, x3, k);
    LocalProductsCover(a, b, k);
    var v := Sum(a) * Sum(b);
    CongTrans(c.p1 + c.p2 + c.p3, x1 + x2 + x3, l.p1 + l.p2 + l.p3, k);
    CongTrans(c.p1 + c.p2 + c.p3, l.p1 + l.p2 + l.p3, v, k);
    TotalWord(c.p1, c.p2, c.p3, v, k);
    TotalWord(c.p2, c.p3, c.p1, v, k);
    TotalWord(c.p3, c.p1, c.p2, v, k);
  }

  /** `Rss_MultPub`: every party ends with the product of the two secrets, and nothing else changes. */
  method MultPub(c: array<Public>, a: array<Sharing>, b: array<Sharing>, k: nat, net: Net)
    requires InStep(net) && 1 <= k <= W && 1 <= c.Length == a.Length == b.Length
    requires forall i :: 0 <= i < a.Length ==> Agreed(a[i], k) && Agreed(b[i], k)
    modifies c, net.p1, net.p2, net.p3
    ensures InStep(net) && Private(net) == old(Private(net))
    ensures Slots(net, 0) == Advanced(old(Slots(net, 0)), RequestSize(c.Length, k))
    ensures Slots(net, 1) == Advanced(old(Slots(net, 1)), RequestSize(c.Length, k))
    ensures forall i :: 0 <= i < c.Length ==> Known(c[i], Sum(a[i]) * Sum(b[i]) % Pow2(k))
  {
    hide *;
    var va := new Public[c.Length];
    DrawBoth(va, c, k, net);
    Publish(c, a, b, va, k);
  }

  /** Draws one word per element from slot 0 and then from slot 1: replicated random words. */
  method DrawBoth(va: array<Public>, vb: array<Public>, k: nat, net: Net)
    requires InStep(net) && 1 <= k <= W && 1 <= va.Length == vb.Length && va != vb
    modifies va, vb, net.p1, net.p2, net.p3
    ensures InStep(net) && Private(net) == old(Private(net))
    ensures Slots(net, 0) == Advanced(old(Slots(net, 0)), RequestSize(va.Length, k))
    ensures Slots(net, 1) == Advanced(old(Slots(net, 1)), RequestSize(va.Length, k))
    ensures forall i :: 0 <= i < va.Length ==>
      Agreed(Zip(va[i], vb[i]), k) && Loaded(va[i], Drawn(old(Slots(net, 0)), va.Length, k, i), k)
  {
    ghost var n, g0, g1 := va.Length, Slots(net, 0), Slots(net, 1);
    PairedAdvance(g0, g1, RequestSize(n, k));
    assert Valid(net);
    hide *;
    DrawWords(va, 0, k, net);
    DrawWords(vb, 1, k, net);
    KeptInStep(net);
    forall i | 0 <= i < n ensures Agreed(Zip(va[i], vb[i]), k) && Loaded(va[i], Drawn(g0, n, k, i), k) {
      PairedDraws(g0, g1, n, k, i);
      assert Loaded(va[i], Drawn(g0, n, k, i), k) && Loaded(vb[i], Drawn(g1, n, k, i), k);
      DrawnAgreed(va[i], vb[i], Drawn(g0, n, k, i), Drawn(g1, n, k, i), k);
    }
  }

  /** Draws one word per element into words that keep their upper bytes. */
  method DrawWords(v: array<Public>, s: nat, k: nat, net: Net)
    requires Valid(net) && s < 3 && 1 <= k <= W && 1 <= v.Length
    modifies v, net.p1, net.p2, net.p3
    ensures Valid(net) && Slots(net, s) == Advanced(old(Slots(net, s)), RequestSize(v.Length, k))
    ensures forall t :: 0 <= t < 3 && t != s ==> Slots(net, t) == old(Slots(net, t))
    ensures forall i :: 0 <= i < v.Length ==> Loaded(v[i], Drawn(old(Slots(net, s)), v.Length, k, i), k)
  {
    hide RequestSize, Drawn, Loaded, LoadLow, Advanced, Bytes, BytesFor, RandWords;
    ghost var g := Slots(net, s);
    var buf := Draw(net, s, RequestSize(v.Length, k));
    for i := 0 to v.Length
      invariant forall j :: 0 <= j < i ==> Loaded(v[j], Drawn(g, v.Length, k, j), k)
      modifies v
    {
      DrawnWord(g, v.Length, k, i);
      LoadedIs(v[i], RandWords(buf, i, BytesFor(k)), k);
      v[i] := LoadLow(v[i], RandWords(buf, i, BytesFor(k)), BytesFor(k));
    }
  }

  /** v holds the word r, up to its uninitialised upper bytes. */
  ghost predicate Loaded(v: Public, r: Public, k: nat) {
    Cong(v.p1, r.p1, k) && Cong(v.p2, r.p2, k) && Cong(v.p3, r.p3, k)
  }

  lemma LoadedIs(word: Public, r: Public, k: nat)
    ensures Loaded(LoadLow(word, r, BytesFor(k)), r, k)
  {
    hide Cong, CopyLow, BytesFor;
    BytesEnough(k);
    CopyLowCong(word.p1, r.p1, BytesFor(k), k);
    CopyLowCong(word.p2, r.p2, BytesFor(k), k);
    CopyLowCong(word.p3, r.p3, BytesFor(k), k);
  }

  lemma DrawnAgreed(va: Public, vb: Public, r0: Public, r1: Public, k: nat)
    requires Loaded(va, r0, k) && Loaded(vb, r1, k) && r1 == FromNext(r0)
    ensures Agreed(Zip(va, vb), k)
  {
    hide Cong;
    SameResidue(vb.p1, va.p2, r1.p1, k);
    SameResidue(vb.p2, va.p3, r1.p2, k);
    SameResidue(vb.p3, va.p1, r1.p3, k);
  }

  /** The local contributions, then the multicast and the sum. */
  method Publish(c: array<Public>, a: array<Sharing>, b: array<Sharing>, va: array<Public>, k: nat)
    requires 1 <= k <= W && c.Length == a.Length == b.Length == va.Length && c != va
    requires forall i :: 0 <= i < a.Length ==> Agreed(a[i], k) && Agreed(b[i], k)
    requires forall i :: 0 <= i < c.Length ==> Agreed(Zip(va[i], c[i]), k)
    modifies c
    ensures forall i :: 0 <= i < c.Length ==> Known(c[i], Sum(a[i]) * Sum(b[i]) % Pow2(k))
  {
    hide *;
    for i := 0 to c.Length
      invariant forall j :: 0 <= j < i ==> Known(c[j], Sum(a[j]) * Sum(b[j]) % Pow2(k))
      invariant forall j :: i <= j < c.Length ==> c[j] == old(c[j])
    {
      assert Agreed(a[i], k) && Agreed(b[i], k) && Agreed(Zip(va[i], c[i]), k);
      MultPubElement(a[i], b[i], va[i], c[i], k);
      c[i] := Contributions(a[i], b[i], va[i], c[i]);
      c[i] := Total3(c[i], k);
    }
  }

  // ---------- Rss_Mult_fixed_b ----------

  /**
   `Rss_Mult_fixed_b`: every element of a is multiplied by the one element b[index].  The result is
   built in separate words, so c may be a or b.
   */
  method MultFixedB(c: array<Sharing>, a: array<Sharing>, b: array<Sharing>, index: nat, k: nat, net: Net)
    requires InStep(net) && 1 <= k <= W && 1 <= c.Length == a.Length && index < b.Length
    requires Agreed(b[index], k) && forall i :: 0 <= i < a.Length ==> Agreed(a[i], k)
    modifies c, net.p1, net.p2, net.p3
    ensures InStep(net) && Private(net) == old(Private(net))
    ensures forall i :: 0 <= i < c.Length ==> Additive(c[i], Sum(old(a[i])) * Sum(old(b[index])), k)
  {
    hide *;
    var n, factor := c.Length, b[index];
    var placeholder := new Sharing[n];
    var fixed := Repeat(factor, n);
    Mult(placeholder, a, fixed, k, net);
    forall i | 0 <= i < n ensures Additive(placeholder[i], Sum(old(a[i])) * Sum(factor), k) {
      assert fixed[i] == factor && a[i] == old(a[i]);
      assert Additive(placeholder[i], Sum(a[i]) * Sum(fixed[i]), k);
    }
    CopyVector(c, placeholder);
  }
}
