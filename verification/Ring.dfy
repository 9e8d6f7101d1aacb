/**
 Integers modulo powers of two: the arithmetic every share lives in.

 A share means something only modulo 2^k, so nearly every statement of the project is a
 congruence.  `Cong` is hidden where a proof needs only the laws below.
 */
module Ring {

  function Pow2(n: nat): (r: nat)
    ensures r >= 1
  {
    if n == 0 then 1 else 2 * Pow2(n - 1)
  }

  /** x and y are the same element of Z_{2^k}. */
  ghost predicate Cong(x: int, y: int, k: nat) {
    x % Pow2(k) == y % Pow2(k)
  }

  lemma SameMod(x: int, y: int, k: nat)
    requires Cong(x, y, k)
    ensures x % Pow2(k) == y % Pow2(k)
  {
  }

  // ---------- division by a fixed positive number ----------

  function Quotient(x: nat, d: nat): nat
    requires d >= 1
  {
    x / d
  }

  lemma MulMono(p: nat, a: int, b: int)
    requires a <= b
    ensures p * a <= p * b
  {
  }

  /** Quotient and remainder are determined by their defining equation. */
  lemma DivModUnique(x: int, p: int, q: int, r: int)
    requires p > 0 && x == p * q + r && 0 <= r < p
    ensures x / p == q && x % p == r
  {
    var d, m := x / p, x % p;
    assert x == p * d + m;
    assert p * (d + 1) == p * d + p && p * (q + 1) == p * q + p;
    if d < q {
      MulMono(p, d + 1, q);
    } else if q < d {
      MulMono(p, q + 1, d);
    }
  }

  // ---------- powers of two ----------

  /** Quotient and remainder, as Dafny defines them. */
  lemma DivSplit(x: nat, d: nat)
    requires d >= 1
    ensures x == d * (x / d) + x % d && x % d < d && d * (x / d) >= 0
  {
  }

  lemma Pow2Add(a: nat, b: nat)
    ensures Pow2(a + b) == Pow2(a) * Pow2(b)
  {
    if a > 0 {
      Pow2Add(a - 1, b);
    }
  }

  lemma {:induction false} Pow2Mono(a: nat, b: nat)
    requires a <= b
    ensures Pow2(a) <= Pow2(b)
  {
    if a < b {
      Pow2Mono(a, b - 1);
    }
  }

  // ---------- congruence ----------

  lemma CongIntro(x: int, y: int, k: nat, q: int)
    requires x == y + q * Pow2(k)
    ensures Cong(x, y, k)
  {
    var p := Pow2(k);
    var d, m := y / p, y % p;
    assert x == p * (d + q) + m;
    DivModUnique(x, p, d + q, m);
  }

  lemma CongElim(x: int, y: int, k: nat) returns (q: int)
    requires Cong(x, y, k)
    ensures x == y + q * Pow2(k)
  {
    var p := Pow2(k);
    q := x / p - y / p;
    assert x == p * (x / p) + x % p && y == p * (y / p) + y % p;
    assert q * p == p * (x / p) - p * (y / p);
  }

  lemma CongAdd(x: int, y: int, x': int, y': int, k: nat)
    requires Cong(x, y, k) && Cong(x', y', k)
    ensures Cong(x + x', y + y', k)
    ensures Cong(x - x', y - y', k)
  {
    hide Cong;
    var q := CongElim(x, y, k);
    var q' := CongElim(x', y', k);
    CongIntro(x + x', y + y', k, q + q');
    CongIntro(x - x', y - y', k, q - q');
  }

  lemma CongMul(x: int, y: int, x': int, y': int, k: nat)
    requires Cong(x, y, k) && Cong(x', y', k)
    ensures Cong(x * x', y * y', k)
  {
    hide Cong;
    var p := Pow2(k);
    var q := CongElim(x, y, k);
    var q' := CongElim(x', y', k);
    calc {
      x * x';
      (y + q * p) * (y' + q' * p);
      y * y' + (y * q' + q * y' + q * q' * p) * p;
    }
    CongIntro(x * x', y * y', k, y * q' + q * y' + q * q' * p);
  }

  lemma CongRefl(x: int, k: nat)
    ensures Cong(x, x, k)
  {
  }

  lemma CongSym(x: int, y: int, k: nat)
    requires Cong(x, y, k)
    ensures Cong(y, x, k)
  {
  }

  lemma CongTrans(x: int, y: int, z: int, k: nat)
    requires Cong(x, y, k) && Cong(y, z, k)
    ensures Cong(x, z, k)
  {
  }

  /** The canonical representative. */
  lemma CongMod(x: int, k: nat)
    ensures 0 <= x % Pow2(k) < Pow2(k)
    ensures Cong(x % Pow2(k), x, k)
  {
    var p := Pow2(k);
    assert x == p * (x / p) + x % p;
    CongIntro(x % p, x, k, -(x / p));
  }

  lemma ModSmall(x: int, k: nat)
    requires 0 <= x < Pow2(k)
    ensures x % Pow2(k) == x
  {
    DivModUnique(x, Pow2(k), 0, x);
  }

  /** A congruence survives in every smaller ring. */
  lemma CongWeaken(x: int, y: int, k: nat, k': nat)
    requires Cong(x, y, k) && k' <= k
    ensures Cong(x, y, k')
  {
    hide Cong;
    var q := CongElim(x, y, k);
    Pow2Add(k', k - k');
    assert q * Pow2(k) == q * Pow2(k - k') * Pow2(k');
    CongIntro(x, y, k', q * Pow2(k - k'));
  }

  /** Multiplying by 2^j lifts a congruence j bits up. */
  lemma CongScale(x: int, y: int, k: nat, j: nat)
    requires Cong(x, y, k)
    ensures Cong(x * Pow2(j), y * Pow2(j), k + j)
  {
    hide Cong;
    var q := CongElim(x, y, k);
    Pow2Add(k, j);
    Distribute(y, q, Pow2(k), Pow2(j));
    CongIntro(x * Pow2(j), y * Pow2(j), k + j, q);
  }

  lemma Distribute(y: int, q: int, a: int, b: int)
    ensures (y + q * a) * b == y * b + q * (a * b)
  {
  }

  /** Dividing both sides by 2^j brings a congruence j bits down. */
  lemma CongUnscale(x: int, y: int, k: nat, j: nat)
    requires Cong(x * Pow2(j), y * Pow2(j), k + j)
    ensures Cong(x, y, k)
  {
    hide Cong;
    var q := CongElim(x * Pow2(j), y * Pow2(j), k + j);
    Pow2Add(k, j);
    Distribute(y, q, Pow2(k), Pow2(j));
    Cancel(x, y + q * Pow2(k), Pow2(j));
    CongIntro(x, y, k, q);
  }

  lemma Cancel(a: int, b: int, p: int)
    requires a * p == b * p && p > 0
    ensures a == b
  {
  }

  lemma CongUnique(x: int, y: int, k: nat)
    requires Cong(x, y, k) && 0 <= x < Pow2(k) && 0 <= y < Pow2(k)
    ensures x == y
  {
    ModSmall(x, k);
    ModSmall(y, k);
  }
}
