// Powers of two, divisibility and ceilings: the arithmetic under the size
// classes and the page alignment, and a few notions that both allocators use.

module Arithmetic {

  function Min(m: nat, n: nat): nat { if m < n then m else n }

  function Max(m: nat, n: nat): nat { if m < n then n else m }

  ghost predicate Distinct<T>(q: seq<T>) {
    forall i, j :: 0 <= i < j < |q| ==> q[i] != q[j]
  }

  function Pow2(k: nat): (r: nat)
    ensures r >= 1
  {
    if k == 0 then 1 else 2 * Pow2(k - 1)
  }

  lemma {:induction false} Pow2Mono(a: nat, b: nat)
    requires a <= b
    ensures Pow2(a) <= Pow2(b)
    ensures a < b ==> 2 * Pow2(a) <= Pow2(b)
    decreases b - a
  {
    if a < b {
      Pow2Mono(a, b - 1);
    }
  }

  lemma {:induction false} Pow2Sum(a: nat, b: nat)
    ensures Pow2(a + b) == Pow2(a) * Pow2(b)
  {
    if a > 0 {
      Pow2Sum(a - 1, b);
      assert Pow2(a + b) == 2 * (Pow2(a - 1) * Pow2(b));
    }
  }

  lemma MultipleMod(q: nat, m: nat)
    requires m > 0
    ensures (q * m) % m == 0 && (q * m) / m == q
  {
    var x := q * m;
    assert x == (x / m) * m + x % m;
    assert (q - x / m) * m == x % m;
    SmallMultiple(q - x / m, m);
  }

  lemma SmallMultiple(d: int, m: nat)
    requires 0 <= d * m < m
    ensures d == 0
  {
  }

  // x ends in k zero bits.
  predicate ZeroBits(x: nat, k: nat)
    decreases k
  {
    k == 0 || (x % 2 == 0 && ZeroBits(x / 2, k - 1))
  }

  lemma {:induction false} ZeroBitsMod(x: nat, k: nat)
    ensures ZeroBits(x, k) <==> x % Pow2(k) == 0
    decreases k
  {
    if k > 0 {
      ZeroBitsMod(x / 2, k - 1);
      TwiceMod(x, Pow2(k - 1));
    }
  }

  lemma TwiceMod(x: nat, m: nat)
    requires m > 0
    ensures x % (2 * m) == 0 <==> x % 2 == 0 && (x / 2) % m == 0
  {
    var q, r := (x / 2) / m, (x / 2) % m;
    assert x / 2 == q * m + r;
    assert x == 2 * (q * m + r) + x % 2;
    assert 2 * (q * m + r) == q * (2 * m) + 2 * r;
    DivMod(q, 2 * r + x % 2, 2 * m);
  }

  lemma {:induction false} ZeroBitsFewer(x: nat, k: nat, j: nat)
    requires ZeroBits(x, k) && j <= k
    ensures ZeroBits(x, j)
    decreases k
  {
    if j > 0 { ZeroBitsFewer(x / 2, k - 1, j - 1); }
  }

  lemma {:induction false} ZeroBitsSum(x: nat, y: nat, k: nat)
    requires ZeroBits(x, k) && ZeroBits(y, k)
    ensures ZeroBits(x + y, k)
    decreases k
  {
    if k > 0 {
      ZeroBitsSum(x / 2, y / 2, k - 1);
      assert (x + y) / 2 == x / 2 + y / 2;
    }
  }

  lemma ZeroBitsTwice(x: nat, k: nat)
    requires ZeroBits(x, k)
    ensures ZeroBits(2 * x, k + 1)
  {
    assert 2 * x % 2 == 0 && 2 * x / 2 == x;
  }

  lemma {:induction false} ZeroBitsPow2(m: nat, k: nat)
    requires k <= m
    ensures ZeroBits(Pow2(m), k)
    decreases k
  {
    if k > 0 {
      ZeroBitsPow2(m - 1, k - 1);
      ZeroBitsTwice(Pow2(m - 1), k - 1);
    }
  }

  function CeilDiv(x: nat, k: nat): nat
    requires k > 0
  {
    (x + k - 1) / k
  }

  // Quotient and remainder are unique.
  lemma DivMod(q: nat, r: nat, m: nat)
    requires r < m
    ensures (q * m + r) / m == q && (q * m + r) % m == r
  {
    var x := q * m + r;
    assert x == (x / m) * m + x % m;
    assert (q - x / m) * m == x % m - r;
    Between(q - x / m, m, x % m - r);
  }

  lemma Between(d: int, m: nat, v: int)
    requires d * m == v && 0 - m < v < m
    ensures d == 0
  {
  }

  lemma Distribute(a: nat, b: nat, z: nat)
    ensures (a + b) * z == a * z + b * z
    ensures z * (a + b) == z * a + z * b
  {
  }

  // One more than a whole number of groups of k needs one group more; nothing
  // between two whole numbers of groups does.
  lemma CeilDivExact(m: nat, x: nat, k: nat)
    requires k > 0
    requires k * m < x <= k * m + k
    ensures CeilDiv(x, k) == m + 1
  {
    Distribute(m, 1, k);
    DivMod(m + 1, x - k * m - 1, k);
  }

  // Sums modulo m can be taken modulo m on the way.
  lemma ModSums(a: nat, x: nat, y: nat, m: nat)
    requires m > 0
    ensures (a % m + (x % m) * y) % m == (a + x * y) % m
  {
    SumShift(a, x, y, m, a / m, a % m, x / m, x % m);
    ModShift(a % m + (x % m) * y, a / m + (x / m) * y, m);
  }

  lemma SumShift(a: nat, x: nat, y: nat, m: nat, q: nat, r: nat, p: nat, u: nat)
    requires a == q * m + r && x == p * m + u
    ensures a + x * y == (r + u * y) + (q + p * y) * m
  {
    ProductShift(p, u, y, m);
    Distribute(q, p * y, m);
  }

  lemma ProductShift(p: nat, u: nat, y: nat, m: nat)
    ensures (p * m + u) * y == u * y + (p * y) * m
  {
    Distribute(p * m, u, y);
    assert (p * m) * y == (p * y) * m;
  }

  lemma ModShift(x: nat, q: nat, m: nat)
    requires m > 0
    ensures (x + q * m) % m == x % m
  {
    var k, r := x / m, x % m;
    assert x == k * m + r;
    Distribute(k, q, m);
    DivMod(k + q, r, m);
    DivMod(k, r, m);
  }
}
