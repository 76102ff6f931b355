/** Integer arithmetic: extremes and sums, and facts about products, quotients and remainders that the solver
    is not left to find. */
module Modular {

  function Min(a: int, b: int): int { if a <= b then a else b }

  function Max(a: int, b: int): int { if a >= b then a else b }

  function Sum(sizes: seq<nat>): nat {
    if sizes == [] then 0 else sizes[0] + Sum(sizes[1..])
  }

  lemma MulMonotone(k: int, a: int, b: int)
    requires k >= 0 && a <= b
    ensures k * a <= k * b
  {
    assert k * (b - a) >= 0;
  }

  lemma SmallMultiple(k: int, n: int)
    requires n >= 1 && -n < k * n < n
    ensures k == 0
  {
    if k >= 1 { MulMonotone(n, 1, k); }
    if k <= -1 { MulMonotone(n, k, -1); }
  }

  lemma DivisionIsUnique(x: int, n: nat, q: int, r: nat)
    requires n >= 1 && x == q * n + r && r < n
    ensures x / n == q && x % n == r
  {
    var q', r' := x / n, x % n;
    assert x == q' * n + r';
    assert (q - q') * n == q * n - q' * n;
    SmallMultiple(q - q', n);
  }

  lemma SelfResidue(n: nat)
    requires n >= 1
    ensures n % n == 0
  {
    DivisionIsUnique(n, n, 1, 0);
  }

  lemma SmallResidue(x: nat, n: nat)
    requires x < n
    ensures x % n == x
  {
    DivisionIsUnique(x, n, 0, x);
  }

  lemma AddMultiple(k: nat, e: nat, n: nat)
    requires n >= 1
    ensures (k * n + e) % n == e % n
  {
    var q := e / n;
    assert e == q * n + e % n;
    assert (k + q) * n == k * n + q * n;
    DivisionIsUnique(k * n + e, n, k + q, e % n);
  }

  /** Reducing a summand first does not change the residue of the sum. */
  lemma ModSum(x: int, c: int, n: nat)
    requires n >= 1
    ensures (x % n + c) % n == (x + c) % n
  {
    var q := x / n;
    assert x == q * n + x % n;
    var s := x % n + c;
    assert s == (s / n) * n + s % n;
    assert (q + s / n) * n == q * n + (s / n) * n;
    DivisionIsUnique(x + c, n, q + s / n, s % n);
  }

  lemma SameResidueAfter(a: nat, b: nat, i: nat, n: nat)
    requires n >= 1 && a % n == b % n
    ensures (a + i) % n == (b + i) % n
  {
    var p, q, r := a / n, b / n, a % n;
    assert a == p * n + r && b == q * n + r;
    AddMultiple(p, r + i, n);
    AddMultiple(q, r + i, n);
  }

  /** (x mod n) may stand for x inside a product taken mod n. */
  lemma ModProduct(x: nat, y: nat, n: nat)
    requires n >= 1
    ensures ((x % n) * y) % n == (x * y) % n
  {
    var q, r := x / n, x % n;
    assert x == q * n + r;
    assert x * y == (q * y) * n + r * y by {
      assert (q * n + r) * y == q * n * y + r * y;
      assert q * n * y == (q * y) * n;
    }
    assert q * y >= 0;
    AddMultiple(q * y, r * y, n);
  }

  /** Adding keeps the residue exactly when a multiple is added. */
  lemma SameResidueIff(a: nat, b: nat, n: nat)
    requires n >= 1
    ensures (a + b) % n == a % n <==> b % n == 0
  {
    var p, q, r := (a + b) / n, a / n, a % n;
    assert a == q * n + r;
    assert a + b == p * n + (a + b) % n;
    if (a + b) % n == r {
      assert b == (p - q) * n + 0 by { assert (p - q) * n == p * n - q * n; }
      DivisionIsUnique(b, n, p - q, 0);
    }
    if b % n == 0 {
      var k := b / n;
      assert b == k * n + 0;
      assert a + b == (q + k) * n + r by { assert (q + k) * n == q * n + k * n; }
      DivisionIsUnique(a + b, n, q + k, r);
    }
  }
}
