/** The few facts about remainders the ring proofs rest on. */
module Modular {

  lemma {:induction false} Multiples(a: nat, b: nat, m: nat)
    requires a < b
    ensures a * m + m <= b * m
  {
    assert b * m == (b - 1) * m + m;
    if a < b - 1 { Multiples(a, b - 1, m); }
  }

  lemma Unique(x: nat, m: nat, q: nat, r: nat)
    requires m > 0 && r < m && x == q * m + r
    ensures x % m == r && x / m == q
  {
    var p := x / m;
    assert x == p * m + x % m;
    if q < p {
      Multiples(q, p, m);
    } else if p < q {
      Multiples(p, q, m);
    }
  }

  /** A multiple of the modulus changes no remainder. */
  lemma AddMultiple(x: nat, m: nat, k: nat)
    requires m > 0
    ensures (x + k * m) % m == x % m
  {
    assert x + k * m == (x / m + k) * m + x % m;
    Unique(x + k * m, m, x / m + k, x % m);
  }

  lemma Successor(x: nat, m: nat)
    requires m > 0
    ensures (x + 1) % m == if x % m + 1 == m then 0 else x % m + 1
    ensures (x % m + 1) % m == (x + 1) % m
  {
    var q, r := x / m, x % m;
    assert x == q * m + r;
    if r + 1 == m {
      assert x + 1 == (q + 1) * m by { assert (q + 1) * m == q * m + m; }
      Unique(x + 1, m, q + 1, 0);
      Unique(m, m, 1, 0);
    } else {
      Unique(x + 1, m, q, r + 1);
      Unique(r + 1, m, 0, r + 1);
    }
  }

  lemma Small(x: nat, m: nat)
    requires x < m
    ensures x % m == x
  {
    Unique(x, m, 0, x);
  }

  lemma AtMost(x: nat, m: nat)
    requires m > 0
    ensures x % m <= x
  {
    if x < m { Small(x, m); }
  }

  /** Congruent numbers differ by a multiple of the modulus. */
  lemma Difference(a: nat, b: nat, m: nat)
    requires m > 0 && b <= a
    ensures (a - b) % m == 0 <==> a % m == b % m
  {
    var k := (a - b) / m;
    if (a - b) % m == 0 {
      assert a == b + k * m;
      AddMultiple(b, m, k);
    }
    if a % m == b % m {
      var q := a / m - b / m;
      assert a - b == q * m;
      Unique(a - b, m, q, 0);
    }
  }

  /** The remainder of a difference depends on the remainders alone. */
  lemma DifferenceCongruent(t: nat, a: nat, b: nat, m: nat)
    requires m > 0 && a <= t && b <= t && a % m == b % m
    ensures (t - a) % m == (t - b) % m
  {
    if b <= a {
      Difference(a, b, m);
      assert t - b == (t - a) + (a - b);
      assert a - b == ((a - b) / m) * m;
      AddMultiple(t - a, m, (a - b) / m);
    } else {
      Difference(b, a, m);
      assert t - a == (t - b) + (b - a);
      assert b - a == ((b - a) / m) * m;
      AddMultiple(t - b, m, (b - a) / m);
    }
  }
}
