/** Prime numbers and sets of exponents: the little number theory behind the
    question when a register comes back. */
module Divisibility {
  predicate Prime(p: nat) {
    p > 1 && forall d: nat :: 1 < d < p ==> p % d != 0
  }

  /** No number from 2 to `n` divides `p`. */
  predicate NoDivisor(p: nat, n: nat) {
    n <= 1 || (p % n != 0 && NoDivisor(p, n - 1))
  }

  lemma {:induction false} NoDivisorBelow(p: nat, n: nat, d: nat)
    requires NoDivisor(p, n) && 1 < d <= n
    ensures p % d != 0
  {
    if d == n {
    } else {
      NoDivisorBelow(p, n - 1, d);
    }
  }

  lemma Cofactor(p: nat, d: nat) returns (k: nat)
    requires 0 < d && p % d == 0
    ensures p == d * k
  {
    k := p / d;
  }

  lemma AtLeastOnce(c: nat, k: nat)
    requires c > 0
    ensures c * k >= k
  {
  }

  lemma LargerQuotient(k: nat, q: nat, r: nat, q': nat, r': nat)
    requires q > q' && r' < k
    ensures q * k + r > q' * k + r'
  {
    AtLeastOnce(q - q', k);
    assert q * k == q' * k + (q - q') * k;
  }

  /** Quotient and remainder are unique. */
  lemma RemainderIs(n: nat, k: nat, q: nat, r: nat)
    requires r < k && n == q * k + r
    ensures n % k == r
  {
    var q', r' := n / k, n % k;
    assert n == q' * k + r';
    if q > q' {
      LargerQuotient(k, q, r, q', r');
    } else if q < q' {
      LargerQuotient(k, q', r', q, r);
    }
  }

  lemma MultipleLeavesNothing(q: nat, k: nat)
    requires 0 < k
    ensures (q * k) % k == 0
  {
    RemainderIs(q * k, k, q, 0);
  }

  lemma BothLarge(d: nat, k: nat, m: nat)
    requires d >= m && k >= m
    ensures d * k >= m * m
  {
    assert d * k >= m * k by {
      assert d * k == m * k + (d - m) * k;
    }
    assert m * k == m * m + m * (k - m);
  }

  /** Trial division up to the square root is enough. */
  lemma TrialDivision(p: nat, n: nat)
    requires p > 1 && (n + 1) * (n + 1) > p && n < p && NoDivisor(p, n)
    ensures Prime(p)
  {
    forall d: nat | 1 < d < p
      ensures p % d != 0
    {
      if p % d == 0 {
        var k := Cofactor(p, d);
        if d <= n {
          NoDivisorBelow(p, n, d);
        } else if k > n {
          BothLarge(d, k, n + 1);
        } else {
          assert k > 1;
          MultipleLeavesNothing(d, k);
          NoDivisorBelow(p, n, k);
        }
      }
    }
  }

  // ------------------------------------------------------------ closed sets

  /** A set of numbers that is closed under sums and differences. */
  ghost predicate Closed(S: nat -> bool) {
    S(0) && forall a: nat, b: nat :: S(a) ==> (S(b) <==> S(a + b))
  }

  lemma {:induction false} Multiples(S: nat -> bool, a: nat, k: nat)
    requires Closed(S) && S(a)
    ensures S(k * a)
  {
    if k == 0 {
    } else {
      Multiples(S, a, k - 1);
      assert k * a == a + (k - 1) * a;
      assert S(a) ==> (S((k - 1) * a) <==> S(a + (k - 1) * a));
    }
  }

  lemma Remainder(S: nat -> bool, a: nat, e: nat)
    requires Closed(S) && S(a) && S(e) && e > 0
    ensures S(a % e)
  {
    var q, r := a / e, a % e;
    Multiples(S, e, q);
    assert a == q * e + r;
    assert S(q * e) ==> (S(r) <==> S(q * e + r));
  }

  lemma {:induction false} Descend(S: nat -> bool, p: nat, e: nat)
    requires Closed(S) && Prime(p) && S(p) && 0 < e < p && S(e)
    ensures S(1)
    decreases e
  {
    if e == 1 {
    } else {
      Remainder(S, p, e);
      Descend(S, p, p % e);
    }
  }

  /** A closed set that holds a prime and something that the prime does not divide
      holds one. */
  lemma HoldsOne(S: nat -> bool, p: nat, e: nat)
    requires Closed(S) && Prime(p) && S(p) && S(e) && e % p != 0
    ensures S(1)
  {
    Remainder(S, e, p);
    Descend(S, p, e % p);
  }

  lemma SumOfMultiples(p: nat, x: nat, y: nat)
    requires p > 0 && x % p == 0
    ensures y % p == (x + y) % p
  {
    var k := Cofactor(x, p);
    var q := y / p;
    assert x + y == (k + q) * p + y % p by {
      assert (k + q) * p == p * k + q * p;
    }
    RemainderIs(x + y, p, k + q, y % p);
  }

  lemma DividingClosed(p: nat, k: nat)
    requires p > 0
    ensures Closed((e: nat) => (e * k) % p == 0)
  {
    forall a: nat, b: nat | (a * k) % p == 0
      ensures (b * k) % p == 0 <==> ((a + b) * k) % p == 0
    {
      assert (a + b) * k == a * k + b * k;
      SumOfMultiples(p, a * k, b * k);
    }
  }

  /** If a prime and a number that it does not divide both divide `n`, so does their
      product. */
  lemma ProductDivides(n: nat, a: nat, p: nat)
    requires Prime(p) && a > 0 && a % p != 0 && n % a == 0 && n % p == 0
    ensures n % (a * p) == 0
  {
    var k := Cofactor(n, a);
    var S := (e: nat) => (e * k) % p == 0;
    DividingClosed(p, k);
    MultipleLeavesNothing(k, p);
    assert p * k == k * p;
    assert S(p) && S(a);
    HoldsOne(S, p, a);
    assert 1 * k == k;
    var j := Cofactor(k, p);
    assert n == j * (a * p) by {
      assert n == a * (p * j);
      assert a * (p * j) == j * (a * p);
    }
    MultipleLeavesNothing(j, a * p);
  }
}
