/** Polynomials over GF(2), as the set of exponents whose coefficient is one. */
module Gf2 {
  type Poly = set<nat>

  function Add(p: Poly, q: Poly): Poly {
    (p - q) + (q - p)
  }

  /** Multiplication by x to the power `n`. */
  function Raise(n: nat, p: Poly): Poly {
    set k | k in p :: k + n
  }

  /** The ways of writing `k` as an exponent of `p` plus one of `q`. */
  function Pairs(p: Poly, q: Poly, k: nat): Poly {
    set i | i in p && i <= k && k - i in q
  }

  function Sums(p: Poly, q: Poly): Poly {
    set i, j | i in p && j in q :: i + j
  }

  /** The product: exponent `k` survives when it arises an odd number of times. */
  function Times(p: Poly, q: Poly): Poly {
    set k | k in Sums(p, q) && |Pairs(p, q, k)| % 2 == 1
  }

  /** All exponents are below `n`. */
  predicate DegreeBelow(p: Poly, n: nat) {
    forall k :: k in p ==> k < n
  }

  /** `g` has degree `n`. */
  predicate HasDegree(g: Poly, n: nat) {
    n in g && DegreeBelow(g, n + 1)
  }

  /** `r` is a remainder of `p` under division by `g`, a polynomial of degree `n`. */
  ghost predicate IsRemainder(p: Poly, g: Poly, n: nat, r: Poly) {
    && DegreeBelow(r, n)
    && exists q :: p == Add(Times(q, g), r)
  }

  // ----------------------------------------------------------------- addition

  lemma AddLaws(p: Poly, q: Poly, r: Poly)
    ensures Add(p, q) == Add(q, p)
    ensures Add(Add(p, q), r) == Add(p, Add(q, r))
    ensures Add(Add(p, q), q) == p
    ensures Add(p, {}) == p && Add(p, p) == {}
  {
  }

  lemma AddExchange(p: Poly, q: Poly, r: Poly, s: Poly)
    ensures Add(Add(p, q), Add(r, s)) == Add(Add(p, r), Add(q, s))
  {
  }

  lemma RaiseAdd(n: nat, p: Poly, q: Poly)
    ensures Raise(n, Add(p, q)) == Add(Raise(n, p), Raise(n, q))
  {
  }

  lemma InRaise(n: nat, p: Poly, k: nat)
    ensures k + n in Raise(n, p) <==> k in p
  {
  }

  lemma RaiseTwice(m: nat, n: nat, p: Poly)
    ensures Raise(m, Raise(n, p)) == Raise(m + n, p)
  {
    forall k: nat | k in Raise(m + n, p)
      ensures k in Raise(m, Raise(n, p))
    {
      InRaise(m + n, p, k - m - n);
      InRaise(n, p, k - m - n);
      InRaise(m, Raise(n, p), k - m);
    }
  }

  lemma SizeOfAdd(p: Poly, q: Poly)
    ensures |Add(p, q)| % 2 == (|p| + |q|) % 2
  {
    assert p == (p - q) + (p * q) && q == (q - p) + (p * q);
    assert |p| == |p - q| + |p * q|;
    assert |q| == |q - p| + |p * q|;
    assert |Add(p, q)| == |p - q| + |q - p|;
  }

  // ----------------------------------------------------------- multiplication

  lemma InTimes(p: Poly, q: Poly, k: nat)
    ensures k in Times(p, q) <==> |Pairs(p, q, k)| % 2 == 1
  {
  }

  lemma PairsAdd(p: Poly, r: Poly, q: Poly, k: nat)
    ensures Pairs(Add(p, r), q, k) == Add(Pairs(p, q, k), Pairs(r, q, k))
  {
  }

  lemma OddSum(m: nat, n: nat)
    ensures (m + n) % 2 == 1 <==> (m % 2 == 1) != (n % 2 == 1)
  {
  }

  lemma InTimesAdd(p: Poly, r: Poly, q: Poly, k: nat)
    ensures k in Times(Add(p, r), q) <==> (k in Times(p, q)) != (k in Times(r, q))
  {
    InTimes(Add(p, r), q, k);
    InTimes(p, q, k);
    InTimes(r, q, k);
    PairsAdd(p, r, q, k);
    SizeOfAdd(Pairs(p, q, k), Pairs(r, q, k));
    OddSum(|Pairs(p, q, k)|, |Pairs(r, q, k)|);
  }

  lemma InAdd(p: Poly, q: Poly, k: nat)
    ensures k in Add(p, q) <==> (k in p) != (k in q)
  {
  }

  lemma SameMembers(p: Poly, q: Poly)
    requires forall k: nat :: k in p <==> k in q
    ensures p == q
  {
  }

  lemma TimesDistributes(p: Poly, r: Poly, q: Poly)
    ensures Times(Add(p, r), q) == Add(Times(p, q), Times(r, q))
  {
    forall k: nat
      ensures k in Times(Add(p, r), q) <==> k in Add(Times(p, q), Times(r, q))
    {
      InTimesAdd(p, r, q, k);
      InAdd(Times(p, q), Times(r, q), k);
    }
    SameMembers(Times(Add(p, r), q), Add(Times(p, q), Times(r, q)));
  }

  lemma RaiseInsert(n: nat, p: Poly, k: nat)
    requires k !in p
    ensures Raise(n, p + {k}) == Raise(n, p) + {k + n}
    ensures k + n !in Raise(n, p)
  {
  }

  lemma {:induction false} SizeOfRaise(n: nat, p: Poly)
    ensures |Raise(n, p)| == |p|
  {
    if p == {} {
    } else {
      var k :| k in p;
      var rest := p - {k};
      SizeOfRaise(n, rest);
      RaiseInsert(n, rest, k);
      assert p == rest + {k};
    }
  }

  lemma PairsRaise(p: Poly, q: Poly, k: nat)
    ensures Pairs(Raise(1, p), q, k + 1) == Raise(1, Pairs(p, q, k))
  {
    forall i: nat | i in Pairs(Raise(1, p), q, k + 1)
      ensures i in Raise(1, Pairs(p, q, k))
    {
      assert i - 1 in Pairs(p, q, k);
    }
  }

  lemma InTimesRaise(p: Poly, q: Poly, k: nat)
    ensures k in Times(Raise(1, p), q) <==> k in Raise(1, Times(p, q))
  {
    InTimes(Raise(1, p), q, k);
    if k == 0 {
      assert Pairs(Raise(1, p), q, k) == {};
    } else {
      InTimes(p, q, k - 1);
      InRaise(1, Times(p, q), k - 1);
      PairsRaise(p, q, k - 1);
      SizeOfRaise(1, Pairs(p, q, k - 1));
    }
  }

  lemma TimesRaise(p: Poly, q: Poly)
    ensures Times(Raise(1, p), q) == Raise(1, Times(p, q))
  {
    forall k: nat
      ensures k in Times(Raise(1, p), q) <==> k in Raise(1, Times(p, q))
    {
      InTimesRaise(p, q, k);
    }
    SameMembers(Times(Raise(1, p), q), Raise(1, Times(p, q)));
  }

  lemma InTimesOne(q: Poly, k: nat)
    ensures k in Times({0}, q) <==> k in q
  {
    InTimes({0}, q, k);
    assert Pairs({0}, q, k) == if k in q then {0} else {};
  }

  lemma TimesOne(q: Poly)
    ensures Times({0}, q) == q
  {
    forall k: nat
      ensures k in Times({0}, q) <==> k in q
    {
      InTimesOne(q, k);
    }
    SameMembers(Times({0}, q), q);
  }

  lemma TimesZero(q: Poly)
    ensures Times({}, q) == {}
  {
  }

  // ------------------------------------------------------ division is unique

  lemma {:induction false} Degree(p: Poly) returns (n: nat)
    requires p != {}
    ensures HasDegree(p, n)
  {
    var k :| k in p;
    n := k;
    var rest := p - {k};
    if rest != {} {
      var m := Degree(rest);
      n := if m > k then m else k;
      forall j | j in p
        ensures j < n + 1
      {
        assert j == k || j in rest;
      }
    } else {
      assert p == {k};
    }
  }

  lemma TopPair(p: Poly, m: nat, q: Poly, n: nat)
    requires HasDegree(p, m) && HasDegree(q, n)
    ensures Pairs(p, q, m + n) == {m}
  {
  }

  lemma DegreeOfProduct(p: Poly, m: nat, q: Poly, n: nat)
    requires HasDegree(p, m) && HasDegree(q, n)
    ensures m + n in Times(p, q)
  {
    TopPair(p, m, q, n);
    InTimes(p, q, m + n);
  }

  lemma SumsCancel(a: Poly, b: Poly)
    requires Add(a, b) == {}
    ensures a == b
  {
  }

  lemma QuotientUnique(q: Poly, t: Poly, g: Poly, n: nat, r: Poly, s: Poly)
    requires HasDegree(g, n) && DegreeBelow(r, n) && DegreeBelow(s, n)
    requires Add(Times(q, g), r) == Add(Times(t, g), s)
    ensures q == t
  {
    var d := Add(q, t);
    TimesDistributes(q, t, g);
    AddExchange(Times(q, g), r, Times(t, g), s);
    AddLaws(Add(Times(q, g), r), {}, {});
    SumsCancel(Times(d, g), Add(r, s));
    if d != {} {
      var m := Degree(d);
      DegreeOfProduct(d, m, g, n);
      assert false;
    }
    SumsCancel(q, t);
  }

  /** A polynomial has at most one remainder. */
  lemma RemainderUnique(p: Poly, g: Poly, n: nat, r: Poly, s: Poly)
    requires HasDegree(g, n)
    requires IsRemainder(p, g, n, r) && IsRemainder(p, g, n, s)
    ensures r == s
  {
    var q :| p == Add(Times(q, g), r);
    var t :| p == Add(Times(t, g), s);
    QuotientUnique(q, t, g, n, r, s);
    AddLaws(r, Times(q, g), {});
    AddLaws(s, Times(q, g), {});
  }

  // --------------------------------------------------------------- divisibility

  ghost predicate Divides(f: Poly, p: Poly) {
    exists q :: p == Times(q, f)
  }

  lemma NoRemainder(p: Poly, f: Poly, n: nat)
    ensures IsRemainder(p, f, n, {}) <==> Divides(f, p)
  {
    if IsRemainder(p, f, n, {}) {
      var q :| p == Add(Times(q, f), {});
      AddLaws(Times(q, f), {}, {});
      assert p == Times(q, f);
    }
    if Divides(f, p) {
      var q :| p == Times(q, f);
      AddLaws(Times(q, f), {}, {});
      assert p == Add(Times(q, f), {});
    }
  }

  /** Division by x. */
  function Fall(p: Poly): Poly
    requires 0 !in p
  {
    set k | k in p :: k - 1
  }

  lemma RaiseFall(p: Poly)
    requires 0 !in p
    ensures Raise(1, Fall(p)) == p
  {
    forall k: nat
      ensures k in Raise(1, Fall(p)) <==> k in p
    {
      if k > 0 {
        InRaise(1, Fall(p), k - 1);
        assert k in p ==> k - 1 in Fall(p);
      }
    }
    SameMembers(Raise(1, Fall(p)), p);
  }

  lemma RaiseInjective(n: nat, p: Poly, q: Poly)
    requires Raise(n, p) == Raise(n, q)
    ensures p == q
  {
    forall k: nat
      ensures k in p <==> k in q
    {
      InRaise(n, p, k);
      InRaise(n, q, k);
    }
    SameMembers(p, q);
  }

  /** A polynomial with a constant term and x have no common factor. */
  lemma DividesRaisedOnce(p: Poly, f: Poly)
    requires 0 in f
    ensures Divides(f, Raise(1, p)) <==> Divides(f, p)
  {
    if Divides(f, Raise(1, p)) {
      var q :| Raise(1, p) == Times(q, f);
      InTimes(q, f, 0);
      assert Pairs(q, f, 0) == if 0 in q then {0} else {};
      RaiseFall(q);
      TimesRaise(Fall(q), f);
      RaiseInjective(1, p, Times(Fall(q), f));
    }
    if Divides(f, p) {
      var q :| p == Times(q, f);
      TimesRaise(q, f);
      assert Raise(1, p) == Times(Raise(1, q), f);
    }
  }
}
