module FiniteSets {
  /** Two sets that agree on everything but `t` differ in size by what they say
      about `t`. */
  lemma OneMoves(a: set<nat>, b: set<nat>, t: nat)
    requires forall u :: u != t ==> (u in a <==> u in b)
    ensures |b| - (if t in b then 1 else 0) == |a| - (if t in a then 1 else 0)
  {
    assert a - {t} == b - {t};
    assert a == if t in a then (a - {t}) + {t} else a - {t};
    assert b == if t in b then (b - {t}) + {t} else b - {t};
  }
}
