/** Finite sums of integer-valued maps over sets of keys. */
module Sums {

  /** The value of `m` at `k`, 0 outside its domain. */
  function At<K>(m: map<K, int>, k: K): int {
    if k in m then m[k] else 0
  }

  ghost function Sum<K>(m: map<K, int>, u: set<K>): int {
    if u == {} then 0 else
      var k :| k in u;
      At(m, k) + Sum(m, u - {k})
  }

  /** The element taken out first does not matter. */
  lemma {:induction false} SumRemove<K>(m: map<K, int>, u: set<K>, k: K)
    requires k in u
    ensures Sum(m, u) == At(m, k) + Sum(m, u - {k})
    decreases u
  {
    var j :| j in u && Sum(m, u) == At(m, j) + Sum(m, u - {j});
    if j != k {
      SumRemove(m, u - {j}, k);
      SumRemove(m, u - {k}, j);
      assert u - {j} - {k} == u - {k} - {j};
    }
  }

  lemma {:induction false} SumUnion<K>(m: map<K, int>, a: set<K>, b: set<K>)
    requires a !! b
    ensures Sum(m, a + b) == Sum(m, a) + Sum(m, b)
    decreases a
  {
    if a == {} {
      assert a + b == b;
    } else {
      var k :| k in a;
      SumRemove(m, a, k);
      SumRemove(m, a + b, k);
      assert a + b - {k} == (a - {k}) + b;
      SumUnion(m, a - {k}, b);
    }
  }

  /** Sums are monotone in the summands and in the index set (for non-negative summands). */
  lemma {:induction false} SumAtMost<K>(m: map<K, int>, m': map<K, int>, u: set<K>)
    requires forall k :: k in u ==> At(m, k) <= At(m', k)
    ensures Sum(m, u) <= Sum(m', u)
    decreases u
  {
    if u != {} {
      var k :| k in u;
      SumRemove(m, u, k);
      SumRemove(m', u, k);
      SumAtMost(m, m', u - {k});
    }
  }

  lemma SumAgree<K>(m: map<K, int>, m': map<K, int>, u: set<K>)
    requires forall k :: k in u ==> At(m, k) == At(m', k)
    ensures Sum(m, u) == Sum(m', u)
  {
    SumAtMost(m, m', u);
    SumAtMost(m', m, u);
  }

  lemma SumSubset<K>(m: map<K, int>, u: set<K>, v: set<K>)
    requires u <= v
    requires forall k :: k in v ==> 0 <= At(m, k)
    ensures 0 <= Sum(m, u) <= Sum(m, v)
  {
    assert v == u + (v - u);
    SumUnion(m, u, v - u);
    SumAtMost(map[], m, u);
    SumZero<K>(map[], u);
    SumAtMost(map[], m, v - u);
    SumZero<K>(map[], v - u);
  }

  lemma {:induction false} SumZero<K>(m: map<K, int>, u: set<K>)
    requires forall k :: k in u ==> At(m, k) == 0
    ensures Sum(m, u) == 0
    decreases u
  {
    if u != {} {
      var k :| k in u;
      SumRemove(m, u, k);
      SumZero(m, u - {k});
    }
  }

  lemma {:induction false} SumAdd<K>(r: map<K, int>, m: map<K, int>, g: map<K, int>, u: set<K>)
    requires forall k :: k in u ==> At(r, k) == At(m, k) + At(g, k)
    ensures Sum(r, u) == Sum(m, u) + Sum(g, u)
    decreases u
  {
    if u != {} {
      var k :| k in u;
      SumRemove(r, u, k);
      SumRemove(m, u, k);
      SumRemove(g, u, k);
      SumAdd(r, m, g, u - {k});
    }
  }

  /** Equal sums of termwise ordered summands have equal terms. */
  lemma {:induction false} SumTight<K>(m: map<K, int>, m': map<K, int>, u: set<K>, k: K)
    requires k in u
    requires forall j :: j in u ==> At(m, j) <= At(m', j)
    requires Sum(m, u) == Sum(m', u)
    ensures At(m, k) == At(m', k)
  {
    SumRemove(m, u, k);
    SumRemove(m', u, k);
    SumAtMost(m, m', u - {k});
  }
}
