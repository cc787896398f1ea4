/** Sums of weights over a finite set of keys. The sum does not depend on the order in which
    the keys are visited, which is what makes loops over Go maps deterministic. */
module FiniteSums {

  ghost function Sum<K(!new)>(keys: set<K>, weights: map<K, nat>): nat
    requires keys <= weights.Keys
    decreases |keys|
  {
    if keys == {} then 0
    else
      var k :| k in keys;
      weights[k] + Sum(keys - {k}, weights)
  }

  lemma {:induction false} SumRemove<K(!new)>(keys: set<K>, weights: map<K, nat>, k: K)
    requires keys <= weights.Keys && k in keys
    ensures Sum(keys, weights) == weights[k] + Sum(keys - {k}, weights)
    decreases |keys|
  {
    var first :| first in keys && Sum(keys, weights) == weights[first] + Sum(keys - {first}, weights);
    if first != k {
      SumRemove(keys - {first}, weights, k);
      SumRemove(keys - {k}, weights, first);
      assert keys - {first} - {k} == keys - {k} - {first};
    }
  }

  lemma {:induction false} SumUnion<K(!new)>(a: set<K>, b: set<K>, weights: map<K, nat>)
    requires a + b <= weights.Keys && a !! b
    ensures Sum(a + b, weights) == Sum(a, weights) + Sum(b, weights)
    decreases |a|
  {
    if a == {} {
      assert a + b == b;
    } else {
      var k :| k in a;
      SumRemove(a, weights, k);
      SumRemove(a + b, weights, k);
      assert a + b - {k} == (a - {k}) + b;
      SumUnion(a - {k}, b, weights);
    }
  }

  lemma SumSubset<K(!new)>(a: set<K>, b: set<K>, weights: map<K, nat>)
    requires a <= b <= weights.Keys
    ensures Sum(a, weights) <= Sum(b, weights)
  {
    assert b == a + (b - a);
    SumUnion(a, b - a, weights);
  }

  /** The sum only looks at the weights of the summed keys. */
  lemma {:induction false} SumAgree<K(!new)>(keys: set<K>, v: map<K, nat>, w: map<K, nat>)
    requires keys <= v.Keys && keys <= w.Keys
    requires forall k | k in keys :: v[k] == w[k]
    ensures Sum(keys, v) == Sum(keys, w)
    decreases |keys|
  {
    if keys != {} {
      var k :| k in keys;
      SumRemove(keys, v, k);
      SumRemove(keys, w, k);
      SumAgree(keys - {k}, v, w);
    }
  }
}
