/** Totals of balances over finite sets of keys. */
module Sums {

  function At<K>(m: map<K, nat>, k: K): nat {
    if k in m then m[k] else 0
  }

  /** The total of `m` over `keys`; a key that `m` does not know counts 0. */
  ghost function Sum<K(!new)>(m: map<K, nat>, keys: set<K>): nat
    decreases |keys|
  {
    if keys == {} then 0
    else
      var k :| k in keys;
      At(m, k) + Sum(m, keys - {k})
  }

  lemma {:induction false} SumPick<K(!new)>(m: map<K, nat>, keys: set<K>, k: K)
    requires k in keys
    ensures Sum(m, keys) == At(m, k) + Sum(m, keys - {k})
    decreases |keys|
  {
    var j :| j in keys && Sum(m, keys) == At(m, j) + Sum(m, keys - {j});
    if j != k {
      SumPick(m, keys - {j}, k);
      SumPick(m, keys - {k}, j);
      assert keys - {j} - {k} == keys - {k} - {j};
    }
  }

  lemma {:induction false} SumSame<K(!new)>(m: map<K, nat>, m': map<K, nat>, keys: set<K>)
    requires forall k :: k in keys ==> At(m, k) == At(m', k)
    ensures Sum(m, keys) == Sum(m', keys)
    decreases |keys|
  {
    if keys != {} {
      var k :| k in keys;
      SumPick(m, keys, k);
      SumPick(m', keys, k);
      SumSame(m, m', keys - {k});
    }
  }

  /** Changing one balance changes the total by the difference. */
  lemma SumUpdate<K(!new)>(m: map<K, nat>, keys: set<K>, k: K, v: nat)
    ensures k in keys ==> Sum(m[k := v], keys) + At(m, k) == Sum(m, keys) + v
    ensures k !in keys ==> Sum(m[k := v], keys) == Sum(m, keys)
  {
    if k in keys {
      SumPick(m, keys, k);
      SumPick(m[k := v], keys, k);
      SumSame(m, m[k := v], keys - {k});
    } else {
      SumSame(m, m[k := v], keys);
    }
  }
}
