/**
 Sums over the values of finite maps. The engine keeps every balance and every
 settled amount in a JavaScript object used as a dictionary; these functions
 give the total of such a dictionary independently of any key order.
 */
module MapSums {

  /** The value stored under `k`, or 0 when `k` is absent. */
  function Lookup<K>(m: map<K, real>, k: K): real
  {
    if k in m then m[k] else 0.0
  }

  /** The sum of `m[k]` over the keys `k` in `keys`. */
  ghost function SumOver<K>(keys: set<K>, m: map<K, real>): real
    requires keys <= m.Keys
    decreases keys
  {
    if keys == {} then 0.0
    else
      var k :| k in keys;
      m[k] + SumOver(keys - {k}, m)
  }

  /** The sum of all values of `m`. */
  ghost function MapSum<K>(m: map<K, real>): real
  {
    SumOver(m.Keys, m)
  }

  /** Any key may be taken out first: the sum does not depend on the order of the keys. */
  lemma {:induction false} SumOverRemove<K>(keys: set<K>, m: map<K, real>, k: K)
    requires keys <= m.Keys && k in keys
    ensures SumOver(keys, m) == m[k] + SumOver(keys - {k}, m)
    decreases keys
  {
    var j :| j in keys && SumOver(keys, m) == m[j] + SumOver(keys - {j}, m);
    if j != k {
      SumOverRemove(keys - {j}, m, k);
      SumOverRemove(keys - {k}, m, j);
      assert keys - {j} - {k} == keys - {k} - {j};
    }
  }

  /** The sum over `keys` reads only the values under `keys`. */
  lemma {:induction false} SumOverAgree<K>(keys: set<K>, m1: map<K, real>, m2: map<K, real>)
    requires keys <= m1.Keys && keys <= m2.Keys
    requires forall k :: k in keys ==> m1[k] == m2[k]
    ensures SumOver(keys, m1) == SumOver(keys, m2)
    decreases keys
  {
    if keys != {} {
      var k :| k in keys;
      SumOverRemove(keys, m1, k);
      SumOverRemove(keys, m2, k);
      SumOverAgree(keys - {k}, m1, m2);
    }
  }

  /** Storing `v` under `k` changes the total by `v` minus what was stored there before. */
  lemma MapSumUpdate<K>(m: map<K, real>, k: K, v: real)
    ensures MapSum(m[k := v]) == MapSum(m) - Lookup(m, k) + v
  {
    var m' := m[k := v];
    SumOverRemove(m'.Keys, m', k);
    assert m'.Keys - {k} == m.Keys - {k};
    SumOverAgree(m.Keys - {k}, m', m);
    if k in m {
      SumOverRemove(m.Keys, m, k);
    } else {
      assert m.Keys - {k} == m.Keys;
    }
  }

  /** Deleting key `k` lowers the total by the value it held. */
  lemma MapSumRemove<K>(m: map<K, real>, k: K)
    requires k in m
    ensures MapSum(m - {k}) == MapSum(m) - m[k]
  {
    var m' := m - {k};
    assert m'.Keys == m.Keys - {k};
    SumOverRemove(m.Keys, m, k);
    SumOverAgree(m.Keys - {k}, m, m');
  }

  /** A sum of strictly positive values is positive, and zero only for no values. */
  lemma {:induction false} SumOverPositive<K>(keys: set<K>, m: map<K, real>)
    requires keys <= m.Keys
    requires forall k :: k in keys ==> m[k] > 0.0
    ensures SumOver(keys, m) >= 0.0
    ensures keys != {} ==> SumOver(keys, m) > 0.0
    decreases keys
  {
    if keys != {} {
      var k :| k in keys;
      SumOverRemove(keys, m, k);
      SumOverPositive(keys - {k}, m);
    }
  }

  /** A map of strictly positive values whose values sum to zero (or less) is empty. */
  lemma MapSumPositive<K>(m: map<K, real>)
    requires forall k :: k in m ==> m[k] > 0.0
    ensures MapSum(m) >= 0.0
    ensures MapSum(m) <= 0.0 ==> m.Keys == {}
  {
    SumOverPositive(m.Keys, m);
  }

  /** A map whose values are all zero sums to zero. */
  lemma {:induction false} SumOverZero<K>(keys: set<K>, m: map<K, real>)
    requires keys <= m.Keys
    requires forall k :: k in keys ==> m[k] == 0.0
    ensures SumOver(keys, m) == 0.0
    decreases keys
  {
    if keys != {} {
      var k :| k in keys;
      SumOverRemove(keys, m, k);
      SumOverZero(keys - {k}, m);
    }
  }

  lemma MapSumZero<K>(m: map<K, real>)
    requires forall k :: k in m ==> m[k] == 0.0
    ensures MapSum(m) == 0.0
  {
    SumOverZero(m.Keys, m);
  }
}
