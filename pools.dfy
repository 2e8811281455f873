/**
 One side of an expense's settlement: the creditors or the debtors, each a dictionary
 from participant to a remaining amount, whose key order decides the greedy picks.
 */
module Pools {
  import opened KeyOrder
  import opened MapSums
  import opened Expenses

  /** A dictionary of remaining amounts together with its key order. */
  datatype Pool = Pool(keys: seq<Participant>, amounts: map<Participant, real>)

  /** The key order lists every key of the dictionary exactly once. */
  predicate WellKeyed(pool: Pool)
  {
    Distinct(pool.keys) && Members(pool.keys) == pool.amounts.Keys
  }

  /** The position of the key `reduce((a, b) => m[a] > m[b] ? a : b)` picks over `keys`: it
      holds the largest value, and on a tie the later key wins, so every key after it holds
      strictly less. */
  function MaxIndex(keys: seq<Participant>, m: map<Participant, real>): (i: nat)
    requires |keys| > 0 && forall j :: 0 <= j < |keys| ==> keys[j] in m
    ensures i < |keys|
    ensures forall j :: 0 <= j < |keys| ==> m[keys[j]] <= m[keys[i]]
    ensures forall j :: i < j < |keys| ==> m[keys[j]] < m[keys[i]]
  {
    if |keys| == 1 then 0
    else
      var a := MaxIndex(keys[..|keys| - 1], m);
      var b := |keys| - 1;
      if m[keys[a]] > m[keys[b]] then a else b
  }

  /** The key the reduction picks. */
  function ArgMax(keys: seq<Participant>, m: map<Participant, real>): (r: Participant)
    requires |keys| > 0 && forall j :: 0 <= j < |keys| ==> keys[j] in m
    ensures r in keys && forall k :: k in keys ==> m[k] <= m[r]
  {
    keys[MaxIndex(keys, m)]
  }

  /** The participant of a non-empty pool with the most remaining. */
  function Largest(pool: Pool): (r: Participant)
    requires WellKeyed(pool) && |pool.keys| > 0
    ensures r in pool.amounts
    ensures forall k :: k in pool.amounts ==> pool.amounts[k] <= pool.amounts[r]
  {
    assert forall j :: 0 <= j < |pool.keys| ==> pool.keys[j] in Members(pool.keys);
    ArgMax(pool.keys, pool.amounts)
  }

  /** Lowers the amount of `k` by `amount`, then deletes `k` when nothing remains. */
  function Deduct(pool: Pool, k: Participant, amount: real): Pool
    requires k in pool.amounts
  {
    var lowered := pool.amounts[k := pool.amounts[k] - amount];
    if lowered[k] == 0.0 then Pool(Without(pool.keys, k), lowered - {k})
    else Pool(pool.keys, lowered)
  }

  /** Deducting keeps the key order exact, removes one key exactly when the amount was all
      that remained, leaves `k` with the rest (0 once deleted) and the other keys as they
      were, and lowers the pool's total by the amount. */
  lemma DeductSpec(pool: Pool, k: Participant, amount: real)
    requires WellKeyed(pool) && k in pool.amounts
    ensures var r := Deduct(pool, k, amount);
      && WellKeyed(r)
      && r.amounts.Keys <= pool.amounts.Keys
      && |r.keys| == (if amount == pool.amounts[k] then |pool.keys| - 1 else |pool.keys|)
      && Lookup(r.amounts, k) == pool.amounts[k] - amount
      && (forall j :: j != k ==> Lookup(r.amounts, j) == Lookup(pool.amounts, j))
      && MapSum(r.amounts) == MapSum(pool.amounts) - amount
  {
    var lowered := pool.amounts[k := pool.amounts[k] - amount];
    assert k in pool.keys;
    WithoutDistinct(pool.keys, k);
    MapSumUpdate(pool.amounts, k, lowered[k]);
    if lowered[k] == 0.0 {
      MapSumRemove(lowered, k);
    }
  }
}
