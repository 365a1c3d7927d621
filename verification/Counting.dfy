/** Grouped counts over a log: `GROUP BY` and `COUNT(*)` as functions. */
module Counting {
  import opened Options

  /** Entries whose key is `k`; an entry without a key is filtered out. */
  function CountKey<E, K(==)>(log: seq<E>, key: E -> Option<K>, k: K): nat {
    if log == [] then 0
    else CountKey(log[..|log| - 1], key, k) + if key(log[|log| - 1]) == Some(k) then 1 else 0
  }

  /** `SUM(weight)` over the entries whose key is `k`. */
  function SumKey<E, K(==)>(log: seq<E>, key: E -> Option<K>, weight: E -> nat, k: K): nat {
    if log == [] then 0
    else
      SumKey(log[..|log| - 1], key, weight, k) + if key(log[|log| - 1]) == Some(k) then weight(log[|log| - 1]) else 0
  }

  /** The groups, each once, in order of first appearance. */
  function Keys<E, K(==)>(log: seq<E>, key: E -> Option<K>): seq<K> {
    if log == [] then []
    else
      var before, k := Keys(log[..|log| - 1], key), key(log[|log| - 1]);
      if k.Some? && k.value !in before then before + [k.value] else before
  }

  ghost predicate Distinct<K>(keys: seq<K>) {
    forall i, j :: 0 <= i < j < |keys| ==> keys[i] != keys[j]
  }

  lemma {:induction false} KeysExact<E, K>(log: seq<E>, key: E -> Option<K>)
    ensures Distinct(Keys(log, key))
    ensures forall k :: k in Keys(log, key) <==> exists e :: e in log && key(e) == Some(k)
    ensures forall k :: k in Keys(log, key) <==> CountKey(log, key, k) > 0
  {
    if log != [] {
      var n := |log| - 1;
      KeysExact(log[..n], key);
      assert log == log[..n] + [log[n]];
    }
  }

  /** Entries whose key is one of `keys`. */
  function CountIn<E, K(==)>(log: seq<E>, key: E -> Option<K>, keys: seq<K>): nat {
    if log == [] then 0
    else
      var k := key(log[|log| - 1]);
      CountIn(log[..|log| - 1], key, keys) + if k.Some? && k.value in keys then 1 else 0
  }

  function SumOver<E, K(==)>(log: seq<E>, key: E -> Option<K>, keys: seq<K>): nat {
    if keys == [] then 0
    else SumOver(log, key, keys[..|keys| - 1]) + CountKey(log, key, keys[|keys| - 1])
  }

  /** Adding up the groups counts every entry once. */
  lemma {:induction false} GroupsAddUp<E, K>(log: seq<E>, key: E -> Option<K>, keys: seq<K>)
    requires Distinct(keys)
    ensures SumOver(log, key, keys) == CountIn(log, key, keys)
    decreases |keys|
  {
    if keys == [] {
      NoKeys(log, key);
    } else {
      var n := |keys| - 1;
      GroupsAddUp(log, key, keys[..n]);
      assert keys[n] !in keys[..n];
      OneMoreKey(log, key, keys[..n], keys[n]);
      assert keys[..n] + [keys[n]] == keys;
    }
  }

  lemma {:induction false} NoKeys<E, K>(log: seq<E>, key: E -> Option<K>)
    ensures CountIn(log, key, []) == 0
  {
    if log != [] { NoKeys(log[..|log| - 1], key); }
  }

  lemma {:induction false} OneMoreKey<E, K>(log: seq<E>, key: E -> Option<K>, keys: seq<K>, k: K)
    requires k !in keys
    ensures CountIn(log, key, keys + [k]) == CountIn(log, key, keys) + CountKey(log, key, k)
  {
    if log != [] { OneMoreKey(log[..|log| - 1], key, keys, k); }
  }

  function Select<E>(log: seq<E>, keep: E -> bool): seq<E> {
    if log == [] then []
    else Select(log[..|log| - 1], keep) + if keep(log[|log| - 1]) then [log[|log| - 1]] else []
  }

  lemma {:induction false} SelectIs<E(!new)>(log: seq<E>, keep: E -> bool)
    ensures forall e :: e in Select(log, keep) <==> e in log && keep(e)
  {
    if log != [] {
      var n := |log| - 1;
      SelectIs(log[..n], keep);
      assert log == log[..n] + [log[n]];
    }
  }

  /** The weights of the entries whose key is one of `keys`. */
  function SumIn<E, K(==)>(log: seq<E>, key: E -> Option<K>, weight: E -> nat, keys: seq<K>): nat {
    if log == [] then 0
    else
      var e := log[|log| - 1];
      SumIn(log[..|log| - 1], key, weight, keys) + if key(e).Some? && key(e).value in keys then weight(e) else 0
  }

  function WeightOver<E, K(==)>(log: seq<E>, key: E -> Option<K>, weight: E -> nat, keys: seq<K>): nat {
    if keys == [] then 0
    else WeightOver(log, key, weight, keys[..|keys| - 1]) + SumKey(log, key, weight, keys[|keys| - 1])
  }

  function TotalOf<E>(log: seq<E>, weight: E -> nat): nat {
    if log == [] then 0 else TotalOf(log[..|log| - 1], weight) + weight(log[|log| - 1])
  }

  /** Adding up the groups adds every entry's weight once. */
  lemma {:induction false} WeightsAddUp<E, K>(log: seq<E>, key: E -> Option<K>, weight: E -> nat, keys: seq<K>)
    requires Distinct(keys)
    ensures WeightOver(log, key, weight, keys) == SumIn(log, key, weight, keys)
    decreases |keys|
  {
    if keys == [] {
      NoKeysNoWeight(log, key, weight);
    } else {
      var n := |keys| - 1;
      WeightsAddUp(log, key, weight, keys[..n]);
      assert keys[n] !in keys[..n];
      OneMoreKeysWeight(log, key, weight, keys[..n], keys[n]);
      assert keys[..n] + [keys[n]] == keys;
    }
  }

  lemma {:induction false} NoKeysNoWeight<E, K>(log: seq<E>, key: E -> Option<K>, weight: E -> nat)
    ensures SumIn(log, key, weight, []) == 0
  {
    if log != [] { NoKeysNoWeight(log[..|log| - 1], key, weight); }
  }

  lemma {:induction false} OneMoreKeysWeight<E, K>(log: seq<E>, key: E -> Option<K>, weight: E -> nat, keys: seq<K>, k: K)
    requires k !in keys
    ensures SumIn(log, key, weight, keys + [k]) == SumIn(log, key, weight, keys) + SumKey(log, key, weight, k)
  {
    if log != [] { OneMoreKeysWeight(log[..|log| - 1], key, weight, keys, k); }
  }

  lemma {:induction false} SumInIs<E(!new), K>(log: seq<E>, key: E -> Option<K>, weight: E -> nat, keys: seq<K>, seen: E -> bool)
    requires forall e :: e in log ==> (seen(e) <==> key(e).Some? && key(e).value in keys)
    ensures SumIn(log, key, weight, keys) == TotalOf(Select(log, seen), weight)
  {
    if log != [] {
      var n := |log| - 1;
      SumInIs(log[..n], key, weight, keys, seen);
      assert log[n] in log;
      var s := Select(log[..n], seen);
      assert (s + [log[n]])[..|s|] == s;
      assert s + [] == s;
    }
  }

  lemma {:induction false} NoGroupNoSum<E, K>(log: seq<E>, key: E -> Option<K>, weight: E -> nat, k: K)
    requires forall e :: e in log ==> key(e) != Some(k)
    ensures SumKey(log, key, weight, k) == 0
  {
    if log != [] {
      assert log[|log| - 1] in log;
      NoGroupNoSum(log[..|log| - 1], key, weight, k);
    }
  }

  lemma {:induction false} CountInIs<E(!new), K>(log: seq<E>, key: E -> Option<K>, keys: seq<K>, seen: E -> bool)
    requires forall e :: e in log ==> (seen(e) <==> key(e).Some? && key(e).value in keys)
    ensures CountIn(log, key, keys) == |Select(log, seen)|
  {
    if log != [] {
      var n := |log| - 1;
      CountInIs(log[..n], key, keys, seen);
      assert log[n] in log;
    }
  }

  /** Dropping entries that have no key changes no group. */
  lemma {:induction false} SelectKeepsCounts<E(!new), K(!new)>(log: seq<E>, keep: E -> bool, key: E -> Option<K>, weight: E -> nat)
    requires forall e :: e in log && key(e).Some? ==> keep(e)
    ensures forall k :: SumKey(Select(log, keep), key, weight, k) == SumKey(log, key, weight, k)
    ensures forall k :: CountKey(Select(log, keep), key, k) == CountKey(log, key, k)
    ensures Keys(Select(log, keep), key) == Keys(log, key)
  {
    if log != [] {
      var n := |log| - 1;
      SelectKeepsCounts(log[..n], keep, key, weight);
      var s := Select(log[..n], keep);
      assert (s + [log[n]])[..|s|] == s;
      assert s + [] == s;
    }
  }
}
