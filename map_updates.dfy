/** Successive `Map.set` calls, as `store` issues them, and what they leave
    behind in the map. */
module MapUpdates {
  import opened Wrappers

  /** `Map.get`: the entry stored under `k`, or `None` when there is none. */
  function Get<K, V>(m: map<K, V>, k: K): Option<V>
  {
    if k in m then Some(m[k]) else None
  }

  /** No value occurs twice in `s`. */
  ghost predicate Distinct<T>(s: seq<T>)
  {
    forall i, j :: 0 <= i < j < |s| ==> s[i] != s[j]
  }

  /** The consecutive integers `start`, `start + 1`, ..., `start + n - 1`. */
  function Block(start: int, n: nat): seq<int>
  {
    seq(n, i => start + i)
  }

  /** `m` after `m.set(keys[i], values[i])` for i = 0, 1, ... in this order:
      when a key occurs twice, the later write wins. */
  function SetAll<K, V>(m: map<K, V>, keys: seq<K>, values: seq<V>): map<K, V>
    requires |keys| == |values|
    decreases |keys|
  {
    if keys == [] then m
    else SetAll(m, keys[..|keys| - 1], values[..|values| - 1])[keys[|keys| - 1] := values[|values| - 1]]
  }

  /** The writes add exactly the written keys. */
  lemma {:induction false} SetAllKeys<K, V>(m: map<K, V>, keys: seq<K>, values: seq<V>)
    requires |keys| == |values|
    ensures SetAll(m, keys, values).Keys == m.Keys + set k | k in keys
    decreases |keys|
  {
    if keys != [] {
      var n := |keys|;
      SetAllKeys(m, keys[..n - 1], values[..n - 1]);
      var prefix := keys[..n - 1];
      assert keys == prefix + [keys[n - 1]];
      assert (set k | k in keys) == (set k | k in prefix) + {keys[n - 1]};
    }
  }

  /** A key that is not written keeps its entry, or its absence. */
  lemma {:induction false} SetAllOutside<K, V>(m: map<K, V>, keys: seq<K>, values: seq<V>, k: K)
    requires |keys| == |values|
    requires k !in keys
    ensures Get(SetAll(m, keys, values), k) == Get(m, k)
    decreases |keys|
  {
    if keys != [] {
      var n := |keys|;
      assert k != keys[n - 1];
      assert k !in keys[..n - 1];
      SetAllOutside(m, keys[..n - 1], values[..n - 1], k);
    }
  }

  /** When no key is written twice, each key ends up holding the value
      written with it. */
  lemma {:induction false} SetAllAt<K, V>(m: map<K, V>, keys: seq<K>, values: seq<V>, i: nat)
    requires |keys| == |values|
    requires Distinct(keys)
    requires i < |keys|
    ensures Get(SetAll(m, keys, values), keys[i]) == Some(values[i])
    decreases |keys|
  {
    var n := |keys|;
    if i < n - 1 {
      assert keys[i] != keys[n - 1];
      assert keys[..n - 1][i] == keys[i];
      SetAllAt(m, keys[..n - 1], values[..n - 1], i);
    }
  }
}
