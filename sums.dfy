/**
 * The total size of a map of sequences, as the monitoring counters compute it by summing the
 * sizes of every list or queue held in a map.
 */
module Sums {
  /** The sum of the lengths of all the map's values. */
  ghost function TotalSize<K, V>(m: map<K, seq<V>>): nat
    decreases |m|
  {
    if m == map[] then 0
    else
      var k :| k in m;
      |m[k]| + TotalSize(m - {k})
  }

  /** The total can be taken apart at any key, whichever key the definition happened to pick. */
  lemma {:induction false} TotalSizeRemove<K, V>(m: map<K, seq<V>>, k: K)
    requires k in m
    ensures TotalSize(m) == |m[k]| + TotalSize(m - {k})
    decreases |m|
  {
    var j :| j in m && TotalSize(m) == |m[j]| + TotalSize(m - {j});
    if j != k {
      var mj, mk := m - {j}, m - {k};
      TotalSizeRemove(mj, k);
      TotalSizeRemove(mk, j);
      assert mj - {k} == mk - {j};
    }
  }

  /** Replacing one value changes the total by the difference in that value's length. */
  lemma TotalSizeUpdate<K, V>(m: map<K, seq<V>>, k: K, v: seq<V>)
    ensures TotalSize(m[k := v]) + (if k in m then |m[k]| else 0) == TotalSize(m) + |v|
  {
    var m2 := m[k := v];
    TotalSizeRemove(m2, k);
    assert m2 - {k} == m - {k};
    if k in m {
      TotalSizeRemove(m, k);
    } else {
      assert m - {k} == m;
    }
  }

  /** The values kept for the keys in `keys`. */
  function Restrict<K, V>(m: map<K, seq<V>>, keys: set<K>): map<K, seq<V>> {
    map k | k in m && k in keys :: m[k]
  }
}
