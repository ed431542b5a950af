/** Adding up the values of a finite map, whatever order they are taken in. */
module Sums {

  ghost function Sum<K>(m: map<K, int>): int {
    if m == map[] then 0
    else
      var k :| k in m;
      m[k] + Sum(m - {k})
  }

  function Only<K, V>(m: map<K, V>, keys: set<K>): map<K, V> {
    map k | k in m && k in keys :: m[k]
  }

  lemma {:induction false} SumWithout<K>(m: map<K, int>, k: K)
    requires k in m
    ensures Sum(m) == m[k] + Sum(m - {k})
    decreases m.Keys
  {
    var first :| first in m && Sum(m) == m[first] + Sum(m - {first});
    if first != k {
      SumWithout(m - {first}, k);
      SumWithout(m - {k}, first);
      assert m - {first} - {k} == m - {k} - {first};
    }
  }

  lemma SumReplaced<K>(m: map<K, int>, k: K, v: int)
    ensures Sum(m[k := v]) == Sum(m) + v - if k in m then m[k] else 0
  {
    SumWithout(m[k := v], k);
    assert m[k := v] - {k} == m - {k};
    if k in m {
      SumWithout(m, k);
    } else {
      assert m - {k} == m;
    }
  }

  lemma {:induction false} SumSplit<K>(m: map<K, int>, keys: set<K>)
    ensures Sum(m) == Sum(m - keys) + Sum(Only(m, keys))
    decreases m.Keys
  {
    if m == map[] {
      assert m - keys == m && Only(m, keys) == m;
    } else {
      var k :| k in m;
      SumWithout(m, k);
      SumSplit(m - {k}, keys);
      if k in keys {
        SumWithout(Only(m, keys), k);
        assert Only(m, keys) - {k} == Only(m - {k}, keys);
        assert m - keys == m - {k} - keys;
      } else {
        SumWithout(m - keys, k);
        assert m - keys - {k} == m - {k} - keys;
        assert Only(m, keys) == Only(m - {k}, keys);
      }
    }
  }

  lemma SumJoined<K>(m: map<K, int>, n: map<K, int>)
    requires m.Keys !! n.Keys
    ensures Sum(m + n) == Sum(m) + Sum(n)
  {
    SumSplit(m + n, n.Keys);
    assert (m + n) - n.Keys == m;
    assert Only(m + n, n.Keys) == n;
  }

  lemma {:induction false} SumZero<K>(m: map<K, int>)
    requires forall k :: k in m ==> m[k] == 0
    ensures Sum(m) == 0
    decreases m.Keys
  {
    if m != map[] {
      var k :| k in m;
      SumWithout(m, k);
      SumZero(m - {k});
    }
  }

  /** Some element, for steps whose order nothing depends on. */
  method AnyOf<K(==)>(keys: set<K>) returns (k: K)
    requires keys != {}
    ensures k in keys
  {
    k :| k in keys;
  }
}
