/** Finite maps from keys to integers, read as ledgers: an absent key holds zero. */
module Ledger {
  import opened Arith

  function Get<K>(m: map<K, int>, k: K): (v: int) {
    if k in m then m[k] else 0
  }

  // What is left of a difference that may not go below zero.
  function Max0(x: int): (r: nat) {
    if x < 0 then 0 else x
  }

  // The sum of all entries.
  ghost function Total<K>(m: map<K, int>): (t: int)
    decreases |m|
  {
    if m == map[] then 0 else
      var k :| k in m;
      m[k] + Total(m - {k})
  }

  // The sum does not depend on the order in which entries are taken out.
  lemma {:induction false} TotalWithout<K>(m: map<K, int>, k: K)
    requires k in m
    ensures Total(m) == m[k] + Total(m - {k})
    decreases |m|
  {
    var j :| j in m && Total(m) == m[j] + Total(m - {j});
    if j != k {
      TotalWithout(m - {j}, k);
      TotalWithout(m - {k}, j);
      assert m - {j} - {k} == m - {k} - {j};
    }
  }

  lemma {:induction false} TotalUpdate<K>(m: map<K, int>, k: K, v: int)
    ensures Total(m[k := v]) == Total(m) - Get(m, k) + v
  {
    TotalWithout(m[k := v], k);
    assert m[k := v] - {k} == m - {k};
    if k in m {
      TotalWithout(m, k);
    } else {
      assert m - {k} == m;
    }
  }

  lemma {:induction false} TotalNonNegative<K>(m: map<K, int>)
    requires forall k :: k in m ==> 0 <= m[k]
    ensures 0 <= Total(m)
    ensures forall k :: k in m ==> m[k] <= Total(m)
    decreases |m|
  {
    if m != map[] {
      forall k | k in m ensures m[k] <= Total(m) {
        TotalWithout(m, k);
        TotalNonNegative(m - {k});
      }
      var k :| k in m;
      assert 0 <= m[k] <= Total(m);
    }
  }

  // The sums over two ledgers are in the proportion in which their entries are.
  ghost predicate AtMost(a: int, x: int, b: int, y: int) {
    a * x <= b * y
  }

  lemma {:induction false} TotalAtMost<K>(a: int, x: map<K, int>, b: int, y: map<K, int>)
    requires x.Keys == y.Keys && forall k :: k in x ==> AtMost(a, x[k], b, y[k])
    ensures AtMost(a, Total(x), b, Total(y))
    decreases |x|
  {
    if x == map[] {
      assert y == map[];
    } else {
      var k :| k in x;
      TotalAtMost(a, x - {k}, b, y - {k});
      TotalWithout(x, k);
      TotalWithout(y, k);
      Distribute(a, x[k], Total(x - {k}));
      Distribute(b, y[k], Total(y - {k}));
    }
  }

  lemma {:induction false} TotalPlus<K>(x: map<K, int>, y: map<K, int>, z: map<K, int>)
    requires x.Keys == y.Keys == z.Keys && forall k :: k in x ==> z[k] == x[k] + y[k]
    ensures Total(z) == Total(x) + Total(y)
    decreases |x|
  {
    if x == map[] {
      assert y == map[] && z == map[];
    } else {
      var k :| k in x;
      TotalPlus(x - {k}, y - {k}, z - {k});
      TotalWithout(x, k);
      TotalWithout(y, k);
      TotalWithout(z, k);
    }
  }

  // Map iteration yields the keys in no particular order.
  method AnyOf<K>(keys: set<K>) returns (k: K)
    requires keys != {}
    ensures k in keys
  {
    k :| k in keys;
  }
}
