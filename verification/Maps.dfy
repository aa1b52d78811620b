/** Finite maps as database tables: inclusion between tables and the SUM of a numeric column. */
module Maps {

  /** Every row of `m` is in `n` with the same value. */
  ghost predicate Within<K, V>(m: map<K, V>, n: map<K, V>) {
    forall k | k in m :: k in n && n[k] == m[k]
  }

  /** The table holds exactly the rows of the given parts. */
  ghost predicate UnionOf<K, V>(m: map<K, V>, parts: set<map<K, V>>) {
    && (forall p | p in parts :: Within(p, m))
    && (forall k | k in m :: exists p | p in parts :: k in p)
  }

  lemma UnionWithin<K, V>(m: map<K, V>, n: map<K, V>, parts: set<map<K, V>>)
    requires UnionOf(m, parts) && UnionOf(n, parts)
    ensures Within(m, n)
  {
    forall k | k in m ensures k in n && n[k] == m[k] {
      var p :| p in parts && k in p;
      assert Within(p, m) && Within(p, n);
    }
  }

  lemma UnionUnique<K, V>(m: map<K, V>, n: map<K, V>, parts: set<map<K, V>>)
    requires UnionOf(m, parts) && UnionOf(n, parts)
    ensures m == n
  {
    UnionWithin(m, n, parts);
    UnionWithin(n, m, parts);
    WithinBoth(m, n);
  }

  lemma WithinBoth<K, V>(m: map<K, V>, n: map<K, V>)
    requires Within(m, n) && Within(n, m)
    ensures m == n
  {}

  lemma WithinSelf<K, V>(m: map<K, V>)
    ensures Within(m, m)
  {}

  lemma WithinTrans<K, V>(m: map<K, V>, n: map<K, V>, o: map<K, V>)
    requires Within(m, n) && Within(n, o)
    ensures Within(m, o)
  {}

  lemma SubsetSize<T>(a: set<T>, b: set<T>)
    requires a <= b
    ensures |a| <= |b| && (|a| == |b| ==> a == b)
  {
    assert b == a + (b - a);
  }

  /** The rows under some of the keys. */
  function Restrict<K, V>(m: map<K, V>, ks: set<K>): map<K, V> { map k | k in m && k in ks :: m[k] }

  /** INSERT IGNORE of rows that agree with what is stored adds exactly those rows. */
  lemma UnionAdd<K, V>(m: map<K, V>, parts: set<map<K, V>>, p: map<K, V>)
    requires UnionOf(m, parts)
    requires forall q, k | q in parts && k in q && k in p :: q[k] == p[k]
    ensures UnionOf(p + m, parts + {p})
  {
    forall k | k in p && k in m ensures m[k] == p[k] {
      var q :| q in parts && k in q;
      assert Within(q, m);
    }
    assert Within(p, p + m);
    forall q | q in parts ensures Within(q, p + m) {
      assert Within(q, m);
    }
    forall k | k in p + m ensures exists q | q in parts + {p} :: k in q {
      if k in m {
        var q :| q in parts && k in q;
        assert q in parts + {p};
      } else {
        assert p in parts + {p} && k in p;
      }
    }
  }

  /** The sum of all values of a table, in no particular order. */
  ghost function Total<K>(m: map<K, nat>): nat {
    if m == map[] then 0 else
      var k :| k in m;
      m[k] + Total(m - {k})
  }

  /** Any row may be taken out of the sum first: the order of summation does not matter. */
  lemma {:induction false} TotalTakeOut<K>(m: map<K, nat>, k: K)
    requires k in m
    ensures Total(m) == m[k] + Total(m - {k})
    decreases |m|
  {
    var j :| j in m && Total(m) == m[j] + Total(m - {j});
    if j != k {
      TotalTakeOut(m - {j}, k);
      TotalTakeOut(m - {k}, j);
      assert m - {j} - {k} == m - {k} - {j};
    }
  }

  lemma UnionWithout<K>(a: map<K, nat>, b: map<K, nat>, k: K)
    requires a.Keys !! b.Keys && k in a
    ensures (a + b) - {k} == (a - {k}) + b
  {}

  lemma FewerRows<K>(a: map<K, nat>, k: K)
    requires k in a
    ensures |a - {k}| < |a|
  {
    assert (a - {k}).Keys == a.Keys - {k};
    assert |(a - {k}).Keys| < |a.Keys|;
  }

  lemma {:induction false} TotalDisjoint<K>(a: map<K, nat>, b: map<K, nat>)
    requires a.Keys !! b.Keys
    ensures Total(a + b) == Total(a) + Total(b)
    decreases |a|
  {
    if a == map[] {
      assert a + b == b;
    } else {
      var k :| k in a;
      UnionWithout(a, b, k);
      FewerRows(a, k);
      TotalTakeOut(a, k);
      TotalTakeOut(a + b, k);
      TotalDisjoint(a - {k}, b);
    }
  }

  /** Removing rows removes exactly their values from the sum. */
  lemma TotalRemove<K>(m: map<K, nat>, gone: set<K>)
    ensures Total(m) == Total(m - gone) + Total(Restrict(m, gone))
  {
    var out := Restrict(m, gone);
    assert m == (m - gone) + out;
    TotalDisjoint(m - gone, out);
  }

  lemma TotalUpdate<K>(m: map<K, nat>, k: K, v: nat)
    requires k in m
    ensures Total(m[k := v]) + m[k] == Total(m) + v
  {
    TotalTakeOut(m, k);
    TotalTakeOut(m[k := v], k);
    assert m[k := v] - {k} == m - {k};
  }

  lemma TotalInsert<K>(m: map<K, nat>, k: K, v: nat)
    requires k !in m
    ensures Total(m[k := v]) == Total(m) + v
  {
    TotalTakeOut(m[k := v], k);
    assert m[k := v] - {k} == m;
  }

  /** SELECT COALESCE(SUM(column), 0): rows are visited in an arbitrary order. */
  method SumColumn<K>(m: map<K, nat>) returns (sum: nat)
    ensures sum == Total(m)
  {
    var rest := m;
    sum := 0;
    while rest.Keys != {}
      invariant sum + Total(rest) == Total(m)
      decreases rest.Keys
    {
      var k :| k in rest.Keys;
      TotalTakeOut(rest, k);
      sum := sum + rest[k];
      rest := rest - {k};
    }
  }
}
