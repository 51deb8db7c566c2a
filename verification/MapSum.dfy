/** Sums over the values of an account map, in whatever order its entries are visited. */
module MapSum {

  type Amounts = map<string, real>

  ghost function Sum(m: Amounts): real
  {
    if m == map[] then 0.0
    else
      var k :| k in m;
      m[k] + Sum(m - {k})
  }

  /** An account without an entry has value zero. */
  function At(m: Amounts, k: string): real
  {
    if k in m then m[k] else 0.0
  }

  function Abs(x: real): real
  {
    if x < 0.0 then -x else x
  }

  lemma {:induction false} SumRemove(m: Amounts, k: string)
    requires k in m
    ensures Sum(m) == m[k] + Sum(m - {k})
  {
    var j :| j in m && Sum(m) == m[j] + Sum(m - {j});
    if j != k {
      SumRemove(m - {j}, k);
      SumRemove(m - {k}, j);
      assert m - {j} - {k} == m - {k} - {j};
    }
  }

  /** Writing one entry changes the sum by the change of that entry. */
  lemma SumPut(m: Amounts, k: string, v: real)
    ensures Sum(m[k := v]) == Sum(m) - At(m, k) + v
  {
    SumRemove(m[k := v], k);
    assert m[k := v] - {k} == m - {k};
    if k in m {
      SumRemove(m, k);
    } else {
      assert m - {k} == m;
    }
  }

  lemma Smaller(m: Amounts, k: string)
    requires k in m
    ensures |m - {k}| == |m| - 1
  {
    assert (m - {k}).Keys == m.Keys - {k};
  }

  /** Values that agree up to a bound per entry have sums that agree up to the sum of the bounds. */
  lemma {:induction false} SumClose(a: Amounts, b: Amounts, e: Amounts)
    requires a.Keys == b.Keys == e.Keys
    requires forall k :: k in a ==> Abs(a[k] - b[k]) <= e[k]
    ensures Abs(Sum(a) - Sum(b)) <= Sum(e)
    decreases |a|
  {
    if a == map[] {
      assert b == map[] && e == map[];
    } else {
      var k :| k in a;
      SumRemove(a, k);
      SumRemove(b, k);
      SumRemove(e, k);
      Smaller(a, k);
      SumClose(a - {k}, b - {k}, e - {k});
    }
  }

  function Multiple(n: nat, x: real): real
  {
    n as real * x
  }

  lemma OneMore(n: nat, x: real)
    requires n > 0
    ensures Multiple(n, x) == x + Multiple(n - 1, x)
  {
    assert n as real == 1.0 + (n - 1) as real;
  }

  lemma {:induction false} SumConstant(m: Amounts, x: real)
    requires forall k :: k in m ==> m[k] == x
    ensures Sum(m) == Multiple(|m|, x)
    decreases |m|
  {
    if k :| k in m {
      SumRemove(m, k);
      Smaller(m, k);
      SumConstant(m - {k}, x);
      OneMore(|m|, x);
    } else {
      assert m == map[];
    }
  }

  lemma {:induction false} SumAdd(m: Amounts, a: Amounts, b: Amounts)
    requires m.Keys == a.Keys == b.Keys
    requires forall k :: k in m ==> m[k] == a[k] + b[k]
    ensures Sum(m) == Sum(a) + Sum(b)
    decreases |m|
  {
    if m == map[] {
      assert a == map[] && b == map[];
    } else {
      var k :| k in m;
      SumRemove(m, k);
      SumRemove(a, k);
      SumRemove(b, k);
      Smaller(m, k);
      SumAdd(m - {k}, a - {k}, b - {k});
    }
  }

  ghost predicate Splits(f: real -> real, p: real, q: real)
  {
    f(p + q) == f(p) + f(q)
  }

  lemma {:induction false} SumAdditive(m: Amounts, a: Amounts, f: real -> real)
    requires f(0.0) == 0.0 && forall p, q :: Splits(f, p, q)
    requires m.Keys == a.Keys && forall k :: k in m ==> m[k] == f(a[k])
    ensures Sum(m) == f(Sum(a))
    decreases |m|
  {
    if m == map[] {
      assert a == map[];
    } else {
      var k :| k in m;
      SumRemove(m, k);
      SumRemove(a, k);
      Smaller(m, k);
      SumAdditive(m - {k}, a - {k}, f);
      assert Splits(f, a[k], Sum(a - {k})) && m[k] == f(a[k]);
      assert Sum(m) == f(a[k]) + f(Sum(a - {k}));
    }
  }

  function Times(x: real): real -> real
  {
    v => v * x
  }

  lemma TimesAdditive(x: real)
    ensures Times(x)(0.0) == 0.0 && forall p, q :: Splits(Times(x), p, q)
  {
    forall p, q ensures Splits(Times(x), p, q) { Distribute(p, q, x); }
  }

  lemma Distribute(p: real, q: real, x: real)
    ensures (p + q) * x == p * x + q * x
  {
  }

  /** Entries that are zero do not count. */
  lemma {:induction false} SumRestrict(m: Amounts, keys: set<string>)
    requires forall k :: k in m && k !in keys ==> m[k] == 0.0
    ensures Sum(m) == Sum(map k | k in m && k in keys :: m[k])
    decreases |m|
  {
    var r := map k | k in m && k in keys :: m[k];
    if k :| k in m && k !in keys {
      SumRemove(m, k);
      Smaller(m, k);
      SumRestrict(m - {k}, keys);
      assert r == map j | j in m - {k} && j in keys :: (m - {k})[j];
    } else {
      assert r == m;
    }
  }
}
