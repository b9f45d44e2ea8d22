/** Sums over the rows of a table. */
module Totals {
  ghost function Pick<K, V>(m: map<K, V>): (k: K)
    requires |m| > 0
    ensures k in m
  {
    var k :| k in m;
    k
  }

  ghost function Total<K, V>(m: map<K, V>, f: (K, V) -> nat): nat
    decreases |m|
  {
    if |m| == 0 then 0
    else
      var k := Pick(m);
      f(k, m[k]) + Total(m - {k}, f)
  }

  lemma {:induction false} TotalWithout<K, V>(m: map<K, V>, f: (K, V) -> nat, k: K)
    requires k in m
    ensures Total(m, f) == f(k, m[k]) + Total(m - {k}, f)
    decreases |m|
  {
    var c := Pick(m);
    if c != k {
      var a, b := m - {c}, m - {k};
      assert a[k] == m[k] && b[c] == m[c];
      TotalWithout(a, f, k);
      TotalWithout(b, f, c);
      assert a - {k} == b - {c};
    }
  }

  lemma TotalPut<K, V>(m: map<K, V>, f: (K, V) -> nat, k: K, v: V)
    ensures k in m ==> Total(m[k := v], f) + f(k, m[k]) == Total(m, f) + f(k, v)
    ensures k !in m ==> Total(m[k := v], f) == Total(m, f) + f(k, v)
  {
    hide Total;
    TotalWithout(m[k := v], f, k);
    assert m[k := v] - {k} == m - {k};
    if k in m {
      TotalWithout(m, f, k);
    } else {
      assert m - {k} == m;
    }
  }

  lemma {:induction false} TotalCombines<K, V>(m: map<K, V>, f: (K, V) -> nat, g: (K, V) -> nat, h: (K, V) -> nat)
    requires forall k | k in m :: f(k, m[k]) == g(k, m[k]) + h(k, m[k])
    ensures Total(m, f) == Total(m, g) + Total(m, h)
    decreases |m|
  {
    if |m| > 0 {
      var k :| k in m;
      TotalWithout(m, f, k);
      TotalWithout(m, g, k);
      TotalWithout(m, h, k);
      TotalCombines(m - {k}, f, g, h);
    }
  }

  lemma {:induction false} TotalAgrees<K, V>(m: map<K, V>, f: (K, V) -> nat, g: (K, V) -> nat)
    requires forall k | k in m :: f(k, m[k]) == g(k, m[k])
    ensures Total(m, f) == Total(m, g)
    decreases |m|
  {
    if |m| > 0 {
      var k :| k in m;
      TotalWithout(m, f, k);
      TotalWithout(m, g, k);
      TotalAgrees(m - {k}, f, g);
    }
  }

  lemma {:induction false} TotalOfZeros<K, V>(m: map<K, V>, f: (K, V) -> nat)
    requires forall k | k in m :: f(k, m[k]) == 0
    ensures Total(m, f) == 0
    decreases |m|
  {
    if |m| > 0 {
      var k :| k in m;
      TotalWithout(m, f, k);
      TotalOfZeros(m - {k}, f);
    }
  }

  lemma TotalOfOne<K, V>(m: map<K, V>, f: (K, V) -> nat, k: K)
    requires k in m && forall o | o in m && o != k :: f(o, m[o]) == 0
    ensures Total(m, f) == f(k, m[k])
  {
    TotalWithout(m, f, k);
    TotalOfZeros(m - {k}, f);
  }

  lemma {:induction false} TotalOfOnes<K, V>(m: map<K, V>, f: (K, V) -> nat)
    requires forall k | k in m :: f(k, m[k]) == 1
    ensures Total(m, f) == |m|
    decreases |m|
  {
    if |m| > 0 {
      var k :| k in m;
      TotalWithout(m, f, k);
      assert (m - {k}).Keys == m.Keys - {k};
      TotalOfOnes(m - {k}, f);
    }
  }
}
