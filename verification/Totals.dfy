/** Sums over finite maps, independent of the order in which a Go map happens to be ranged over. */
module Totals {

  ghost function Total<K>(m: map<K, int>): int
    decreases |m|
  {
    if m == map[] then 0
    else
      var k :| k in m;
      assert |m - {k}| < |m| by { SmallerWithout(m, k); }
      m[k] + Total(m - {k})
  }

  lemma SmallerWithout<K, V>(m: map<K, V>, k: K)
    requires k in m
    ensures |m - {k}| == |m| - 1
  {
    assert (m - {k}).Keys == m.Keys - {k};
    assert |m.Keys - {k}| == |m.Keys| - 1;
  }

  /** Any key can be taken out first. */
  lemma {:induction false} Remove<K>(m: map<K, int>, k: K)
    requires k in m
    ensures Total(m) == m[k] + Total(m - {k})
    decreases |m|
  {
    var j :| j in m && Total(m) == m[j] + Total(m - {j});
    if j != k {
      SmallerWithout(m, j);
      SmallerWithout(m, k);
      Remove(m - {j}, k);
      Remove(m - {k}, j);
      assert m - {j} - {k} == m - {k} - {j};
    }
  }

  lemma {:induction false} NonNegative<K>(m: map<K, int>)
    requires forall k :: k in m ==> m[k] >= 0
    ensures Total(m) >= 0
    decreases |m|
  {
    if m != map[] {
      var k :| k in m;
      SmallerWithout(m, k);
      Remove(m, k);
      NonNegative(m - {k});
    }
  }

  // ---------- sums of what each entry contributes ----------

  ghost function Shares<K, V>(m: map<K, V>, share: V -> int): map<K, int> {
    map k | k in m :: share(m[k])
  }

  ghost function Sum<K, V>(m: map<K, V>, share: V -> int): int {
    Total(Shares(m, share))
  }

  lemma SumWithout<K, V>(m: map<K, V>, k: K, share: V -> int)
    requires k in m
    ensures Sum(m - {k}, share) == Sum(m, share) - share(m[k])
  {
    Remove(Shares(m, share), k);
    assert Shares(m - {k}, share) == Shares(m, share) - {k};
  }

  lemma SumPut<K, V>(m: map<K, V>, k: K, v: V, share: V -> int)
    ensures Sum(m[k := v], share) == Sum(m, share) + share(v) - if k in m then share(m[k]) else 0
  {
    SumWithout(m[k := v], k, share);
    assert m[k := v] - {k} == m - {k};
    if k in m { SumWithout(m, k, share); } else { assert m - {k} == m; }
  }

  lemma SumNonNegative<K, V>(m: map<K, V>, share: V -> int)
    requires forall k :: k in m ==> share(m[k]) >= 0
    ensures Sum(m, share) >= 0
  {
    NonNegative(Shares(m, share));
  }

  lemma {:induction false} SumOfNothing<K, V>(m: map<K, V>, share: V -> int)
    requires forall k :: k in m ==> share(m[k]) == 0
    ensures Sum(m, share) == 0
    decreases |m|
  {
    if m == map[] {
      assert Shares(m, share) == map[];
    } else {
      var k :| k in m;
      SmallerWithout(m, k);
      SumOfNothing(m - {k}, share);
      SumWithout(m, k, share);
    }
  }
}
