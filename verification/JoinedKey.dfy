/** Tenant and key joined into one string, as both idempotency maps use it, and when two such strings collide. */
module JoinedKey {

  function JoinKey(tenant: string, key: string): string {
    tenant + "|" + key
  }

  /** a is b followed by a separator and anything at all. */
  predicate Extends(a: string, b: string) {
    |b| < |a| && a[..|b|] == b && a[|b|] == '|'
  }

  predicate Separable(a: string, b: string) {
    a == b || (!Extends(a, b) && !Extends(b, a))
  }

  lemma NoSeparatorSeparable(a: string, b: string)
    requires '|' !in a && '|' !in b
    ensures Separable(a, b)
  {
  }

  lemma JoinSplits(a: string, k: string, b: string, l: string)
    requires JoinKey(a, k) == JoinKey(b, l) && |a| >= |b|
    ensures (a == b && k == l) || Extends(a, b)
  {
    var j := JoinKey(a, k);
    assert j[..|b|] == b && j[..|a|] == a && j[|b|] == '|';
    if |a| == |b| {
      assert j[|a| + 1..] == k && j[|b| + 1..] == l;
    } else {
      assert a[..|b|] == j[..|b|];
    }
  }

  lemma JoinInjective(a: string, k: string, b: string, l: string)
    requires Separable(a, b) && JoinKey(a, k) == JoinKey(b, l)
    ensures a == b && k == l
  {
    if |a| >= |b| { JoinSplits(a, k, b, l); } else { JoinSplits(b, l, a, k); }
  }

  lemma ExtensionCollides(a: string, b: string, k: string)
    requires Extends(a, b)
    ensures JoinKey(a, k) == JoinKey(b, JoinKey(a[|b| + 1..], k))
  {
    assert a == b + "|" + a[|b| + 1..];
  }

  /** Two different tenants can share an index entry if and only if one name extends the other across a separator. */
  lemma CollisionExactlyWhenExtending(a: string, b: string)
    requires a != b
    ensures (exists k, l :: k != "" && l != "" && JoinKey(a, k) == JoinKey(b, l)) <==> !Separable(a, b)
  {
    if Extends(a, b) {
      ExtensionCollides(a, b, "k");
      var l := JoinKey(a[|b| + 1..], "k");
      assert "k" != "" && l != "" && JoinKey(a, "k") == JoinKey(b, l);
    } else if Extends(b, a) {
      ExtensionCollides(b, a, "k");
      var l := JoinKey(b[|a| + 1..], "k");
      assert l != "" && "k" != "" && JoinKey(a, l) == JoinKey(b, "k");
    } else {
      forall k, l | JoinKey(a, k) == JoinKey(b, l) ensures false {
        JoinInjective(a, k, b, l);
      }
    }
  }
}
