/** The idempotency index of the store agrees with a full scan of its shipments. */
module IdempotencyIndex {
  import opened Domain
  import opened JoinedKey
  import opened CargoStore
  import opened Handoff
  import opened Atomicity
  import Strings

  // ---------- the index over whole runs ----------

  ghost predicate IndexSound(c: Cargo) {
    && (forall id :: id in c.shipments && c.shipments[id].idempotencyKey != "" ==>
          var k := JoinKey(c.shipments[id].tenantId, c.shipments[id].idempotencyKey);
          k in c.idem && c.idem[k] == id)
    && (forall k :: k in c.idem ==>
          && c.idem[k] in c.shipments && c.shipments[c.idem[k]].idempotencyKey != ""
          && k == JoinKey(c.shipments[c.idem[k]].tenantId, c.shipments[c.idem[k]].idempotencyKey))
  }

  lemma CreateIndexes(c: Cargo, s: Shipment)
    requires IndexSound(c)
    ensures IndexSound(c.CreateShipment(s).0)
  {
  }

  lemma OthersLeaveIndex(c: Cargo, call: Call, now: int)
    requires Keyed(c) && CallOk(c, call) && !call.CreateWrite?
    ensures var d := Advance(c, call, now).0; d.idem == c.idem && d.shipments.Keys == c.shipments.Keys
  {
    CallFrame(c, call, now);
    if call.BookWrite? {
      BookEffect(c, call.tenant, call.id, call.legId, call.s.version, call.leg.version, now);
    }
  }

  lemma EvolvesKeepsIndex(c: Cargo, d: Cargo)
    requires Evolves(c, d) && IndexSound(c) && d.idem == c.idem && d.shipments.Keys == c.shipments.Keys
    ensures IndexSound(d)
  {
    forall id | id in d.shipments
      ensures id in c.shipments && d.shipments[id].tenantId == c.shipments[id].tenantId
              && d.shipments[id].idempotencyKey == c.shipments[id].idempotencyKey
    {
      assert id in c.shipments.Keys;
    }
  }

  lemma StepKeepsIndex(sys: System, a: Action)
    requires Inv(sys) && IndexSound(sys.cargo)
    ensures IndexSound(Step(sys, a).cargo)
  {
    StepKeepsInv(sys, a);
    if a.Proceed? && a.call in sys.calls {
      var call := sys.calls[a.call];
      if call.CreateWrite? {
        CreateIndexes(sys.cargo, call.s);
      } else {
        OthersLeaveIndex(sys.cargo, call, a.now);
        EvolvesKeepsIndex(sys.cargo, Step(sys, a).cargo);
      }
    }
  }

  lemma {:induction false} IndexAlwaysSound(tr: seq<System>, acts: seq<Action>, k: nat)
    requires IsRun(tr, acts) && Initial(tr[0]) && IndexSound(tr[0].cargo) && k < |tr|
    ensures IndexSound(tr[k].cargo)
  {
    if k > 0 {
      IndexAlwaysSound(tr, acts, k - 1);
      RunKeepsInv(tr, acts, k - 1);
      StepKeepsIndex(tr[k - 1], acts[k - 1]);
    }
  }

  ghost predicate Holds(c: Cargo, id: string, tenant: string, key: string) {
    id in c.shipments && c.shipments[id].tenantId == tenant && c.shipments[id].idempotencyKey == key
  }

  /**
   * At every moment of every run, for any tenant at all: at most one shipment has a given non-empty key of the
   * tenant, also when two concurrent creations have both missed it; not-found means that there is none; and a
   * shipment that is found is the tenant's own exactly when its tenant's name is separable from this one - otherwise
   * no shipment has the key.
   */
  lemma LookupAgreesWithScan(tr: seq<System>, acts: seq<Action>, k: nat, tenant: string, key: string)
    requires IsRun(tr, acts) && Initial(tr[0]) && IndexSound(tr[0].cargo) && k < |tr| && key != ""
    ensures forall i, j :: Holds(tr[k].cargo, i, tenant, key) && Holds(tr[k].cargo, j, tenant, key) ==> i == j
    ensures match tr[k].cargo.FindByIdempotency(tenant, key)
            case Ok(s) =>
              && s.id in tr[k].cargo.shipments && tr[k].cargo.shipments[s.id] == s
              && (Holds(tr[k].cargo, s.id, tenant, key) <==> Separable(s.tenantId, tenant))
              && (!Separable(s.tenantId, tenant) ==> forall id :: !Holds(tr[k].cargo, id, tenant, key))
            case Err(e) => e == NotFound && forall id :: !Holds(tr[k].cargo, id, tenant, key)
  {
    IndexAlwaysSound(tr, acts, k);
    RunKeepsInv(tr, acts, k);
    var c := tr[k].cargo;
    var joined := JoinKey(tenant, key);
    if joined in c.idem {
      var s := c.shipments[c.idem[joined]];
      if Separable(s.tenantId, tenant) {
        JoinInjective(s.tenantId, s.idempotencyKey, tenant, key);
      }
    }
  }

  /** So for a tenant that does not collide with the stored ones, the lookup finds exactly what a full scan does. */
  lemma SeparableLookupAgrees(tr: seq<System>, acts: seq<Action>, k: nat, tenant: string, key: string)
    requires IsRun(tr, acts) && Initial(tr[0]) && IndexSound(tr[0].cargo) && k < |tr| && key != ""
    requires forall id :: id in tr[k].cargo.shipments ==> Separable(tr[k].cargo.shipments[id].tenantId, tenant)
    ensures forall i, j :: Holds(tr[k].cargo, i, tenant, key) && Holds(tr[k].cargo, j, tenant, key) ==> i == j
    ensures match tr[k].cargo.FindByIdempotency(tenant, key)
            case Ok(s) => Holds(tr[k].cargo, s.id, tenant, key) && tr[k].cargo.shipments[s.id] == s
            case Err(e) => e == NotFound && forall id :: !Holds(tr[k].cargo, id, tenant, key)
  {
    LookupAgreesWithScan(tr, acts, k, tenant, key);
  }

  /**
   * For a tenant whose name a stored tenant's name extends, the lookup does answer with that other tenant's
   * shipment.
   */
  lemma CollidingLookup(c: Cargo, id: string, tenant: string)
    requires Keyed(c) && IndexSound(c) && id in c.shipments && c.shipments[id].idempotencyKey != ""
    requires Extends(c.shipments[id].tenantId, tenant)
    ensures var s := c.shipments[id];
            c.FindByIdempotency(tenant, JoinKey(s.tenantId[|tenant| + 1..], s.idempotencyKey)) == Ok(s)
            && s.tenantId != tenant
  {
    ExtensionCollides(c.shipments[id].tenantId, tenant, c.shipments[id].idempotencyKey);
  }

  // ---------- tenants without a separator ----------

  ghost predicate PlainCall(call: Call) {
    call.CreateFind? || call.CreateWrite? ==> '|' !in call.s.tenantId
  }

  ghost predicate PlainStore(c: Cargo) {
    forall id :: id in c.shipments ==> '|' !in c.shipments[id].tenantId
  }

  ghost predicate Plain(sys: System) {
    PlainStore(sys.cargo) && forall n :: n in sys.calls ==> PlainCall(sys.calls[n])
  }

  /** Whoever asks for a creation belongs to a tenant without a separator in its name. */
  ghost predicate AskedPlainly(a: Action) {
    a.Start? && a.req.CreateShipmentCall? ==> '|' !in a.req.u.tenantId
  }

  lemma BeginPlain(a: Action)
    requires a.Start? && AskedPlainly(a)
    ensures PlainCall(Begin(a.req, a.now))
  {
  }

  lemma AdvancePlain(c: Cargo, call: Call, now: int)
    requires Keyed(c) && CallOk(c, call) && PlainStore(c) && PlainCall(call)
    ensures var r := Advance(c, call, now); PlainStore(r.0) && PlainCall(r.1)
  {
    if !call.CreateWrite? {
      AdvanceEvolves(c, call, now);
      OthersLeaveIndex(c, call, now);
      var d := Advance(c, call, now).0;
      forall id | id in d.shipments ensures '|' !in d.shipments[id].tenantId {
        assert id in c.shipments.Keys;
      }
    }
  }

  lemma StepKeepsPlain(sys: System, a: Action)
    requires Inv(sys) && Plain(sys) && AskedPlainly(a)
    ensures Plain(Step(sys, a))
  {
    if a.Start? {
      BeginPlain(a);
    } else if a.Proceed? && a.call in sys.calls {
      AdvancePlain(sys.cargo, sys.calls[a.call], a.now);
    }
  }

  lemma {:induction false} AlwaysPlain(tr: seq<System>, acts: seq<Action>, k: nat)
    requires IsRun(tr, acts) && Initial(tr[0]) && PlainStore(tr[0].cargo) && k < |tr|
    requires forall i :: 0 <= i < k ==> AskedPlainly(acts[i])
    ensures Plain(tr[k])
  {
    if k > 0 {
      AlwaysPlain(tr, acts, k - 1);
      RunKeepsInv(tr, acts, k - 1);
      StepKeepsPlain(tr[k - 1], acts[k - 1]);
    }
  }

  /**
   * When no tenant that creates has a separator in its name, lookup and scan agree for every such tenant at every
   * moment.
   */
  lemma PlainTenantsNeverCollide(tr: seq<System>, acts: seq<Action>, k: nat, tenant: string, key: string)
    requires IsRun(tr, acts) && Initial(tr[0]) && IndexSound(tr[0].cargo) && k < |tr| && key != ""
    requires '|' !in tenant && PlainStore(tr[0].cargo) && forall i :: 0 <= i < k ==> AskedPlainly(acts[i])
    ensures forall i, j :: Holds(tr[k].cargo, i, tenant, key) && Holds(tr[k].cargo, j, tenant, key) ==> i == j
    ensures match tr[k].cargo.FindByIdempotency(tenant, key)
            case Ok(s) => Holds(tr[k].cargo, s.id, tenant, key) && tr[k].cargo.shipments[s.id] == s
            case Err(e) => e == NotFound && forall id :: !Holds(tr[k].cargo, id, tenant, key)
  {
    AlwaysPlain(tr, acts, k);
    forall id | id in tr[k].cargo.shipments ensures Separable(tr[k].cargo.shipments[id].tenantId, tenant) {
      NoSeparatorSeparable(tr[k].cargo.shipments[id].tenantId, tenant);
    }
    SeparableLookupAgrees(tr, acts, k, tenant, key);
  }

  // ---------- two creations that both missed the lookup ----------

  const CLERK := User("u", "t", "", [], Shipper, true, 0, None)
  const ONE := Shipment("a", "t", "r", "A", "B", 1, 1, Draft, None, "k", 1, 0, 0)
  const TWO := ONE.(id := "b")
  const HEAVIER := ONE.(weightKg := 2)
  const NOTHING := Cargo(map[], map[], map[], map[], map[])

  /** A creation that has looked its key up in an empty store. */
  lemma CreationChecked(sys: System, n: nat, s: Shipment) returns (tr: seq<System>, acts: seq<Action>)
    requires sys.cargo == NOTHING && n !in sys.calls && s in {ONE, TWO, HEAVIER}
    ensures IsRun(tr, acts) && |acts| == 2 && tr[0] == sys && tr[2] == sys.(calls := sys.calls[n := CreateWrite(s)])
  {
    assert s == NewShipment(CLERK, s, "k", "x", 0) by { Trims(); }
    acts := [Start(n, CreateShipmentCall(CLERK, s, "k", "x"), 0), Proceed(n, 0)];
    tr := [sys, sys.(calls := sys.calls[n := CreateFind(s)]), sys.(calls := sys.calls[n := CreateWrite(s)])];
    forall i | 0 <= i < 2 ensures tr[i + 1] == Step(tr[i], acts[i]) {
      if i == 0 {
      } else {
      }
    }
  }

  lemma Trims()
    ensures Strings.TrimSpace("r") == "r"
  {
    Strings.TrimSpaceTrims("r");
  }

  lemma SecondRefused(sys: System)
    requires sys == System(NOTHING, map[0 := CreateWrite(ONE), 1 := CreateWrite(TWO)])
    ensures var t := Step(sys, Proceed(0, 0)); var u := Step(t, Proceed(1, 0));
            && t.cargo.shipments == u.cargo.shipments == map["a" := ONE]
            && 1 in u.calls && u.calls[1] == Done(Failed(Conflict))
            && Solo(t.cargo, CreateFind(TWO), 0) == (t.cargo, ShipmentReply(ONE))
  {
    var t := Step(sys, Proceed(0, 0));
    FinishesAlone(t.cargo, CreateFind(TWO), 0);
  }

  /**
   * The index holds, but the loser is refused, where the whole call at that moment would return the winner's
   * shipment.
   */
  lemma LostRaceIsAConflict() returns (tr: seq<System>, acts: seq<Action>)
    ensures IsRun(tr, acts) && Initial(tr[0]) && |acts| == 6
    ensures 1 in tr[6].calls && tr[6].calls[1] == Done(Failed(Conflict))
    ensures Solo(tr[5].cargo, CreateFind(TWO), 0) == (tr[5].cargo, ShipmentReply(ONE))
  {
    var tr1, acts1 := CreationChecked(System(NOTHING, map[]), 0, ONE);
    var tr2, acts2 := CreationChecked(tr1[2], 1, TWO);
    RunsJoin(tr1, acts1, tr2, acts2);
    var sys := tr2[2];
    SecondRefused(sys);
    var t := Step(sys, Proceed(0, 0));
    var tr3, acts3 := [sys, t, Step(t, Proceed(1, 0))], [Proceed(0, 0), Proceed(1, 0)];
    RunsJoin(tr1 + tr2[1..], acts1 + acts2, tr3, acts3);
    tr, acts := tr1 + tr2[1..] + tr3[1..], acts1 + acts2 + acts3;
  }

  lemma SecondNotStored(sys: System)
    requires sys == System(NOTHING, map[0 := CreateWrite(ONE), 1 := CreateWrite(HEAVIER)])
    ensures var t := Step(sys, Proceed(0, 0)); var u := Step(t, Proceed(1, 0));
            && u.cargo.shipments == map["a" := ONE]
            && 1 in u.calls && u.calls[1] == Done(ShipmentReply(HEAVIER))
  {
  }

  /** When the two share their id as well, the second is told that its shipment is stored, though the first one's is. */
  lemma RepeatIsAnsweredButNotStored() returns (tr: seq<System>, acts: seq<Action>)
    ensures IsRun(tr, acts) && Initial(tr[0]) && |acts| == 6
    ensures 1 in tr[6].calls && tr[6].calls[1] == Done(ShipmentReply(HEAVIER))
    ensures tr[6].cargo.shipments == map["a" := ONE] && HEAVIER.id == "a" && HEAVIER != ONE
  {
    var tr1, acts1 := CreationChecked(System(NOTHING, map[]), 0, ONE);
    var tr2, acts2 := CreationChecked(tr1[2], 1, HEAVIER);
    RunsJoin(tr1, acts1, tr2, acts2);
    var sys := tr2[2];
    SecondNotStored(sys);
    var t := Step(sys, Proceed(0, 0));
    var tr3, acts3 := [sys, t, Step(t, Proceed(1, 0))], [Proceed(0, 0), Proceed(1, 0)];
    RunsJoin(tr1 + tr2[1..], acts1 + acts2, tr3, acts3);
    tr, acts := tr1 + tr2[1..] + tr3[1..], acts1 + acts2 + acts3;
  }

  // ---------- exactly when a creation has lost the race ----------

  /** Step a stores a shipment under the joined key. */
  ghost predicate Takes(sys: System, a: Action, key: string) {
    && a.Proceed? && a.call in sys.calls && sys.calls[a.call].CreateWrite? && key !in sys.cargo.idem
    && var s := sys.calls[a.call].s;
       s.idempotencyKey != "" && JoinKey(s.tenantId, s.idempotencyKey) == key && s.id !in sys.cargo.shipments
  }

  lemma TakenStep(sys: System, a: Action, key: string)
    requires Inv(sys)
    ensures key in Step(sys, a).cargo.idem <==> key in sys.cargo.idem || Takes(sys, a, key)
    ensures Takes(sys, a, key) ==> Step(sys, a).cargo.idem[key] == sys.calls[a.call].s.id
  {
    if a.Proceed? && a.call in sys.calls {
      CallFrame(sys.cargo, sys.calls[a.call], a.now);
    }
  }

  lemma {:induction false} TakenSince(tr: seq<System>, acts: seq<Action>, key: string, i: nat, k: nat)
    requires IsRun(tr, acts) && Initial(tr[0]) && i <= k < |tr| && key !in tr[i].cargo.idem
    ensures key in tr[k].cargo.idem <==> exists m :: i <= m < k && Takes(tr[m], acts[m], key)
    decreases k
  {
    if i < k {
      TakenSince(tr, acts, key, i, k - 1);
      RunKeepsInv(tr, acts, k - 1);
      TakenStep(tr[k - 1], acts[k - 1], key);
    }
  }

  lemma BeforeCreation(c: Cargo, call: Call, now: int)
    ensures var w := Advance(c, call, now).1;
            w.CreateWrite? ==> call == CreateFind(w.s) && JoinKey(w.s.tenantId, w.s.idempotencyKey) !in c.idem
  {
  }

  lemma BeginCreates(req: Request, now: int)
    ensures Begin(req, now).CreateWrite? ==> Begin(req, now).s.idempotencyKey == ""
  {
  }

  /**
   * A keyed creation that writes at k looked its key up at i. By then the key is taken exactly when another creation
   * took it since. If not, it is stored unless its id exists; if so, nothing changes, and it is answered with success
   * exactly when the key was taken for the same id. A successful answer is the stored record exactly when KeyFree.
   */
  lemma CreationExactlySince(tr: seq<System>, acts: seq<Action>, k: nat) returns (i: nat)
    requires IsRun(tr, acts) && Initial(tr[0]) && k < |acts|
    requires acts[k].Proceed? && acts[k].call in tr[k].calls && tr[k].calls[acts[k].call].CreateWrite?
    requires tr[k].calls[acts[k].call].s.idempotencyKey != ""
    ensures i < k && acts[i].Proceed? && acts[i].call == acts[k].call && acts[k].call in tr[i].calls
    ensures var n, s := acts[k].call, tr[k].calls[acts[k].call].s;
            var c, d, reply := tr[k].cargo, tr[k + 1].cargo, tr[k + 1].calls[n].reply;
            var key := JoinKey(s.tenantId, s.idempotencyKey);
            && tr[i].calls[n] == CreateFind(s)
            && (key in c.idem <==> exists m :: i <= m < k && Takes(tr[m], acts[m], key))
            && (key !in c.idem ==> (reply == ShipmentReply(s) <==> s.id !in c.shipments))
            && (key in c.idem ==> d == c && (reply == ShipmentReply(s) <==> c.idem[key] == s.id))
            && (reply == ShipmentReply(s) ==> (s.id in d.shipments && d.shipments[s.id] == s <==> KeyFree(c, s)))
  {
    var n, s := acts[k].call, tr[k].calls[acts[k].call].s;
    i := LastStep(tr, acts, n, k);
    if acts[i].Start? { BeginCreates(acts[i].req, acts[i].now); }
    BeforeCreation(tr[i].cargo, tr[i].calls[n], acts[i].now);
    TakenSince(tr, acts, JoinKey(s.tenantId, s.idempotencyKey), i, k);
    assert tr[k + 1] == Step(tr[k], acts[k]);
  }
}
