/** How customs cases and security checks move through their status graphs over whole runs. */
module CaseGraph {
  import opened Domain
  import opened CargoStore
  import opened Handoff
  import opened Atomicity
  import opened Compliance

  ghost predicate Files(sys: System, a: Action) {
    a.Proceed? && a.call in sys.calls && sys.calls[a.call].CustomsWrite?
  }

  ghost function Filed(sys: System, a: Action): CustomsCase
    requires Files(sys, a)
  {
    sys.calls[a.call].c
  }

  /** The edge that filing v takes in the case it replaces: the one under its own id, not the one that was checked. */
  predicate EdgeTaken(c: Cargo, v: CustomsCase) {
    var prior := c.GetCustoms(v.id);
    prior.Ok? ==> CustomsCanTransition(prior.value.status, v.status)
  }

  /** Step i is the lookup on the strength of which step k files. */
  ghost predicate ReadFor(tr: seq<System>, acts: seq<Action>, i: nat, k: nat)
    requires k < |acts| < |tr| && Files(tr[k], acts[k])
  {
    var n, v := acts[k].call, Filed(tr[k], acts[k]);
    && i < k && acts[i].Proceed? && acts[i].call == n
    && n in tr[i].calls && tr[i].calls[n] == CustomsRead(v)
    && n in tr[i + 1].calls && tr[i + 1].calls[n] == CustomsWrite(v)
  }

  /** No other filing came between, or the last one leaves a legal edge; and the case checked is the one replaced. */
  ghost predicate KeepsToGraph(tr: seq<System>, acts: seq<Action>, i: nat, k: nat)
    requires k < |acts| < |tr| && i <= k && Files(tr[k], acts[k])
  {
    var v := Filed(tr[k], acts[k]);
    match LastCustoms(tr, acts, v.id, i, k)
    case Some(status) => CustomsCanTransition(status, v.status)
    case None => v.id == v.shipmentId || EdgeTaken(tr[i].cargo, v)
  }

  lemma FilingHasRead(tr: seq<System>, acts: seq<Action>, k: nat) returns (i: nat)
    requires IsRun(tr, acts) && Initial(tr[0]) && k < |acts| && Files(tr[k], acts[k])
    ensures ReadFor(tr, acts, i, k)
  {
    var n := acts[k].call;
    i := LastStep(tr, acts, n, k);
    NotFromBegin(acts[i], tr[k].calls[n]);
    BeforeReads(tr[i].cargo, tr[i].calls[n], acts[i].now);
    assert tr[i + 1] == Step(tr[i], acts[i]);
  }

  /** The edge a filing takes is legal exactly when what was filed under its id since its lookup allows it. */
  lemma EdgeIsLegalExactly(tr: seq<System>, acts: seq<Action>, i: nat, k: nat)
    requires IsRun(tr, acts) && k < |acts| && Files(tr[k], acts[k]) && ReadFor(tr, acts, i, k)
    ensures EdgeTaken(tr[k].cargo, Filed(tr[k], acts[k])) <==> KeepsToGraph(tr, acts, i, k)
  {
    assert tr[i + 1] == Step(tr[i], acts[i]);
    BeforeReads(tr[i].cargo, tr[i].calls[acts[k].call], acts[i].now);
    CustomsSince(tr, acts, Filed(tr[k], acts[k]).id, i, k);
  }

  /** Over every run, all filings take legal edges exactly when each one keeps to the graph since its lookup. */
  lemma CasesFollowGraphExactly(tr: seq<System>, acts: seq<Action>, k: nat)
    requires IsRun(tr, acts) && Initial(tr[0]) && k <= |acts|
    ensures (forall m :: 0 <= m < k && Files(tr[m], acts[m]) ==> EdgeTaken(tr[m].cargo, Filed(tr[m], acts[m])))
       <==> (forall m: nat, i: nat :: m < k && Files(tr[m], acts[m]) && ReadFor(tr, acts, i, m) ==>
               KeepsToGraph(tr, acts, i, m))
  {
    forall m: nat, i: nat | m < k && Files(tr[m], acts[m]) && ReadFor(tr, acts, i, m)
      ensures EdgeTaken(tr[m].cargo, Filed(tr[m], acts[m])) <==> KeepsToGraph(tr, acts, i, m)
    {
      EdgeIsLegalExactly(tr, acts, i, m);
    }
    forall m: nat | m < k && Files(tr[m], acts[m]) ensures exists i: nat :: ReadFor(tr, acts, i, m) {
      var i := FilingHasRead(tr, acts, m);
    }
  }

  // ---------- who files ----------

  lemma {:induction false} TenantStays(tr: seq<System>, acts: seq<Action>, id: string, i: nat, k: nat)
    requires IsRun(tr, acts) && Initial(tr[0]) && i <= k < |tr| && id in tr[i].cargo.shipments
    ensures id in tr[k].cargo.shipments && tr[k].cargo.shipments[id].tenantId == tr[i].cargo.shipments[id].tenantId
    decreases k
  {
    if i < k {
      TenantStays(tr, acts, id, i, k - 1);
      CommittedChangeIsLegal(tr, acts, id, k - 1);
    }
  }

  /** Whoever files a case belongs to the tenant of the shipment it names, as a coordinator. */
  lemma FilerOwnsShipment(tr: seq<System>, acts: seq<Action>, k: nat) returns (b: nat)
    requires IsRun(tr, acts) && Initial(tr[0]) && k < |acts| && Files(tr[k], acts[k])
    ensures b < k && acts[b].Start? && acts[b].call == acts[k].call && acts[b].req.PutCustomsCall?
    ensures var v, u := Filed(tr[k], acts[k]), acts[b].req.u;
            && v.shipmentId in tr[k].cargo.shipments && u.role == Coordinator
            && tr[k].cargo.shipments[v.shipmentId].tenantId == u.tenantId
  {
    var n := acts[k].call;
    var i := FilingHasRead(tr, acts, k);
    var q := LastStep(tr, acts, n, i);
    NotFromBegin(acts[q], tr[i].calls[n]);
    BeforeReads(tr[q].cargo, tr[q].calls[n], acts[q].now);
    b := FirstStep(tr, acts, n, q);
    TenantStays(tr, acts, Filed(tr[k], acts[k]).shipmentId, q, k);
  }

  /** A filing that has read nothing yet stands where its start put it. */
  lemma {:induction false} FirstStep(tr: seq<System>, acts: seq<Action>, n: nat, q: nat) returns (b: nat)
    requires IsRun(tr, acts) && Initial(tr[0]) && q < |tr| && n in tr[q].calls && tr[q].calls[n].CustomsReadShipment?
    ensures b < q && acts[b].Start? && acts[b].call == n && acts[b].req.PutCustomsCall?
    ensures acts[b].req.u.role == Coordinator && acts[b].req.u.tenantId == tr[q].calls[n].tenant
  {
    b := LastStep(tr, acts, n, q);
    if acts[b].Start? {
      BeginHasReadNothing(acts[b].req, acts[b].now);
    } else {
      BeforeReads(tr[b].cargo, tr[b].calls[n], acts[b].now);
      b := FirstStep(tr, acts, n, b);
    }
  }

  // ---------- the runs that keep to it ----------

  /**
   * Every filing carries its shipment's id, and no other filing of that case comes between its lookup and its
   * write.
   */
  ghost predicate Tidy(tr: seq<System>, acts: seq<Action>, k: nat)
    requires k <= |acts| < |tr|
  {
    forall m: nat, i: nat :: m < k && Files(tr[m], acts[m]) && ReadFor(tr, acts, i, m) ==>
      && Filed(tr[m], acts[m]).id == Filed(tr[m], acts[m]).shipmentId
      && LastCustoms(tr, acts, Filed(tr[m], acts[m]).id, i, m) == None
  }

  ghost predicate CaseMoves(c: Cargo, d: Cargo, id: string) {
    id in c.customs ==>
      && id in d.customs
      && (d.customs[id] == c.customs[id] || CustomsCanTransition(c.customs[id].status, d.customs[id].status))
  }

  lemma StepMovesCase(sys: System, a: Action, id: string)
    requires Files(sys, a) ==> EdgeTaken(sys.cargo, Filed(sys, a))
    ensures CaseMoves(sys.cargo, Step(sys, a).cargo, id)
  {
    if a.Proceed? && a.call in sys.calls {
      CallFrame(sys.cargo, sys.calls[a.call], a.now);
    }
  }

  /**
   * In a tidy run every case on file follows the status graph, and only coordinators of its shipment's tenant file
   * it.
   */
  lemma TidyCasesFollowGraph(tr: seq<System>, acts: seq<Action>, k: nat, m: nat, id: string)
    requires IsRun(tr, acts) && Initial(tr[0]) && m < k <= |acts| && Tidy(tr, acts, k)
    ensures CaseMoves(tr[m].cargo, tr[m + 1].cargo, id)
    ensures Files(tr[m], acts[m]) && Filed(tr[m], acts[m]).id == id ==>
              && id in tr[m].cargo.shipments
              && exists b :: 0 <= b < m && acts[b].Start? && acts[b].call == acts[m].call && acts[b].req.PutCustomsCall?
                             && acts[b].req.u.role == Coordinator
                             && acts[b].req.u.tenantId == tr[m].cargo.shipments[id].tenantId
  {
    if Files(tr[m], acts[m]) {
      var i := FilingHasRead(tr, acts, m);
      EdgeIsLegalExactly(tr, acts, i, m);
      var b := FilerOwnsShipment(tr, acts, m);
      assert acts[b].Start?;
    }
    assert tr[m + 1] == Step(tr[m], acts[m]);
    StepMovesCase(tr[m], acts[m], id);
  }

  // ---------- a filing may overtake another ----------

  const HELD := RELEASED.(status := CustomsHeld)
  const REVIEWED := READY.PutCustoms(RELEASED.(status := CustomsReview))

  /** A filing that has found its edge legal. */
  lemma FilingChecked(sys: System, n: nat, v: CustomsCase) returns (tr: seq<System>, acts: seq<Action>)
    requires sys.cargo == REVIEWED && n !in sys.calls && v in {RELEASED, HELD}
    ensures IsRun(tr, acts) && |acts| == 3 && tr[0] == sys && tr[3] == sys.(calls := sys.calls[n := CustomsWrite(v)])
  {
    acts := [Start(n, PutCustomsCall(OPERATOR, v, "x"), 0), Proceed(n, 0), Proceed(n, 0)];
    tr := [sys,
           sys.(calls := sys.calls[n := CustomsReadShipment("t", v)]),
           sys.(calls := sys.calls[n := CustomsRead(v)]),
           sys.(calls := sys.calls[n := CustomsWrite(v)])];
    forall i | 0 <= i < 3 ensures tr[i + 1] == Step(tr[i], acts[i]) {
      if i == 0 {
      } else if i == 1 {
      } else {
      }
    }
  }

  lemma BothWritten(sys: System)
    requires sys == System(REVIEWED, map[0 := CustomsWrite(HELD), 1 := CustomsWrite(RELEASED)])
    ensures var t := Step(sys, Proceed(1, 0)); var u := Step(t, Proceed(0, 0));
            t.cargo.GetCustoms("s") == Ok(RELEASED) && u.cargo.GetCustoms("s") == Ok(HELD)
  {
  }

  /** So a released case, which has no edge to any other status, can be found held. */
  lemma ReleasedCaseCanBeHeld() returns (tr: seq<System>, acts: seq<Action>)
    ensures IsRun(tr, acts) && Initial(tr[0]) && |acts| == 8
    ensures tr[7].cargo.GetCustoms("s") == Ok(RELEASED) && tr[8].cargo.GetCustoms("s") == Ok(HELD)
    ensures !CustomsCanTransition(CustomsReleased, CustomsHeld)
  {
    var start := System(REVIEWED, map[]);
    var tr1, acts1 := FilingChecked(start, 0, HELD);
    var tr2, acts2 := FilingChecked(tr1[3], 1, RELEASED);
    RunsJoin(tr1, acts1, tr2, acts2);
    var sys := tr2[3];
    BothWritten(sys);
    var t := Step(sys, Proceed(1, 0));
    var tr3, acts3 := [sys, t, Step(t, Proceed(0, 0))], [Proceed(1, 0), Proceed(0, 0)];
    RunsJoin(tr1 + tr2[1..], acts1 + acts2, tr3, acts3);
    tr, acts := tr1 + tr2[1..] + tr3[1..], acts1 + acts2 + acts3;
  }

  // ---------- a filing may land on another tenant's case ----------

  const STRANGER := User("w", "o", "", [], Coordinator, true, 0, None)
  const OWN := CARGO.(id := "x", tenantId := "o")
  const BOTH := READY.(shipments := map["s" := CARGO, "x" := OWN])
  const STRAY := HELD.(shipmentId := "x")

  lemma StrayChecked() returns (tr: seq<System>, acts: seq<Action>)
    ensures IsRun(tr, acts) && |acts| == 3 && Alone(acts, 0) && tr[0] == System(BOTH, map[])
    ensures acts[0] == Start(0, PutCustomsCall(STRANGER, STRAY, ""), 0)
    ensures tr[3] == System(BOTH, map[0 := CustomsWrite(STRAY)])
  {
    acts := [Start(0, PutCustomsCall(STRANGER, STRAY, ""), 0), Proceed(0, 0), Proceed(0, 0)];
    tr := [System(BOTH, map[]),
           System(BOTH, map[0 := CustomsReadShipment("o", STRAY)]),
           System(BOTH, map[0 := CustomsRead(STRAY)]),
           System(BOTH, map[0 := CustomsWrite(STRAY)])];
    forall i | 0 <= i < 3 ensures tr[i + 1] == Step(tr[i], acts[i]) {
      if i == 0 {
      } else if i == 1 {
      } else {
      }
    }
  }

  /**
   * One filing, alone: a coordinator of another tenant names a shipment of his own, and the released case of shipment
   * s, whose id the filing carries, becomes held.
   */
  lemma StrangerHoldsReleasedCase() returns (tr: seq<System>, acts: seq<Action>)
    ensures IsRun(tr, acts) && Initial(tr[0]) && |acts| == 4 && Alone(acts, 0)
    ensures acts[0] == Start(0, PutCustomsCall(STRANGER, STRAY, ""), 0) && STRANGER.tenantId != CARGO.tenantId
    ensures StoredAt(tr[3], "s", CARGO) && tr[3].cargo.GetCustoms("s") == Ok(RELEASED)
    ensures tr[4].cargo.GetCustoms("s") == Ok(STRAY) && !CustomsCanTransition(CustomsReleased, STRAY.status)
  {
    var tr1, acts1 := StrayChecked();
    var sys := tr1[3];
    var tr2, acts2 := [sys, Step(sys, Proceed(0, 0))], [Proceed(0, 0)];
    RunsJoin(tr1, acts1, tr2, acts2);
    tr, acts := tr1 + tr2[1..], acts1 + acts2;
    assert tr[4].cargo == BOTH.PutCustoms(STRAY);
  }

  // ---------- security checks follow no graph ----------

  /**
   * Nothing but the status last filed under its id decides whether the edge a security filing takes is in the
   * graph.
   */
  lemma SecurityEdgeExactly(tr: seq<System>, acts: seq<Action>, k: nat)
    requires IsRun(tr, acts) && k < |acts|
    requires acts[k].Proceed? && acts[k].call in tr[k].calls && tr[k].calls[acts[k].call].SecurityWrite?
    ensures var v := tr[k].calls[acts[k].call].chk;
            var prior := tr[k].cargo.GetSecurity(v.id);
            && (prior.Ok? && !SecurityCanTransition(prior.value.status, v.status) <==>
                  match LastSecurity(tr, acts, v.id, 0, k)
                  case Some(status) => !SecurityCanTransition(status, v.status)
                  case None =>
                    var first := tr[0].cargo.GetSecurity(v.id);
                    first.Ok? && !SecurityCanTransition(first.value.status, v.status))
            && tr[k + 1].cargo.GetSecurity(v.id).Ok? && tr[k + 1].cargo.GetSecurity(v.id).value.status == v.status
  {
    var v := tr[k].calls[acts[k].call].chk;
    SecuritySince(tr, acts, v.id, 0, k);
    FilingStep(tr[k], acts[k], v.id);
    assert tr[k + 1] == Step(tr[k], acts[k]);
  }

  /** One filing, alone: a passed check, which has no edge to any other status, fails. */
  lemma PassedCheckCanFail() returns (tr: seq<System>, acts: seq<Action>)
    ensures IsRun(tr, acts) && Initial(tr[0]) && |acts| == 3 && Alone(acts, 0)
    ensures tr[2].cargo.GetSecurity("s") == Ok(PASSED) && tr[3].cargo.GetSecurity("s") == Ok(FAILED)
    ensures !SecurityCanTransition(SecurityPassed, SecurityFailed)
  {
    acts := [Start(0, PutSecurityCall(OPERATOR, FAILED, ""), 0), Proceed(0, 0), Proceed(0, 0)];
    tr := [System(READY, map[]),
           System(READY, map[0 := SecurityReadShipment("t", "u", FAILED)]),
           System(READY, map[0 := SecurityWrite("u", FAILED)]),
           System(FILED, map[0 := Done(SecurityReply(FAILED))])];
    forall i | 0 <= i < 3 ensures tr[i + 1] == Step(tr[i], acts[i]) {
      if i == 0 {
      } else if i == 1 {
      } else {
      }
    }
  }
}
