/** Whose calls change what: every write and every answer of a run goes back to a start by someone entitled to it. */
module Authority {
  import opened Domain
  import opened CargoStore
  import opened Handoff
  import opened Atomicity
  import Compliance

  /** Who may ask. */
  predicate Entitled(req: Request) {
    match req
    case CreateShipmentCall(u, _, _, _) => u.role == Shipper || u.role == Coordinator
    case BookShipmentCall(u, _, _) => u.role == Coordinator
    case TransitionCall(u, _, _) => u.role == Coordinator || u.role == GroundAgent
    case CreateLegCall(u, _, _) => u.role == Coordinator
    case OpenLegCall(u, _) => u.role == Coordinator
    case PutCustomsCall(u, _, _) => u.role == Coordinator
    case PutSecurityCall(u, _, _) => u.role == Coordinator || u.role == GroundAgent
  }

  predicate OwnedBy(c: Cargo, tenant: string, id: string) {
    id in c.shipments && c.shipments[id].tenantId == tenant
  }

  predicate ForTransition(req: Request, s: Shipment, next: ShipmentStatus) {
    req.TransitionCall? && s.tenantId == req.u.tenantId && s.id == req.id && next == req.next
  }

  /** What a call that still runs is about, in terms of the request it came from. */
  predicate Carries(c: Cargo, req: Request, call: Call) {
    match call
    case CreateFind(s) => req.CreateShipmentCall? && s.tenantId == req.u.tenantId
    case CreateWrite(s) => req.CreateShipmentCall? && s.tenantId == req.u.tenantId
    case BookReadShipment(t, id, leg) => req.BookShipmentCall? && (t, id, leg) == (req.u.tenantId, req.id, req.legId)
    case BookReadLeg(t, id, leg, _) => req.BookShipmentCall? && (t, id, leg) == (req.u.tenantId, req.id, req.legId)
    case BookWrite(t, id, leg, _, _) => req.BookShipmentCall? && (t, id, leg) == (req.u.tenantId, req.id, req.legId)
    case MoveRead(t, id, next) => req.TransitionCall? && (t, id, next) == (req.u.tenantId, req.id, req.next)
    case MoveCustoms(id, next, s) => id == s.id && ForTransition(req, s, next)
    case MoveSecurity(id, next, s, _) => id == s.id && ForTransition(req, s, next)
    case MoveWrite(next, s) => ForTransition(req, s, next)
    case LegWrite(l) => req.CreateLegCall? && l.tenantId == req.u.tenantId
    case OpenRead(t, id) => req.OpenLegCall? && (t, id) == (req.u.tenantId, req.id)
    case OpenWrite(t, id, _) => req.OpenLegCall? && (t, id) == (req.u.tenantId, req.id)
    case CustomsReadShipment(t, _) => req.PutCustomsCall? && t == req.u.tenantId
    case CustomsRead(v) => req.PutCustomsCall? && OwnedBy(c, req.u.tenantId, v.shipmentId)
    case CustomsWrite(v) => req.PutCustomsCall? && OwnedBy(c, req.u.tenantId, v.shipmentId)
    case SecurityReadShipment(t, officer, _) => req.PutSecurityCall? && (t, officer) == (req.u.tenantId, req.u.id)
    case SecurityWrite(officer, v) =>
      req.PutSecurityCall? && officer == req.u.id && OwnedBy(c, req.u.tenantId, v.shipmentId)
    case Done(_) => true
  }

  /** A call is entitled, or it has been refused. */
  predicate Sanctioned(c: Cargo, req: Request, call: Call) {
    (Entitled(req) || (call.Done? && call.reply.Failed?)) && Carries(c, req, call)
  }

  lemma BeginSanctioned(c: Cargo, req: Request, now: int)
    ensures Sanctioned(c, req, Begin(req, now))
  {
  }

  lemma TransitionCarries(c: Cargo, req: Request, call: Call, now: int)
    requires Keyed(c) && (call.MoveRead? || call.MoveCustoms? || call.MoveSecurity?) && Carries(c, req, call)
    ensures Carries(c, req, Advance(c, call, now).1)
  {
    if call.MoveRead? {
      assert call.id in c.shipments ==> c.shipments[call.id].id == call.id;
    }
  }

  lemma ReadCarries(c: Cargo, req: Request, call: Call, now: int)
    requires Remaining(call) >= 2 && Carries(c, req, call)
    requires !call.MoveRead? && !call.MoveCustoms? && !call.MoveSecurity?
    ensures Carries(c, req, Advance(c, call, now).1)
  {
  }

  lemma AdvanceSanctioned(c: Cargo, req: Request, call: Call, now: int)
    requires Keyed(c) && CallOk(c, call) && Sanctioned(c, req, call)
    ensures Sanctioned(c, req, Advance(c, call, now).1)
  {
    if call.MoveRead? || call.MoveCustoms? || call.MoveSecurity? {
      TransitionCarries(c, req, call, now);
    } else if Remaining(call) >= 2 {
      ReadCarries(c, req, call, now);
    } else {
      WritesEndTheCall(c, call, now);
    }
  }

  lemma EvolvesSanctioned(c: Cargo, d: Cargo, req: Request, call: Call)
    requires Evolves(c, d) && Sanctioned(c, req, call)
    ensures Sanctioned(d, req, call)
  {
  }

  /** Every call of every run has a start that sanctions it. */
  lemma {:induction false} StartSanctions(tr: seq<System>, acts: seq<Action>, n: nat, k: nat) returns (b: nat)
    requires IsRun(tr, acts) && Initial(tr[0]) && k < |tr| && n in tr[k].calls
    ensures b < k && acts[b].Start? && acts[b].call == n && Sanctioned(tr[k].cargo, acts[b].req, tr[k].calls[n])
  {
    var i := k - 1;
    var s, a := tr[i], acts[i];
    assert tr[k] == Step(s, a);
    RunKeepsInv(tr, acts, i);
    CallStep(s, a, n);
    if n !in s.calls {
      b := i;
      BeginSanctioned(tr[k].cargo, a.req, a.now);
    } else {
      b := StartSanctions(tr, acts, n, i);
      if a.Proceed? && a.call == n {
        AdvanceSanctioned(s.cargo, acts[b].req, s.calls[n], a.now);
      }
      EvolvesSanctioned(s.cargo, tr[k].cargo, acts[b].req, tr[k].calls[n]);
    }
  }

  /** Whoever is answered with anything but an error was entitled to ask. */
  lemma AnswersAreEntitled(tr: seq<System>, acts: seq<Action>, n: nat, k: nat) returns (b: nat)
    requires IsRun(tr, acts) && Initial(tr[0]) && k < |tr| && n in tr[k].calls
    requires tr[k].calls[n].Done? && !tr[k].calls[n].reply.Failed?
    ensures b < k && acts[b].Start? && acts[b].call == n && Entitled(acts[b].req)
  {
    b := StartSanctions(tr, acts, n, k);
  }

  // ---------- shipments ----------

  /** Which step changes a stored shipment: the write of a booking of it, or that of a transition of it. */
  ghost predicate Changes(sys: System, a: Action, id: string, d: Cargo)
    requires id in sys.cargo.shipments && id in d.shipments
  {
    && a.Proceed? && a.call in sys.calls
    && var call, s := sys.calls[a.call], sys.cargo.shipments[id];
       || (call.BookWrite? && call.id == id && s.tenantId == call.tenant)
       || (call.MoveWrite? && call.s.id == id && call.s.tenantId == s.tenantId && d.shipments[id].status == call.next)
  }

  lemma WhoChanges(sys: System, a: Action, id: string)
    requires Inv(sys) && id in sys.cargo.shipments && id in Step(sys, a).cargo.shipments
    requires Step(sys, a).cargo.shipments[id] != sys.cargo.shipments[id]
    ensures Changes(sys, a, id, Step(sys, a).cargo)
  {
    if a.Proceed? && a.call in sys.calls {
      Compliance.WhoTouches(sys.cargo, sys.calls[a.call], a.now, id);
      var call := sys.calls[a.call];
      if call.BookWrite? {
        BookEffect(sys.cargo, call.tenant, call.id, call.legId, call.s.version, call.leg.version, a.now);
      }
    }
  }

  /**
   * Whatever changes a stored shipment, in any run, was asked for by someone of the shipment's own tenant: a booking
   * by a coordinator, or the transition to exactly this status by a coordinator or a ground agent.
   */
  lemma ShipmentsChangeByRight(tr: seq<System>, acts: seq<Action>, id: string, k: nat) returns (b: nat)
    requires IsRun(tr, acts) && Initial(tr[0]) && k < |acts|
    requires id in tr[k].cargo.shipments && id in tr[k + 1].cargo.shipments
    requires tr[k + 1].cargo.shipments[id] != tr[k].cargo.shipments[id]
    ensures b < k && acts[k].Proceed? && acts[b].Start? && acts[b].call == acts[k].call
    ensures var req, before, after := acts[b].req, tr[k].cargo.shipments[id], tr[k + 1].cargo.shipments[id];
            || (&& req.BookShipmentCall? && req.u.role == Coordinator && req.u.tenantId == before.tenantId
                && req.id == id)
            || (&& req.TransitionCall? && (req.u.role == Coordinator || req.u.role == GroundAgent)
                && req.u.tenantId == before.tenantId && req.id == id && req.next == after.status)
  {
    RunKeepsInv(tr, acts, k);
    assert tr[k + 1] == Step(tr[k], acts[k]);
    WhoChanges(tr[k], acts[k], id);
    b := StartSanctions(tr, acts, acts[k].call, k);
  }

  ghost predicate Adds(sys: System, a: Action, id: string, d: Cargo)
    requires id in d.shipments
  {
    && a.Proceed? && a.call in sys.calls && sys.calls[a.call].CreateWrite?
    && d.shipments[id] == sys.calls[a.call].s
  }

  lemma WhoAdds(sys: System, a: Action, id: string)
    requires id !in sys.cargo.shipments && id in Step(sys, a).cargo.shipments
    ensures Adds(sys, a, id, Step(sys, a).cargo)
  {
    if a.Proceed? && a.call in sys.calls {
      var call := sys.calls[a.call];
      CallFrame(sys.cargo, call, a.now);
      if call.BookWrite? {
        BookEffect(sys.cargo, call.tenant, call.id, call.legId, call.s.version, call.leg.version, a.now);
      }
    }
  }

  /** Whatever adds a shipment was asked for by a shipper or coordinator of the tenant it belongs to. */
  lemma ShipmentsAppearByRight(tr: seq<System>, acts: seq<Action>, id: string, k: nat) returns (b: nat)
    requires IsRun(tr, acts) && Initial(tr[0]) && k < |acts|
    requires id !in tr[k].cargo.shipments && id in tr[k + 1].cargo.shipments
    ensures b < k && acts[k].Proceed? && acts[b].Start? && acts[b].call == acts[k].call
    ensures var req := acts[b].req;
            && req.CreateShipmentCall? && (req.u.role == Shipper || req.u.role == Coordinator)
            && req.u.tenantId == tr[k + 1].cargo.shipments[id].tenantId
  {
    assert tr[k + 1] == Step(tr[k], acts[k]);
    WhoAdds(tr[k], acts[k], id);
    b := StartSanctions(tr, acts, acts[k].call, k);
  }

  // ---------- legs ----------

  lemma WhoTouchesLeg(c: Cargo, call: Call, now: int, id: string)
    requires Keyed(c) && CallOk(c, call) && id in Advance(c, call, now).0.legs
    requires id in c.legs ==> Advance(c, call, now).0.legs[id] != c.legs[id]
    ensures if id !in c.legs then call.LegWrite? && Advance(c, call, now).0.legs[id] == call.l
            else || (call.BookWrite? && call.legId == id && c.legs[id].tenantId == call.tenant)
                 || (call.OpenWrite? && call.id == id && c.legs[id].tenantId == call.tenant)
  {
    CallFrame(c, call, now);
    if call.BookWrite? {
      BookEffect(c, call.tenant, call.id, call.legId, call.s.version, call.leg.version, now);
    }
  }

  /**
   * Legs appear, and change other than by a direct grant or status change, at the hands of their tenant's
   * coordinators.
   */
  lemma LegsChangeByRight(tr: seq<System>, acts: seq<Action>, id: string, k: nat) returns (b: nat)
    requires IsRun(tr, acts) && Initial(tr[0]) && k < |acts| && acts[k].Proceed? && id in tr[k + 1].cargo.legs
    requires id in tr[k].cargo.legs ==> tr[k + 1].cargo.legs[id] != tr[k].cargo.legs[id]
    ensures b < k && acts[b].Start? && acts[b].call == acts[k].call
    ensures var req := acts[b].req;
            && (if id !in tr[k].cargo.legs then req.CreateLegCall?
                else (req.BookShipmentCall? && req.legId == id) || (req.OpenLegCall? && req.id == id))
            && req.u.role == Coordinator && req.u.tenantId == tr[k + 1].cargo.legs[id].tenantId
  {
    RunKeepsInv(tr, acts, k);
    assert tr[k + 1] == Step(tr[k], acts[k]);
    b := StartSanctions(tr, acts, acts[k].call, k);
    WhoTouchesLeg(tr[k].cargo, tr[k].calls[acts[k].call], acts[k].now, id);
  }

  // ---------- security checks ----------

  /** Whoever files a security check is a coordinator or ground agent of the tenant of the shipment it names. */
  lemma SecurityFiledByRight(tr: seq<System>, acts: seq<Action>, k: nat) returns (b: nat)
    requires IsRun(tr, acts) && Initial(tr[0]) && k < |acts|
    requires acts[k].Proceed? && acts[k].call in tr[k].calls && tr[k].calls[acts[k].call].SecurityWrite?
    ensures b < k && acts[b].Start? && acts[b].call == acts[k].call
    ensures var v, req := tr[k].calls[acts[k].call].chk, acts[b].req;
            && req.PutSecurityCall? && (req.u.role == Coordinator || req.u.role == GroundAgent)
            && v.shipmentId in tr[k].cargo.shipments
            && req.u.tenantId == tr[k].cargo.shipments[v.shipmentId].tenantId
            && (v.status == SecurityPassed ==>
                  && v.id in tr[k + 1].cargo.security
                  && tr[k + 1].cargo.security[v.id].officerId == Some(req.u.id)
                  && tr[k + 1].cargo.security[v.id].checkedAt == Some(acts[k].now))
  {
    b := StartSanctions(tr, acts, acts[k].call, k);
    assert tr[k + 1] == Step(tr[k], acts[k]);
  }
}
