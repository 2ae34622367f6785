/**
 * The cargo service calls as small programs over the store (internal/service/application.go). Every store call is
 * one atomic step, so the steps of any number of service calls may interleave in any order.
 */
module Handoff {
  import opened Domain
  import opened Int64
  import opened CargoStore
  import Strings

  datatype Request =
    | CreateShipmentCall(u: User, s: Shipment, idem: string, newId: string)
    | BookShipmentCall(u: User, id: string, legId: string)
    | TransitionCall(u: User, id: string, next: ShipmentStatus)
    | CreateLegCall(u: User, l: FlightLeg, newId: string)
    | OpenLegCall(u: User, id: string)
    | PutCustomsCall(u: User, c: CustomsCase, newId: string)
    | PutSecurityCall(u: User, chk: SecurityCheck, newId: string)

  datatype Reply =
    | Failed(error: Error)
    | ShipmentReply(s: Shipment)
    | LegReply(l: FlightLeg)
    | CustomsReply(c: CustomsCase)
    | SecurityReply(chk: SecurityCheck)

  /** Where a service call stands: each case but Done names the store call it makes next and what it has read so far. */
  datatype Call =
    | CreateFind(s: Shipment)
    | CreateWrite(s: Shipment)
    | BookReadShipment(tenant: string, id: string, legId: string)
    | BookReadLeg(tenant: string, id: string, legId: string, s: Shipment)
    | BookWrite(tenant: string, id: string, legId: string, s: Shipment, leg: FlightLeg)
    | MoveRead(tenant: string, id: string, next: ShipmentStatus)
    | MoveCustoms(id: string, next: ShipmentStatus, s: Shipment)
    | MoveSecurity(id: string, next: ShipmentStatus, s: Shipment, customs: Result<CustomsCase>)
    | MoveWrite(next: ShipmentStatus, s: Shipment)
    | LegWrite(l: FlightLeg)
    | OpenRead(tenant: string, id: string)
    | OpenWrite(tenant: string, id: string, leg: FlightLeg)
    | CustomsReadShipment(tenant: string, c: CustomsCase)
    | CustomsRead(c: CustomsCase)
    | CustomsWrite(c: CustomsCase)
    | SecurityReadShipment(tenant: string, officer: string, chk: SecurityCheck)
    | SecurityWrite(officer: string, chk: SecurityCheck)
    | Done(reply: Reply)

  function NonEmpty(v: string, fallback: string): string {
    if v == "" then fallback else v
  }

  function NewShipment(u: User, s: Shipment, idem: string, newId: string, now: int): Shipment {
    s.(id := NonEmpty(s.id, newId), tenantId := u.tenantId, reference := Strings.TrimSpace(s.reference),
       status := Draft, idempotencyKey := idem, createdAt := now, updatedAt := now, version := 1)
  }

  function NewLeg(u: User, l: FlightLeg, newId: string, now: int): FlightLeg {
    l.(id := NonEmpty(l.id, newId), tenantId := u.tenantId, status := LegPlanned, version := 1, createdAt := now)
  }

  /** Everything a service call does before its first store call. */
  function Begin(req: Request, now: int): Call {
    match req
    case CreateShipmentCall(u, s, idem, newId) =>
      var v := NewShipment(u, s, idem, newId, now);
      if u.role != Shipper && u.role != Coordinator then Done(Failed(Forbidden))
      else if ValidateShipment(v) != None then Done(Failed(Invalid))
      else if idem != "" then CreateFind(v)
      else CreateWrite(v)
    case BookShipmentCall(u, id, legId) =>
      if u.role != Coordinator then Done(Failed(Forbidden)) else BookReadShipment(u.tenantId, id, legId)
    case TransitionCall(u, id, next) =>
      if u.role != Coordinator && u.role != GroundAgent then Done(Failed(Forbidden))
      else MoveRead(u.tenantId, id, next)
    case CreateLegCall(u, l, newId) =>
      var v := NewLeg(u, l, newId, now);
      if u.role != Coordinator then Done(Failed(Forbidden))
      else if ValidateLeg(v, now) != None then Done(Failed(Invalid))
      else LegWrite(v)
    case OpenLegCall(u, id) =>
      if u.role != Coordinator then Done(Failed(Forbidden)) else OpenRead(u.tenantId, id)
    case PutCustomsCall(u, c, newId) =>
      if u.role != Coordinator then Done(Failed(Forbidden))
      else CustomsReadShipment(u.tenantId, c.(id := NonEmpty(c.id, newId)))
    case PutSecurityCall(u, chk, newId) =>
      if u.role != GroundAgent && u.role != Coordinator then Done(Failed(Forbidden))
      else SecurityReadShipment(u.tenantId, u.id, chk.(id := NonEmpty(chk.id, newId)))
  }

  /** Loading and departure of a shipment that rides on a leg are gated on customs and security. */
  predicate Gated(s: Shipment, next: ShipmentStatus) {
    s.legId != None && (next == Loaded || next == Departed)
  }

  predicate GateOpen(customs: Result<CustomsCase>, security: Result<SecurityCheck>) {
    customs.Ok? && security.Ok? && CustomsAllowsLoading(customs.value) && SecurityAllowsLoading(security.value)
  }

  function Signed(officer: string, chk: SecurityCheck, now: int): SecurityCheck {
    if chk.status == SecurityPassed then chk.(checkedAt := Some(now), officerId := Some(officer)) else chk
  }

  /** One store call and the local work up to the next one. */
  function Advance(c: Cargo, call: Call, now: int): (Cargo, Call) {
    match call
    case CreateFind(s) =>
      (c, match c.FindByIdempotency(s.tenantId, s.idempotencyKey)
          case Ok(found) => Done(ShipmentReply(found))
          case Err(e) => if e == NotFound then CreateWrite(s) else Done(Failed(e)))
    case CreateWrite(s) =>
      var (c', err) := c.CreateShipment(s);
      (c', Done(if err == None then ShipmentReply(s) else Failed(err.value)))
    case BookReadShipment(tenant, id, legId) =>
      (c, match c.GetShipment(tenant, id)
          case Err(e) => Done(Failed(e))
          case Ok(s) => BookReadLeg(tenant, id, legId, s))
    case BookReadLeg(tenant, id, legId, s) =>
      (c, match c.GetLeg(tenant, legId)
          case Err(e) => Done(Failed(e))
          case Ok(leg) =>
            if !CanTransition(s.status, Booked) || leg.status != LegOpen then Done(Failed(State))
            else if s.origin != leg.origin || s.destination != leg.destination then Done(Failed(Invalid))
            else BookWrite(tenant, id, legId, s, leg))
    case BookWrite(tenant, id, legId, s, leg) =>
      var (c', r) := c.BookShipment(tenant, id, legId, s.version, leg.version, now);
      (c', Done(if r.Ok? then ShipmentReply(r.value) else Failed(r.error)))
    case MoveRead(tenant, id, next) =>
      (c, match c.GetShipment(tenant, id)
          case Err(e) => Done(Failed(e))
          case Ok(s) =>
            if !CanTransition(s.status, next) then Done(Failed(State))
            else if Gated(s, next) then MoveCustoms(id, next, s)
            else MoveWrite(next, s))
    case MoveCustoms(id, next, s) => (c, MoveSecurity(id, next, s, c.GetCustoms(id)))
    case MoveSecurity(id, next, s, customs) =>
      (c, if GateOpen(customs, c.GetSecurity(id)) then MoveWrite(next, s) else Done(Failed(State)))
    case MoveWrite(next, s) =>
      var v := s.(status := next, updatedAt := now);
      var (c', err) := c.UpdateShipment(v, s.version);
      (c', Done(if err == None then ShipmentReply(v) else Failed(err.value)))
    case LegWrite(l) =>
      var (c', err) := c.CreateLeg(l);
      (c', Done(if err == None then LegReply(l) else Failed(err.value)))
    case OpenRead(tenant, id) =>
      (c, match c.GetLeg(tenant, id)
          case Err(e) => Done(Failed(e))
          case Ok(leg) => OpenWrite(tenant, id, leg))
    case OpenWrite(tenant, id, leg) =>
      var (c', err) := c.UpdateLegStatus(tenant, id, LegOpen, leg.version);
      (c', Done(if err == None then LegReply(leg.(status := LegOpen, version := leg.version + 1))
                else Failed(err.value)))
    case CustomsReadShipment(tenant, v) =>
      (c, match c.GetShipment(tenant, v.shipmentId)
          case Err(e) => Done(Failed(e))
          case Ok(_) => CustomsRead(v))
    case CustomsRead(v) =>
      var prior := c.GetCustoms(v.shipmentId);
      (c, if prior.Ok? && !CustomsCanTransition(prior.value.status, v.status)
          then Done(Failed(State))
          else CustomsWrite(v))
    case CustomsWrite(v) =>
      var w := v.(updatedAt := now);
      (c.PutCustoms(w), Done(CustomsReply(w)))
    case SecurityReadShipment(tenant, officer, v) =>
      (c, match c.GetShipment(tenant, v.shipmentId)
          case Err(e) => Done(Failed(e))
          case Ok(_) => SecurityWrite(officer, v))
    case SecurityWrite(officer, v) =>
      var w := Signed(officer, v, now);
      (c.PutSecurity(w), Done(SecurityReply(w)))
    case Done(_) => (c, call)
  }

  /** How many store calls a program can still make. */
  function Remaining(call: Call): nat {
    match call
    case MoveRead(_, _, _) => 4
    case BookReadShipment(_, _, _) => 3
    case MoveCustoms(_, _, _) => 3
    case CustomsReadShipment(_, _) => 3
    case CreateFind(_) => 2
    case BookReadLeg(_, _, _, _) => 2
    case MoveSecurity(_, _, _, _) => 2
    case OpenRead(_, _) => 2
    case CustomsRead(_) => 2
    case SecurityReadShipment(_, _, _) => 2
    case CreateWrite(_) => 1
    case BookWrite(_, _, _, _, _) => 1
    case MoveWrite(_, _) => 1
    case LegWrite(_) => 1
    case OpenWrite(_, _, _) => 1
    case CustomsWrite(_) => 1
    case SecurityWrite(_, _) => 1
    case Done(_) => 0
  }

  /** The rest of a call executed with nothing in between. */
  function Solo(c: Cargo, call: Call, now: int): (Cargo, Reply)
    decreases Remaining(call)
  {
    if call.Done? then (c, call.reply)
    else
      var (c', call') := Advance(c, call, now);
      Solo(c', call', now)
  }

  lemma FinishesAlone(c: Cargo, call: Call, now: int)
    requires !call.Done? && Advance(c, call, now).1.Done?
    ensures Solo(c, call, now) == (Advance(c, call, now).0, Advance(c, call, now).1.reply)
  {
    var r := Advance(c, call, now);
    assert Solo(r.0, r.1, now) == (r.0, r.1.reply);
  }

  /** A gated transition executed alone commits exactly when the gate is open. */
  lemma GatedAlone(c: Cargo, p: Call, s: Shipment, now: int)
    requires p.MoveRead? && c.GetShipment(p.tenant, p.id) == Ok(s)
             && CanTransition(s.status, p.next) && Gated(s, p.next)
    ensures GateOpen(c.GetCustoms(p.id), c.GetSecurity(p.id)) ==> Solo(c, p, now) == Solo(c, MoveWrite(p.next, s), now)
    ensures !GateOpen(c.GetCustoms(p.id), c.GetSecurity(p.id)) ==> Solo(c, p, now) == (c, Failed(State))
  {
    var p1 := MoveCustoms(p.id, p.next, s);
    var p2 := MoveSecurity(p.id, p.next, s, c.GetCustoms(p.id));
    assert Advance(c, p, now) == (c, p1) && Advance(c, p1, now) == (c, p2);
    assert Solo(c, p, now) == Solo(c, p1, now) == Solo(c, p2, now);
    if !GateOpen(c.GetCustoms(p.id), c.GetSecurity(p.id)) {
      FinishesAlone(c, p2, now);
    }
  }

  /** Which parts of the store a step of a call can touch. */
  lemma CallFrame(c: Cargo, call: Call, now: int)
    ensures var d := Advance(c, call, now).0;
            && (!call.CreateWrite? && !call.BookWrite? && !call.MoveWrite? ==> d.shipments == c.shipments)
            && (!call.BookWrite? && !call.LegWrite? && !call.OpenWrite? ==> d.legs == c.legs)
            && (!call.CreateWrite? ==> d.idem == c.idem)
            && (!call.CustomsWrite? ==> d.customs == c.customs)
            && (!call.SecurityWrite? ==> d.security == c.security)
  {
  }

  lemma WritesEndTheCall(c: Cargo, call: Call, now: int)
    requires Remaining(call) <= 1
    ensures Advance(c, call, now).1.Done?
  {
  }

  /** A booking either fails and changes nothing, or it changes one shipment and its leg. */
  lemma BookEffect(c: Cargo, tenant: string, id: string, legId: string, sv: int, lv: int, at: int)
    ensures var (d, r) := c.BookShipment(tenant, id, legId, sv, lv, at);
            if r.Err? then d == c
            else
              && id in c.shipments && legId in c.legs
              && CanTransition(c.shipments[id].status, Booked)
              && ValidateCapacity(c.legs[legId], c.shipments[id].weightKg) == None
              && d.shipments == c.shipments[id := r.value]
              && d.legs == c.legs[legId := c.Reserved(c.legs[legId], c.shipments[id].weightKg)]
              && d.idem == c.idem
              && r.value == c.shipments[id].(status := Booked, legId := Some(legId), updatedAt := at,
                                             version := c.shipments[id].version + 1)
  {
  }

  // ---------- interleavings ----------

  datatype System = System(cargo: Cargo, calls: map<nat, Call>)

  /** Two direct store calls are part of the environment: a capacity grant and a leg status change. */
  datatype Action =
    | Start(call: nat, req: Request, now: int)
    | Proceed(call: nat, now: int)
    | Grant(tenant: string, leg: string, weight: int64, version: int)
    | SetLegStatus(tenant: string, leg: string, status: LegStatus, version: int)

  function Step(sys: System, a: Action): System {
    match a
    case Start(n, req, now) =>
      if n in sys.calls then sys else sys.(calls := sys.calls[n := Begin(req, now)])
    case Proceed(n, now) =>
      if n !in sys.calls then sys
      else
        var (cargo, call) := Advance(sys.cargo, sys.calls[n], now);
        System(cargo, sys.calls[n := call])
    case Grant(tenant, leg, weight, version) =>
      sys.(cargo := sys.cargo.ReserveCapacity(tenant, leg, weight, version).0)
    case SetLegStatus(tenant, leg, status, version) =>
      sys.(cargo := sys.cargo.UpdateLegStatus(tenant, leg, status, version).0)
  }

  /** All the states of a run, one more than its actions. */
  ghost predicate IsRun(tr: seq<System>, acts: seq<Action>) {
    && |tr| == |acts| + 1
    && forall i :: 0 <= i < |acts| ==> tr[i + 1] == Step(tr[i], acts[i])
  }

  /** A run starts with no call in flight, over records filed under their own ids. */
  ghost predicate Initial(sys: System) {
    && sys.calls == map[]
    && (forall id :: id in sys.cargo.shipments ==> sys.cargo.shipments[id].id == id)
    && (forall id :: id in sys.cargo.legs ==> sys.cargo.legs[id].id == id)
  }

  /** Nothing happens but call n. */
  ghost predicate Alone(acts: seq<Action>, n: nat) {
    forall i :: 0 <= i < |acts| ==> (acts[i].Start? || acts[i].Proceed?) && acts[i].call == n
  }

  /** The step that brings call n to where it stands after it. */
  ghost predicate MovesTo(sys: System, a: Action, n: nat, call: Call) {
    || (a.Start? && a.call == n && n !in sys.calls && call == Begin(a.req, a.now))
    || (a.Proceed? && a.call == n && n in sys.calls && call == Advance(sys.cargo, sys.calls[n], a.now).1)
  }

  lemma CallStep(sys: System, a: Action, n: nat)
    requires n in Step(sys, a).calls
    ensures var call := Step(sys, a).calls[n]; MovesTo(sys, a, n, call) || (n in sys.calls && call == sys.calls[n])
  {
  }

  /** Where a call stands, its own last step brought it. */
  lemma {:induction false} LastStep(tr: seq<System>, acts: seq<Action>, n: nat, k: nat) returns (i: nat)
    requires IsRun(tr, acts) && n !in tr[0].calls && k < |tr| && n in tr[k].calls
    ensures i < k && MovesTo(tr[i], acts[i], n, tr[k].calls[n])
  {
    i := k - 1;
    CallStep(tr[i], acts[i], n);
    if !MovesTo(tr[i], acts[i], n, tr[k].calls[n]) {
      i := LastStep(tr, acts, n, k - 1);
    }
  }

  lemma RunsJoin(tr1: seq<System>, acts1: seq<Action>, tr2: seq<System>, acts2: seq<Action>)
    requires IsRun(tr1, acts1) && IsRun(tr2, acts2) && tr1[|acts1|] == tr2[0]
    ensures IsRun(tr1 + tr2[1..], acts1 + acts2)
  {
    var tr, acts, n := tr1 + tr2[1..], acts1 + acts2, |acts1|;
    forall i | 0 <= i < |acts| ensures tr[i + 1] == Step(tr[i], acts[i]) {
      if i < n {
        assert tr[i] == tr1[i] && tr[i + 1] == tr1[i + 1] && acts[i] == acts1[i];
      } else {
        assert tr[i] == tr2[i - n] && tr[i + 1] == tr2[i - n + 1] && acts[i] == acts2[i - n];
      }
    }
  }
}
