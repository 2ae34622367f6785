/**
 * Check-then-write is atomic in effect: a version number pins the whole record, so a write that finds the version it
 * read also finds the record it checked.
 */
module Atomicity {
  import opened Domain
  import opened Int64
  import opened JoinedKey
  import opened CargoStore
  import opened Handoff

  // ---------- how records may change ----------

  /** One legal move: the version goes up by one, the status along an edge, and only a booking sets the leg. */
  ghost predicate Moves(a: Shipment, b: Shipment) {
    && b == a.(status := b.status, legId := b.legId, updatedAt := b.updatedAt, version := a.version + 1)
    && CanTransition(a.status, b.status)
    && (b.legId != a.legId ==> b.status == Booked && b.legId != None)
  }

  ghost predicate Born(s: Shipment) {
    s.status == Draft && s.version == 1 && ValidateShipment(s) == None
  }

  /** A leg keeps its identity, route and capacity; every change bumps its version. */
  ghost predicate LegMoves(a: FlightLeg, b: FlightLeg) {
    b == a.(status := b.status, reservedKg := b.reservedKg, version := a.version + 1)
  }

  ghost predicate Evolves(c: Cargo, d: Cargo) {
    && (forall id :: id in c.shipments ==>
          id in d.shipments && (d.shipments[id] == c.shipments[id] || Moves(c.shipments[id], d.shipments[id])))
    && (forall id :: id in d.shipments && id !in c.shipments ==> Born(d.shipments[id]))
    && (forall id :: id in c.legs ==>
          id in d.legs && (d.legs[id] == c.legs[id] || LegMoves(c.legs[id], d.legs[id])))
  }

  // ---------- what a call in flight knows ----------

  ghost predicate SeenShipment(c: Cargo, id: string, s: Shipment) {
    && s.id == id && id in c.shipments && s.version <= c.shipments[id].version
    && (s.version == c.shipments[id].version ==> s == c.shipments[id])
  }

  ghost predicate SeenLeg(c: Cargo, id: string, l: FlightLeg) {
    && l.id == id && id in c.legs && l.version <= c.legs[id].version
    && (l.version == c.legs[id].version ==> l == c.legs[id])
  }

  ghost predicate CallOk(c: Cargo, call: Call) {
    match call
    case CreateFind(s) => Born(s) && s.idempotencyKey != ""
    case CreateWrite(s) => Born(s)
    case BookReadLeg(tenant, id, legId, s) => SeenShipment(c, id, s) && s.tenantId == tenant
    case BookWrite(tenant, id, legId, s, leg) =>
      && SeenShipment(c, id, s) && s.tenantId == tenant && CanTransition(s.status, Booked)
      && SeenLeg(c, legId, leg) && leg.tenantId == tenant && leg.status == LegOpen
      && s.origin == leg.origin && s.destination == leg.destination
    case MoveCustoms(id, next, s) => SeenShipment(c, id, s) && CanTransition(s.status, next) && Gated(s, next)
    case MoveSecurity(id, next, s, _) => SeenShipment(c, id, s) && CanTransition(s.status, next) && Gated(s, next)
    case MoveWrite(next, s) => SeenShipment(c, s.id, s) && CanTransition(s.status, next)
    case OpenWrite(tenant, id, leg) => SeenLeg(c, id, leg) && leg.tenantId == tenant
    case CustomsRead(v) => v.shipmentId in c.shipments
    case CustomsWrite(v) => v.shipmentId in c.shipments
    case SecurityWrite(_, v) => v.shipmentId in c.shipments
    case _ => true
  }

  ghost predicate Keyed(c: Cargo) {
    && (forall id :: id in c.shipments ==> c.shipments[id].id == id)
    && (forall id :: id in c.legs ==> c.legs[id].id == id)
  }

  ghost predicate Inv(sys: System) {
    && Keyed(sys.cargo)
    && forall n :: n in sys.calls ==> CallOk(sys.cargo, sys.calls[n])
  }

  lemma SeenStable(c: Cargo, d: Cargo, call: Call)
    requires Evolves(c, d) && CallOk(c, call)
    ensures CallOk(d, call)
  {
  }

  lemma CreateEvolves(c: Cargo, s: Shipment)
    requires Keyed(c) && Born(s)
    ensures var d := c.CreateShipment(s).0; Evolves(c, d) && Keyed(d)
  {
  }

  lemma CreateLegEvolves(c: Cargo, l: FlightLeg)
    requires Keyed(c)
    ensures var d := c.CreateLeg(l).0; Evolves(c, d) && Keyed(d)
  {
  }

  lemma UpdateEvolves(c: Cargo, next: ShipmentStatus, s: Shipment, now: int)
    requires Keyed(c) && SeenShipment(c, s.id, s) && CanTransition(s.status, next)
    ensures var d := c.UpdateShipment(s.(status := next, updatedAt := now), s.version).0; Evolves(c, d) && Keyed(d)
  {
  }

  lemma BookEvolves(c: Cargo, tenant: string, id: string, legId: string, sv: int, lv: int, at: int)
    requires Keyed(c)
    ensures var d := c.BookShipment(tenant, id, legId, sv, lv, at).0; Evolves(c, d) && Keyed(d)
  {
    var d := c.BookShipment(tenant, id, legId, sv, lv, at).0;
    if d != c {
      assert Moves(c.shipments[id], d.shipments[id]) && LegMoves(c.legs[legId], d.legs[legId]);
    }
  }

  lemma ReserveEvolves(c: Cargo, tenant: string, id: string, weight: int64, version: int)
    requires Keyed(c)
    ensures var d := c.ReserveCapacity(tenant, id, weight, version).0; Evolves(c, d) && Keyed(d)
  {
    var d := c.ReserveCapacity(tenant, id, weight, version).0;
    if d != c {
      assert LegMoves(c.legs[id], d.legs[id]);
    }
  }

  lemma LegStatusEvolves(c: Cargo, tenant: string, id: string, status: LegStatus, version: int)
    requires Keyed(c)
    ensures var d := c.UpdateLegStatus(tenant, id, status, version).0; Evolves(c, d) && Keyed(d)
  {
    var d := c.UpdateLegStatus(tenant, id, status, version).0;
    if d != c {
      assert LegMoves(c.legs[id], d.legs[id]);
    }
  }

  lemma AdvanceEvolves(c: Cargo, call: Call, now: int)
    requires Keyed(c) && CallOk(c, call)
    ensures var d := Advance(c, call, now).0; Evolves(c, d) && Keyed(d)
  {
    match call
    case CreateWrite(s) => CreateEvolves(c, s);
    case BookWrite(tenant, id, legId, s, leg) => BookEvolves(c, tenant, id, legId, s.version, leg.version, now);
    case MoveWrite(next, s) => UpdateEvolves(c, next, s, now);
    case LegWrite(l) => CreateLegEvolves(c, l);
    case OpenWrite(tenant, id, leg) => LegStatusEvolves(c, tenant, id, LegOpen, leg.version);
    case CustomsWrite(v) =>
    case SecurityWrite(officer, v) =>
    case Done(_) =>
    case _ => ReadsKeepCargo(c, call, now);
  }

  lemma ReadOk(c: Cargo, call: Call, now: int)
    requires Keyed(c) && CallOk(c, call) && Remaining(call) >= 2
    ensures CallOk(c, Advance(c, call, now).1)
  {
  }

  lemma AdvanceOk(c: Cargo, call: Call, now: int)
    requires Keyed(c) && CallOk(c, call)
    ensures var r := Advance(c, call, now); CallOk(r.0, r.1)
  {
    if Remaining(call) >= 2 {
      ReadOk(c, call, now);
      ReadsKeepCargo(c, call, now);
    } else {
      WritesEndTheCall(c, call, now);
    }
  }

  lemma ReadsKeepCargo(c: Cargo, call: Call, now: int)
    requires Remaining(call) >= 2
    ensures Advance(c, call, now).0 == c
  {
  }

  lemma BeginOk(c: Cargo, req: Request, now: int)
    ensures CallOk(c, Begin(req, now))
  {
    match req
    case CreateShipmentCall(u, s, idem, newId) => assert NewShipment(u, s, idem, newId, now).idempotencyKey == idem;
    case _ =>
  }

  lemma OthersStable(sys: System, d: Cargo, n: nat)
    requires Inv(sys) && Evolves(sys.cargo, d)
    ensures forall m :: m in sys.calls && m != n ==> CallOk(d, sys.calls[m])
  {
    forall m | m in sys.calls && m != n ensures CallOk(d, sys.calls[m]) {
      SeenStable(sys.cargo, d, sys.calls[m]);
    }
  }

  lemma ProceedKeepsInv(sys: System, n: nat, now: int)
    requires Inv(sys) && n in sys.calls
    ensures var sys' := Step(sys, Proceed(n, now)); Inv(sys') && Evolves(sys.cargo, sys'.cargo)
  {
    var r := Advance(sys.cargo, sys.calls[n], now);
    AdvanceEvolves(sys.cargo, sys.calls[n], now);
    AdvanceOk(sys.cargo, sys.calls[n], now);
    OthersStable(sys, r.0, n);
  }

  lemma LegOpsKeepInv(sys: System, a: Action)
    requires Inv(sys) && (a.Grant? || a.SetLegStatus?)
    ensures Inv(Step(sys, a)) && Evolves(sys.cargo, Step(sys, a).cargo)
  {
    var d := Step(sys, a).cargo;
    if a.Grant? {
      ReserveEvolves(sys.cargo, a.tenant, a.leg, a.weight, a.version);
    } else {
      LegStatusEvolves(sys.cargo, a.tenant, a.leg, a.status, a.version);
    }
    forall m | m in sys.calls ensures CallOk(d, sys.calls[m]) {
      SeenStable(sys.cargo, d, sys.calls[m]);
    }
  }

  lemma StepKeepsInv(sys: System, a: Action)
    requires Inv(sys)
    ensures Inv(Step(sys, a)) && Evolves(sys.cargo, Step(sys, a).cargo)
  {
    match a
    case Start(n, req, now) => BeginOk(sys.cargo, req, now);
    case Proceed(n, now) => if n in sys.calls { ProceedKeepsInv(sys, n, now); }
    case _ => LegOpsKeepInv(sys, a);
  }

  lemma {:induction false} RunKeepsInv(tr: seq<System>, acts: seq<Action>, k: nat)
    requires IsRun(tr, acts) && Initial(tr[0]) && k < |tr|
    ensures Inv(tr[k])
    ensures k < |acts| ==> Evolves(tr[k].cargo, tr[k + 1].cargo)
  {
    if k > 0 {
      RunKeepsInv(tr, acts, k - 1);
      StepKeepsInv(tr[k - 1], acts[k - 1]);
    }
    if k < |acts| {
      StepKeepsInv(tr[k], acts[k]);
    }
  }

  // ---------- versions pin records ----------

  /** What a step may do to one record: leave it alone, or put one with the next version in its place. */
  ghost predicate Ticks<T(!new)>(before: map<string, T>, after: map<string, T>, version: T -> int, id: string) {
    id in before ==> id in after && (after[id] == before[id] || version(after[id]) == version(before[id]) + 1)
  }

  ghost predicate Constant<T(!new)>(hist: seq<map<string, T>>, id: string, i: nat, j: nat)
    requires i <= j < |hist|
  {
    forall m :: i <= m <= j ==> id in hist[m] && id in hist[i] && hist[m][id] == hist[i][id]
  }

  ghost predicate Pinned<T(!new)>(hist: seq<map<string, T>>, version: T -> int, id: string, i: nat, j: nat)
    requires i <= j < |hist|
  {
    id in hist[i] ==>
      && id in hist[j] && version(hist[i][id]) <= version(hist[j][id])
      && (version(hist[i][id]) == version(hist[j][id]) ==> Constant(hist, id, i, j))
  }

  lemma {:induction false} TicksPin<T(!new)>(hist: seq<map<string, T>>, version: T -> int, id: string, i: nat, j: nat)
    requires i <= j < |hist|
    requires forall m :: 0 <= m < |hist| - 1 ==> Ticks(hist[m], hist[m + 1], version, id)
    ensures Pinned(hist, version, id, i, j)
    decreases j
  {
    if i < j {
      TicksPin(hist, version, id, i, j - 1);
      assert Ticks(hist[j - 1], hist[j - 1 + 1], version, id);
    }
  }

  ghost function Shipments(tr: seq<System>): seq<map<string, Shipment>> {
    seq(|tr|, m requires 0 <= m < |tr| => tr[m].cargo.shipments)
  }

  ghost function Legs(tr: seq<System>): seq<map<string, FlightLeg>> {
    seq(|tr|, m requires 0 <= m < |tr| => tr[m].cargo.legs)
  }

  function ShipmentVersion(): Shipment -> int {
    (s: Shipment) => s.version
  }

  function LegVersion(): FlightLeg -> int {
    (l: FlightLeg) => l.version
  }

  lemma EvolvesTicks(c: Cargo, d: Cargo, id: string)
    requires Evolves(c, d)
    ensures Ticks(c.shipments, d.shipments, ShipmentVersion(), id) && Ticks(c.legs, d.legs, LegVersion(), id)
  {
  }

  /**
   * Along every run, the versions of shipments and of legs never go back, and where one stands still so does its
   * record.
   */
  lemma RunPins(tr: seq<System>, acts: seq<Action>, id: string, i: nat, j: nat)
    requires IsRun(tr, acts) && Initial(tr[0]) && i <= j < |tr|
    ensures Pinned(Shipments(tr), ShipmentVersion(), id, i, j) && Pinned(Legs(tr), LegVersion(), id, i, j)
  {
    forall m | 0 <= m < |acts|
      ensures Ticks(Shipments(tr)[m], Shipments(tr)[m + 1], ShipmentVersion(), id)
      ensures Ticks(Legs(tr)[m], Legs(tr)[m + 1], LegVersion(), id)
    {
      RunKeepsInv(tr, acts, m);
      EvolvesTicks(tr[m].cargo, tr[m + 1].cargo, id);
    }
    TicksPin(Shipments(tr), ShipmentVersion(), id, i, j);
    TicksPin(Legs(tr), LegVersion(), id, i, j);
  }

  // ---------- main results ----------

  /** Versions never go back, and a shipment whose version stands still stands still entirely. */
  lemma VersionPinsRecord(tr: seq<System>, acts: seq<Action>, id: string, i: nat, j: nat)
    requires IsRun(tr, acts) && Initial(tr[0]) && i <= j < |tr|
    requires id in tr[i].cargo.shipments
    ensures id in tr[j].cargo.shipments
    ensures tr[i].cargo.shipments[id].version <= tr[j].cargo.shipments[id].version
    ensures tr[i].cargo.shipments[id].version == tr[j].cargo.shipments[id].version ==> Constant(Shipments(tr), id, i, j)
  {
    RunPins(tr, acts, id, i, j);
    assert Shipments(tr)[i] == tr[i].cargo.shipments && Shipments(tr)[j] == tr[j].cargo.shipments;
  }

  /** No ABA: any two moments at which a shipment carries the same version show the same record. */
  lemma NoAba(tr: seq<System>, acts: seq<Action>, id: string, i: nat, j: nat)
    requires IsRun(tr, acts) && Initial(tr[0]) && i < |tr| && j < |tr|
    requires id in tr[i].cargo.shipments && id in tr[j].cargo.shipments
    requires tr[i].cargo.shipments[id].version == tr[j].cargo.shipments[id].version
    ensures tr[i].cargo.shipments[id] == tr[j].cargo.shipments[id]
  {
    var a, b := if i <= j then i else j, if i <= j then j else i;
    VersionPinsRecord(tr, acts, id, a, b);
    assert Shipments(tr)[a] == tr[a].cargo.shipments && Shipments(tr)[b] == tr[b].cargo.shipments;
  }

  /** The same of legs. */
  lemma NoLegAba(tr: seq<System>, acts: seq<Action>, id: string, i: nat, j: nat)
    requires IsRun(tr, acts) && Initial(tr[0]) && i < |tr| && j < |tr|
    requires id in tr[i].cargo.legs && id in tr[j].cargo.legs
    requires tr[i].cargo.legs[id].version == tr[j].cargo.legs[id].version
    ensures tr[i].cargo.legs[id] == tr[j].cargo.legs[id]
  {
    var a, b := if i <= j then i else j, if i <= j then j else i;
    RunPins(tr, acts, id, a, b);
    assert Legs(tr)[a] == tr[a].cargo.legs && Legs(tr)[b] == tr[b].cargo.legs;
  }

  /** Every change any step makes to a stored shipment is one legal move from the record stored at that moment. */
  lemma CommittedChangeIsLegal(tr: seq<System>, acts: seq<Action>, id: string, k: nat)
    requires IsRun(tr, acts) && Initial(tr[0]) && k < |acts|
    requires id in tr[k].cargo.shipments
    ensures id in tr[k + 1].cargo.shipments
    ensures tr[k + 1].cargo.shipments[id] != tr[k].cargo.shipments[id] ==>
              Moves(tr[k].cargo.shipments[id], tr[k + 1].cargo.shipments[id])
  {
    RunKeepsInv(tr, acts, k);
  }

  lemma BookingAlone(c: Cargo, b: Call, now: int)
    requires b.BookWrite? && CallOk(c, b) && Advance(c, b, now).1.reply.ShipmentReply?
    ensures Solo(c, BookReadShipment(b.tenant, b.id, b.legId), now) == Solo(c, b, now)
  {
    BookEffect(c, b.tenant, b.id, b.legId, b.s.version, b.leg.version, now);
    assert c.shipments[b.id] == b.s && c.legs[b.legId] == b.leg;
    var b0 := BookReadShipment(b.tenant, b.id, b.legId);
    var b1 := BookReadLeg(b.tenant, b.id, b.legId, b.s);
    assert Advance(c, b0, now) == (c, b1) && Advance(c, b1, now) == (c, b);
    assert Solo(c, b0, now) == Solo(c, b1, now) == Solo(c, b, now);
  }

  /** A booking that succeeds has the effect and the reply of the whole call executed at its last step alone. */
  lemma BookingIsAtomic(tr: seq<System>, acts: seq<Action>, k: nat)
    requires IsRun(tr, acts) && Initial(tr[0]) && k < |acts|
    requires acts[k].Proceed? && acts[k].call in tr[k].calls && tr[k].calls[acts[k].call].BookWrite?
    requires tr[k + 1].calls[acts[k].call].reply.ShipmentReply?
    ensures var b := tr[k].calls[acts[k].call];
            Solo(tr[k].cargo, BookReadShipment(b.tenant, b.id, b.legId), acts[k].now)
              == (tr[k + 1].cargo, tr[k + 1].calls[acts[k].call].reply)
  {
    RunKeepsInv(tr, acts, k);
    var c, now, b := tr[k].cargo, acts[k].now, tr[k].calls[acts[k].call];
    assert tr[k + 1] == Step(tr[k], acts[k]);
    BookingAlone(c, b, now);
    FinishesAlone(c, b, now);
  }

  lemma TransitionAlone(c: Cargo, w: Call, now: int)
    requires w.MoveWrite? && CallOk(c, w) && Advance(c, w, now).1.reply.ShipmentReply?
    ensures c.shipments[w.s.id] == w.s
    ensures Solo(c, MoveRead(w.s.tenantId, w.s.id, w.next), now) == Solo(c, w, now)
       <==> (Gated(w.s, w.next) ==> GateOpen(c.GetCustoms(w.s.id), c.GetSecurity(w.s.id)))
  {
    assert c.shipments[w.s.id] == w.s;
    var m := MoveRead(w.s.tenantId, w.s.id, w.next);
    FinishesAlone(c, w, now);
    if Gated(w.s, w.next) {
      GatedAlone(c, m, w.s, now);
    } else {
      assert Advance(c, m, now) == (c, w);
    }
  }

  /**
   * A transition that commits did find the record it checked, and it has the effect of the whole call executed at its
   * last step alone exactly when the gate, if there is one, is still open at that step. Nothing ties the two
   * compliance reads to the write, so the gate may have closed in between; ComplianceGate says what is left.
   */
  lemma TransitionIsAtomicExactly(tr: seq<System>, acts: seq<Action>, k: nat)
    requires IsRun(tr, acts) && Initial(tr[0]) && k < |acts|
    requires acts[k].Proceed? && acts[k].call in tr[k].calls && tr[k].calls[acts[k].call].MoveWrite?
    requires tr[k + 1].calls[acts[k].call].reply.ShipmentReply?
    ensures var w := tr[k].calls[acts[k].call];
            && w.s.id in tr[k].cargo.shipments && tr[k].cargo.shipments[w.s.id] == w.s
            && (Solo(tr[k].cargo, MoveRead(w.s.tenantId, w.s.id, w.next), acts[k].now)
                  == (tr[k + 1].cargo, tr[k + 1].calls[acts[k].call].reply)
                <==> (Gated(w.s, w.next) ==>
                        GateOpen(tr[k].cargo.GetCustoms(w.s.id), tr[k].cargo.GetSecurity(w.s.id))))
  {
    RunKeepsInv(tr, acts, k);
    var c, now, w := tr[k].cargo, acts[k].now, tr[k].calls[acts[k].call];
    assert tr[k + 1] == Step(tr[k], acts[k]);
    TransitionAlone(c, w, now);
    FinishesAlone(c, w, now);
  }

  // ---------- the other check-then-write calls ----------

  lemma OpeningAlone(c: Cargo, w: Call, now: int)
    requires w.OpenWrite? && CallOk(c, w) && Advance(c, w, now).1.reply.LegReply?
    ensures c.legs[w.id] == w.leg && Solo(c, OpenRead(w.tenant, w.id), now) == Solo(c, w, now)
    ensures var d := Advance(c, w, now).0; w.id in d.legs && Advance(c, w, now).1.reply == LegReply(d.legs[w.id])
  {
    assert c.legs[w.id] == w.leg;
    assert Advance(c, OpenRead(w.tenant, w.id), now) == (c, w);
  }

  /**
   * An opening that succeeds has the effect of the whole call executed at its last step, and answers with the
   * stored leg.
   */
  lemma OpeningIsAtomic(tr: seq<System>, acts: seq<Action>, k: nat)
    requires IsRun(tr, acts) && Initial(tr[0]) && k < |acts|
    requires acts[k].Proceed? && acts[k].call in tr[k].calls && tr[k].calls[acts[k].call].OpenWrite?
    requires tr[k + 1].calls[acts[k].call].reply.LegReply?
    ensures var w, reply := tr[k].calls[acts[k].call], tr[k + 1].calls[acts[k].call].reply;
            && Solo(tr[k].cargo, OpenRead(w.tenant, w.id), acts[k].now) == (tr[k + 1].cargo, reply)
            && w.id in tr[k + 1].cargo.legs && reply == LegReply(tr[k + 1].cargo.legs[w.id])
  {
    RunKeepsInv(tr, acts, k);
    var c, now, w := tr[k].cargo, acts[k].now, tr[k].calls[acts[k].call];
    assert tr[k + 1] == Step(tr[k], acts[k]);
    OpeningAlone(c, w, now);
    FinishesAlone(c, w, now);
  }

  /** The status edge that a filing of v takes, if a case is on file for the shipment, is legal. */
  predicate CustomsEdge(c: Cargo, v: CustomsCase) {
    var prior := c.GetCustoms(v.shipmentId);
    prior.Ok? ==> CustomsCanTransition(prior.value.status, v.status)
  }

  lemma FilingAlone(c: Cargo, w: Call, now: int)
    requires w.CustomsWrite? && CallOk(c, w)
    ensures Solo(c, CustomsReadShipment(c.shipments[w.c.shipmentId].tenantId, w.c), now) == Solo(c, w, now)
       <==> CustomsEdge(c, w.c)
  {
    var p, q := CustomsReadShipment(c.shipments[w.c.shipmentId].tenantId, w.c), CustomsRead(w.c);
    assert Advance(c, p, now) == (c, q);
    assert Solo(c, p, now) == Solo(c, q, now);
    FinishesAlone(c, w, now);
    if CustomsEdge(c, w.c) {
      assert Advance(c, q, now) == (c, w);
    } else {
      FinishesAlone(c, q, now);
    }
  }

  /**
   * Filing a customs case has no version to check: it has the effect of the whole call executed at its last step
   * exactly when the status edge it takes is still legal there.
   */
  lemma FilingIsAtomicExactly(tr: seq<System>, acts: seq<Action>, k: nat)
    requires IsRun(tr, acts) && Initial(tr[0]) && k < |acts|
    requires acts[k].Proceed? && acts[k].call in tr[k].calls && tr[k].calls[acts[k].call].CustomsWrite?
    ensures var v := tr[k].calls[acts[k].call].c;
            && v.shipmentId in tr[k].cargo.shipments
            && (Solo(tr[k].cargo, CustomsReadShipment(tr[k].cargo.shipments[v.shipmentId].tenantId, v), acts[k].now)
                  == (tr[k + 1].cargo, tr[k + 1].calls[acts[k].call].reply)
                <==> CustomsEdge(tr[k].cargo, v))
  {
    RunKeepsInv(tr, acts, k);
    var c, now, w := tr[k].cargo, acts[k].now, tr[k].calls[acts[k].call];
    assert tr[k + 1] == Step(tr[k], acts[k]);
    FilingAlone(c, w, now);
    FinishesAlone(c, w, now);
  }

  /** Filing a security check always has the effect of the whole call executed at its last step. */
  lemma SecurityFilingIsAtomic(tr: seq<System>, acts: seq<Action>, k: nat)
    requires IsRun(tr, acts) && Initial(tr[0]) && k < |acts|
    requires acts[k].Proceed? && acts[k].call in tr[k].calls && tr[k].calls[acts[k].call].SecurityWrite?
    ensures var w := tr[k].calls[acts[k].call];
            && w.chk.shipmentId in tr[k].cargo.shipments
            && var tenant := tr[k].cargo.shipments[w.chk.shipmentId].tenantId;
               Solo(tr[k].cargo, SecurityReadShipment(tenant, w.officer, w.chk), acts[k].now)
                 == (tr[k + 1].cargo, tr[k + 1].calls[acts[k].call].reply)
  {
    RunKeepsInv(tr, acts, k);
    var c, now, w := tr[k].cargo, acts[k].now, tr[k].calls[acts[k].call];
    assert tr[k + 1] == Step(tr[k], acts[k]);
    var p := SecurityReadShipment(c.shipments[w.chk.shipmentId].tenantId, w.officer, w.chk);
    assert Advance(c, p, now) == (c, w);
    assert Solo(c, p, now) == Solo(c, w, now);
    FinishesAlone(c, w, now);
  }

  /** The key of s is not taken, or it is taken by this very record. */
  predicate KeyFree(c: Cargo, s: Shipment) {
    var key := JoinKey(s.tenantId, s.idempotencyKey);
    key in c.idem ==> c.idem[key] == s.id && s.id in c.shipments && c.shipments[s.id] == s
  }

  lemma CreationAlone(c: Cargo, s: Shipment, now: int)
    requires Born(s) && s.idempotencyKey != ""
    ensures Solo(c, CreateFind(s), now) == Solo(c, CreateWrite(s), now) <==> KeyFree(c, s)
  {
    FinishesAlone(c, CreateWrite(s), now);
    if JoinKey(s.tenantId, s.idempotencyKey) in c.idem {
      FinishesAlone(c, CreateFind(s), now);
    } else {
      assert Advance(c, CreateFind(s), now) == (c, CreateWrite(s));
    }
  }

  /**
   * A keyed creation has the effect and reply of the whole call executed at its write exactly when its key is
   * not taken by then, unless by this very record; one that lost that race is not answered with the winner's shipment.
   */
  lemma CreationIsAtomicExactly(tr: seq<System>, acts: seq<Action>, k: nat)
    requires IsRun(tr, acts) && Initial(tr[0]) && k < |acts|
    requires acts[k].Proceed? && acts[k].call in tr[k].calls && tr[k].calls[acts[k].call].CreateWrite?
    requires tr[k].calls[acts[k].call].s.idempotencyKey != ""
    ensures var s, reply := tr[k].calls[acts[k].call].s, tr[k + 1].calls[acts[k].call].reply;
            Solo(tr[k].cargo, CreateFind(s), acts[k].now) == (tr[k + 1].cargo, reply) <==> KeyFree(tr[k].cargo, s)
  {
    RunKeepsInv(tr, acts, k);
    var c, now, w := tr[k].cargo, acts[k].now, tr[k].calls[acts[k].call];
    assert tr[k + 1] == Step(tr[k], acts[k]);
    CreationAlone(c, w.s, now);
    FinishesAlone(c, w, now);
  }
}
