/** What the compliance gate guarantees over whole runs, although its two reads are not tied to the write. */
module Compliance {
  import opened Domain
  import opened CargoStore
  import opened Handoff
  import opened Atomicity

  ghost predicate StoredAt(sys: System, id: string, s: Shipment) {
    id in sys.cargo.shipments && sys.cargo.shipments[id] == s
  }

  ghost predicate ReleasedAt(sys: System, id: string) {
    sys.cargo.GetCustoms(id).Ok? && CustomsAllowsLoading(sys.cargo.GetCustoms(id).value)
  }

  ghost predicate PassedAt(sys: System, id: string) {
    sys.cargo.GetSecurity(id).Ok? && SecurityAllowsLoading(sys.cargo.GetSecurity(id).value)
  }

  // ---------- where a gated write has been ----------

  ghost predicate ReadsCustoms(sys: System, a: Action, n: nat, id: string) {
    a.Proceed? && a.call == n && n in sys.calls && sys.calls[n].MoveCustoms? && sys.calls[n].id == id
  }

  ghost predicate ReadsSecurity(sys: System, a: Action, n: nat, id: string) {
    a.Proceed? && a.call == n && n in sys.calls && sys.calls[n].MoveSecurity? && sys.calls[n].id == id
  }

  lemma BeginHasReadNothing(req: Request, now: int)
    ensures var b := Begin(req, now);
            && !b.MoveCustoms? && !b.MoveSecurity? && !b.MoveWrite? && !b.CustomsRead? && !b.CustomsWrite?
            && (b.CustomsReadShipment? ==>
                  req.PutCustomsCall? && req.u.role == Coordinator && b.tenant == req.u.tenantId)
  {
  }

  /** A gated write comes from a security read that found the gate open. */
  lemma BeforeWrite(c: Cargo, call: Call, now: int)
    requires CallOk(c, call)
    ensures var w := Advance(c, call, now).1;
            w.MoveWrite? && Gated(w.s, w.next) ==>
              && call.MoveSecurity? && call.id == w.s.id && call.s == w.s && call.next == w.next
              && GateOpen(call.customs, c.GetSecurity(w.s.id))
  {
  }

  /** That read comes from a customs read, and this from a read of the shipment. */
  lemma BeforeReads(c: Cargo, call: Call, now: int)
    ensures var w := Advance(c, call, now).1;
            && (w.MoveSecurity? ==> call == MoveCustoms(w.id, w.next, w.s) && w.customs == c.GetCustoms(w.id))
            && (w.MoveCustoms? ==> w.id in c.shipments && c.shipments[w.id] == w.s)
            && (w.CustomsWrite? ==> call == CustomsRead(w.c) && CustomsEdge(c, w.c))
            && (w.CustomsRead? ==>
                  call.CustomsReadShipment? && call.c == w.c && c.GetShipment(call.tenant, w.c.shipmentId).Ok?)
            && (w.CustomsReadShipment? ==> call == w)
  {
  }

  /**
   * The moments at which a gated transition about to write read its shipment, the customs case and the security
   * check.
   */
  lemma GateReads(tr: seq<System>, acts: seq<Action>, n: nat, k: nat) returns (r: nat, i: nat, j: nat)
    requires IsRun(tr, acts) && Initial(tr[0]) && k < |tr| && n in tr[k].calls
    requires tr[k].calls[n].MoveWrite? && Gated(tr[k].calls[n].s, tr[k].calls[n].next)
    ensures r < i < j < k
    ensures var s := tr[k].calls[n].s;
            && StoredAt(tr[r], s.id, s)
            && ReadsCustoms(tr[i], acts[i], n, s.id) && ReleasedAt(tr[i], s.id)
            && ReadsSecurity(tr[j], acts[j], n, s.id) && PassedAt(tr[j], s.id)
  {
    var w := tr[k].calls[n];
    j := LastStep(tr, acts, n, k);
    RunKeepsInv(tr, acts, j);
    NotFromBegin(acts[j], w);
    BeforeWrite(tr[j].cargo, tr[j].calls[n], acts[j].now);
    var p := tr[j].calls[n];
    i := LastStep(tr, acts, n, j);
    NotFromBegin(acts[i], p);
    BeforeReads(tr[i].cargo, tr[i].calls[n], acts[i].now);
    var q := tr[i].calls[n];
    r := LastStep(tr, acts, n, i);
    NotFromBegin(acts[r], q);
    BeforeReads(tr[r].cargo, tr[r].calls[n], acts[r].now);
  }

  lemma NotFromBegin(a: Action, call: Call)
    requires call.MoveCustoms? || call.MoveSecurity? || call.MoveWrite? || call.CustomsRead? || call.CustomsWrite?
    ensures a.Start? ==> call != Begin(a.req, a.now)
  {
    if a.Start? { BeginHasReadNothing(a.req, a.now); }
  }

  /** Which store calls touch an existing shipment, and how. */
  lemma WhoTouches(c: Cargo, call: Call, now: int, id: string)
    requires Keyed(c) && CallOk(c, call) && id in c.shipments
    ensures var d := Advance(c, call, now).0;
            && id in d.shipments
            && (|| d.shipments[id] == c.shipments[id]
                || (call.BookWrite? && d.shipments[id].status == Booked)
                || (call.MoveWrite? && call.s.id == id && call.s == c.shipments[id]
                    && d.shipments[id] ==
                          call.s.(status := call.next, updatedAt := now, version := call.s.version + 1)))
  {
    CallFrame(c, call, now);
    if call.BookWrite? {
      BookEffect(c, call.tenant, call.id, call.legId, call.s.version, call.leg.version, now);
    }
  }

  /** Only the write of a transition can put a shipment into status loaded or departed. */
  lemma OnlyTransitionsLoad(sys: System, a: Action, id: string)
    requires Inv(sys) && id in sys.cargo.shipments
    requires var d := Step(sys, a).cargo;
             id in d.shipments && d.shipments[id].status != sys.cargo.shipments[id].status
             && (d.shipments[id].status == Loaded || d.shipments[id].status == Departed)
    ensures a.Proceed? && a.call in sys.calls && sys.calls[a.call].MoveWrite?
    ensures var w := sys.calls[a.call];
            && w.s.id == id && w.s == sys.cargo.shipments[id] && w.next == Step(sys, a).cargo.shipments[id].status
            && w.s.legId == Step(sys, a).cargo.shipments[id].legId
  {
    if a.Proceed? && a.call in sys.calls {
      WhoTouches(sys.cargo, sys.calls[a.call], a.now, id);
    }
  }

  /**
   * The gate over whole runs: whenever a shipment on a leg becomes loaded or departed, some earlier moment showed its
   * customs case released and some moment after that its security check passed, and from then until this change its
   * record stood still - so both were seen since its previous change, whatever else went on in between.
   */
  lemma ComplianceGate(tr: seq<System>, acts: seq<Action>, id: string, k: nat)
    requires IsRun(tr, acts) && Initial(tr[0]) && k < |acts|
    requires id in tr[k].cargo.shipments && id in tr[k + 1].cargo.shipments
    requires tr[k + 1].cargo.shipments[id].status != tr[k].cargo.shipments[id].status
    requires tr[k + 1].cargo.shipments[id].status == Loaded || tr[k + 1].cargo.shipments[id].status == Departed
    requires tr[k + 1].cargo.shipments[id].legId != None
    ensures exists i, j :: 0 <= i < j < k && ReleasedAt(tr[i], id) && PassedAt(tr[j], id)
                           && Constant(Shipments(tr), id, i, k)
  {
    RunKeepsInv(tr, acts, k);
    assert tr[k + 1] == Step(tr[k], acts[k]);
    OnlyTransitionsLoad(tr[k], acts[k], id);
    var r, i, j := GateReads(tr, acts, acts[k].call, k);
    StoodStill(tr, acts, id, r, i, k);
  }

  lemma StoodStill(tr: seq<System>, acts: seq<Action>, id: string, r: nat, i: nat, k: nat)
    requires IsRun(tr, acts) && Initial(tr[0]) && r <= i <= k < |tr|
    requires id in tr[k].cargo.shipments && StoredAt(tr[r], id, tr[k].cargo.shipments[id])
    ensures Constant(Shipments(tr), id, i, k)
  {
    VersionPinsRecord(tr, acts, id, r, k);
  }

  // ---------- exactly when the gate is still open at the write ----------

  /** The status that a step files in the customs case, or security check, looked up under the id. */
  function CustomsFiled(sys: System, a: Action, id: string): Option<CustomsStatus> {
    if a.Proceed? && a.call in sys.calls && sys.calls[a.call].CustomsWrite? && sys.calls[a.call].c.id == id
    then Some(sys.calls[a.call].c.status) else None
  }

  function SecurityFiled(sys: System, a: Action, id: string): Option<SecurityStatus> {
    if a.Proceed? && a.call in sys.calls && sys.calls[a.call].SecurityWrite? && sys.calls[a.call].chk.id == id
    then Some(sys.calls[a.call].chk.status) else None
  }

  /** What a lookup finds when this was the last status filed, if any, since it found the other. */
  predicate CustomsFollows(before: Result<CustomsCase>, last: Option<CustomsStatus>, after: Result<CustomsCase>) {
    match last
    case None => after == before
    case Some(status) => after.Ok? && after.value.status == status
  }

  predicate SecurityFollows(before: Result<SecurityCheck>, last: Option<SecurityStatus>, after: Result<SecurityCheck>) {
    match last
    case None => after == before
    case Some(status) => after.Ok? && after.value.status == status
  }

  lemma FilingStep(sys: System, a: Action, id: string)
    ensures var c, d := sys.cargo, Step(sys, a).cargo;
            && CustomsFollows(c.GetCustoms(id), CustomsFiled(sys, a, id), d.GetCustoms(id))
            && SecurityFollows(c.GetSecurity(id), SecurityFiled(sys, a, id), d.GetSecurity(id))
  {
    if a.Proceed? && a.call in sys.calls {
      CallFrame(sys.cargo, sys.calls[a.call], a.now);
    }
  }

  /** The last status filed under the id from moment i to moment k, if any. */
  function LastCustoms(tr: seq<System>, acts: seq<Action>, id: string, i: nat, k: nat): Option<CustomsStatus>
    requires i <= k <= |acts| < |tr|
  {
    if k == i then None
    else if CustomsFiled(tr[k - 1], acts[k - 1], id) != None then CustomsFiled(tr[k - 1], acts[k - 1], id)
    else LastCustoms(tr, acts, id, i, k - 1)
  }

  function LastSecurity(tr: seq<System>, acts: seq<Action>, id: string, i: nat, k: nat): Option<SecurityStatus>
    requires i <= k <= |acts| < |tr|
  {
    if k == i then None
    else if SecurityFiled(tr[k - 1], acts[k - 1], id) != None then SecurityFiled(tr[k - 1], acts[k - 1], id)
    else LastSecurity(tr, acts, id, i, k - 1)
  }

  lemma {:induction false} CustomsSince(tr: seq<System>, acts: seq<Action>, id: string, i: nat, k: nat)
    requires IsRun(tr, acts) && i <= k < |tr|
    ensures CustomsFollows(tr[i].cargo.GetCustoms(id), LastCustoms(tr, acts, id, i, k), tr[k].cargo.GetCustoms(id))
    decreases k
  {
    if i < k {
      CustomsSince(tr, acts, id, i, k - 1);
      FilingStep(tr[k - 1], acts[k - 1], id);
    }
  }

  lemma {:induction false} SecuritySince(tr: seq<System>, acts: seq<Action>, id: string, j: nat, k: nat)
    requires IsRun(tr, acts) && j <= k < |tr|
    ensures SecurityFollows(tr[j].cargo.GetSecurity(id), LastSecurity(tr, acts, id, j, k), tr[k].cargo.GetSecurity(id))
    decreases k
  {
    if j < k {
      SecuritySince(tr, acts, id, j, k - 1);
      FilingStep(tr[k - 1], acts[k - 1], id);
    }
  }

  /** A gate that was open at the reads is open now exactly when the filings since have left it so. */
  lemma GateFollows(c: Result<CustomsCase>, lastC: Option<CustomsStatus>, c': Result<CustomsCase>,
                    s: Result<SecurityCheck>, lastS: Option<SecurityStatus>, s': Result<SecurityCheck>)
    requires GateOpen(c, s) && CustomsFollows(c, lastC, c') && SecurityFollows(s, lastS, s')
    ensures GateOpen(c', s') <==> lastC in {None, Some(CustomsReleased)} && lastS in {None, Some(SecurityPassed)}
  {
  }

  /**
   * A gated transition that commits at k, having read customs at i and security at j, has the effect of the whole
   * call executed at its write exactly when the last customs status filed for the shipment since i, if any, is
   * released, and the last security status filed since j, if any, is passed.
   */
  lemma GatedTransitionIsAtomicExactly(tr: seq<System>, acts: seq<Action>, k: nat) returns (i: nat, j: nat)
    requires IsRun(tr, acts) && Initial(tr[0]) && k < |acts|
    requires acts[k].Proceed? && acts[k].call in tr[k].calls && tr[k].calls[acts[k].call].MoveWrite?
    requires Gated(tr[k].calls[acts[k].call].s, tr[k].calls[acts[k].call].next)
    requires tr[k + 1].calls[acts[k].call].reply.ShipmentReply?
    ensures i < j < k
    ensures var n, w := acts[k].call, tr[k].calls[acts[k].call];
            && ReadsCustoms(tr[i], acts[i], n, w.s.id) && ReadsSecurity(tr[j], acts[j], n, w.s.id)
            && (Solo(tr[k].cargo, MoveRead(w.s.tenantId, w.s.id, w.next), acts[k].now)
                  == (tr[k + 1].cargo, tr[k + 1].calls[n].reply)
                <==> && LastCustoms(tr, acts, w.s.id, i, k) in {None, Some(CustomsReleased)}
                     && LastSecurity(tr, acts, w.s.id, j, k) in {None, Some(SecurityPassed)})
  {
    var r;
    r, i, j := GateReads(tr, acts, acts[k].call, k);
    TransitionIsAtomicExactly(tr, acts, k);
    var id := tr[k].calls[acts[k].call].s.id;
    CustomsSince(tr, acts, id, i, k);
    SecuritySince(tr, acts, id, j, k);
    GateFollows(tr[i].cargo.GetCustoms(id), LastCustoms(tr, acts, id, i, k), tr[k].cargo.GetCustoms(id),
                tr[j].cargo.GetSecurity(id), LastSecurity(tr, acts, id, j, k), tr[k].cargo.GetSecurity(id));
  }

  // ---------- every loading, gated or not ----------

  ghost predicate OnGatedPath(call: Call) {
    call.MoveCustoms? || call.MoveSecurity? || (call.MoveWrite? && Gated(call.s, call.next)) || call.Done?
  }

  ghost predicate KeepsPath(s: System, t: System, n: nat) {
    n in s.calls && OnGatedPath(s.calls[n]) ==> n in t.calls && OnGatedPath(t.calls[n])
  }

  lemma GatedPathStep(sys: System, a: Action, n: nat)
    requires Inv(sys)
    ensures KeepsPath(sys, Step(sys, a), n)
  {
  }

  lemma {:induction false} PathStays(tr: seq<System>, n: nat, m: nat, k: nat)
    requires m <= k < |tr| && n in tr[m].calls && OnGatedPath(tr[m].calls[n])
    requires forall i :: 0 <= i < |tr| - 1 ==> KeepsPath(tr[i], tr[i + 1], n)
    ensures n in tr[k].calls && OnGatedPath(tr[k].calls[n])
    decreases k
  {
    if m < k {
      PathStays(tr, n, m, k - 1);
      assert KeepsPath(tr[k - 1], tr[k - 1 + 1], n);
    }
  }

  lemma RunKeepsPath(tr: seq<System>, acts: seq<Action>, n: nat)
    requires IsRun(tr, acts) && Initial(tr[0])
    ensures forall i :: 0 <= i < |tr| - 1 ==> KeepsPath(tr[i], tr[i + 1], n)
  {
    forall i | 0 <= i < |tr| - 1 ensures KeepsPath(tr[i], tr[i + 1], n) {
      RunKeepsInv(tr, acts, i);
      GatedPathStep(tr[i], acts[i], n);
    }
  }

  /** A transition about to write outside the gate has read neither customs nor security, for any shipment. */
  lemma UngatedReadsNothing(tr: seq<System>, acts: seq<Action>, n: nat, k: nat)
    requires IsRun(tr, acts) && Initial(tr[0]) && k < |tr| && n in tr[k].calls
    requires tr[k].calls[n].MoveWrite? && !Gated(tr[k].calls[n].s, tr[k].calls[n].next)
    ensures forall m, x :: 0 <= m < k ==> !ReadsCustoms(tr[m], acts[m], n, x) && !ReadsSecurity(tr[m], acts[m], n, x)
  {
    RunKeepsPath(tr, acts, n);
    forall m, x | 0 <= m < k ensures !ReadsCustoms(tr[m], acts[m], n, x) && !ReadsSecurity(tr[m], acts[m], n, x) {
      if ReadsCustoms(tr[m], acts[m], n, x) || ReadsSecurity(tr[m], acts[m], n, x) {
        PathStays(tr, n, m, k);
      }
    }
  }

  /**
   * Whenever a shipment becomes loaded or departed: on a leg, the call that did it has read customs at i and security
   * at j, and both stand in order at this very moment exactly when the last customs status filed since i, if any, is
   * released and the last security status filed since j, if any, is passed; without a leg, it has read neither.
   */
  lemma LoadedInOrderExactly(tr: seq<System>, acts: seq<Action>, id: string, k: nat) returns (i: nat, j: nat)
    requires IsRun(tr, acts) && Initial(tr[0]) && k < |acts|
    requires id in tr[k].cargo.shipments && id in tr[k + 1].cargo.shipments
    requires tr[k + 1].cargo.shipments[id].status != tr[k].cargo.shipments[id].status
    requires tr[k + 1].cargo.shipments[id].status == Loaded || tr[k + 1].cargo.shipments[id].status == Departed
    ensures acts[k].Proceed?
    ensures var n := acts[k].call;
            if tr[k + 1].cargo.shipments[id].legId != None then
              && i < j < k && ReadsCustoms(tr[i], acts[i], n, id) && ReadsSecurity(tr[j], acts[j], n, id)
              && (ReleasedAt(tr[k], id) && PassedAt(tr[k], id) <==>
                    && LastCustoms(tr, acts, id, i, k) in {None, Some(CustomsReleased)}
                    && LastSecurity(tr, acts, id, j, k) in {None, Some(SecurityPassed)})
            else
              forall m, x :: 0 <= m < k ==> !ReadsCustoms(tr[m], acts[m], n, x) && !ReadsSecurity(tr[m], acts[m], n, x)
  {
    RunKeepsInv(tr, acts, k);
    assert tr[k + 1] == Step(tr[k], acts[k]);
    OnlyTransitionsLoad(tr[k], acts[k], id);
    var n := acts[k].call;
    i, j := 0, 0;
    if tr[k + 1].cargo.shipments[id].legId != None {
      var r;
      r, i, j := GateReads(tr, acts, n, k);
      CustomsSince(tr, acts, id, i, k);
      SecuritySince(tr, acts, id, j, k);
      GateFollows(tr[i].cargo.GetCustoms(id), LastCustoms(tr, acts, id, i, k), tr[k].cargo.GetCustoms(id),
                  tr[j].cargo.GetSecurity(id), LastSecurity(tr, acts, id, j, k), tr[k].cargo.GetSecurity(id));
    } else {
      UngatedReadsNothing(tr, acts, n, k);
    }
  }

  /**
   * Likewise for a customs filing that read the case on file at i: it is atomic exactly when the last status filed
   * for the shipment since, if any, still allows the edge.
   */
  lemma FilingIsAtomicExactlySince(tr: seq<System>, acts: seq<Action>, k: nat) returns (i: nat)
    requires IsRun(tr, acts) && Initial(tr[0]) && k < |acts|
    requires acts[k].Proceed? && acts[k].call in tr[k].calls && tr[k].calls[acts[k].call].CustomsWrite?
    ensures i < k && acts[i].Proceed? && acts[i].call == acts[k].call && acts[k].call in tr[i].calls
    ensures var n, v := acts[k].call, tr[k].calls[acts[k].call].c;
            && tr[i].calls[n] == CustomsRead(v) && v.shipmentId in tr[k].cargo.shipments
            && (Solo(tr[k].cargo, CustomsReadShipment(tr[k].cargo.shipments[v.shipmentId].tenantId, v), acts[k].now)
                  == (tr[k + 1].cargo, tr[k + 1].calls[n].reply)
                <==> match LastCustoms(tr, acts, v.shipmentId, i, k)
                     case None => true
                     case Some(status) => CustomsCanTransition(status, v.status))
  {
    var n, v := acts[k].call, tr[k].calls[acts[k].call].c;
    i := LastStep(tr, acts, n, k);
    NotFromBegin(acts[i], tr[k].calls[n]);
    BeforeReads(tr[i].cargo, tr[i].calls[n], acts[i].now);
    FilingIsAtomicExactly(tr, acts, k);
    CustomsSince(tr, acts, v.shipmentId, i, k);
  }

  // ---------- the gate may close between check and write ----------

  const OPERATOR := User("u", "t", "", [], Coordinator, true, 0, None)
  const CARGO := Shipment("s", "t", "r", "A", "B", 1, 1, Cleared, Some("l"), "", 4, 0, 0)
  const RELEASED := CustomsCase("s", "s", CustomsReleased, "", None, 0)
  const PASSED := SecurityCheck("s", "s", SecurityPassed, None, "", None)
  const FAILED := PASSED.(status := SecurityFailed)
  const READY := Cargo(map["s" := CARGO], map[], map[], map["s" := RELEASED], map["s" := PASSED])

  /** A loading that has read everything it needs. */
  lemma LoadingChecked() returns (tr: seq<System>, acts: seq<Action>)
    ensures IsRun(tr, acts) && |acts| == 4 && tr[0] == System(READY, map[])
    ensures tr[4] == System(READY, map[0 := MoveWrite(Loaded, CARGO)])
  {
    acts := [Start(0, TransitionCall(OPERATOR, "s", Loaded), 0), Proceed(0, 0), Proceed(0, 0), Proceed(0, 0)];
    tr := [System(READY, map[]),
           System(READY, map[0 := MoveRead("t", "s", Loaded)]),
           System(READY, map[0 := MoveCustoms("s", Loaded, CARGO)]),
           System(READY, map[0 := MoveSecurity("s", Loaded, CARGO, Ok(RELEASED))]),
           System(READY, map[0 := MoveWrite(Loaded, CARGO)])];
    forall i | 0 <= i < 4 ensures tr[i + 1] == Step(tr[i], acts[i]) {
      if i == 0 {
      } else if i == 1 {
      } else if i == 2 {
      } else {
        assert GateOpen(Ok(RELEASED), READY.GetSecurity("s"));
      }
    }
  }

  const FILED := READY.PutSecurity(FAILED)

  /** A failed security check is filed meanwhile. */
  lemma FailureFiled(w: Call) returns (tr: seq<System>, acts: seq<Action>)
    ensures IsRun(tr, acts) && |acts| == 3 && tr[0] == System(READY, map[0 := w])
    ensures tr[3].cargo == FILED && 0 in tr[3].calls && tr[3].calls[0] == w
  {
    acts := [Start(1, PutSecurityCall(OPERATOR, FAILED, "x"), 0), Proceed(1, 0), Proceed(1, 0)];
    tr := [System(READY, map[0 := w]),
           System(READY, map[0 := w, 1 := SecurityReadShipment("t", "u", FAILED)]),
           System(READY, map[0 := w, 1 := SecurityWrite("u", FAILED)]),
           System(FILED, map[0 := w, 1 := Done(SecurityReply(FAILED))])];
    forall i | 0 <= i < 3 ensures tr[i + 1] == Step(tr[i], acts[i]) {
      if i == 0 {
      } else if i == 1 {
      } else {
      }
    }
  }

  lemma LoadedRegardless(sys: System)
    requires sys.cargo == FILED && 0 in sys.calls && sys.calls[0] == MoveWrite(Loaded, CARGO)
    ensures var d := Step(sys, Proceed(0, 0)).cargo; "s" in d.shipments && d.shipments["s"].status == Loaded
  {
  }

  /** So a shipment can be loaded at a moment when its security check stands as failed. */
  lemma GateCanCloseBeforeTheWrite() returns (tr: seq<System>, acts: seq<Action>)
    ensures IsRun(tr, acts) && Initial(tr[0]) && |acts| == 8
    ensures StoredAt(tr[7], "s", CARGO) && !PassedAt(tr[7], "s")
    ensures "s" in tr[8].cargo.shipments && tr[8].cargo.shipments["s"].status == Loaded
  {
    var tr1, acts1 := LoadingChecked();
    var tr2, acts2 := FailureFiled(MoveWrite(Loaded, CARGO));
    RunsJoin(tr1, acts1, tr2, acts2);
    var sys := tr2[3];
    LoadedRegardless(sys);
    var tr3, acts3 := [sys, Step(sys, Proceed(0, 0))], [Proceed(0, 0)];
    RunsJoin(tr1 + tr2[1..], acts1 + acts2, tr3, acts3);
    tr, acts := tr1 + tr2[1..] + tr3[1..], acts1 + acts2 + acts3;
  }

  // ---------- and a shipment without a leg passes no gate ----------

  const LOOSE := CARGO.(legId := None)
  const FLAGGED := FILED.(shipments := map["s" := LOOSE])

  /** One transition, alone: the shipment is loaded while its security check stands as failed, and nobody has looked. */
  lemma LoadedWithoutALeg() returns (tr: seq<System>, acts: seq<Action>)
    ensures IsRun(tr, acts) && Initial(tr[0]) && |acts| == 3 && Alone(acts, 0)
    ensures StoredAt(tr[2], "s", LOOSE) && !PassedAt(tr[2], "s")
    ensures "s" in tr[3].cargo.shipments && tr[3].cargo.shipments["s"].status == Loaded
  {
    acts := [Start(0, TransitionCall(OPERATOR, "s", Loaded), 0), Proceed(0, 0), Proceed(0, 0)];
    var loaded := LOOSE.(status := Loaded, version := 5);
    tr := [System(FLAGGED, map[]),
           System(FLAGGED, map[0 := MoveRead("t", "s", Loaded)]),
           System(FLAGGED, map[0 := MoveWrite(Loaded, LOOSE)]),
           System(FLAGGED.(shipments := map["s" := loaded]), map[0 := Done(ShipmentReply(loaded.(version := 4)))])];
    forall i | 0 <= i < 3 ensures tr[i + 1] == Step(tr[i], acts[i]) {
      if i == 0 {
      } else if i == 1 {
      } else {
      }
    }
  }
}
