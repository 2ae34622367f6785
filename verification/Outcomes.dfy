/**
 * What each cargo call does when it runs alone, in plain terms: exactly when it succeeds, what it then leaves and
 * answers, and which error it answers otherwise. A call that fails leaves everything as it was.
 */
module Outcomes {
  import opened Domain
  import opened Int64
  import opened JoinedKey
  import opened CargoStore
  import opened Handoff
  import Strings
  import Atomicity

  // ---------- plain terms ----------

  predicate Owned(c: Cargo, tenant: string, id: string) {
    id in c.shipments && c.shipments[id].tenantId == tenant
  }

  predicate LegOwned(c: Cargo, tenant: string, id: string) {
    id in c.legs && c.legs[id].tenantId == tenant
  }

  /** A positive weight on a sane reservation, up to a full leg; or so much that the 64-bit sum goes round. */
  predicate HasRoom(reserved: int, capacity: int, weight: int) {
    weight > 0 && reserved >= 0 && Sum64(reserved, weight) <= capacity
  }

  /** The 64-bit sum of two numbers that are not negative. */
  function Sum64(a: int, b: int): int {
    if a + b <= 0x7FFF_FFFF_FFFF_FFFF then a + b else a + b - 0x1_0000_0000_0000_0000
  }

  const SHIPMENT_EDGES: set<(ShipmentStatus, ShipmentStatus)> :=
    {(Draft, Booked), (Booked, Screening), (Screening, Cleared), (Cleared, Loaded), (Loaded, Departed),
     (Draft, Cancelled), (Booked, Cancelled), (Screening, Cancelled), (Cleared, Cancelled)}

  const LEG_EDGES: set<(LegStatus, LegStatus)> :=
    {(LegPlanned, LegOpen), (LegOpen, LegBoarding), (LegBoarding, LegDeparted),
     (LegOpen, LegClosed), (LegBoarding, LegClosed), (LegDeparted, LegClosed)}

  const CUSTOMS_EDGES: set<(CustomsStatus, CustomsStatus)> :=
    {(CustomsPending, CustomsReview), (CustomsPending, CustomsHeld), (CustomsReview, CustomsReleased),
     (CustomsReview, CustomsHeld), (CustomsHeld, CustomsReview)}

  // ---------- capacity ----------

  /** A direct grant: at the expected version, exactly when there is room - a leg can be filled to the last kilo. */
  lemma GrantAnswers(c: Cargo, tenant: string, id: string, weight: int64, version: int)
    ensures var (d, err) := c.ReserveCapacity(tenant, id, weight, version);
            && (err == Some(NotFound) <==> !LegOwned(c, tenant, id))
            && (err == Some(Conflict) <==> LegOwned(c, tenant, id) && c.legs[id].version != version)
            && (err == Some(Capacity) <==>
                  && LegOwned(c, tenant, id) && c.legs[id].version == version
                  && !HasRoom(c.legs[id].reservedKg, c.legs[id].capacityKg, weight))
            && (err == None <==>
                  && LegOwned(c, tenant, id) && c.legs[id].version == version
                  && HasRoom(c.legs[id].reservedKg, c.legs[id].capacityKg, weight))
            && d == if err != None then c
                    else c.(legs := c.legs[id := c.legs[id].(reservedKg := Sum64(c.legs[id].reservedKg, weight),
                                                             version := version + 1)])
  {
    if LegOwned(c, tenant, id) {
      RoomExactly(c.legs[id], weight);
    }
  }

  lemma RoomExactly(l: FlightLeg, weight: int64)
    ensures ValidateCapacity(l, weight) == if HasRoom(l.reservedKg, l.capacityKg, weight) then None else Some(Capacity)
    ensures weight > 0 && l.reservedKg >= 0 ==> Wrap(l.reservedKg + weight) == Sum64(l.reservedKg, weight)
  {
    var sum := l.reservedKg + weight;
    if sum > MAX && weight > 0 && l.reservedKg >= 0 {
      WrapSame(sum, sum - WIDTH, 1);
    }
  }

  /** In particular a weight that fills an empty or half-full leg exactly is granted, and one kilo more is not. */
  lemma LegCanBeFilled(c: Cargo, tenant: string, id: string, weight: int64)
    requires LegOwned(c, tenant, id) && 0 <= c.legs[id].reservedKg < c.legs[id].capacityKg
    requires weight == c.legs[id].capacityKg - c.legs[id].reservedKg
    ensures var (d, err) := c.ReserveCapacity(tenant, id, weight, c.legs[id].version);
            && err == None && id in d.legs && d.legs[id].reservedKg == d.legs[id].capacityKg == c.legs[id].capacityKg
            && (c.legs[id].capacityKg < MAX ==>
                  c.ReserveCapacity(tenant, id, weight + 1, c.legs[id].version).1 == Some(Capacity))
  {
    GrantAnswers(c, tenant, id, weight, c.legs[id].version);
    if c.legs[id].capacityKg < MAX {
      GrantAnswers(c, tenant, id, weight + 1, c.legs[id].version);
    }
  }

  /** A leg's status, set directly at the expected version. */
  lemma LegStatusAnswers(c: Cargo, tenant: string, id: string, status: LegStatus, version: int)
    ensures var (d, err) := c.UpdateLegStatus(tenant, id, status, version);
            && (err == Some(NotFound) <==> !LegOwned(c, tenant, id))
            && (err == Some(Conflict) <==> LegOwned(c, tenant, id) && c.legs[id].version != version)
            && (err == Some(State) <==>
                  LegOwned(c, tenant, id) && c.legs[id].version == version && (c.legs[id].status, status) !in LEG_EDGES)
            && (err == None <==>
                  LegOwned(c, tenant, id) && c.legs[id].version == version && (c.legs[id].status, status) in LEG_EDGES)
            && d == if err != None then c
                    else c.(legs := c.legs[id := c.legs[id].(status := status, version := version + 1)])
  {
  }

  // ---------- the store on its own ----------

  /** The store finds exactly what belongs to the tenant. */
  lemma LookupAnswers(c: Cargo, tenant: string, id: string)
    ensures c.GetShipment(tenant, id) == if Owned(c, tenant, id) then Ok(c.shipments[id]) else Err(NotFound)
    ensures c.GetLeg(tenant, id) == if LegOwned(c, tenant, id) then Ok(c.legs[id]) else Err(NotFound)
  {
  }

  /** The store's own insertion: a key taken for the same id is no error, and nothing is stored twice. */
  lemma InsertionAnswers(c: Cargo, v: Shipment)
    ensures var (d, err) := c.CreateShipment(v);
            var key, keyed := v.tenantId + "|" + v.idempotencyKey, v.idempotencyKey != "";
            var taken := keyed && key in c.idem;
            && (err == None <==> (taken && c.idem[key] == v.id) || (!taken && v.id !in c.shipments))
            && (err == Some(Conflict) <==> (taken && c.idem[key] != v.id) || (!taken && v.id in c.shipments))
            && d == if taken || v.id in c.shipments then c
                    else c.(shipments := c.shipments[v.id := v], idem := if keyed then c.idem[key := v.id] else c.idem)
  {
  }

  /** The store's own replacement, at the expected version. */
  lemma ReplacementAnswers(c: Cargo, v: Shipment, version: int)
    ensures var (d, err) := c.UpdateShipment(v, version);
            && (err == Some(NotFound) <==> v.id !in c.shipments)
            && (err == Some(Conflict) <==> v.id in c.shipments && c.shipments[v.id].version != version)
            && (err == None <==> v.id in c.shipments && c.shipments[v.id].version == version)
            && d == if err != None then c else c.(shipments := c.shipments[v.id := v.(version := version + 1)])
  {
  }

  /** The store's own booking checks everything again, whatever its caller has seen. */
  lemma StoreBookingAnswers(c: Cargo, tenant: string, id: string, legId: string, sv: int, lv: int, at: int)
    ensures var (d, r) := c.BookShipment(tenant, id, legId, sv, lv, at);
            var found := Owned(c, tenant, id) && LegOwned(c, tenant, legId);
            var current := found && c.shipments[id].version == sv && c.legs[legId].version == lv;
            && (r == Err(NotFound) <==> !found)
            && (r == Err(Conflict) <==> found && !current)
            && (r == Err(State) <==> current && (c.shipments[id].status != Draft || c.legs[legId].status != LegOpen))
            && (r == Err(Invalid) <==>
                  && current && c.shipments[id].status == Draft && c.legs[legId].status == LegOpen
                  && !(c.shipments[id].origin == c.legs[legId].origin
                       && c.shipments[id].destination == c.legs[legId].destination))
            && (r == Err(Capacity) <==>
                  && current && Bookable(c.shipments[id], c.legs[legId])
                  && !HasRoom(c.legs[legId].reservedKg, c.legs[legId].capacityKg, c.shipments[id].weightKg))
            && (r.Ok? <==>
                  && current && Bookable(c.shipments[id], c.legs[legId])
                  && HasRoom(c.legs[legId].reservedKg, c.legs[legId].capacityKg, c.shipments[id].weightKg))
            && (r.Err? ==> d == c)
  {
    if Owned(c, tenant, id) && LegOwned(c, tenant, legId) {
      RoomExactly(c.legs[legId], c.shipments[id].weightKg);
    }
  }

  // ---------- booking ----------

  predicate Bookable(s: Shipment, l: FlightLeg) {
    s.status == Draft && l.status == LegOpen && s.origin == l.origin && s.destination == l.destination
  }

  lemma BookingAlone(c: Cargo, u: User, id: string, legId: string, now: int)
    requires u.role == Coordinator && Owned(c, u.tenantId, id) && LegOwned(c, u.tenantId, legId)
    ensures var s, l := c.shipments[id], c.legs[legId];
            Solo(c, Begin(BookShipmentCall(u, id, legId), now), now) ==
              if s.status != Draft || l.status != LegOpen then (c, Failed(State))
              else if !Bookable(s, l) then (c, Failed(Invalid))
              else Solo(c, BookWrite(u.tenantId, id, legId, s, l), now)
  {
    var s, l := c.shipments[id], c.legs[legId];
    var p0 := BookReadShipment(u.tenantId, id, legId);
    var p1 := BookReadLeg(u.tenantId, id, legId, s);
    assert Advance(c, p0, now) == (c, p1);
    assert Solo(c, p0, now) == Solo(c, p1, now);
    var next := Advance(c, p1, now).1;
    if next.Done? {
      FinishesAlone(c, p1, now);
    } else {
      assert Solo(c, p1, now) == Solo(c, next, now);
    }
  }

  lemma BookWriteAlone(c: Cargo, tenant: string, id: string, legId: string, now: int)
    requires Owned(c, tenant, id) && LegOwned(c, tenant, legId) && Bookable(c.shipments[id], c.legs[legId])
    ensures var s, l := c.shipments[id], c.legs[legId];
            Solo(c, BookWrite(tenant, id, legId, s, l), now) ==
              if HasRoom(l.reservedKg, l.capacityKg, s.weightKg) then
                var b := s.(status := Booked, legId := Some(legId), updatedAt := now, version := s.version + 1);
                var r := l.(reservedKg := Sum64(l.reservedKg, s.weightKg), version := l.version + 1);
                (c.(shipments := c.shipments[id := b], legs := c.legs[legId := r]), ShipmentReply(b))
              else (c, Failed(Capacity))
  {
    var s, l := c.shipments[id], c.legs[legId];
    RoomExactly(l, s.weightKg);
    FinishesAlone(c, BookWrite(tenant, id, legId, s, l), now);
  }

  /**
   * The whole booking call: a coordinator books a draft of its tenant onto an open leg of its tenant on the same route
   * exactly when there is room.
   */
  lemma BookingAnswers(c: Cargo, u: User, id: string, legId: string, now: int)
    ensures var (d, r) := Solo(c, Begin(BookShipmentCall(u, id, legId), now), now);
            var found := Owned(c, u.tenantId, id) && LegOwned(c, u.tenantId, legId);
            && (r == Failed(Forbidden) <==> u.role != Coordinator)
            && (r == Failed(NotFound) <==> u.role == Coordinator && !found)
            && (r == Failed(State) <==>
                  && u.role == Coordinator && found
                  && (c.shipments[id].status != Draft || c.legs[legId].status != LegOpen))
            && (r == Failed(Invalid) <==>
                  && u.role == Coordinator && found
                  && c.shipments[id].status == Draft && c.legs[legId].status == LegOpen
                  && !(c.shipments[id].origin == c.legs[legId].origin
                       && c.shipments[id].destination == c.legs[legId].destination))
            && (r == Failed(Capacity) <==>
                  && u.role == Coordinator && found && Bookable(c.shipments[id], c.legs[legId])
                  && !HasRoom(c.legs[legId].reservedKg, c.legs[legId].capacityKg, c.shipments[id].weightKg))
            && (r.ShipmentReply? <==>
                  && u.role == Coordinator && found && Bookable(c.shipments[id], c.legs[legId])
                  && HasRoom(c.legs[legId].reservedKg, c.legs[legId].capacityKg, c.shipments[id].weightKg))
            && (r.ShipmentReply? ==>
                  && r.s == c.shipments[id].(status := Booked, legId := Some(legId), updatedAt := now,
                                             version := c.shipments[id].version + 1)
                  && var l, w := c.legs[legId], c.shipments[id].weightKg;
                     var full := l.(reservedKg := Sum64(l.reservedKg, w), version := l.version + 1);
                     d == c.(shipments := c.shipments[id := r.s], legs := c.legs[legId := full]))
            && (!r.ShipmentReply? ==> d == c)
  {
    if u.role == Coordinator && Owned(c, u.tenantId, id) {
      if LegOwned(c, u.tenantId, legId) {
        BookingAlone(c, u, id, legId, now);
        if Bookable(c.shipments[id], c.legs[legId]) {
          BookWriteAlone(c, u.tenantId, id, legId, now);
        }
      } else {
        var p1 := BookReadLeg(u.tenantId, id, legId, c.shipments[id]);
        assert Advance(c, BookReadShipment(u.tenantId, id, legId), now) == (c, p1);
        FinishesAlone(c, p1, now);
      }
    } else if u.role == Coordinator {
      FinishesAlone(c, BookReadShipment(u.tenantId, id, legId), now);
    }
  }

  // ---------- transitions ----------

  predicate Moves(role: Role) {
    role == Coordinator || role == GroundAgent
  }

  /**
   * Nothing stands in the way: not on a leg, not to loaded or departed, or released by customs and passed by
   * security.
   */
  predicate Clear(c: Cargo, s: Shipment, next: ShipmentStatus) {
    s.legId != None && next in {Loaded, Departed} ==>
      && s.id in c.customs && c.customs[s.id].status == CustomsReleased
      && s.id in c.security && c.security[s.id].status == SecurityPassed
  }

  lemma ClearExactly(c: Cargo, s: Shipment, next: ShipmentStatus)
    ensures Clear(c, s, next) <==> (Gated(s, next) ==> GateOpen(c.GetCustoms(s.id), c.GetSecurity(s.id)))
  {
  }

  lemma EdgesExactly(from: ShipmentStatus, next: ShipmentStatus)
    ensures CanTransition(from, next) <==> (from, next) in SHIPMENT_EDGES
  {
  }

  lemma MoveAlone(c: Cargo, tenant: string, id: string, next: ShipmentStatus, now: int)
    requires Owned(c, tenant, id) && c.shipments[id].id == id
    ensures var s := c.shipments[id];
            Solo(c, MoveRead(tenant, id, next), now) ==
              if (s.status, next) !in SHIPMENT_EDGES || !Clear(c, s, next) then (c, Failed(State))
              else
                var v := s.(status := next, updatedAt := now);
                (c.(shipments := c.shipments[id := v.(version := s.version + 1)]), ShipmentReply(v))
  {
    var s, p := c.shipments[id], MoveRead(tenant, id, next);
    EdgesExactly(s.status, next);
    ClearExactly(c, s, next);
    if !CanTransition(s.status, next) {
      FinishesAlone(c, p, now);
    } else {
      FinishesAlone(c, MoveWrite(next, s), now);
      if Gated(s, next) {
        GatedAlone(c, p, s, now);
      } else {
        assert Advance(c, p, now) == (c, MoveWrite(next, s));
        assert Solo(c, p, now) == Solo(c, MoveWrite(next, s), now);
      }
    }
  }

  lemma TransitionBegins(c: Cargo, u: User, id: string, next: ShipmentStatus, now: int)
    ensures var whole := Solo(c, Begin(TransitionCall(u, id, next), now), now);
            if !Moves(u.role) then whole == (c, Failed(Forbidden))
            else if !Owned(c, u.tenantId, id) then whole == (c, Failed(NotFound))
            else whole == Solo(c, MoveRead(u.tenantId, id, next), now)
  {
    if Moves(u.role) && !Owned(c, u.tenantId, id) {
      FinishesAlone(c, MoveRead(u.tenantId, id, next), now);
    }
  }

  /** What comes of a transition, in the order in which it is checked. */
  lemma TransitionIs(c: Cargo, u: User, id: string, next: ShipmentStatus, now: int)
    requires id in c.shipments ==> c.shipments[id].id == id
    ensures Solo(c, Begin(TransitionCall(u, id, next), now), now) ==
              if !Moves(u.role) then (c, Failed(Forbidden))
              else if !Owned(c, u.tenantId, id) then (c, Failed(NotFound))
              else if !MayMove(c, c.shipments[id], next) then (c, Failed(State))
              else
                var v := c.shipments[id].(status := next, updatedAt := now);
                (c.(shipments := c.shipments[id := v.(version := v.version + 1)]), ShipmentReply(v))
  {
    TransitionBegins(c, u, id, next, now);
    if Moves(u.role) && Owned(c, u.tenantId, id) {
      MoveAlone(c, u.tenantId, id, next, now);
    }
  }

  predicate MayMove(c: Cargo, s: Shipment, next: ShipmentStatus) {
    (s.status, next) in SHIPMENT_EDGES && Clear(c, s, next)
  }

  /**
   * The whole transition: a coordinator or ground agent moves a shipment of its tenant along the graph exactly when
   * nothing stands in the way. The answer carries the old version, the stored record the next.
   */
  lemma TransitionAnswers(c: Cargo, u: User, id: string, next: ShipmentStatus, now: int)
    requires id in c.shipments ==> c.shipments[id].id == id
    ensures var (d, r) := Solo(c, Begin(TransitionCall(u, id, next), now), now);
            var found := Owned(c, u.tenantId, id);
            && (r == Failed(Forbidden) <==> !Moves(u.role))
            && (r == Failed(NotFound) <==> Moves(u.role) && !found)
            && (r == Failed(State) <==> Moves(u.role) && found && !MayMove(c, c.shipments[id], next))
            && (r.ShipmentReply? <==> Moves(u.role) && found && MayMove(c, c.shipments[id], next))
            && (r.ShipmentReply? ==>
                  && r.s == c.shipments[id].(status := next, updatedAt := now)
                  && d == c.(shipments := c.shipments[id := r.s.(version := r.s.version + 1)]))
            && (!r.ShipmentReply? ==> d == c)
  {
    TransitionIs(c, u, id, next, now);
  }

  // ---------- creations ----------

  /** What is stored: the caller's record, under its tenant, as a draft at version one. */
  function Fresh(u: User, s: Shipment, idem: string, newId: string, now: int): Shipment {
    Shipment(if s.id != "" then s.id else newId, u.tenantId, Strings.TrimSpace(s.reference), s.origin, s.destination,
             s.weightKg, s.pieces, Draft, s.legId, idem, 1, now, now)
  }

  predicate WellFormed(s: Shipment) {
    && s.tenantId != "" && s.reference != "" && s.origin != "" && s.destination != "" && s.origin != s.destination
    && s.weightKg > 0 && s.pieces > 0
  }

  lemma CreationBegins(u: User, s: Shipment, idem: string, newId: string, now: int)
    ensures var v := Fresh(u, s, idem, newId, now);
            Begin(CreateShipmentCall(u, s, idem, newId), now) ==
              if u.role !in {Shipper, Coordinator} then Done(Failed(Forbidden))
              else if !WellFormed(v) then Done(Failed(Invalid))
              else if idem != "" then CreateFind(v)
              else CreateWrite(v)
  {
    assert NewShipment(u, s, idem, newId, now) == Fresh(u, s, idem, newId, now);
  }

  /**
   * The whole creation: a shipper's or coordinator's well-formed shipment is stored as a draft when its id is free. A
   * key that is taken is answered with the shipment that took it, and stores nothing.
   */
  lemma CreationAnswers(c: Cargo, u: User, s: Shipment, idem: string, newId: string, now: int)
    requires forall k :: k in c.idem ==> c.idem[k] in c.shipments
    ensures var (d, r) := Solo(c, Begin(CreateShipmentCall(u, s, idem, newId), now), now);
            var v, key := Fresh(u, s, idem, newId, now), u.tenantId + "|" + idem;
            && (r == Failed(Forbidden) <==> u.role !in {Shipper, Coordinator})
            && (r == Failed(Invalid) <==> u.role in {Shipper, Coordinator} && !WellFormed(v))
            && (u.role in {Shipper, Coordinator} && WellFormed(v) ==>
                  if idem != "" && key in c.idem then (d, r) == (c, ShipmentReply(c.shipments[c.idem[key]]))
                  else if v.id in c.shipments then (d, r) == (c, Failed(Conflict))
                  else
                    && r == ShipmentReply(v) && d.shipments == c.shipments[v.id := v]
                    && d == c.(shipments := d.shipments, idem := if idem == "" then c.idem else c.idem[key := v.id]))
            && (r.Failed? ==> d == c)
  {
    var v := Fresh(u, s, idem, newId, now);
    CreationBegins(u, s, idem, newId, now);
    if u.role in {Shipper, Coordinator} && WellFormed(v) {
      FinishesAlone(c, CreateWrite(v), now);
      if idem != "" {
        if JoinKey(u.tenantId, idem) in c.idem {
          FinishesAlone(c, CreateFind(v), now);
        } else {
          assert Advance(c, CreateFind(v), now) == (c, CreateWrite(v));
          assert Solo(c, CreateFind(v), now) == Solo(c, CreateWrite(v), now);
        }
      }
    }
  }

  /** The whole creation of a leg: planned, at version one, with the caller's reservation. */
  lemma LegCreationAnswers(c: Cargo, u: User, l: FlightLeg, newId: string, now: int)
    ensures var (d, r) := Solo(c, Begin(CreateLegCall(u, l, newId), now), now);
            var v := FlightLeg(if l.id != "" then l.id else newId, u.tenantId, l.flightNumber, l.origin, l.destination,
                               l.departureAt, l.arrivalAt, l.capacityKg, l.reservedKg, LegPlanned, 1, now);
            var sane := && u.tenantId != "" && l.flightNumber != "" && l.origin != "" && l.destination != ""
                        && l.capacityKg > 0 && now < l.departureAt < l.arrivalAt;
            && (r == Failed(Forbidden) <==> u.role != Coordinator)
            && (r == Failed(Invalid) <==> u.role == Coordinator && !sane)
            && (r == Failed(Conflict) <==> u.role == Coordinator && sane && v.id in c.legs)
            && (r.LegReply? <==> u.role == Coordinator && sane && v.id !in c.legs)
            && (r.LegReply? ==> r.l == v && d == c.(legs := c.legs[v.id := v]))
            && (!r.LegReply? ==> d == c)
  {
    var v := NewLeg(u, l, newId, now);
    if u.role == Coordinator && ValidateLeg(v, now) == None {
      FinishesAlone(c, LegWrite(v), now);
    }
  }

  /** The whole opening: a coordinator opens a planned leg of its tenant, and no other. */
  lemma OpeningAnswers(c: Cargo, u: User, id: string, now: int)
    ensures var (d, r) := Solo(c, Begin(OpenLegCall(u, id), now), now);
            var found := LegOwned(c, u.tenantId, id);
            && (r == Failed(Forbidden) <==> u.role != Coordinator)
            && (r == Failed(NotFound) <==> u.role == Coordinator && !found)
            && (r == Failed(State) <==> u.role == Coordinator && found && c.legs[id].status != LegPlanned)
            && (r.LegReply? <==> u.role == Coordinator && found && c.legs[id].status == LegPlanned)
            && (r.LegReply? ==>
                  && r.l == c.legs[id].(status := LegOpen, version := c.legs[id].version + 1)
                  && d == c.(legs := c.legs[id := r.l]))
            && (!r.LegReply? ==> d == c)
  {
    if u.role == Coordinator {
      var p := OpenRead(u.tenantId, id);
      if LegOwned(c, u.tenantId, id) {
        var w := OpenWrite(u.tenantId, id, c.legs[id]);
        assert Advance(c, p, now) == (c, w);
        assert Solo(c, p, now) == Solo(c, w, now);
        FinishesAlone(c, w, now);
      } else {
        FinishesAlone(c, p, now);
      }
    }
  }

  // ---------- compliance ----------

  /** The edge from the case on file for the shipment, if there is one. */
  predicate OnGraph(c: Cargo, v: CustomsCase) {
    v.shipmentId in c.customs ==> (c.customs[v.shipmentId].status, v.status) in CUSTOMS_EDGES
  }

  lemma OnGraphExactly(c: Cargo, v: CustomsCase)
    ensures OnGraph(c, v) <==> Atomicity.CustomsEdge(c, v)
  {
  }

  /** The whole customs filing: a coordinator of the shipment's tenant, along the graph, under the case's own id. */
  lemma CustomsAnswers(c: Cargo, u: User, v: CustomsCase, newId: string, now: int)
    ensures var (d, r) := Solo(c, Begin(PutCustomsCall(u, v, newId), now), now);
            var found := Owned(c, u.tenantId, v.shipmentId);
            var w := v.(id := if v.id != "" then v.id else newId, updatedAt := now);
            && (r == Failed(Forbidden) <==> u.role != Coordinator)
            && (r == Failed(NotFound) <==> u.role == Coordinator && !found)
            && (r == Failed(State) <==> u.role == Coordinator && found && !OnGraph(c, v))
            && (r.CustomsReply? <==> u.role == Coordinator && found && OnGraph(c, v))
            && (r.CustomsReply? ==> r.c == w && d == c.(customs := c.customs[w.id := w]))
            && (!r.CustomsReply? ==> d == c)
  {
    if u.role == Coordinator {
      var p := v.(id := NonEmpty(v.id, newId));
      var p0, p1, p2 := CustomsReadShipment(u.tenantId, p), CustomsRead(p), CustomsWrite(p);
      OnGraphExactly(c, v);
      if Owned(c, u.tenantId, v.shipmentId) {
        assert Advance(c, p0, now) == (c, p1);
        assert Solo(c, p0, now) == Solo(c, p1, now);
        if OnGraph(c, v) {
          assert Advance(c, p1, now) == (c, p2);
          assert Solo(c, p1, now) == Solo(c, p2, now);
          FinishesAlone(c, p2, now);
        } else {
          FinishesAlone(c, p1, now);
        }
      } else {
        FinishesAlone(c, p0, now);
      }
    }
  }

  /**
   * The whole security filing: a coordinator or ground agent of the shipment's tenant; a passed check carries the
   * officer's id and the time of filing, any other what the caller gave.
   */
  lemma SecurityAnswers(c: Cargo, u: User, v: SecurityCheck, newId: string, now: int)
    ensures var (d, r) := Solo(c, Begin(PutSecurityCall(u, v, newId), now), now);
            var found := Owned(c, u.tenantId, v.shipmentId);
            && (r == Failed(Forbidden) <==> !Moves(u.role))
            && (r == Failed(NotFound) <==> Moves(u.role) && !found)
            && (r.SecurityReply? <==> Moves(u.role) && found)
            && (r.SecurityReply? ==>
                  && r.chk.id == (if v.id != "" then v.id else newId) && r.chk.status == v.status
                  && r.chk.shipmentId == v.shipmentId && r.chk.notes == v.notes
                  && (v.status == SecurityPassed ==> r.chk.officerId == Some(u.id) && r.chk.checkedAt == Some(now))
                  && (v.status != SecurityPassed ==> r.chk.officerId == v.officerId && r.chk.checkedAt == v.checkedAt)
                  && d == c.(security := c.security[r.chk.id := r.chk]))
            && (!r.SecurityReply? ==> d == c)
  {
    if Moves(u.role) {
      var p := v.(id := NonEmpty(v.id, newId));
      var p0, p1 := SecurityReadShipment(u.tenantId, u.id, p), SecurityWrite(u.id, p);
      if Owned(c, u.tenantId, v.shipmentId) {
        assert Advance(c, p0, now) == (c, p1);
        assert Solo(c, p0, now) == Solo(c, p1, now);
        FinishesAlone(c, p1, now);
      } else {
        FinishesAlone(c, p0, now);
      }
    }
  }
}
