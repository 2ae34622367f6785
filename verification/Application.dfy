/**
 * The cargo service as the program text has it: sequences of store calls. Each method is proved to do exactly what
 * its step-by-step program does when nothing else runs in between.
 */
module Application {
  import opened Domain
  import opened CargoStore
  import opened Handoff
  import Strings

  class Service {
    const store: Store

    constructor (store: Store)
      ensures this.store == store
    {
      this.store := store;
    }

    method CreateShipment(u: User, s: Shipment, idem: string, newId: string, now: int) returns (r: Reply)
      modifies store
      ensures (store.Contents(), r)
           == Solo(old(store.Contents()), Begin(CreateShipmentCall(u, s, idem, newId), now), now)
    {
      if u.role != Shipper && u.role != Coordinator { return Failed(Forbidden); }
      var v := s.(id := NonEmpty(s.id, newId), tenantId := u.tenantId);
      v := v.(reference := Strings.TrimSpace(v.reference), status := Draft, idempotencyKey := idem);
      v := v.(createdAt := now, updatedAt := now, version := 1);
      assert v == NewShipment(u, s, idem, newId, now);
      if ValidateShipment(v) != None { return Failed(Invalid); }
      if idem != "" {
        var found := store.FindByIdempotency(u.tenantId, idem);
        if found.Ok? { return ShipmentReply(found.value); }
        if found.error != NotFound { return Failed(found.error); }
        assert Advance(store.Contents(), CreateFind(v), now) == (store.Contents(), CreateWrite(v));
      }
      ghost var c := store.Contents();
      var err := store.CreateShipment(v);
      FinishesAlone(c, CreateWrite(v), now);
      if err != None { return Failed(err.value); }
      return ShipmentReply(v);
    }

    method BookShipment(u: User, id: string, legId: string, now: int) returns (r: Reply)
      modifies store
      ensures (store.Contents(), r) == Solo(old(store.Contents()), Begin(BookShipmentCall(u, id, legId), now), now)
    {
      if u.role != Coordinator { return Failed(Forbidden); }
      ghost var c := store.Contents();
      var s := store.GetShipment(u.tenantId, id);
      if s.Err? { return Failed(s.error); }
      ghost var p1 := BookReadLeg(u.tenantId, id, legId, s.value);
      assert Advance(c, BookReadShipment(u.tenantId, id, legId), now) == (c, p1);
      var leg := store.GetLeg(u.tenantId, legId);
      if leg.Err? {
        FinishesAlone(c, p1, now);
        return Failed(leg.error);
      }
      if !CanTransition(s.value.status, Booked) || leg.value.status != LegOpen {
        FinishesAlone(c, p1, now);
        return Failed(State);
      }
      if s.value.origin != leg.value.origin || s.value.destination != leg.value.destination {
        FinishesAlone(c, p1, now);
        return Failed(Invalid);
      }
      ghost var p2 := BookWrite(u.tenantId, id, legId, s.value, leg.value);
      assert Advance(c, p1, now) == (c, p2);
      FinishesAlone(c, p2, now);
      assert Solo(c, p1, now) == Solo(c, p2, now);
      var booked := store.BookShipment(u.tenantId, id, legId, s.value.version, leg.value.version, now);
      if booked.Err? { return Failed(booked.error); }
      return ShipmentReply(booked.value);
    }

    method TransitionShipment(u: User, id: string, next: ShipmentStatus, now: int) returns (r: Reply)
      modifies store
      ensures (store.Contents(), r) == Solo(old(store.Contents()), Begin(TransitionCall(u, id, next), now), now)
    {
      if u.role != Coordinator && u.role != GroundAgent { return Failed(Forbidden); }
      ghost var c := store.Contents();
      ghost var p0 := MoveRead(u.tenantId, id, next);
      var found := store.GetShipment(u.tenantId, id);
      if found.Err? { return Failed(found.error); }
      var s := found.value;
      if !CanTransition(s.status, next) {
        assert Advance(c, p0, now) == (c, Done(Failed(State)));
        return Failed(State);
      }
      ghost var p3 := MoveWrite(next, s);
      FinishesAlone(c, p3, now);
      if s.legId != None && (next == Loaded || next == Departed) {
        var customs := store.GetCustoms(id);
        var sec := store.GetSecurity(id);
        GatedAlone(c, p0, s, now);
        if customs.Err? || sec.Err? || !CustomsAllowsLoading(customs.value) || !SecurityAllowsLoading(sec.value) {
          return Failed(State);
        }
      } else {
        assert Advance(c, p0, now) == (c, p3);
      }
      s := s.(status := next);
      s := s.(updatedAt := now);
      var err := store.UpdateShipment(s, s.version);
      if err != None { return Failed(err.value); }
      return ShipmentReply(s);
    }

    method CreateLeg(u: User, l: FlightLeg, newId: string, now: int) returns (r: Reply)
      modifies store
      ensures (store.Contents(), r) == Solo(old(store.Contents()), Begin(CreateLegCall(u, l, newId), now), now)
    {
      if u.role != Coordinator { return Failed(Forbidden); }
      var v := l.(id := NonEmpty(l.id, newId), tenantId := u.tenantId, status := LegPlanned);
      v := v.(version := 1, createdAt := now);
      if ValidateLeg(v, now) != None { return Failed(Invalid); }
      ghost var c := store.Contents();
      var err := store.CreateLeg(v);
      FinishesAlone(c, LegWrite(v), now);
      if err != None { return Failed(err.value); }
      return LegReply(v);
    }

    method OpenLeg(u: User, id: string, now: int) returns (r: Reply)
      modifies store
      ensures (store.Contents(), r) == Solo(old(store.Contents()), Begin(OpenLegCall(u, id), now), now)
    {
      if u.role != Coordinator { return Failed(Forbidden); }
      ghost var c := store.Contents();
      var found := store.GetLeg(u.tenantId, id);
      if found.Err? { return Failed(found.error); }
      var l := found.value;
      assert Advance(c, OpenRead(u.tenantId, id), now) == (c, OpenWrite(u.tenantId, id, l));
      FinishesAlone(c, OpenWrite(u.tenantId, id, l), now);
      var err := store.UpdateLegStatus(u.tenantId, id, LegOpen, l.version);
      if err != None { return Failed(err.value); }
      l := l.(status := LegOpen);
      l := l.(version := l.version + 1);
      return LegReply(l);
    }

    method PutCustoms(u: User, c: CustomsCase, newId: string, now: int) returns (r: Reply)
      modifies store
      ensures (store.Contents(), r) == Solo(old(store.Contents()), Begin(PutCustomsCall(u, c, newId), now), now)
    {
      if u.role != Coordinator { return Failed(Forbidden); }
      ghost var st := store.Contents();
      ghost var v := c.(id := NonEmpty(c.id, newId));
      var found := store.GetShipment(u.tenantId, c.shipmentId);
      if found.Err? { return Failed(found.error); }
      assert Advance(st, CustomsReadShipment(u.tenantId, v), now) == (st, CustomsRead(v));
      var prior := store.GetCustoms(c.shipmentId);
      if prior.Ok? && !CustomsCanTransition(prior.value.status, c.status) {
        FinishesAlone(st, CustomsRead(v), now);
        return Failed(State);
      }
      assert Advance(st, CustomsRead(v), now) == (st, CustomsWrite(v));
      FinishesAlone(st, CustomsWrite(v), now);
      assert Solo(st, CustomsRead(v), now) == Solo(st, CustomsWrite(v), now);
      var w := c.(id := NonEmpty(c.id, newId));
      w := w.(updatedAt := now);
      store.PutCustoms(w);
      return CustomsReply(w);
    }

    method PutSecurity(u: User, chk: SecurityCheck, newId: string, now: int) returns (r: Reply)
      modifies store
      ensures (store.Contents(), r) == Solo(old(store.Contents()), Begin(PutSecurityCall(u, chk, newId), now), now)
    {
      if u.role != GroundAgent && u.role != Coordinator { return Failed(Forbidden); }
      ghost var st := store.Contents();
      var found := store.GetShipment(u.tenantId, chk.shipmentId);
      if found.Err? { return Failed(found.error); }
      var v := chk.(id := NonEmpty(chk.id, newId));
      assert Advance(st, SecurityReadShipment(u.tenantId, u.id, v), now) == (st, SecurityWrite(u.id, v));
      FinishesAlone(st, SecurityWrite(u.id, v), now);
      if v.status == SecurityPassed {
        v := v.(checkedAt := Some(now), officerId := Some(u.id));
      }
      store.PutSecurity(v);
      return SecurityReply(v);
    }
  }
}
