/** The cargo part of the in-memory store: each operation is one critical section (internal/repository/memory). */
module CargoStore {
  import opened Domain
  import opened Int64
  import opened JoinedKey

  datatype Cargo = Cargo(
    shipments: map<string, Shipment>,
    idem: map<string, string>,
    legs: map<string, FlightLeg>,
    customs: map<string, CustomsCase>,
    security: map<string, SecurityCheck>)
  {
    function CreateShipment(v: Shipment): (Cargo, Option<Error>) {
      var key := JoinKey(v.tenantId, v.idempotencyKey);
      if v.idempotencyKey != "" && key in idem then
        (this, if idem[key] == v.id then None else Some(Conflict))
      else if v.id in shipments then (this, Some(Conflict))
      else
        var index := if v.idempotencyKey != "" then idem[key := v.id] else idem;
        (this.(shipments := shipments[v.id := v], idem := index), None)
    }

    function GetShipment(tenant: string, id: string): Result<Shipment> {
      if id in shipments && shipments[id].tenantId == tenant then Ok(shipments[id]) else Err(NotFound)
    }

    function UpdateShipment(v: Shipment, version: int): (Cargo, Option<Error>) {
      if v.id !in shipments then (this, Some(NotFound))
      else if shipments[v.id].version != version then (this, Some(Conflict))
      else (this.(shipments := shipments[v.id := v.(version := version + 1)]), None)
    }

    /** A key that points at no shipment reads as the zero record; IndexSound in IdempotencyIndex excludes that. */
    function FindByIdempotency(tenant: string, key: string): Result<Shipment> {
      var k := JoinKey(tenant, key);
      if k !in idem then Err(NotFound)
      else if idem[k] in shipments then Ok(shipments[idem[k]])
      else Ok(ZeroShipment())
    }

    function CreateLeg(v: FlightLeg): (Cargo, Option<Error>) {
      if v.id in legs then (this, Some(Conflict)) else (this.(legs := legs[v.id := v]), None)
    }

    function GetLeg(tenant: string, id: string): Result<FlightLeg> {
      if id in legs && legs[id].tenantId == tenant then Ok(legs[id]) else Err(NotFound)
    }

    function Reserved(l: FlightLeg, weight: int64): FlightLeg {
      l.(reservedKg := Wrap(l.reservedKg + weight), version := l.version + 1)
    }

    function ReserveCapacity(tenant: string, id: string, weight: int64, version: int): (Cargo, Option<Error>) {
      match GetLeg(tenant, id)
      case Err(e) => (this, Some(e))
      case Ok(v) =>
        if v.version != version then (this, Some(Conflict))
        else if ValidateCapacity(v, weight) != None then (this, ValidateCapacity(v, weight))
        else (this.(legs := legs[id := Reserved(v, weight)]), None)
    }

    function UpdateLegStatus(tenant: string, id: string, status: LegStatus, version: int): (Cargo, Option<Error>) {
      match GetLeg(tenant, id)
      case Err(e) => (this, Some(e))
      case Ok(v) =>
        if v.version != version then (this, Some(Conflict))
        else if !LegCanTransition(v.status, status) then (this, Some(State))
        else (this.(legs := legs[id := v.(status := status, version := v.version + 1)]), None)
    }

    function BookShipment(tenant: string, id: string, legId: string, sv: int, lv: int, at: int):
      (Cargo, Result<Shipment>)
    {
      match GetShipment(tenant, id)
      case Err(e) => (this, Err(e))
      case Ok(s) =>
        match GetLeg(tenant, legId)
        case Err(e) => (this, Err(e))
        case Ok(l) =>
          if s.version != sv || l.version != lv then (this, Err(Conflict))
          else if !CanTransition(s.status, Booked) || l.status != LegOpen then (this, Err(State))
          else if s.origin != l.origin || s.destination != l.destination then (this, Err(Invalid))
          else if ValidateCapacity(l, s.weightKg) != None then (this, Err(Capacity))
          else
            var b := s.(status := Booked, legId := Some(legId), updatedAt := at, version := s.version + 1);
            (this.(legs := legs[legId := Reserved(l, s.weightKg)], shipments := shipments[id := b]), Ok(b))
    }

    function GetCustoms(id: string): Result<CustomsCase> {
      if id in customs then Ok(customs[id]) else Err(NotFound)
    }

    function GetSecurity(id: string): Result<SecurityCheck> {
      if id in security then Ok(security[id]) else Err(NotFound)
    }

    /** Cases and checks are filed under their own id, though they are looked up by shipment. */
    function PutCustoms(v: CustomsCase): Cargo {
      this.(customs := customs[v.id := v])
    }

    function PutSecurity(v: SecurityCheck): Cargo {
      this.(security := security[v.id := v])
    }
  }

  function ZeroShipment(): Shipment {
    Shipment("", "", "", "", "", 0, 0, OtherShipment(""), None, "", 0, 0, 0)
  }

  /** The store itself: maps that the operations update in place. */
  class Store {
    var shipments: map<string, Shipment>
    var idem: map<string, string>
    var legs: map<string, FlightLeg>
    var customs: map<string, CustomsCase>
    var security: map<string, SecurityCheck>

    ghost function Contents(): Cargo
      reads this
    {
      Cargo(shipments, idem, legs, customs, security)
    }

    constructor ()
      ensures Contents() == Cargo(map[], map[], map[], map[], map[])
    {
      shipments, idem, legs, customs, security := map[], map[], map[], map[], map[];
    }

    method CreateShipment(v: Shipment) returns (err: Option<Error>)
      modifies this
      ensures (Contents(), err) == old(Contents()).CreateShipment(v)
    {
      var key := JoinKey(v.tenantId, v.idempotencyKey);
      if v.idempotencyKey != "" {
        if key in idem {
          if idem[key] == v.id { return None; }
          return Some(Conflict);
        }
      }
      if v.id in shipments { return Some(Conflict); }
      shipments := shipments[v.id := v];
      if v.idempotencyKey != "" {
        idem := idem[key := v.id];
      }
      return None;
    }

    method GetShipment(tenant: string, id: string) returns (r: Result<Shipment>)
      ensures r == Contents().GetShipment(tenant, id)
    {
      if id !in shipments || shipments[id].tenantId != tenant { return Err(NotFound); }
      return Ok(shipments[id]);
    }

    method UpdateShipment(v: Shipment, version: int) returns (err: Option<Error>)
      modifies this
      ensures (Contents(), err) == old(Contents()).UpdateShipment(v, version)
    {
      if v.id !in shipments { return Some(NotFound); }
      if shipments[v.id].version != version { return Some(Conflict); }
      shipments := shipments[v.id := v.(version := version + 1)];
      return None;
    }

    method FindByIdempotency(tenant: string, key: string) returns (r: Result<Shipment>)
      ensures r == Contents().FindByIdempotency(tenant, key)
    {
      var k := JoinKey(tenant, key);
      if k !in idem { return Err(NotFound); }
      if idem[k] !in shipments { return Ok(ZeroShipment()); }
      return Ok(shipments[idem[k]]);
    }

    method CreateLeg(v: FlightLeg) returns (err: Option<Error>)
      modifies this
      ensures (Contents(), err) == old(Contents()).CreateLeg(v)
    {
      if v.id in legs { return Some(Conflict); }
      legs := legs[v.id := v];
      return None;
    }

    method GetLeg(tenant: string, id: string) returns (r: Result<FlightLeg>)
      ensures r == Contents().GetLeg(tenant, id)
    {
      if id !in legs || legs[id].tenantId != tenant { return Err(NotFound); }
      return Ok(legs[id]);
    }

    method ReserveCapacity(tenant: string, id: string, weight: int64, version: int) returns (err: Option<Error>)
      modifies this
      ensures (Contents(), err) == old(Contents()).ReserveCapacity(tenant, id, weight, version)
    {
      if id !in legs || legs[id].tenantId != tenant { return Some(NotFound); }
      var v := legs[id];
      if v.version != version { return Some(Conflict); }
      err := ValidateCapacity(v, weight);
      if err != None { return; }
      v := v.(reservedKg := Wrap(v.reservedKg + weight));
      v := v.(version := v.version + 1);
      legs := legs[id := v];
    }

    method UpdateLegStatus(tenant: string, id: string, status: LegStatus, version: int) returns (err: Option<Error>)
      modifies this
      ensures (Contents(), err) == old(Contents()).UpdateLegStatus(tenant, id, status, version)
    {
      if id !in legs || legs[id].tenantId != tenant { return Some(NotFound); }
      var v := legs[id];
      if v.version != version { return Some(Conflict); }
      if !LegCanTransition(v.status, status) { return Some(State); }
      v := v.(status := status);
      v := v.(version := v.version + 1);
      legs := legs[id := v];
      return None;
    }

    method BookShipment(tenant: string, id: string, legId: string, sv: int, lv: int, at: int)
      returns (r: Result<Shipment>)
      modifies this
      ensures (Contents(), r) == old(Contents()).BookShipment(tenant, id, legId, sv, lv, at)
    {
      if id !in shipments || shipments[id].tenantId != tenant { return Err(NotFound); }
      var shipment := shipments[id];
      if legId !in legs || legs[legId].tenantId != tenant { return Err(NotFound); }
      var leg := legs[legId];
      if shipment.version != sv || leg.version != lv { return Err(Conflict); }
      if !CanTransition(shipment.status, Booked) || leg.status != LegOpen { return Err(State); }
      if shipment.origin != leg.origin || shipment.destination != leg.destination { return Err(Invalid); }
      if ValidateCapacity(leg, shipment.weightKg) != None { return Err(Capacity); }
      leg := leg.(reservedKg := Wrap(leg.reservedKg + shipment.weightKg));
      leg := leg.(version := leg.version + 1);
      shipment := shipment.(status := Booked);
      shipment := shipment.(legId := Some(legId));
      shipment := shipment.(updatedAt := at);
      shipment := shipment.(version := shipment.version + 1);
      legs := legs[legId := leg];
      shipments := shipments[id := shipment];
      return Ok(shipment);
    }

    method GetCustoms(id: string) returns (r: Result<CustomsCase>)
      ensures r == Contents().GetCustoms(id)
    {
      if id !in customs { return Err(NotFound); }
      return Ok(customs[id]);
    }

    method PutCustoms(v: CustomsCase)
      modifies this
      ensures Contents() == old(Contents()).PutCustoms(v)
    {
      customs := customs[v.id := v];
    }

    method GetSecurity(id: string) returns (r: Result<SecurityCheck>)
      ensures r == Contents().GetSecurity(id)
    {
      if id !in security { return Err(NotFound); }
      return Ok(security[id]);
    }

    method PutSecurity(v: SecurityCheck)
      modifies this
      ensures Contents() == old(Contents()).PutSecurity(v)
    {
      security := security[v.id := v];
    }
  }
}
