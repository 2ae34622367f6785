/** The cargo records and the pure rules over them (internal/domain). */
module Domain {
  import opened Int64

  datatype Option<+T> = None | Some(value: T)
  datatype Error = NotFound | Conflict | Forbidden | Invalid | Expired | Revoked | Capacity | State
  datatype Result<+T> = Ok(value: T) | Err(error: Error)

  /** Statuses and roles are open strings in the system, so each has a case for every other text. */
  datatype Role = Shipper | Coordinator | GroundAgent | OtherRole(text: string)
  datatype ShipmentStatus =
    | Draft | Booked | Screening | Cleared | Loaded | Departed | Cancelled | OtherShipment(text: string)
  datatype LegStatus = LegPlanned | LegOpen | LegBoarding | LegDeparted | LegClosed | OtherLeg(text: string)
  datatype CustomsStatus = CustomsPending | CustomsReview | CustomsReleased | CustomsHeld | OtherCustoms(text: string)
  datatype SecurityStatus = SecurityPending | SecurityPassed | SecurityFailed | OtherSecurity(text: string)

  datatype User = User(id: string, tenantId: string, email: string, passwordHash: seq<int>, role: Role, active: bool,
                       createdAt: int, deactivatedAt: Option<int>)
  datatype Session = Session(id: string, userId: string, tokenHash: string, expiresAt: int, revokedAt: Option<int>,
                             createdAt: int)
  datatype Shipment = Shipment(id: string, tenantId: string, reference: string, origin: string, destination: string,
                               weightKg: int64, pieces: int, status: ShipmentStatus, legId: Option<string>,
                               idempotencyKey: string, version: int, createdAt: int, updatedAt: int)
  datatype FlightLeg = FlightLeg(id: string, tenantId: string, flightNumber: string, origin: string,
                                 destination: string, departureAt: int, arrivalAt: int, capacityKg: int64,
                                 reservedKg: int64, status: LegStatus, version: int, createdAt: int)
  datatype CustomsCase = CustomsCase(id: string, shipmentId: string, status: CustomsStatus, documentRef: string,
                                     reviewedBy: Option<string>, updatedAt: int)
  datatype SecurityCheck = SecurityCheck(id: string, shipmentId: string, status: SecurityStatus,
                                         officerId: Option<string>, notes: string, checkedAt: Option<int>)

  predicate CanTransition(from: ShipmentStatus, next: ShipmentStatus) {
    match from
    case Draft => next == Booked || next == Cancelled
    case Booked => next == Screening || next == Cancelled
    case Screening => next == Cleared || next == Cancelled
    case Cleared => next == Loaded || next == Cancelled
    case Loaded => next == Departed
    case Departed => false
    case Cancelled => false
    case OtherShipment(_) => false
  }

  predicate LegCanTransition(from: LegStatus, next: LegStatus) {
    match from
    case LegPlanned => next == LegOpen
    case LegOpen => next == LegBoarding || next == LegClosed
    case LegBoarding => next == LegDeparted || next == LegClosed
    case LegDeparted => next == LegClosed
    case LegClosed => false
    case OtherLeg(_) => false
  }

  predicate CustomsCanTransition(from: CustomsStatus, next: CustomsStatus) {
    match from
    case CustomsPending => next == CustomsReview || next == CustomsHeld
    case CustomsReview => next == CustomsReleased || next == CustomsHeld
    case CustomsHeld => next == CustomsReview
    case CustomsReleased => false
    case OtherCustoms(_) => false
  }

  /** No part of the system consults this graph; CaseGraph says what follows. */
  predicate SecurityCanTransition(from: SecurityStatus, next: SecurityStatus) {
    match from
    case SecurityPending => next == SecurityPassed || next == SecurityFailed
    case SecurityFailed => next == SecurityPending
    case SecurityPassed => false
    case OtherSecurity(_) => false
  }

  function ValidateShipment(s: Shipment): Option<Error> {
    if s.tenantId == "" || s.reference == "" || s.origin == "" || s.destination == ""
       || s.weightKg <= 0 || s.pieces <= 0
    then Some(Invalid)
    else if s.origin == s.destination then Some(Invalid)
    else None
  }

  function ValidateLeg(l: FlightLeg, now: int): Option<Error> {
    if l.tenantId == "" || l.flightNumber == "" || l.origin == "" || l.destination == "" || l.capacityKg <= 0
       || l.departureAt <= now || l.arrivalAt <= l.departureAt
    then Some(Invalid)
    else None
  }

  /** The addition happens in 64 bits before the comparison. */
  function ValidateCapacity(l: FlightLeg, weight: int64): Option<Error> {
    if weight <= 0 || l.reservedKg < 0 || Wrap(l.reservedKg + weight) > l.capacityKg then Some(Capacity) else None
  }

  predicate CustomsAllowsLoading(c: CustomsCase) { c.status == CustomsReleased }

  predicate SecurityAllowsLoading(s: SecurityCheck) { s.status == SecurityPassed }

  function IsSessionActive(s: Session, now: int): Option<Error> {
    if s.revokedAt != None then Some(Revoked)
    else if s.expiresAt <= now then Some(Expired)
    else None
  }

  /** How far along the main line draft, booked, ..., departed a status is. */
  function Rank(s: ShipmentStatus): (r: int)
    ensures s != Cancelled && !s.OtherShipment? <==> 0 <= r <= 5
  {
    match s
    case Draft => 0
    case Booked => 1
    case Screening => 2
    case Cleared => 3
    case Loaded => 4
    case Departed => 5
    case Cancelled => -1
    case OtherShipment(_) => -2
  }

  /** An almost empty leg of ten kilos accepts a shipment of 2^63-1 kilos, and its reservation turns negative. */
  lemma CapacityCheckOverflows(l: FlightLeg)
    requires l.capacityKg == 10 && l.reservedKg == 1
    ensures ValidateCapacity(l, MAX) == None && Wrap(l.reservedKg + MAX) < 0
  {
    WrapSame(1 + MAX, MIN, 1);
  }
}
