/** The booking ledger: reservations and releases against the capacity of a leg. */
module BookingLedger {
  import opened Domain
  import opened Int64
  import opened Totals

  datatype Request = Request(tenantId: string, shipmentId: string, legId: string, weightKg: int64, priority: int,
                             requestedAt: int)
  datatype Allocation = Allocation(id: string, request: Request, accepted: bool, reason: string, createdAt: int)

  /** Reading a missing key of a Go map yields zero. */
  function Entry(m: map<string, int64>, k: string): int64 {
    if k in m then m[k] else 0
  }

  datatype Books = Books(capacity: map<string, int64>, reserved: map<string, int64>,
                         allocations: map<string, Allocation>)
  {
    function DefineLeg(id: string, cap: int64): (Books, Option<Error>) {
      if id == "" || cap <= 0 then (this, Some(Invalid))
      else if id in capacity then (this, Some(Conflict))
      else (this.(capacity := capacity[id := cap], reserved := reserved[id := 0]), None)
    }

    /** The allocation id, made of the shipment and the clock, is an argument. */
    function Reserve(r: Request, id: string, now: int): (Books, Allocation, Option<Error>) {
      if r.legId == "" || r.weightKg <= 0 then (this, ZeroAllocation(), Some(Invalid))
      else if r.legId !in capacity then (this, ZeroAllocation(), Some(NotFound))
      else if Wrap(Entry(reserved, r.legId) + r.weightKg) > capacity[r.legId] then
        (this, Allocation("", r, false, "capacity", now), Some(Capacity))
      else
        var a := Allocation(id, r, true, "", now);
        (this.(reserved := reserved[r.legId := Wrap(Entry(reserved, r.legId) + r.weightKg)],
               allocations := allocations[id := a]), a, None)
    }

    function Release(id: string): (Books, Option<Error>) {
      if id !in allocations then (this, Some(NotFound))
      else if !allocations[id].accepted then (this, None)
      else
        var a := allocations[id];
        var leg := a.request.legId;
        (this.(reserved := reserved[leg := Wrap(Entry(reserved, leg) - a.request.weightKg)],
               allocations := allocations[id := a.(accepted := false, reason := "released")]), None)
    }

    function Available(id: string): Result<int64> {
      if id in capacity then Ok(Wrap(capacity[id] - Entry(reserved, id))) else Err(NotFound)
    }
  }

  function ZeroAllocation(): Allocation {
    Allocation("", Request("", "", "", 0, 0, 0), false, "", 0)
  }

  datatype Fault = Rejected(error: Error) | ContextDone

  class Ledger {
    var capacity: map<string, int64>
    var reserved: map<string, int64>
    var allocations: map<string, Allocation>

    ghost function Contents(): Books
      reads this
    {
      Books(capacity, reserved, allocations)
    }

    constructor ()
      ensures Contents() == Books(map[], map[], map[])
    {
      capacity, reserved, allocations := map[], map[], map[];
    }

    method DefineLeg(id: string, cap: int64) returns (err: Option<Error>)
      modifies this
      ensures (Contents(), err) == old(Contents()).DefineLeg(id, cap)
    {
      if id == "" || cap <= 0 { return Some(Invalid); }
      if id in capacity { return Some(Conflict); }
      capacity := capacity[id := cap];
      reserved := reserved[id := 0];
      return None;
    }

    method Reserve(ctxDone: bool, r: Request, id: string, now: int) returns (a: Allocation, fault: Option<Fault>)
      modifies this
      ensures ctxDone ==> Contents() == old(Contents()) && a == ZeroAllocation() && fault == Some(ContextDone)
      ensures !ctxDone ==>
                var (after, alloc, err) := old(Contents()).Reserve(r, id, now);
                Contents() == after && a == alloc && fault == if err == None then None else Some(Rejected(err.value))
    {
      if ctxDone { return ZeroAllocation(), Some(ContextDone); }
      if r.legId == "" || r.weightKg <= 0 { return ZeroAllocation(), Some(Rejected(Invalid)); }
      if r.legId !in capacity { return ZeroAllocation(), Some(Rejected(NotFound)); }
      if Wrap(Entry(reserved, r.legId) + r.weightKg) > capacity[r.legId] {
        return Allocation("", r, false, "capacity", now), Some(Rejected(Capacity));
      }
      a := Allocation(id, r, true, "", now);
      reserved := reserved[r.legId := Wrap(Entry(reserved, r.legId) + r.weightKg)];
      allocations := allocations[id := a];
      return a, None;
    }

    method Release(id: string) returns (err: Option<Error>)
      modifies this
      ensures (Contents(), err) == old(Contents()).Release(id)
    {
      if id !in allocations { return Some(NotFound); }
      var a := allocations[id];
      if !a.accepted { return None; }
      reserved := reserved[a.request.legId := Wrap(Entry(reserved, a.request.legId) - a.request.weightKg)];
      a := a.(accepted := false);
      a := a.(reason := "released");
      allocations := allocations[id := a];
      return None;
    }

    method Available(id: string) returns (r: Result<int64>)
      ensures r == Contents().Available(id)
    {
      if id !in capacity { return Err(NotFound); }
      return Ok(Wrap(capacity[id] - Entry(reserved, id)));
    }
  }

  // ---------- what is reserved ----------

  /** What an allocation contributes to a leg while it is accepted. */
  function OnLeg(leg: string): Allocation -> int {
    (a: Allocation) => if a.accepted && a.request.legId == leg then a.request.weightKg else 0
  }

  /** The weight of the accepted allocations of a leg. */
  ghost function Held(allocs: map<string, Allocation>, leg: string): int {
    Sum(allocs, OnLeg(leg))
  }

  ghost predicate Sound(b: Books) {
    && b.reserved.Keys == b.capacity.Keys
    && (forall id :: id in b.allocations && b.allocations[id].accepted ==>
          b.allocations[id].request.legId in b.capacity && b.allocations[id].request.weightKg > 0)
  }

  /** Every leg's reservation is exactly the weight of its accepted allocations, and within 0..capacity. */
  ghost predicate Exact(b: Books) {
    forall leg :: leg in b.capacity ==> Entry(b.reserved, leg) == Held(b.allocations, leg) <= b.capacity[leg]
  }

  lemma HeldNonNegative(b: Books, leg: string)
    requires Sound(b)
    ensures Held(b.allocations, leg) >= 0
  {
    SumNonNegative(b.allocations, OnLeg(leg));
  }

  // ---------- any sequence of operations ----------

  datatype Op = Define(leg: string, cap: int64) | Reserve(r: Request, id: string, now: int) | Release(id: string)

  function Do(b: Books, op: Op): Books {
    match op
    case Define(leg, cap) => b.DefineLeg(leg, cap).0
    case Reserve(r, id, now) => b.Reserve(r, id, now).0
    case Release(id) => b.Release(id).0
  }

  const EMPTY := Books(map[], map[], map[])

  function After(ops: seq<Op>): Books {
    if ops == [] then EMPTY else Do(After(ops[..|ops| - 1]), ops[|ops| - 1])
  }

  /**
   * What the callers and the clock must see to: no accepted allocation is overwritten, and no sum overflows 64
   * bits.
   */
  ghost predicate Clean(b: Books, op: Op) {
    op.Reserve? && b.Reserve(op.r, op.id, op.now).2 == None ==>
      && (op.id in b.allocations ==> !b.allocations[op.id].accepted)
      && Entry(b.reserved, op.r.legId) + op.r.weightKg <= MAX
  }

  lemma DoKeepsSound(b: Books, op: Op)
    requires Sound(b)
    ensures Sound(Do(b, op))
  {
  }

  lemma {:induction false} AlwaysSound(ops: seq<Op>)
    ensures Sound(After(ops))
  {
    if ops != [] {
      AlwaysSound(ops[..|ops| - 1]);
      DoKeepsSound(After(ops[..|ops| - 1]), ops[|ops| - 1]);
    }
  }

  lemma DefineExact(b: Books, leg: string, cap: int64)
    requires Sound(b) && Exact(b)
    ensures Exact(b.DefineLeg(leg, cap).0)
  {
    if b.DefineLeg(leg, cap).1 == None {
      SumOfNothing(b.allocations, OnLeg(leg));
    }
  }

  lemma ReleaseExact(b: Books, id: string)
    requires Sound(b) && Exact(b)
    ensures Exact(b.Release(id).0)
  {
    var d := b.Release(id).0;
    if d != b {
      forall leg | leg in d.capacity ensures Entry(d.reserved, leg) == Held(d.allocations, leg) <= d.capacity[leg] {
        SumPut(b.allocations, id, d.allocations[id], OnLeg(leg));
        DoKeepsSound(b, Release(id));
        HeldNonNegative(d, leg);
      }
    }
  }

  /** An accepted reservation, spelled out. */
  ghost predicate Adds(b: Books, r: Request, id: string, a: Allocation, d: Books) {
    && r.legId in b.capacity && r.weightKg > 0 && a.accepted && a.request == r && d.capacity == b.capacity
    && d.allocations == b.allocations[id := a]
    && d.reserved == b.reserved[r.legId := Wrap(Entry(b.reserved, r.legId) + r.weightKg)]
    && Wrap(Entry(b.reserved, r.legId) + r.weightKg) <= b.capacity[r.legId]
  }

  lemma FreshReserveExact(b: Books, r: Request, id: string, a: Allocation, d: Books)
    requires Exact(b) && Adds(b, r, id, a, d) && Held(b.allocations, r.legId) >= 0
    requires id in b.allocations ==> !b.allocations[id].accepted
    ensures Exact(d) <==> Entry(b.reserved, r.legId) + r.weightKg <= MAX
  {
    var sum := Entry(b.reserved, r.legId) + r.weightKg;
    SumPut(b.allocations, id, a, OnLeg(r.legId));
    if sum > MAX {
      WrapSame(sum, sum - WIDTH, 1);
      assert r.legId in d.capacity && Entry(d.reserved, r.legId) != Held(d.allocations, r.legId);
    } else {
      forall leg | leg in d.capacity ensures Entry(d.reserved, leg) == Held(d.allocations, leg) <= d.capacity[leg] {
        SumPut(b.allocations, id, a, OnLeg(leg));
      }
    }
  }

  lemma OverwriteMiscounts(sum: int, prior: int64)
    requires 0 <= sum <= MAX + MAX && prior > 0
    ensures Wrap(sum) != sum - prior
  {
    if sum > MAX { WrapSame(sum, sum - WIDTH, 1); }
  }

  /** Overwriting an accepted allocation leaves its weight reserved for good. */
  lemma OverwriteNotExact(b: Books, r: Request, id: string, a: Allocation, d: Books)
    requires Exact(b) && Adds(b, r, id, a, d) && Held(b.allocations, r.legId) >= 0
    requires id in b.allocations && b.allocations[id].accepted
    requires b.allocations[id].request.legId in b.capacity && b.allocations[id].request.weightKg > 0
    ensures !Exact(d)
  {
    var leg, w := b.allocations[id].request.legId, b.allocations[id].request.weightKg;
    SumPut(b.allocations, id, a, OnLeg(leg));
    assert Held(d.allocations, leg) == Entry(b.reserved, leg) + OnLeg(leg)(a) - w;
    if leg == r.legId {
      OverwriteMiscounts(Entry(b.reserved, leg) + r.weightKg, w);
    }
    assert leg in d.capacity && Entry(d.reserved, leg) != Held(d.allocations, leg);
  }

  lemma AcceptedReserve(b: Books, r: Request, id: string, now: int)
    requires b.Reserve(r, id, now).2 == None
    ensures var (d, a, _) := b.Reserve(r, id, now); Adds(b, r, id, a, d)
  {
  }

  lemma ReserveExact(b: Books, r: Request, id: string, now: int)
    requires Sound(b) && Exact(b)
    ensures Exact(b.Reserve(r, id, now).0) <==> Clean(b, Reserve(r, id, now))
  {
    var (d, a, err) := b.Reserve(r, id, now);
    if err == None {
      HeldNonNegative(b, r.legId);
      AcceptedReserve(b, r, id, now);
      if id in b.allocations && b.allocations[id].accepted {
        OverwriteNotExact(b, r, id, a, d);
      } else {
        FreshReserveExact(b, r, id, a, d);
      }
    }
  }

  lemma DoExact(b: Books, op: Op)
    requires Sound(b) && Exact(b)
    ensures Exact(Do(b, op)) <==> Clean(b, op)
  {
    match op
    case Define(leg, cap) => DefineExact(b, leg, cap);
    case Reserve(r, id, now) => ReserveExact(b, r, id, now);
    case Release(id) => ReleaseExact(b, id);
  }

  /** At every moment of the history the books are exact; every operation was clean when it was made. */
  ghost predicate ExactThroughout(ops: seq<Op>) {
    Exact(After(ops)) && (ops != [] ==> ExactThroughout(ops[..|ops| - 1]))
  }

  ghost predicate CleanThroughout(ops: seq<Op>) {
    ops != [] ==> CleanThroughout(ops[..|ops| - 1]) && Clean(After(ops[..|ops| - 1]), ops[|ops| - 1])
  }

  /**
   * Through every history, each leg's reservation equals the sum of its accepted allocations, within 0..capacity, at
   * every moment if and only if every operation was clean.
   */
  lemma {:induction false} ExactExactlyWhenClean(ops: seq<Op>)
    ensures ExactThroughout(ops) <==> CleanThroughout(ops)
  {
    if ops != [] {
      var init := ops[..|ops| - 1];
      ExactExactlyWhenClean(init);
      AlwaysSound(init);
      if ExactThroughout(init) {
        DoExact(After(init), ops[|ops| - 1]);
      }
    }
  }

  // ---------- what is left, and who gets it ----------

  /** Available answers the capacity less the weight of the accepted allocations, between nothing and all of it. */
  lemma AvailableIsWhatIsLeft(b: Books, leg: string)
    requires Sound(b) && Exact(b) && leg in b.capacity
    ensures b.Available(leg) == Ok(b.capacity[leg] - Held(b.allocations, leg))
    ensures 0 <= b.capacity[leg] - Held(b.allocations, leg) <= b.capacity[leg]
  {
    HeldNonNegative(b, leg);
  }

  /** Every defined leg tells what is left of it, and no other leg is known. */
  ghost predicate Tells(b: Books) {
    forall leg ::
      b.Available(leg) == (if leg !in b.capacity then Err(NotFound) else Ok(b.capacity[leg] - Held(b.allocations, leg)))
      && (leg in b.capacity ==> 0 <= b.capacity[leg] - Held(b.allocations, leg) <= b.capacity[leg])
  }

  lemma SoundBooksTell(b: Books)
    requires Sound(b) && Exact(b)
    ensures Tells(b)
  {
    forall leg
      ensures b.Available(leg)
           == (if leg !in b.capacity then Err(NotFound) else Ok(b.capacity[leg] - Held(b.allocations, leg)))
      ensures leg in b.capacity ==> 0 <= b.capacity[leg] - Held(b.allocations, leg) <= b.capacity[leg]
    {
      if leg in b.capacity { AvailableIsWhatIsLeft(b, leg); }
    }
  }

  /** So it is after every clean history. */
  lemma AvailableAfterCleanHistory(ops: seq<Op>)
    requires CleanThroughout(ops)
    ensures Tells(After(ops))
  {
    ExactExactlyWhenClean(ops);
    AlwaysSound(ops);
    SoundBooksTell(After(ops));
  }

  lemma RoomExactly(reserved: int64, cap: int64, weight: int64)
    requires 0 <= reserved <= cap && weight > 0
    ensures Wrap(reserved + weight) <= cap <==> weight <= cap - reserved || reserved + weight > 0x7FFF_FFFF_FFFF_FFFF
  {
    var sum := reserved + weight;
    if sum > MAX { WrapSame(sum, sum - WIDTH, 1); }
  }

  /**
   * A request for a defined leg gets its weight exactly when it asks for at most what is available - or for so much
   * that the 64-bit sum goes round.
   */
  lemma RequestAnswers(b: Books, r: Request, id: string, now: int)
    requires Sound(b) && Exact(b)
    ensures var (d, a, err) := b.Reserve(r, id, now);
            var sane := r.legId != "" && r.weightKg > 0;
            var fits := r.legId in b.capacity &&
                        (r.weightKg <= b.Available(r.legId).value
                         || Held(b.allocations, r.legId) + r.weightKg > 0x7FFF_FFFF_FFFF_FFFF);
            && (err == Some(Invalid) <==> !sane)
            && (err == Some(NotFound) <==> sane && r.legId !in b.capacity)
            && (err == Some(Capacity) <==> sane && r.legId in b.capacity && !fits)
            && (err == None <==> sane && fits)
            && (err != None ==> d == b && !a.accepted)
            && (err == None ==>
                  && a == Allocation(id, r, true, "", now) && d.capacity == b.capacity
                  && d.allocations == b.allocations[id := a])
  {
    if r.legId in b.capacity && r.weightKg > 0 {
      AvailableIsWhatIsLeft(b, r.legId);
      RoomExactly(Entry(b.reserved, r.legId), b.capacity[r.legId], r.weightKg);
    }
  }

  lemma AddsHeld(b: Books, r: Request, id: string, a: Allocation, d: Books, leg: string)
    requires Adds(b, r, id, a, d) && (id in b.allocations ==> !b.allocations[id].accepted)
    ensures Held(d.allocations, leg) == Held(b.allocations, leg) + if leg == r.legId then r.weightKg else 0
  {
    SumPut(b.allocations, id, a, OnLeg(leg));
  }

  ghost predicate Good(b: Books) {
    Sound(b) && Exact(b)
  }

  lemma LeftMoves(b: Books, d: Books, leg: string, gain: int)
    requires Good(b) && Good(d) && leg in b.capacity && d.capacity == b.capacity
    requires Held(d.allocations, leg) == Held(b.allocations, leg) - gain
    ensures b.Available(leg).Ok? && d.Available(leg).Ok? && d.Available(leg).value == b.Available(leg).value + gain
  {
    AvailableIsWhatIsLeft(b, leg);
    AvailableIsWhatIsLeft(d, leg);
  }

  lemma DoKeepsGood(b: Books, op: Op)
    requires Good(b) && Clean(b, op)
    ensures Good(Do(b, op))
  {
    DoExact(b, op);
    DoKeepsSound(b, op);
  }

  /** A clean reservation takes its weight from what is available on its leg, and from no other leg. */
  lemma ReservationTakes(b: Books, r: Request, id: string, now: int, leg: string)
    requires Good(b) && Clean(b, Reserve(r, id, now)) && b.Reserve(r, id, now).2 == None && leg in b.capacity
    ensures b.Available(leg).Ok?
    ensures b.Reserve(r, id, now).0.Available(leg)
         == Ok(b.Available(leg).value - if leg == r.legId then r.weightKg else 0)
  {
    var (d, a, _) := b.Reserve(r, id, now);
    DoKeepsGood(b, Reserve(r, id, now));
    AcceptedReserve(b, r, id, now);
    AddsHeld(b, r, id, a, d, leg);
    LeftMoves(b, d, leg, -(if leg == r.legId then r.weightKg else 0));
  }

  /** What a release of this id gives back to the leg. */
  function Gain(b: Books, id: string, leg: string): int {
    if id in b.allocations && b.allocations[id].accepted && b.allocations[id].request.legId == leg
    then b.allocations[id].request.weightKg else 0
  }

  /** Every reservation lies between nothing and the capacity. */
  ghost predicate InBounds(b: Books) {
    forall leg :: leg in b.capacity ==> 0 <= Entry(b.reserved, leg) <= b.capacity[leg]
  }

  lemma GoodInBounds(b: Books)
    requires Good(b)
    ensures InBounds(b)
  {
    forall leg | leg in b.capacity ensures 0 <= Entry(b.reserved, leg) <= b.capacity[leg] {
      HeldNonNegative(b, leg);
    }
  }

  lemma ReleasedInBounds(b: Books, id: string, leg: string)
    requires InBounds(b) && InBounds(b.Release(id).0) && leg in b.capacity
    ensures b.Available(leg).Ok? && b.Release(id).0.Available(leg) == Ok(b.Available(leg).value + Gain(b, id, leg))
  {
    assert leg in b.Release(id).0.capacity;
    if Gain(b, id, leg) != 0 {
      var reserved, w := Entry(b.reserved, leg), b.allocations[id].request.weightKg;
      assert Entry(b.Release(id).0.reserved, leg) == Wrap(reserved - w);
      if reserved - w > MAX { WrapSame(reserved - w, reserved - w - WIDTH, 1); }
    }
  }

  /** A release is not-found exactly when the id is unknown; of an accepted allocation it gives its weight back. */
  lemma ReleaseGivesBack(b: Books, id: string, leg: string)
    requires Good(b) && leg in b.capacity
    ensures b.Release(id).1 == if id in b.allocations then None else Some(NotFound)
    ensures b.Available(leg).Ok? && b.Release(id).0.Available(leg) == Ok(b.Available(leg).value + Gain(b, id, leg))
  {
    DoKeepsGood(b, Release(id));
    GoodInBounds(b);
    GoodInBounds(b.Release(id).0);
    ReleasedInBounds(b, id, leg);
  }

  /** A leg is defined once, with a positive capacity, all of it available. */
  lemma DefinitionAnswers(b: Books, id: string, cap: int64)
    ensures var (d, err) := b.DefineLeg(id, cap);
            && (err == Some(Invalid) <==> id == "" || cap <= 0)
            && (err == Some(Conflict) <==> id != "" && cap > 0 && id in b.capacity)
            && (err == None <==> id != "" && cap > 0 && id !in b.capacity)
            && (err != None ==> d == b)
            && (err == None ==> d.Available(id) == Ok(cap) && d.allocations == b.allocations
                                && forall leg :: leg != id ==> d.Available(leg) == b.Available(leg))
  {
  }

  // ---------- each way to be unclean occurs ----------

  const ONE := Request("t", "x", "l", 1, 0, 0)
  const HELD := Allocation("a", ONE, true, "", 0)
  const RESERVED := Books(map["l" := 10], map["l" := 1], map["a" := HELD])

  lemma OneReservation()
    ensures After([Define("l", 10), Reserve(ONE, "a", 0)]) == RESERVED && Exact(RESERVED)
  {
    var ops := [Define("l", 10), Reserve(ONE, "a", 0)];
    assert ops[..1] == [Define("l", 10)] && ops[..1][..0] == [];
    assert After([Define("l", 10)]) == Do(EMPTY, Define("l", 10)) == Books(map["l" := 10], map["l" := 0], map[]);
    SumPut(EMPTY.allocations, "a", HELD, OnLeg("l"));
    SumOfNothing(EMPTY.allocations, OnLeg("l"));
    assert RESERVED.allocations == EMPTY.allocations["a" := HELD];
  }

  lemma AfterOneMore(ops: seq<Op>, op: Op)
    ensures After(ops + [op]) == Do(After(ops), op)
  {
    assert (ops + [op])[..|ops|] == ops;
  }

  lemma ThirdStep(op: Op)
    ensures After([Define("l", 10), Reserve(ONE, "a", 0), op]) == Do(RESERVED, op)
  {
    OneReservation();
    var two := [Define("l", 10), Reserve(ONE, "a", 0)];
    AfterOneMore(two, op);
    assert two + [op] == [Define("l", 10), Reserve(ONE, "a", 0), op];
  }

  const HUGE := Allocation("b", ONE.(weightKg := MAX), true, "", 1)
  const OVERFLOWN := Books(map["l" := 10], map["l" := MIN], map["a" := HELD, "b" := HUGE])

  lemma OverflownNotExact()
    ensures !Exact(OVERFLOWN)
  {
    SumNonNegative(OVERFLOWN.allocations, OnLeg("l"));
    assert "l" in OVERFLOWN.capacity;
  }

  /** A leg of ten kilos with one reserved accepts 2^63-1 more, and its reservation turns negative. */
  lemma OverflowAccepted()
    ensures var d := After([Define("l", 10), Reserve(ONE, "a", 0), Reserve(ONE.(weightKg := MAX), "b", 1)]);
            "b" in d.allocations && d.allocations["b"].accepted && Entry(d.reserved, "l") == MIN && !Exact(d)
  {
    var op := Reserve(ONE.(weightKg := MAX), "b", 1);
    ThirdStep(op);
    WrapSame(1 + MAX, MIN, 1);
    assert Do(RESERVED, op) == OVERFLOWN;
    OverflownNotExact();
  }

  const AGAIN := Allocation("a", ONE.(weightKg := 2), true, "", 0)
  const OVERWRITTEN := Books(map["l" := 10], map["l" := 3], map["a" := AGAIN])

  lemma OverwrittenNotExact()
    ensures !Exact(OVERWRITTEN)
  {
    SumPut(EMPTY.allocations, "a", AGAIN, OnLeg("l"));
    SumOfNothing(EMPTY.allocations, OnLeg("l"));
    assert OVERWRITTEN.allocations == EMPTY.allocations["a" := AGAIN];
    assert "l" in OVERWRITTEN.capacity;
  }

  /** An accepted allocation whose id comes up again is overwritten: its weight stays reserved for good. */
  lemma OverwriteAccepted()
    ensures var d := After([Define("l", 10), Reserve(ONE, "a", 0), Reserve(ONE.(weightKg := 2), "a", 0)]);
            && d.allocations == map["a" := AGAIN] && Entry(d.reserved, "l") == 3 && !Exact(d)
            && Entry(d.Release("a").0.reserved, "l") == 1
  {
    var op := Reserve(ONE.(weightKg := 2), "a", 0);
    ThirdStep(op);
    assert Do(RESERVED, op) == OVERWRITTEN;
    OverwrittenNotExact();
  }

  // ---------- releasing ----------

  /** A repeated release changes nothing and is no error. */
  lemma ReleaseTwice(b: Books, id: string)
    ensures var once := b.Release(id).0; once.Release(id).0 == once && once.Release(id).1 == b.Release(id).1
  {
  }

  function ReleaseEach(b: Books, ids: seq<string>): Books
    decreases |ids|
  {
    if ids == [] then b else ReleaseEach(b.Release(ids[0]).0, ids[1..])
  }

  lemma {:induction false} ReleaseEachKeeps(b: Books, ids: seq<string>)
    requires Sound(b) && Exact(b)
    ensures var d := ReleaseEach(b, ids); Sound(d) && Exact(d) && d.capacity == b.capacity
    decreases |ids|
  {
    if ids != [] {
      ReleaseExact(b, ids[0]);
      DoKeepsSound(b, Release(ids[0]));
      ReleaseEachKeeps(b.Release(ids[0]).0, ids[1..]);
    }
  }

  /** The allocations still accepted are among those in play that were not asked to be released. */
  ghost predicate Survives(b: Books, d: Books, id: string) {
    id in d.allocations && d.allocations[id].accepted ==> id in b.allocations && b.allocations[id].accepted
  }

  lemma {:induction false} ReleasedStaysReleased(b: Books, ids: seq<string>, id: string)
    ensures Survives(b, ReleaseEach(b, ids), id)
    ensures id in ids && id in ReleaseEach(b, ids).allocations ==> !ReleaseEach(b, ids).allocations[id].accepted
    decreases |ids|
  {
    if ids != [] {
      var once := b.Release(ids[0]).0;
      ReleasedStaysReleased(once, ids[1..], id);
      assert id in ids <==> id == ids[0] || id in ids[1..];
    }
  }

  lemma NothingHeld(d: Books, leg: string)
    requires Exact(d) && leg in d.capacity && forall id :: id in d.allocations ==> !d.allocations[id].accepted
    ensures d.Available(leg) == Ok(d.capacity[leg])
  {
    SumOfNothing(d.allocations, OnLeg(leg));
  }

  /** Releasing every accepted allocation, in any order and with any repetitions, makes every leg fully available. */
  lemma ReleaseAllRestores(b: Books, ids: seq<string>, leg: string)
    requires Sound(b) && Exact(b) && leg in b.capacity
    requires forall id :: id in b.allocations && b.allocations[id].accepted ==> id in ids
    ensures ReleaseEach(b, ids).Available(leg) == Ok(b.capacity[leg])
  {
    var d := ReleaseEach(b, ids);
    ReleaseEachKeeps(b, ids);
    forall id | id in d.allocations ensures !d.allocations[id].accepted {
      ReleasedStaysReleased(b, ids, id);
    }
    NothingHeld(d, leg);
  }
}
