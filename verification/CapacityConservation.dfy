/** Where a leg's reserved weight comes from, over every interleaving of service calls. */
module CapacityConservation {
  import opened Domain
  import opened Int64
  import opened Totals
  import opened CargoStore
  import opened Handoff
  import opened Atomicity
  import Strings

  // ---------- the weight that rides on a leg ----------

  /** What a shipment contributes to a leg. */
  function OnLeg(leg: string): Shipment -> int {
    (s: Shipment) => if s.legId == Some(leg) then s.weightKg else 0
  }

  /** The weights of all shipments assigned to the leg, cancelled ones included. */
  ghost function Carried(shipments: map<string, Shipment>, leg: string): int {
    Sum(shipments, OnLeg(leg))
  }

  // ---------- what one step grants ----------

  /** The weight a service call's step adds to the leg's reservation, if it adds any. */
  function BookedBy(c: Cargo, call: Call, now: int, leg: string): Option<int64> {
    if call.BookWrite? && call.legId == leg && call.id in c.shipments
       && c.BookShipment(call.tenant, call.id, leg, call.s.version, call.leg.version, now).1.Ok?
    then Some(c.shipments[call.id].weightKg)
    else None
  }

  /** A service call's step books a shipment that is on the leg already: only creation can have put a draft there. */
  predicate RebookedBy(c: Cargo, call: Call, now: int, leg: string) {
    && call.BookWrite? && call.id in c.shipments && c.shipments[call.id].legId == Some(leg)
    && c.BookShipment(call.tenant, call.id, call.legId, call.s.version, call.leg.version, now).1.Ok?
  }

  predicate Rebooks(sys: System, a: Action, leg: string) {
    a.Proceed? && a.call in sys.calls && RebookedBy(sys.cargo, sys.calls[a.call], a.now, leg)
  }

  function Award(sys: System, a: Action, leg: string): Option<int64> {
    match a
    case Grant(tenant, l, weight, version) =>
      if l == leg && sys.cargo.ReserveCapacity(tenant, l, weight, version).1 == None then Some(weight) else None
    case Proceed(n, now) => if n in sys.calls then BookedBy(sys.cargo, sys.calls[n], now, leg) else None
    case _ => None
  }

  /** A new shipment that its creator already put on the leg. */
  ghost predicate CreatesOn(c: Cargo, d: Cargo, leg: string) {
    exists id :: id !in c.shipments && id in d.shipments && d.shipments[id].legId == Some(leg)
  }

  /** No draft is on the leg: only creation could have put it there. */
  ghost predicate NoDraftOn(c: Cargo, leg: string) {
    forall id :: id in c.shipments && c.shipments[id].legId == Some(leg) ==> c.shipments[id].status != Draft
  }

  /** The leg's own record across a step that awards this much. */
  ghost predicate Balances(c: Cargo, d: Cargo, award: Option<int64>, leg: string) {
    leg in c.legs ==>
      && leg in d.legs && d.legs[leg].capacityKg == c.legs[leg].capacityKg
      && match award
         case None => d.legs[leg].reservedKg == c.legs[leg].reservedKg
         case Some(w) =>
           ValidateCapacity(c.legs[leg], w) == None && d.legs[leg].reservedKg == Wrap(c.legs[leg].reservedKg + w)
  }

  lemma CallBalances(c: Cargo, call: Call, now: int, leg: string)
    ensures Balances(c, Advance(c, call, now).0, BookedBy(c, call, now, leg), leg)
  {
    CallFrame(c, call, now);
    if call.BookWrite? {
      BookEffect(c, call.tenant, call.id, call.legId, call.s.version, call.leg.version, now);
    }
  }

  lemma StepBalances(sys: System, a: Action, leg: string)
    ensures Balances(sys.cargo, Step(sys, a).cargo, Award(sys, a, leg), leg)
  {
    if a.Proceed? && a.call in sys.calls {
      CallBalances(sys.cargo, sys.calls[a.call], a.now, leg);
    }
  }

  function Worth(booked: Option<int64>): int {
    if booked == None then 0 else booked.value
  }

  /**
   * How the carried weight moves in one step: with the award of a booking, unless the step creates a shipment on the
   * leg or books one that is there already.
   */
  ghost predicate Carries(c: Cargo, d: Cargo, booked: Option<int64>, rebooks: bool, leg: string) {
    var gain := Carried(d.shipments, leg) - Carried(c.shipments, leg);
    && (CreatesOn(c, d, leg) ==> 0 < gain <= MAX && booked == None)
    && (rebooks ==> 0 < Worth(booked) - gain <= MAX)
    && (!CreatesOn(c, d, leg) && !rebooks ==> gain == Worth(booked))
    && (!CreatesOn(c, d, leg) && NoDraftOn(c, leg) ==> NoDraftOn(d, leg) && !rebooks)
  }

  lemma SameShipmentsCarry(c: Cargo, d: Cargo, leg: string)
    requires d.shipments == c.shipments
    ensures Carries(c, d, None, false, leg)
  {
  }

  lemma CreateCarries(c: Cargo, s: Shipment, leg: string)
    requires Born(s)
    ensures Carries(c, c.CreateShipment(s).0, None, false, leg)
  {
    var d := c.CreateShipment(s).0;
    if d.shipments != c.shipments {
      assert d.shipments == c.shipments[s.id := s] && s.id !in c.shipments;
      SumPut(c.shipments, s.id, s, OnLeg(leg));
    }
  }

  lemma MoveCarries(c: Cargo, next: ShipmentStatus, s: Shipment, now: int, leg: string)
    requires SeenShipment(c, s.id, s) && CanTransition(s.status, next)
    ensures Carries(c, c.UpdateShipment(s.(status := next, updatedAt := now), s.version).0, None, false, leg)
  {
    var d := c.UpdateShipment(s.(status := next, updatedAt := now), s.version).0;
    if d.shipments != c.shipments {
      var v := s.(status := next, updatedAt := now, version := s.version + 1);
      assert d.shipments == c.shipments[s.id := v] && c.shipments[s.id] == s;
      SumPut(c.shipments, s.id, v, OnLeg(leg));
    }
  }

  lemma BookCarries(c: Cargo, b: Call, now: int, leg: string)
    requires b.BookWrite?
    ensures Carries(c, Advance(c, b, now).0, BookedBy(c, b, now, leg), RebookedBy(c, b, now, leg), leg)
  {
    BookEffect(c, b.tenant, b.id, b.legId, b.s.version, b.leg.version, now);
    var (d, r) := c.BookShipment(b.tenant, b.id, b.legId, b.s.version, b.leg.version, now);
    if r.Ok? {
      assert c.shipments[b.id].status == Draft;
      SumPut(c.shipments, b.id, r.value, OnLeg(leg));
    } else {
      SameShipmentsCarry(c, d, leg);
    }
  }

  lemma CallCarries(c: Cargo, call: Call, now: int, leg: string)
    requires Keyed(c) && CallOk(c, call)
    ensures Carries(c, Advance(c, call, now).0, BookedBy(c, call, now, leg), RebookedBy(c, call, now, leg), leg)
  {
    if call.CreateWrite? {
      CreateCarries(c, call.s, leg);
    } else if call.MoveWrite? {
      MoveCarries(c, call.next, call.s, now, leg);
    } else if call.BookWrite? {
      BookCarries(c, call, now, leg);
    } else {
      CallFrame(c, call, now);
      SameShipmentsCarry(c, Advance(c, call, now).0, leg);
    }
  }

  lemma StepCarries(sys: System, a: Action, leg: string)
    requires Inv(sys)
    ensures Carries(sys.cargo, Step(sys, a).cargo, if a.Proceed? then Award(sys, a, leg) else None,
                    Rebooks(sys, a, leg), leg)
  {
    if a.Proceed? && a.call in sys.calls {
      CallCarries(sys.cargo, sys.calls[a.call], a.now, leg);
    } else {
      SameShipmentsCarry(sys.cargo, Step(sys, a).cargo, leg);
    }
  }

  lemma GrantsCreateNothing(sys: System, a: Action, leg: string)
    requires !a.Proceed?
    ensures !CreatesOn(sys.cargo, Step(sys, a).cargo, leg)
  {
  }

  // ---------- whole runs ----------

  /** The leg's page in the books at one moment. */
  datatype Page = Page(open: bool, reserved: int64, capacity: int64, carried: int, noDraft: bool)

  ghost function PageOf(c: Cargo, leg: string): Page {
    Page(leg in c.legs, if leg in c.legs then c.legs[leg].reservedKg else 0,
         if leg in c.legs then c.legs[leg].capacityKg else 0, Carried(c.shipments, leg), NoDraftOn(c, leg))
  }

  /**
   * What one step enters: the weight it awards, whether directly, and whether it creates a shipment on the leg or
   * books one that is there already.
   */
  datatype Line = Line(award: Option<int64>, direct: bool, creates: bool, rebooks: bool)
  {
    /** The weight that a booking adds. */
    function Booked(): int {
      if direct then 0 else Worth(award)
    }
  }

  ghost function LineOf(sys: System, a: Action, leg: string): Line {
    Line(Award(sys, a, leg), a.Grant?, CreatesOn(sys.cargo, Step(sys, a).cargo, leg), Rebooks(sys, a, leg))
  }

  ghost function Pages(tr: seq<System>, leg: string): seq<Page> {
    seq(|tr|, i requires 0 <= i < |tr| => PageOf(tr[i].cargo, leg))
  }

  ghost function Lines(tr: seq<System>, acts: seq<Action>, leg: string): seq<Line>
    requires |tr| == |acts| + 1
  {
    seq(|acts|, i requires 0 <= i < |acts| => LineOf(tr[i], acts[i], leg))
  }

  /** How a line leads from one page to the next. */
  ghost predicate Turns(p: Page, l: Line, q: Page) {
    && (p.open ==>
          && q.open && q.capacity == p.capacity
          && match l.award
             case None => q.reserved == p.reserved
             case Some(w) => w > 0 && p.reserved >= 0 && q.reserved == Wrap(p.reserved + w) <= p.capacity)
    && (l.creates ==> 0 < q.carried - p.carried <= MAX && l.award == None)
    && (l.rebooks ==> !l.direct && 0 < l.Booked() - (q.carried - p.carried) <= MAX)
    && (!l.creates && !l.rebooks ==> q.carried - p.carried == l.Booked())
    && (!l.creates && p.noDraft ==> q.noDraft && !l.rebooks)
  }

  ghost predicate Ledger(pages: seq<Page>, lines: seq<Line>) {
    |pages| == |lines| + 1 && forall i :: 0 <= i < |lines| ==> Turns(pages[i], lines[i], pages[i + 1])
  }

  lemma BooksTurn(c: Cargo, d: Cargo, award: Option<int64>, direct: bool, rebooks: bool, leg: string)
    requires Balances(c, d, award, leg) && Carries(c, d, if direct then None else award, rebooks, leg)
    requires direct ==> !CreatesOn(c, d, leg) && !rebooks
    ensures Turns(PageOf(c, leg), Line(award, direct, CreatesOn(c, d, leg), rebooks), PageOf(d, leg))
  {
  }

  lemma StepTurns(sys: System, a: Action, leg: string)
    requires Inv(sys)
    ensures Turns(PageOf(sys.cargo, leg), LineOf(sys, a, leg), PageOf(Step(sys, a).cargo, leg))
  {
    StepBalances(sys, a, leg);
    StepCarries(sys, a, leg);
    if !a.Proceed? {
      GrantsCreateNothing(sys, a, leg);
      AwardedDirectly(sys, a, leg);
    }
    BooksTurn(sys.cargo, Step(sys, a).cargo, Award(sys, a, leg), a.Grant?, Rebooks(sys, a, leg), leg);
  }

  lemma AwardedDirectly(sys: System, a: Action, leg: string)
    ensures !a.Proceed? && Award(sys, a, leg) != None ==> a.Grant?
  {
  }

  lemma RunLedger(tr: seq<System>, acts: seq<Action>, leg: string)
    requires IsRun(tr, acts) && Initial(tr[0])
    ensures Ledger(Pages(tr, leg), Lines(tr, acts, leg))
  {
    forall i | 0 <= i < |acts|
      ensures Turns(PageOf(tr[i].cargo, leg), LineOf(tr[i], acts[i], leg), PageOf(tr[i + 1].cargo, leg))
    {
      RunKeepsInv(tr, acts, i);
      StepTurns(tr[i], acts[i], leg);
    }
  }

  /** The direct grants among the lines from moment b to moment k. */
  ghost function Granted(lines: seq<Line>, b: nat, k: nat): int
    requires b <= k <= |lines|
  {
    if k == b then 0
    else
      var l := lines[k - 1];
      Granted(lines, b, k - 1) + if l.direct && l.award != None then l.award.value else 0
  }

  /** Since moment b, bookings and direct grants account for every kilo of the leg's reservation. */
  ghost predicate Conserved(pages: seq<Page>, lines: seq<Line>, b: nat, k: nat)
    requires b <= k <= |lines| && |pages| == |lines| + 1
  {
    pages[k].open
    && pages[k].reserved == Wrap(pages[b].reserved + pages[k].carried - pages[b].carried + Granted(lines, b, k))
  }

  /** The step neither creates a shipment on the leg nor books one that is there already. */
  ghost predicate Regular(l: Line) {
    !l.creates && !l.rebooks
  }

  lemma ConservedStep(pages: seq<Page>, lines: seq<Line>, b: nat, i: nat)
    requires Ledger(pages, lines) && b <= i < |lines| && Conserved(pages, lines, b, i)
    ensures Conserved(pages, lines, b, i + 1) <==> Regular(lines[i])
  {
    var p, l, q := pages[i], lines[i], pages[i + 1];
    assert Turns(p, l, q);
    var x := pages[b].reserved + p.carried - pages[b].carried + Granted(lines, b, i);
    var gain := q.carried - p.carried;
    WrapAdd(x, Worth(l.award));
    if l.creates {
      WrapDiffers(x, gain);
    } else if l.rebooks {
      WrapDiffers(x + gain, l.Booked() - gain);
    }
  }

  lemma {:induction false} LedgerConserves(pages: seq<Page>, lines: seq<Line>, b: nat, k: nat)
    requires Ledger(pages, lines) && b <= k < |pages| && pages[b].open
    requires forall i :: b <= i < k ==> Regular(lines[i])
    ensures Conserved(pages, lines, b, k)
    decreases k
  {
    if k > b {
      LedgerConserves(pages, lines, b, k - 1);
      ConservedStep(pages, lines, b, k - 1);
    }
  }

  lemma LedgerExact(pages: seq<Page>, lines: seq<Line>, b: nat, k: nat)
    requires Ledger(pages, lines) && b <= k < |pages| && pages[b].open
    ensures (forall m :: b <= m <= k ==> Conserved(pages, lines, b, m)) <==>
              (forall i :: b <= i < k ==> Regular(lines[i]))
  {
    if forall i :: b <= i < k ==> Regular(lines[i]) {
      forall m | b <= m <= k ensures Conserved(pages, lines, b, m) {
        LedgerConserves(pages, lines, b, m);
      }
    } else {
      var i :| b <= i < k && !Regular(lines[i]);
      if Conserved(pages, lines, b, i) {
        ConservedStep(pages, lines, b, i);
        assert !Conserved(pages, lines, b, i + 1);
      }
    }
  }

  /**
   * Capacity conservation, over every run: from any moment b at which the leg exists, the reservation equals - at
   * every moment - its value at b plus the weight of the shipments assigned since plus the direct grants since, if
   * and only if no shipment is created on the leg and none that is on it already is booked. The sum is that of
   * 64-bit arithmetic.
   */
  lemma CapacityConserved(tr: seq<System>, acts: seq<Action>, leg: string, b: nat, k: nat)
    requires IsRun(tr, acts) && Initial(tr[0]) && b <= k < |tr| && leg in tr[b].cargo.legs
    ensures var pages, lines := Pages(tr, leg), Lines(tr, acts, leg);
            (forall m :: b <= m <= k ==> Conserved(pages, lines, b, m)) <==>
              (forall i :: b <= i < k ==> Regular(lines[i]))
  {
    RunLedger(tr, acts, leg);
    LedgerExact(Pages(tr, leg), Lines(tr, acts, leg), b, k);
  }

  // ---------- range ----------

  ghost predicate InRange(p: Page) {
    p.open && 0 <= p.reserved <= p.capacity
  }

  /** The 64-bit sum of a grant is the true one. */
  ghost predicate Fits(p: Page, l: Line) {
    l.award != None ==> p.reserved + l.award.value <= MAX
  }

  lemma RangeStep(p: Page, l: Line, q: Page)
    requires Turns(p, l, q) && p.open
    ensures InRange(p) ==> (InRange(q) <==> Fits(p, l))
    ensures !InRange(p) && Fits(p, l) ==> l.award == None && q.open && !InRange(q) && q.reserved == p.reserved
  {
    if l.award != None && !Fits(p, l) {
      var sum := p.reserved + l.award.value;
      WrapSame(sum, sum - WIDTH, 1);
    }
  }

  lemma {:induction false} StaysOpen(pages: seq<Page>, lines: seq<Line>, b: nat, k: nat)
    requires Ledger(pages, lines) && b <= k < |pages| && pages[b].open
    ensures pages[k].open
    decreases k
  {
    if k > b {
      StaysOpen(pages, lines, b, k - 1);
      assert Turns(pages[k - 1], lines[k - 1], pages[k - 1 + 1]);
    }
  }

  lemma {:induction false} RangeKept(pages: seq<Page>, lines: seq<Line>, b: nat, k: nat)
    requires Ledger(pages, lines) && b <= k < |pages| && InRange(pages[b])
    requires forall i :: b <= i < k ==> Fits(pages[i], lines[i])
    ensures InRange(pages[k])
    decreases k
  {
    if k > b {
      RangeKept(pages, lines, b, k - 1);
      assert Turns(pages[k - 1], lines[k - 1], pages[k - 1 + 1]);
      RangeStep(pages[k - 1], lines[k - 1], pages[k]);
    }
  }

  lemma LedgerRange(pages: seq<Page>, lines: seq<Line>, b: nat, k: nat)
    requires Ledger(pages, lines) && b <= k < |pages| && InRange(pages[b])
    ensures (forall m :: b <= m <= k ==> InRange(pages[m])) <==> (forall i :: b <= i < k ==> Fits(pages[i], lines[i]))
  {
    if forall i :: b <= i < k ==> Fits(pages[i], lines[i]) {
      forall m | b <= m <= k ensures InRange(pages[m]) {
        RangeKept(pages, lines, b, m);
      }
    } else {
      var i :| b <= i < k && !Fits(pages[i], lines[i]);
      StaysOpen(pages, lines, b, i);
      assert Turns(pages[i], lines[i], pages[i + 1]);
      RangeStep(pages[i], lines[i], pages[i + 1]);
      assert !InRange(pages[i]) || !InRange(pages[i + 1]);
    }
  }

  /** A leg that starts within 0..capacity is never overbooked if and only if no granted sum overflows 64 bits. */
  lemma NeverOverbookedExactlyWithoutOverflow(tr: seq<System>, acts: seq<Action>, leg: string, b: nat, k: nat)
    requires IsRun(tr, acts) && Initial(tr[0]) && b <= k < |tr| && InRange(PageOf(tr[b].cargo, leg))
    ensures var pages, lines := Pages(tr, leg), Lines(tr, acts, leg);
            (forall m :: b <= m <= k ==> InRange(pages[m])) <==> (forall i :: b <= i < k ==> Fits(pages[i], lines[i]))
  {
    RunLedger(tr, acts, leg);
    LedgerRange(Pages(tr, leg), Lines(tr, acts, leg), b, k);
  }

  lemma {:induction false} LedgerRefuses(pages: seq<Page>, lines: seq<Line>, b: nat, k: nat)
    requires Ledger(pages, lines) && b <= k < |pages| && pages[b].open && !InRange(pages[b])
    requires forall i :: b <= i < k ==> Fits(pages[i], lines[i])
    ensures pages[k].open && !InRange(pages[k]) && pages[k].reserved == pages[b].reserved
    ensures forall i :: b <= i < k ==> lines[i].award == None
    decreases k
  {
    if k > b {
      LedgerRefuses(pages, lines, b, k - 1);
      assert Turns(pages[k - 1], lines[k - 1], pages[k - 1 + 1]);
      RangeStep(pages[k - 1], lines[k - 1], pages[k]);
    }
  }

  /** A leg that starts outside its range is never granted anything if and only if no granted sum overflows. */
  lemma OutOfRangeNeverGranted(tr: seq<System>, acts: seq<Action>, leg: string, b: nat, k: nat)
    requires IsRun(tr, acts) && Initial(tr[0]) && b <= k < |tr|
    requires leg in tr[b].cargo.legs && !InRange(PageOf(tr[b].cargo, leg))
    ensures var pages, lines := Pages(tr, leg), Lines(tr, acts, leg);
            && ((forall i :: b <= i < k ==> lines[i].award == None) <==>
                 (forall i :: b <= i < k ==> Fits(pages[i], lines[i])))
            && ((forall i :: b <= i < k ==> lines[i].award == None) ==>
                 pages[k].open && pages[k].reserved == pages[b].reserved)
  {
    RunLedger(tr, acts, leg);
    var pages, lines := Pages(tr, leg), Lines(tr, acts, leg);
    if forall i :: b <= i < k ==> Fits(pages[i], lines[i]) {
      LedgerRefuses(pages, lines, b, k);
    }
  }

  // ---------- from the creation of a leg ----------

  ghost predicate LegsExist(c: Cargo) {
    forall id :: id in c.shipments && c.shipments[id].legId != None ==> c.shipments[id].legId.value in c.legs
  }

  /** Every shipment that step i adds comes without a leg. */
  ghost predicate CreatesUnassigned(c: Cargo, d: Cargo) {
    forall id :: id in d.shipments && id !in c.shipments ==> d.shipments[id].legId == None
  }

  /** When every shipment is created without a leg, nothing rides on a leg at the moment it is created. */
  lemma NewLegIsEmpty(tr: seq<System>, acts: seq<Action>, leg: string, b: nat)
    requires IsRun(tr, acts) && Initial(tr[0]) && LegsExist(tr[0].cargo) && 0 < b < |tr|
    requires forall i :: 0 <= i < b ==> CreatesUnassigned(tr[i].cargo, tr[i + 1].cargo)
    requires leg !in tr[b - 1].cargo.legs && leg in tr[b].cargo.legs
    ensures Carried(tr[b].cargo.shipments, leg) == 0 && NoDraftOn(tr[b].cargo, leg)
  {
    AssignedLegsExist(tr, acts, b - 1);
    assert tr[b] == Step(tr[b - 1], acts[b - 1]);
    OneMapPerStep(tr[b - 1], acts[b - 1], leg);
    SumOfNothing(tr[b].cargo.shipments, OnLeg(leg));
  }

  lemma OneMapPerStep(sys: System, a: Action, leg: string)
    requires leg !in sys.cargo.legs && leg in Step(sys, a).cargo.legs
    ensures Step(sys, a).cargo.shipments == sys.cargo.shipments
  {
    if a.Proceed? && a.call in sys.calls {
      var call := sys.calls[a.call];
      CallFrame(sys.cargo, call, a.now);
      if call.BookWrite? {
        BookEffect(sys.cargo, call.tenant, call.id, call.legId, call.s.version, call.leg.version, a.now);
      }
    }
  }

  lemma {:induction false} AssignedLegsExist(tr: seq<System>, acts: seq<Action>, k: nat)
    requires IsRun(tr, acts) && Initial(tr[0]) && LegsExist(tr[0].cargo) && k < |tr|
    requires forall i :: 0 <= i < k ==> CreatesUnassigned(tr[i].cargo, tr[i + 1].cargo)
    ensures LegsExist(tr[k].cargo)
  {
    if k > 0 {
      AssignedLegsExist(tr, acts, k - 1);
      RunKeepsInv(tr, acts, k - 1);
      assert CreatesUnassigned(tr[k - 1].cargo, tr[k - 1 + 1].cargo);
      assert tr[k] == Step(tr[k - 1], acts[k - 1]);
      AssignmentsExist(tr[k - 1], acts[k - 1]);
    }
  }

  lemma AssignmentsExist(sys: System, a: Action)
    requires Inv(sys) && LegsExist(sys.cargo) && CreatesUnassigned(sys.cargo, Step(sys, a).cargo)
    ensures LegsExist(Step(sys, a).cargo)
  {
    StepKeepsInv(sys, a);
    if a.Proceed? && a.call in sys.calls {
      AdvanceAssigns(sys.cargo, sys.calls[a.call], a.now);
    }
  }

  /** A call changes the leg of an existing shipment only to a leg that exists. */
  lemma AdvanceAssigns(c: Cargo, call: Call, now: int)
    requires Keyed(c) && CallOk(c, call)
    ensures var d := Advance(c, call, now).0;
            forall id :: id in c.shipments ==>
              && id in d.shipments
              && (|| d.shipments[id].legId == c.shipments[id].legId
                  || (d.shipments[id].legId != None && d.shipments[id].legId.value in c.legs))
  {
    CallFrame(c, call, now);
    if call.BookWrite? {
      BookEffect(c, call.tenant, call.id, call.legId, call.s.version, call.leg.version, now);
    }
  }

  lemma {:induction false} PlainSum(pages: seq<Page>, lines: seq<Line>, b: nat, k: nat)
    requires Ledger(pages, lines) && b <= k < |pages| && InRange(pages[b]) && pages[b].noDraft
    requires forall i :: b <= i < k ==> !lines[i].creates && Fits(pages[i], lines[i])
    ensures InRange(pages[k]) && pages[k].noDraft
    ensures pages[k].reserved == pages[b].reserved + pages[k].carried - pages[b].carried + Granted(lines, b, k)
    decreases k
  {
    if k > b {
      PlainSum(pages, lines, b, k - 1);
      assert Turns(pages[k - 1], lines[k - 1], pages[k - 1 + 1]);
      assert !lines[k - 1].creates && Fits(pages[k - 1], lines[k - 1]);
      RangeStep(pages[k - 1], lines[k - 1], pages[k]);
    }
  }

  lemma UnassignedCreatesNothing(c: Cargo, d: Cargo, leg: string)
    requires CreatesUnassigned(c, d)
    ensures !CreatesOn(c, d, leg)
  {
  }

  /**
   * The whole account of a leg: created at moment b within its range, in a run whose shipments are all created without
   * a leg and whose sums all fit, its reservation is at every later moment its created value plus the weights of all
   * shipments on it plus all direct grants, and within 0..capacity.
   */
  lemma ReservedFromCreation(tr: seq<System>, acts: seq<Action>, leg: string, b: nat, k: nat)
    requires IsRun(tr, acts) && Initial(tr[0]) && LegsExist(tr[0].cargo) && 0 < b <= k < |tr|
    requires leg !in tr[b - 1].cargo.legs && InRange(PageOf(tr[b].cargo, leg))
    requires forall i :: 0 <= i < k ==> CreatesUnassigned(tr[i].cargo, tr[i + 1].cargo)
    requires forall i :: b <= i < k ==> Fits(Pages(tr, leg)[i], Lines(tr, acts, leg)[i])
    ensures leg in tr[k].cargo.legs && 0 <= tr[k].cargo.legs[leg].reservedKg <= tr[k].cargo.legs[leg].capacityKg
    ensures tr[k].cargo.legs[leg].reservedKg
         == tr[b].cargo.legs[leg].reservedKg + Carried(tr[k].cargo.shipments, leg) + Granted(Lines(tr, acts, leg), b, k)
  {
    RunLedger(tr, acts, leg);
    NewLegIsEmpty(tr, acts, leg, b);
    var pages, lines := Pages(tr, leg), Lines(tr, acts, leg);
    forall i | b <= i < k ensures !lines[i].creates {
      assert tr[i + 1] == Step(tr[i], acts[i]);
      UnassignedCreatesNothing(tr[i].cargo, tr[i + 1].cargo, leg);
    }
    PlainSum(pages, lines, b, k);
  }

  // ---------- both failures occur ----------

  const CLERK := User("u", "t", "", [], Shipper, true, 0, None)
  const LEG := FlightLeg("l", "t", "F1", "A", "B", 1, 2, 10, 1, LegOpen, 1, 0)
  const STOWED := Shipment("a", "t", "r", "A", "B", 5, 1, Draft, Some("l"), "", 1, 0, 0)
  const DOCK := Cargo(map[], map[], map["l" := LEG], map[], map[])

  lemma StowingSteps() returns (tr: seq<System>, acts: seq<Action>)
    ensures IsRun(tr, acts) && |acts| == 2
    ensures tr[0] == System(DOCK, map[]) && tr[1].cargo == DOCK
    ensures tr[2].cargo == DOCK.(shipments := map["a" := STOWED])
  {
    Strings.TrimSpaceTrims("r");
    assert STOWED == NewShipment(CLERK, STOWED, "", "x", 0);
    acts := [Start(0, CreateShipmentCall(CLERK, STOWED, "", "x"), 0), Proceed(0, 0)];
    tr := [System(DOCK, map[]), System(DOCK, map[0 := CreateWrite(STOWED)]),
           System(DOCK.(shipments := map["a" := STOWED]), map[0 := Done(ShipmentReply(STOWED))])];
    forall i | 0 <= i < 2 ensures tr[i + 1] == Step(tr[i], acts[i]) {
      if i == 0 {
      } else {
      }
    }
  }

  /** A creation that names a leg is accepted, and the leg's books no longer balance. */
  lemma CreationUnbalances() returns (tr: seq<System>, acts: seq<Action>)
    ensures IsRun(tr, acts) && Initial(tr[0]) && |acts| == 2
    ensures var pages, lines := Pages(tr, "l"), Lines(tr, acts, "l");
            lines[1].creates && Conserved(pages, lines, 0, 0) && !Conserved(pages, lines, 0, 2)
  {
    tr, acts := StowingSteps();
    var pages, lines := Pages(tr, "l"), Lines(tr, acts, "l");
    assert tr[1 + 1] == Step(tr[1], acts[1]);
    assert CreatesOn(tr[1].cargo, tr[2].cargo, "l") by { assert "a" in tr[2].cargo.shipments; }
    RunLedger(tr, acts, "l");
    LedgerConserves(pages, lines, 0, 1);
    ConservedStep(pages, lines, 0, 1);
  }

  const LOADED := DOCK.(shipments := map["a" := STOWED])
  const AGENT := CLERK.(role := Coordinator)

  lemma BookingChecked() returns (tr: seq<System>, acts: seq<Action>)
    ensures IsRun(tr, acts) && |acts| == 3 && tr[0] == System(LOADED, map[])
    ensures tr[3] == System(LOADED, map[0 := BookWrite("t", "a", "l", STOWED, LEG)])
  {
    acts := [Start(0, BookShipmentCall(AGENT, "a", "l"), 0), Proceed(0, 0), Proceed(0, 0)];
    tr := [System(LOADED, map[]), System(LOADED, map[0 := BookReadShipment("t", "a", "l")]),
           System(LOADED, map[0 := BookReadLeg("t", "a", "l", STOWED)]),
           System(LOADED, map[0 := BookWrite("t", "a", "l", STOWED, LEG)])];
    forall i | 0 <= i < 3 ensures tr[i + 1] == Step(tr[i], acts[i]) {
      if i == 0 {
      } else if i == 1 {
      } else {
      }
    }
  }

  /** And so it is when a draft that rides on the leg is booked onto it: its weight is reserved, but not added. */
  lemma RebookingUnbalances() returns (tr: seq<System>, acts: seq<Action>)
    ensures IsRun(tr, acts) && Initial(tr[0]) && |acts| == 4
    ensures var pages, lines := Pages(tr, "l"), Lines(tr, acts, "l");
            lines[3].rebooks && Conserved(pages, lines, 0, 0)
            && !(forall m :: 0 <= m <= 4 ==> Conserved(pages, lines, 0, m))
  {
    var tr1, acts1 := BookingChecked();
    var sys := tr1[3];
    var tr2, acts2 := [sys, Step(sys, Proceed(0, 0))], [Proceed(0, 0)];
    RunsJoin(tr1, acts1, tr2, acts2);
    tr, acts := tr1 + tr2[1..], acts1 + acts2;
    assert Rebooks(tr[3], acts[3], "l");
    assert !Regular(Lines(tr, acts, "l")[3]);
    CapacityConserved(tr, acts, "l", 0, 4);
  }

  /** A direct grant of 2^63-1 kilos on a leg of ten with one reserved is accepted, and the leg leaves its range. */
  lemma GrantOverbooks()
    ensures var sys := System(DOCK, map[]); var a := Grant("t", "l", MAX, 1);
            var tr, acts := [sys, Step(sys, a)], [a];
            && IsRun(tr, acts) && Initial(sys) && InRange(PageOf(sys.cargo, "l"))
            && !Fits(Pages(tr, "l")[0], Lines(tr, acts, "l")[0]) && !InRange(PageOf(tr[1].cargo, "l"))
  {
    CapacityCheckOverflows(LEG);
    var sys := System(DOCK, map[]);
    var d := Step(sys, Grant("t", "l", MAX, 1)).cargo;
    assert d.legs["l"].reservedKg == Wrap(1 + MAX);
  }

  /** So it is on a leg that has twenty of its ten kilos reserved. */
  lemma GrantOutOfRange()
    ensures var sys := System(DOCK.(legs := map["l" := LEG.(reservedKg := 20)]), map[]);
            var a := Grant("t", "l", MAX, 1);
            && Initial(sys) && "l" in sys.cargo.legs && !InRange(PageOf(sys.cargo, "l"))
            && Award(sys, a, "l") == Some(MAX) && !Fits(PageOf(sys.cargo, "l"), LineOf(sys, a, "l"))
  {
    WrapSame(20 + MAX, MIN + 19, 1);
  }
}
