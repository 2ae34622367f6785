/** The warehouse calendar: time slots booked without overlap and within their weight. */
module Warehouse {
  import opened Domain
  import opened Int64
  import opened Totals

  datatype Slot = Slot(id: string, terminal: string, zone: string, maxKg: int64, usedKg: int64,
                       openAt: int, closeAt: int)
  datatype Booking = Booking(id: string, shipmentId: string, slotId: string, weightKg: int64, start: int, until: int)

  /** Two bookings of the same slot whose half-open times meet. */
  predicate Clash(a: Booking, b: Booking) {
    a.slotId == b.slotId && a.start < b.until && b.start < a.until
  }

  datatype Agenda = Agenda(slots: map<string, Slot>, bookings: map<string, Booking>)
  {
    function Add(s: Slot): (Agenda, Option<Error>) {
      if s.id == "" || s.terminal == "" || s.maxKg <= 0 || s.closeAt <= s.openAt then (this, Some(Invalid))
      else if s.id in slots then (this, Some(Conflict))
      else (this.(slots := slots[s.id := s]), None)
    }

    ghost predicate Overlaps(b: Booking) {
      exists id :: id in bookings && Clash(b, bookings[id])
    }

    ghost function Book(b: Booking): (Agenda, Option<Error>) {
      if b.id == "" || b.shipmentId == "" || b.slotId == "" || b.weightKg <= 0 || b.until <= b.start
      then (this, Some(Invalid))
      else if b.slotId !in slots then (this, Some(NotFound))
      else
        var s := slots[b.slotId];
        if b.start < s.openAt || s.closeAt < b.until || Wrap(s.usedKg + b.weightKg) > s.maxKg
        then (this, Some(Capacity))
        else if Overlaps(b) then (this, Some(Conflict))
        else
          var used := s.(usedKg := Wrap(s.usedKg + b.weightKg));
          (Agenda(slots[b.slotId := used], bookings[b.id := b]), None)
    }

    function Cancel(id: string): (Agenda, Option<Error>) {
      if id !in bookings then (this, Some(NotFound))
      else
        var b := bookings[id];
        var s := if b.slotId in slots then slots[b.slotId] else Slot("", "", "", 0, 0, 0, 0);
        (Agenda(slots[b.slotId := s.(usedKg := Wrap(s.usedKg - b.weightKg))], bookings - {id}), None)
    }
  }

  datatype Fault = Rejected(error: Error) | ContextDone

  class Calendar {
    var slots: map<string, Slot>
    var bookings: map<string, Booking>

    ghost function Contents(): Agenda
      reads this
    {
      Agenda(slots, bookings)
    }

    constructor ()
      ensures Contents() == Agenda(map[], map[])
    {
      slots, bookings := map[], map[];
    }

    method Add(s: Slot) returns (err: Option<Error>)
      modifies this
      ensures (Contents(), err) == old(Contents()).Add(s)
    {
      if s.id == "" || s.terminal == "" || s.maxKg <= 0 || s.closeAt <= s.openAt { return Some(Invalid); }
      if s.id in slots { return Some(Conflict); }
      slots := slots[s.id := s];
      return None;
    }

    /** The scan over all bookings stops at the first clash, in whatever order the map is ranged over. */
    method Book(ctxDone: bool, b: Booking) returns (fault: Option<Fault>)
      modifies this
      ensures ctxDone ==> fault == Some(ContextDone) && Contents() == old(Contents())
      ensures !ctxDone ==>
                var (after, err) := old(Contents()).Book(b);
                Contents() == after && fault == if err == None then None else Some(Rejected(err.value))
    {
      if ctxDone { return Some(ContextDone); }
      if b.id == "" || b.shipmentId == "" || b.slotId == "" || b.weightKg <= 0 || b.until <= b.start {
        return Some(Rejected(Invalid));
      }
      if b.slotId !in slots { return Some(Rejected(NotFound)); }
      var s := slots[b.slotId];
      if b.start < s.openAt || s.closeAt < b.until || Wrap(s.usedKg + b.weightKg) > s.maxKg {
        return Some(Rejected(Capacity));
      }
      var todo := bookings.Keys;
      while todo != {}
        invariant todo <= bookings.Keys
        invariant forall id :: id in bookings && id !in todo ==> !Clash(b, bookings[id])
        decreases |todo|
      {
        var id :| id in todo;
        var prior := bookings[id];
        if prior.slotId == b.slotId && b.start < prior.until && prior.start < b.until {
          assert Clash(b, bookings[id]);
          return Some(Rejected(Conflict));
        }
        todo := todo - {id};
      }
      bookings := bookings[b.id := b];
      s := s.(usedKg := Wrap(s.usedKg + b.weightKg));
      slots := slots[b.slotId := s];
      return None;
    }

    method Cancel(id: string) returns (err: Option<Error>)
      modifies this
      ensures (Contents(), err) == old(Contents()).Cancel(id)
    {
      if id !in bookings { return Some(NotFound); }
      var b := bookings[id];
      var s := if b.slotId in slots then slots[b.slotId] else Slot("", "", "", 0, 0, 0, 0);
      s := s.(usedKg := Wrap(s.usedKg - b.weightKg));
      bookings := bookings - {id};
      slots := slots[b.slotId := s];
      return None;
    }
  }

  // ---------- any sequence of operations ----------

  datatype Op = AddOp(s: Slot) | BookOp(b: Booking) | CancelOp(id: string)

  ghost function Do(a: Agenda, op: Op): Agenda {
    match op
    case AddOp(s) => a.Add(s).0
    case BookOp(b) => a.Book(b).0
    case CancelOp(id) => a.Cancel(id).0
  }

  ghost function After(a: Agenda, ops: seq<Op>): Agenda {
    if ops == [] then a else Do(After(a, ops[..|ops| - 1]), ops[|ops| - 1])
  }

  const EMPTY := Agenda(map[], map[])

  // ---------- no overlap ----------

  ghost predicate InWindow(a: Agenda, b: Booking) {
    && b.slotId in a.slots && b.weightKg > 0
    && a.slots[b.slotId].openAt <= b.start < b.until <= a.slots[b.slotId].closeAt
  }

  /** Live bookings lie inside the window of their slot, and no two of one slot clash. */
  ghost predicate Safe(a: Agenda) {
    && (forall id :: id in a.bookings ==> InWindow(a, a.bookings[id]))
    && (forall i, j :: i in a.bookings && j in a.bookings && i != j ==> !Clash(a.bookings[i], a.bookings[j]))
  }

  lemma DoKeepsSafe(a: Agenda, op: Op)
    requires Safe(a)
    ensures Safe(Do(a, op))
  {
  }

  /** After any sequence of Add, Book and Cancel - repeated ids included - the calendar is free of clashes. */
  lemma {:induction false} AlwaysSafe(ops: seq<Op>)
    ensures Safe(After(EMPTY, ops))
  {
    if ops != [] {
      AlwaysSafe(ops[..|ops| - 1]);
      DoKeepsSafe(After(EMPTY, ops[..|ops| - 1]), ops[|ops| - 1]);
    }
  }

  // ---------- who gets a slot ----------

  /** Some live booking of this very slot takes part of the time from start to end. */
  ghost predicate Taken(a: Agenda, slot: string, start: int, end: int) {
    exists id :: id in a.bookings && a.bookings[id].slotId == slot
                 && a.bookings[id].start < end && start < a.bookings[id].until
  }

  /**
   * The weight still fits, or it is so large that the 64-bit sum with a used weight that is not negative goes
   * round.
   */
  predicate Fits(s: Slot, weight: int) {
    var sum := s.usedKg + weight;
    if sum > 0x7FFF_FFFF_FFFF_FFFF then sum - 0x1_0000_0000_0000_0000 <= s.maxKg else sum <= s.maxKg
  }

  lemma FitsExactly(s: Slot, weight: int64)
    requires weight > 0
    ensures Fits(s, weight) <==> Wrap(s.usedKg + weight) <= s.maxKg
  {
    var sum := s.usedKg + weight;
    if sum > MAX { WrapSame(sum, sum - WIDTH, 1); }
  }

  lemma TakenExactly(a: Agenda, b: Booking)
    ensures a.Overlaps(b) <==> Taken(a, b.slotId, b.start, b.until)
  {
    if a.Overlaps(b) {
      var id :| id in a.bookings && Clash(b, a.bookings[id]);
      assert a.bookings[id].slotId == b.slotId;
    }
    if Taken(a, b.slotId, b.start, b.until) {
      var id :| id in a.bookings && a.bookings[id].slotId == b.slotId
                && a.bookings[id].start < b.until && b.start < a.bookings[id].until;
      assert Clash(b, a.bookings[id]);
    }
  }

  /**
   * A sane booking of a slot is accepted exactly when it lies inside the window, its weight fits and its time is not
   * taken in that slot - what happens in other slots does not matter.
   */
  lemma BookingAnswers(a: Agenda, b: Booking)
    ensures var (d, err) := a.Book(b);
            var sane := b.id != "" && b.shipmentId != "" && b.slotId != "" && b.weightKg > 0 && b.start < b.until;
            var found := b.slotId in a.slots;
            var open := found && a.slots[b.slotId].openAt <= b.start && b.until <= a.slots[b.slotId].closeAt
                        && Fits(a.slots[b.slotId], b.weightKg);
            && (err == Some(Invalid) <==> !sane)
            && (err == Some(NotFound) <==> sane && !found)
            && (err == Some(Capacity) <==> sane && found && !open)
            && (err == Some(Conflict) <==> sane && open && Taken(a, b.slotId, b.start, b.until))
            && (err == None <==> sane && open && !Taken(a, b.slotId, b.start, b.until))
            && (err != None ==> d == a)
            && (err == None ==> d.bookings == a.bookings[b.id := b] && d.slots.Keys == a.slots.Keys)
  {
    TakenExactly(a, b);
    if b.weightKg > 0 && b.slotId in a.slots { FitsExactly(a.slots[b.slotId], b.weightKg); }
  }

  /** A slot is added once, with a terminal, a weight limit and a window. */
  lemma AdditionAnswers(a: Agenda, s: Slot)
    ensures var (d, err) := a.Add(s);
            var sane := s.id != "" && s.terminal != "" && s.maxKg > 0 && s.openAt < s.closeAt;
            && (err == Some(Invalid) <==> !sane)
            && (err == Some(Conflict) <==> sane && s.id in a.slots)
            && (err == None <==> sane && s.id !in a.slots)
            && d == if err == None then a.(slots := a.slots[s.id := s]) else a
  {
  }

  lemma FreeAgain(a: Agenda, id: string, d: Agenda)
    requires Safe(a) && Removes(a, id, d)
    ensures var b := a.bookings[id]; !Taken(d, b.slotId, b.start, b.until)
  {
    var b := a.bookings[id];
    if Taken(d, b.slotId, b.start, b.until) {
      var j :| j in d.bookings && d.bookings[j].slotId == b.slotId
               && d.bookings[j].start < b.until && b.start < d.bookings[j].until;
      assert j in a.bookings && Clash(a.bookings[j], b);
    }
  }

  lemma CancelRemoves(a: Agenda, id: string)
    requires Safe(a) && Exact(a) && id in a.bookings
    ensures a.Cancel(id).1 == None && Removes(a, id, a.Cancel(id).0) && Exact(a.Cancel(id).0)
    ensures InWindow(a, a.bookings[id])
  {
    AcceptedCancel(a, id);
    CancelExact(a, id);
  }

  /** After a cancellation the time is free again for the very same booking, and the weight as well. */
  lemma CancelledCanBeBooked(a: Agenda, id: string)
    requires Safe(a) && Exact(a) && id in a.bookings && a.bookings[id].id == id
    requires id != "" && a.bookings[id].shipmentId != "" && a.bookings[id].slotId != ""
    ensures var (d, err) := a.Cancel(id);
            err == None && id !in d.bookings && d.Book(a.bookings[id]).1 == None
  {
    var (d, b) := (a.Cancel(id).0, a.bookings[id]);
    CancelRemoves(a, id);
    RoomAgain(a, id, d);
    FreeAgain(a, id, d);
    BookingAnswers(d, b);
  }

  lemma RoomAgain(a: Agenda, id: string, d: Agenda)
    requires Exact(a) && Exact(d) && Removes(a, id, d)
    ensures a.bookings[id].slotId in d.slots && Fits(d.slots[a.bookings[id].slotId], a.bookings[id].weightKg)
  {
    var slot := a.bookings[id].slotId;
    SumWithout(a.bookings, id, InSlot(slot));
    assert slot in d.slots;
  }

  // ---------- hence a bound on the booked time ----------

  ghost function Of(a: Agenda, slot: string): map<string, Booking> {
    map id | id in a.bookings && a.bookings[id].slotId == slot :: a.bookings[id]
  }

  ghost function Durations(m: map<string, Booking>): map<string, int> {
    map id | id in m :: m[id].until - m[id].start
  }

  lemma {:induction false} LatestExists(m: map<string, Booking>) returns (k: string)
    requires m != map[]
    ensures k in m && forall id :: id in m ==> m[id].start <= m[k].start
    decreases |m|
  {
    k :| k in m;
    var rest := m - {k};
    assert forall id :: id in m && id != k ==> id in rest;
    if rest != map[] {
      SmallerWithout(m, k);
      var j := LatestExists(rest);
      if m[k].start < m[j].start { k := j; }
    }
  }

  predicate Apart(a: Booking, b: Booking) {
    a.until <= b.start || b.until <= a.start
  }

  ghost predicate AllApart(m: map<string, Booking>) {
    forall i, j :: i in m && j in m && i != j ==> Apart(m[i], m[j])
  }

  ghost predicate AllWithin(m: map<string, Booking>, lo: int, hi: int) {
    forall id :: id in m ==> lo <= m[id].start < m[id].until <= hi
  }

  lemma OthersEndBefore(m: map<string, Booking>, lo: int, hi: int, k: string)
    requires AllApart(m) && AllWithin(m, lo, hi) && k in m && forall id :: id in m ==> m[id].start <= m[k].start
    ensures AllApart(m - {k}) && AllWithin(m - {k}, lo, m[k].start)
  {
    var rest := m - {k};
    forall id | id in rest ensures lo <= rest[id].start < rest[id].until <= m[k].start {
      assert Apart(m[id], m[k]);
    }
  }

  lemma DurationsSplit(m: map<string, Booking>, k: string)
    requires k in m
    ensures Total(Durations(m)) == m[k].until - m[k].start + Total(Durations(m - {k}))
  {
    Remove(Durations(m), k);
    assert Durations(m) - {k} == Durations(m - {k});
  }

  /** Non-overlapping intervals inside a window cannot be longer in total than the window. */
  lemma {:induction false} Packing(m: map<string, Booking>, lo: int, hi: int)
    requires lo <= hi && AllWithin(m, lo, hi) && AllApart(m)
    ensures Total(Durations(m)) <= hi - lo
    decreases |m|
  {
    if m == map[] {
      assert Durations(m) == map[];
    } else {
      var k := LatestExists(m);
      SmallerWithout(m, k);
      OthersEndBefore(m, lo, hi, k);
      Packing(m - {k}, lo, m[k].start);
      DurationsSplit(m, k);
    }
  }

  lemma BookedTimeFitsWindow(ops: seq<Op>, slot: string)
    requires slot in After(EMPTY, ops).slots
    ensures var a := After(EMPTY, ops);
            Total(Durations(Of(a, slot))) <= a.slots[slot].closeAt - a.slots[slot].openAt
  {
    var a := After(EMPTY, ops);
    AlwaysSafe(ops);
    WindowsOpen(ops);
    forall i, j | i in Of(a, slot) && j in Of(a, slot) && i != j ensures Apart(a.bookings[i], a.bookings[j]) {
      assert !Clash(a.bookings[i], a.bookings[j]);
    }
    Packing(Of(a, slot), a.slots[slot].openAt, a.slots[slot].closeAt);
  }

  lemma {:induction false} WindowsOpen(ops: seq<Op>)
    ensures forall s :: s in After(EMPTY, ops).slots ==>
              After(EMPTY, ops).slots[s].openAt < After(EMPTY, ops).slots[s].closeAt
  {
    if ops != [] {
      var before := After(EMPTY, ops[..|ops| - 1]);
      WindowsOpen(ops[..|ops| - 1]);
      AlwaysSafe(ops[..|ops| - 1]);
    }
  }

  // ---------- weight ----------

  /** What a booking contributes to a slot. */
  function InSlot(slot: string): Booking -> int {
    (b: Booking) => if b.slotId == slot then b.weightKg else 0
  }

  /** The weight of the live bookings of a slot. */
  ghost function Live(bookings: map<string, Booking>, slot: string): int {
    Sum(bookings, InSlot(slot))
  }

  /** Every slot's counter is exactly the weight of its live bookings, and that is within its limit. */
  ghost predicate Exact(a: Agenda) {
    forall s :: s in a.slots ==> a.slots[s].usedKg == Live(a.bookings, s) <= a.slots[s].maxKg
  }

  /** What a caller must see to: slots start empty, live booking ids are not reused, and no sum overflows 64 bits. */
  ghost predicate Clean(a: Agenda, op: Op) {
    match op
    case AddOp(s) => a.Add(s).1 == None ==> s.usedKg == 0
    case BookOp(b) => a.Book(b).1 == None ==> b.id !in a.bookings && a.slots[b.slotId].usedKg + b.weightKg <= MAX
    case CancelOp(id) => true
  }

  lemma LiveNonNegative(a: Agenda, slot: string)
    requires Safe(a)
    ensures Live(a.bookings, slot) >= 0
  {
    SumNonNegative(a.bookings, InSlot(slot));
  }

  lemma AddExact(a: Agenda, s: Slot)
    requires Safe(a) && Exact(a)
    ensures Exact(a.Add(s).0) <==> Clean(a, AddOp(s))
  {
    if a.Add(s).1 == None {
      SumOfNothing(a.bookings, InSlot(s.id));
      var d := a.Add(s).0;
      assert s.id in d.slots;
    }
  }

  /** An accepted booking, spelled out. */
  ghost predicate Adds(a: Agenda, b: Booking, d: Agenda) {
    && b.slotId in a.slots && b.weightKg > 0 && d.bookings == a.bookings[b.id := b]
    && var s := a.slots[b.slotId];
       Wrap(s.usedKg + b.weightKg) <= s.maxKg
       && d.slots == a.slots[b.slotId := s.(usedKg := Wrap(s.usedKg + b.weightKg))]
  }

  lemma AcceptedBook(a: Agenda, b: Booking)
    requires a.Book(b).1 == None
    ensures Adds(a, b, a.Book(b).0)
  {
  }

  lemma FreshBookExact(a: Agenda, b: Booking, d: Agenda)
    requires Exact(a) && Adds(a, b, d) && Live(a.bookings, b.slotId) >= 0 && b.id !in a.bookings
    ensures Exact(d) <==> a.slots[b.slotId].usedKg + b.weightKg <= MAX
  {
    var sum := a.slots[b.slotId].usedKg + b.weightKg;
    SumPut(a.bookings, b.id, b, InSlot(b.slotId));
    if sum > MAX {
      WrapSame(sum, sum - WIDTH, 1);
      assert b.slotId in d.slots && d.slots[b.slotId].usedKg != Live(d.bookings, b.slotId);
    } else {
      forall s | s in d.slots ensures d.slots[s].usedKg == Live(d.bookings, s) <= d.slots[s].maxKg {
        SumPut(a.bookings, b.id, b, InSlot(s));
      }
    }
  }

  lemma ReuseMiscounts(used: int64, w: int64, prior: int64)
    requires used >= 0 && w > 0 && prior > 0
    ensures Wrap(used + w) != used + w - prior
  {
    if used + w > MAX { WrapSame(used + w, used + w - WIDTH, 1); }
  }

  /** Reusing a live id: the earlier booking's weight stays in some counter, but the booking is gone. */
  lemma ReusedBookNotExact(a: Agenda, b: Booking, prior: Booking, d: Agenda)
    requires Exact(a) && Adds(a, b, d) && Live(a.bookings, b.slotId) >= 0
    requires b.id in a.bookings && a.bookings[b.id] == prior && prior.slotId in a.slots && prior.weightKg > 0
    ensures !Exact(d)
  {
    var s := prior.slotId;
    SumPut(a.bookings, b.id, b, InSlot(s));
    assert s in d.slots;
    if s == b.slotId {
      ReuseMiscounts(a.slots[s].usedKg, b.weightKg, prior.weightKg);
    }
  }

  lemma BookExact(a: Agenda, b: Booking)
    requires Safe(a) && Exact(a)
    ensures Exact(a.Book(b).0) <==> Clean(a, BookOp(b))
  {
    if a.Book(b).1 == None {
      AcceptedBook(a, b);
      LiveNonNegative(a, b.slotId);
      if b.id in a.bookings {
        assert InWindow(a, a.bookings[b.id]);
        ReusedBookNotExact(a, b, a.bookings[b.id], a.Book(b).0);
      } else {
        FreshBookExact(a, b, a.Book(b).0);
      }
    }
  }

  /** A cancelled booking, spelled out. */
  ghost predicate Removes(a: Agenda, id: string, d: Agenda) {
    && id in a.bookings && a.bookings[id].slotId in a.slots && d.bookings == a.bookings - {id}
    && var s := a.slots[a.bookings[id].slotId];
       d.slots == a.slots[a.bookings[id].slotId := s.(usedKg := Wrap(s.usedKg - a.bookings[id].weightKg))]
  }

  lemma RemovedSlot(a: Agenda, id: string, d: Agenda, s: string)
    requires Removes(a, id, d) && s in a.slots && a.slots[s].usedKg == Live(a.bookings, s) <= a.slots[s].maxKg
    requires forall k :: k in a.bookings ==> a.bookings[k].weightKg > 0
    ensures s in d.slots && d.slots[s].usedKg == Live(d.bookings, s) <= d.slots[s].maxKg
  {
    SumWithout(a.bookings, id, InSlot(s));
    SumNonNegative(d.bookings, InSlot(s));
  }

  lemma RemovedExact(a: Agenda, id: string, d: Agenda)
    requires Exact(a) && Removes(a, id, d) && forall k :: k in a.bookings ==> a.bookings[k].weightKg > 0
    ensures Exact(d)
  {
    forall s | s in d.slots ensures d.slots[s].usedKg == Live(d.bookings, s) <= d.slots[s].maxKg {
      RemovedSlot(a, id, d, s);
    }
  }

  lemma AcceptedCancel(a: Agenda, id: string)
    requires Safe(a)
    ensures if id in a.bookings then Removes(a, id, a.Cancel(id).0) else a.Cancel(id).0 == a
    ensures forall k :: k in a.bookings ==> a.bookings[k].weightKg > 0
  {
    if id in a.bookings {
      assert InWindow(a, a.bookings[id]);
    }
  }

  lemma CancelExact(a: Agenda, id: string)
    requires Safe(a) && Exact(a)
    ensures Exact(a.Cancel(id).0)
  {
    AcceptedCancel(a, id);
    var d := a.Cancel(id).0;
    if id in a.bookings {
      RemovedExact(a, id, d);
    }
  }

  /** Exactly the clean operations keep the counters exact. */
  lemma DoExact(a: Agenda, op: Op)
    requires Safe(a) && Exact(a)
    ensures Exact(Do(a, op)) <==> Clean(a, op)
  {
    match op
    case AddOp(s) => AddExact(a, s);
    case BookOp(b) => BookExact(a, b);
    case CancelOp(id) => CancelExact(a, id);
  }

  /** At every moment of the sequence the counters are exact; every operation was clean when it was made. */
  ghost predicate ExactThroughout(ops: seq<Op>) {
    Exact(After(EMPTY, ops)) && (ops != [] ==> ExactThroughout(ops[..|ops| - 1]))
  }

  ghost predicate CleanThroughout(ops: seq<Op>) {
    ops != [] ==> CleanThroughout(ops[..|ops| - 1]) && Clean(After(EMPTY, ops[..|ops| - 1]), ops[|ops| - 1])
  }

  /**
   * Through every sequence of operations, each slot's counter is the sum of its live bookings and within its limit at
   * every moment if and only if every operation was clean.
   */
  lemma {:induction false} ExactExactlyWhenClean(ops: seq<Op>)
    ensures ExactThroughout(ops) <==> CleanThroughout(ops)
  {
    if ops != [] {
      var init := ops[..|ops| - 1];
      ExactExactlyWhenClean(init);
      AlwaysSafe(init);
      if ExactThroughout(init) {
        DoExact(After(EMPTY, init), ops[|ops| - 1]);
      }
    }
  }

  // ---------- each way to be unclean occurs ----------

  const SLOT := Slot("s", "T1", "", 10, 0, 0, 9)
  const FIRST := Booking("a", "x", "s", 1, 0, 1)
  const BOOKED := Agenda(map["s" := SLOT.(usedKg := 1)], map["a" := FIRST])

  lemma OneBooking()
    ensures After(EMPTY, [AddOp(SLOT), BookOp(FIRST)]) == BOOKED && Exact(BOOKED)
  {
    var ops := [AddOp(SLOT), BookOp(FIRST)];
    assert ops[..1] == [AddOp(SLOT)] && ops[..1][..0] == [];
    var a := Agenda(map["s" := SLOT], map[]);
    assert After(EMPTY, [AddOp(SLOT)]) == Do(EMPTY, AddOp(SLOT)) == a;
    assert Do(a, BookOp(FIRST)) == BOOKED;
    SumPut(EMPTY.bookings, "a", FIRST, InSlot("s"));
    SumOfNothing(EMPTY.bookings, InSlot("s"));
    assert BOOKED.bookings == EMPTY.bookings["a" := FIRST];
  }

  lemma ThirdStep(op: Op)
    ensures After(EMPTY, [AddOp(SLOT), BookOp(FIRST), op]) == Do(BOOKED, op)
  {
    OneBooking();
    assert [AddOp(SLOT), BookOp(FIRST), op][..2] == [AddOp(SLOT), BookOp(FIRST)];
  }

  /** A slot of ten kilos with one kilo booked accepts 2^63-1 more, and its counter turns negative. */
  lemma OverflowAccepted()
    ensures var b := Booking("b", "y", "s", MAX, 1, 2);
            var d := After(EMPTY, [AddOp(SLOT), BookOp(FIRST), BookOp(b)]);
            "b" in d.bookings && "s" in d.slots && d.slots["s"].usedKg == MIN && !Exact(d)
  {
    var b := Booking("b", "y", "s", MAX, 1, 2);
    ThirdStep(BookOp(b));
    WrapSame(1 + MAX, MIN, 1);
    var d := Do(BOOKED, BookOp(b));
    assert BOOKED.Book(b).1 == None;
    SumNonNegative(d.bookings, InSlot("s"));
  }

  const AGAIN := Booking("a", "y", "s", 2, 1, 2)
  const REBOOKED := Agenda(map["s" := SLOT.(usedKg := 3)], map["a" := AGAIN])

  lemma RebookedNotExact()
    ensures !Exact(REBOOKED)
  {
    SumPut(EMPTY.bookings, "a", AGAIN, InSlot("s"));
    SumOfNothing(EMPTY.bookings, InSlot("s"));
    assert REBOOKED.bookings == EMPTY.bookings["a" := AGAIN];
    assert "s" in REBOOKED.slots;
  }

  /** A live id is accepted again: the slot counts two bookings where one is left. */
  lemma ReusedIdAccepted()
    ensures var d := After(EMPTY, [AddOp(SLOT), BookOp(FIRST), BookOp(AGAIN)]);
            d.bookings == map["a" := AGAIN] && "s" in d.slots && d.slots["s"].usedKg == 3 && !Exact(d)
  {
    ThirdStep(BookOp(AGAIN));
    assert BOOKED.Book(AGAIN).1 == None;
    assert Do(BOOKED, BookOp(AGAIN)) == REBOOKED;
    RebookedNotExact();
  }

  /** A slot added as already used is accepted too. */
  lemma UsedSlotAccepted()
    ensures var d := After(EMPTY, [AddOp(SLOT.(usedKg := 5))]);
            d.bookings == map[] && "s" in d.slots && d.slots["s"].usedKg == 5 && !Exact(d)
  {
    var ops := [AddOp(SLOT.(usedKg := 5))];
    assert ops[..0] == [] && After(EMPTY, ops) == Do(After(EMPTY, ops[..0]), ops[0]);
    var d := Do(EMPTY, ops[0]);
    SumOfNothing(d.bookings, InSlot("s"));
  }
}
