/** The route planner: a direct flight or one stop, earliest first arrival first. */
module Route {
  import opened Clock
  import opened Domain

  datatype Hub = Hub(code: string, timezone: string, openAt: int, closeAt: int, handlingMinutes: int)
  datatype Segment = Segment(origin: string, dest: string, depart: int, arrive: int, flight: string, availableKg: int)
  datatype Plan = Plan(shipmentId: string, segments: seq<Segment>, totalMinutes: int, totalStops: int)

  datatype Outcome = Planned(plan: Plan) | Rejected(error: Error) | NoFeasibleRoute | ContextDone

  // ---------- what a route is ----------

  /** A segment the journey can start with. */
  predicate CanStart(s: Segment, origin: string, weight: int, earliest: int) {
    s.origin == origin && s.availableKg >= weight && earliest <= s.depart
  }

  /** Reading a missing hub of the map yields the zero hub. */
  function Handling(hubs: map<string, Hub>, code: string): int {
    if code in hubs then hubs[code].handlingMinutes else 0
  }

  /** A segment that carries on from the first, after handling at the hub, to the destination. */
  predicate Connects(hubs: map<string, Hub>, first: Segment, second: Segment, dest: string, weight: int) {
    && second.origin == first.dest && second.dest == dest
    && second.depart > first.arrive + Handling(hubs, first.dest) * MINUTE && second.availableKg >= weight
  }

  /** The first segment gets there by itself or with one more. */
  ghost predicate Completes(hubs: map<string, Hub>, segments: seq<Segment>, first: Segment, dest: string, weight: int) {
    first.dest == dest || exists second :: second in segments && Connects(hubs, first, second, dest, weight)
  }

  ghost predicate Viable(hubs: map<string, Hub>, segments: seq<Segment>, first: Segment,
                         origin: string, dest: string, weight: int, earliest: int)
  {
    first in segments && CanStart(first, origin, weight, earliest) && Completes(hubs, segments, first, dest, weight)
  }

  /** Among the segments in the order they were added, second is the first that connects. */
  ghost predicate FirstConnecting(hubs: map<string, Hub>, segments: seq<Segment>, first: Segment, second: Segment,
                                  dest: string, weight: int)
  {
    exists j :: 0 <= j < |segments| && segments[j] == second && Connects(hubs, first, second, dest, weight)
                && forall i :: 0 <= i < j ==> !Connects(hubs, first, segments[i], dest, weight)
  }

  /** The legs of a plan, as a route of the network. */
  ghost predicate IsRoute(hubs: map<string, Hub>, segments: seq<Segment>, legs: seq<Segment>,
                          origin: string, dest: string, weight: int, earliest: int)
  {
    && 1 <= |legs| <= 2 && (forall s :: s in legs ==> s in segments)
    && CanStart(legs[0], origin, weight, earliest)
    && (if |legs| == 1 then legs[0].dest == dest else Connects(hubs, legs[0], legs[1], dest, weight))
  }

  // ---------- sorting by arrival ----------

  ghost predicate ByArrival(q: seq<Segment>) {
    forall i, j :: 0 <= i < j < |q| ==> q[i].arrive <= q[j].arrive
  }

  function Insert(q: seq<Segment>, s: Segment): seq<Segment> {
    if q == [] || s.arrive <= q[0].arrive then [s] + q else [q[0]] + Insert(q[1..], s)
  }

  lemma {:induction false} InsertPermutes(q: seq<Segment>, s: Segment)
    ensures multiset(Insert(q, s)) == multiset(q) + multiset{s}
  {
    if q != [] && s.arrive > q[0].arrive {
      InsertPermutes(q[1..], s);
      assert q == [q[0]] + q[1..];
    }
  }

  lemma InsertAfter(q: seq<Segment>, s: Segment, t: int)
    requires t <= s.arrive && forall i :: 0 <= i < |q| ==> t <= q[i].arrive
    ensures forall j :: 0 <= j < |Insert(q, s)| ==> t <= Insert(q, s)[j].arrive
  {
    var r := Insert(q, s);
    InsertPermutes(q, s);
    forall j | 0 <= j < |r| ensures t <= r[j].arrive {
      assert r[j] in multiset(r);
      assert r[j] == s || r[j] in q;
    }
  }

  lemma {:induction false} InsertSorts(q: seq<Segment>, s: Segment)
    requires ByArrival(q)
    ensures ByArrival(Insert(q, s))
  {
    if q != [] && s.arrive > q[0].arrive {
      InsertSorts(q[1..], s);
      InsertAfter(q[1..], s, q[0].arrive);
    }
  }

  /** Stands for sort.Slice: some arrangement of the queue in order of arrival. */
  method SortByArrival(q: seq<Segment>) returns (r: seq<Segment>)
    ensures ByArrival(r) && multiset(r) == multiset(q)
  {
    r := [];
    for i := 0 to |q|
      invariant ByArrival(r) && multiset(r) == multiset(q[..i])
    {
      InsertPermutes(r, q[i]);
      InsertSorts(r, q[i]);
      r := Insert(r, q[i]);
      assert q[..i + 1] == q[..i] + [q[i]];
    }
    assert q[..|q|] == q;
  }

  lemma SameMembers(a: seq<Segment>, b: seq<Segment>)
    requires multiset(a) == multiset(b)
    ensures forall s :: s in a <==> s in b
  {
    forall s ensures s in a <==> s in b {
      assert s in a <==> s in multiset(a);
      assert s in b <==> s in multiset(b);
    }
  }

  // ---------- the planner ----------

  class Planner {
    var hubs: map<string, Hub>
    var segments: seq<Segment>

    /** What AddHub and AddSegment have let in. */
    ghost predicate Valid()
      reads this
    {
      && (forall h :: h in hubs ==> hubs[h].handlingMinutes >= 0)
      && (forall s :: s in segments ==>
            s.origin in hubs && s.dest in hubs && s.origin != s.dest && s.depart < s.arrive && s.availableKg >= 0)
    }

    constructor ()
      ensures Valid() && hubs == map[] && segments == []
    {
      hubs, segments := map[], [];
    }

    method AddHub(h: Hub) returns (err: Option<Error>)
      requires Valid()
      modifies this
      ensures Valid() && segments == old(segments)
      ensures err == if h.code == "" || h.handlingMinutes < 0 || h.closeAt <= h.openAt then Some(Invalid)
                     else if h.code in old(hubs) then Some(Conflict) else None
      ensures hubs == if err == None then old(hubs)[h.code := h] else old(hubs)
    {
      if h.code == "" || h.handlingMinutes < 0 || h.closeAt <= h.openAt { return Some(Invalid); }
      if h.code in hubs { return Some(Conflict); }
      hubs := hubs[h.code := h];
      return None;
    }

    method AddSegment(s: Segment) returns (err: Option<Error>)
      requires Valid()
      modifies this
      ensures Valid() && hubs == old(hubs)
      ensures err == if s.origin == "" || s.dest == "" || s.origin == s.dest
                        || s.arrive <= s.depart || s.availableKg < 0
                     then Some(Invalid)
                     else if s.origin !in hubs || s.dest !in hubs then Some(NotFound) else None
      ensures segments == if err == None then old(segments) + [s] else old(segments)
    {
      if s.origin == "" || s.dest == "" || s.origin == s.dest || s.arrive <= s.depart || s.availableKg < 0 {
        return Some(Invalid);
      }
      if s.origin !in hubs { return Some(NotFound); }
      if s.dest !in hubs { return Some(NotFound); }
      segments := segments + [s];
      return None;
    }

    /** The first segment, in the order they were added, that connects; polls counts looks at the context. */
    method FindSecond(first: Segment, dest: string, weight: int, ctxDoneAfter: Option<nat>, used: nat)
      returns (second: Option<Segment>, done: bool, polls: nat)
      ensures done ==> ctxDoneAfter != None
      ensures used <= polls && (ctxDoneAfter != None && ctxDoneAfter.value <= used && segments != [] ==> done)
      ensures !done && second != None ==> FirstConnecting(hubs, segments, first, second.value, dest, weight)
      ensures !done && second == None ==> forall s :: s in segments ==> !Connects(hubs, first, s, dest, weight)
    {
      polls := used;
      for i := 0 to |segments|
        invariant forall j :: 0 <= j < i ==> !Connects(hubs, first, segments[j], dest, weight)
        invariant used <= polls && (i > 0 ==> ctxDoneAfter != None ==> used < ctxDoneAfter.value)
      {
        if ctxDoneAfter != None && ctxDoneAfter.value <= polls { return None, true, polls; }
        polls := polls + 1;
        if Connects(hubs, first, segments[i], dest, weight) {
          return Some(segments[i]), false, polls;
        }
      }
      return None, false, polls;
    }

    /** ctxDoneAfter says after how many looks, if ever, the context is found cancelled. */
    method FindPlan(ctxDoneAfter: Option<nat>, shipment: string, origin: string, dest: string,
                    weight: int, earliest: int)
      returns (r: Outcome)
      requires Valid()
      // Sound, even when the context runs out: a plan is a route, in strict time order, and nothing that can
      // complete a route arrives earlier than its first segment.
      ensures r.Planned? ==>
                && weight > 0 && IsRoute(hubs, segments, r.plan.segments, origin, dest, weight, earliest)
                && r.plan.shipmentId == shipment
                && Timely(r.plan)
                && (|r.plan.segments| == 2 ==>
                      && r.plan.segments[0].dest != dest
                      && FirstConnecting(hubs, segments, r.plan.segments[0], r.plan.segments[1], dest, weight))
                && forall s :: Viable(hubs, segments, s, origin, dest, weight, earliest) ==>
                     r.plan.segments[0].arrive <= s.arrive
      // Complete, with a live context: a plan is found exactly when there is a route.
      ensures ctxDoneAfter == None && weight > 0 ==>
                (r.Planned? <==> exists s :: Viable(hubs, segments, s, origin, dest, weight, earliest))
      // The other answers.
      ensures r == Rejected(Invalid) <==> weight <= 0
      ensures r == Rejected(NotFound) <==>
                weight > 0 && forall s :: s in segments ==> !CanStart(s, origin, weight, earliest)
      ensures r == NoFeasibleRoute ==> forall s :: !Viable(hubs, segments, s, origin, dest, weight, earliest)
      ensures r == ContextDone ==> ctxDoneAfter != None
      // A context that is cancelled from the start leaves only what needs no look at it: a direct route.
      ensures ctxDoneAfter == Some(0) ==> r != NoFeasibleRoute && (r.Planned? ==> |r.plan.segments| == 1)
    {
      if weight <= 0 { return Rejected(Invalid); }
      var queue := [];
      for i := 0 to |segments|
        invariant forall s :: s in queue <==> s in segments[..i] && CanStart(s, origin, weight, earliest)
      {
        assert segments[..i + 1] == segments[..i] + [segments[i]];
        if CanStart(segments[i], origin, weight, earliest) {
          queue := queue + [segments[i]];
        }
      }
      assert segments[..|segments|] == segments;
      var sorted := SortByArrival(queue);
      SameMembers(sorted, queue);
      if |sorted| == 0 {
        assert forall s :: s in segments && CanStart(s, origin, weight, earliest) ==> s in sorted;
        return Rejected(NotFound);
      }
      assert sorted[0] in sorted;
      var polls: nat := 0;
      for i := 0 to |sorted|
        invariant forall j :: 0 <= j < i ==> !Completes(hubs, segments, sorted[j], dest, weight)
        invariant ctxDoneAfter == Some(0) ==> i == 0
      {
        var first := sorted[i];
        assert first in sorted;
        if first.dest == dest {
          assert Viable(hubs, segments, first, origin, dest, weight, earliest);
          EarliestFirst(hubs, segments, sorted, i, origin, dest, weight, earliest);
          return Planned(Plan(shipment, [first], (first.arrive - first.depart) / MINUTE, 0));
        }
        var second, done;
        second, done, polls := FindSecond(first, dest, weight, ctxDoneAfter, polls);
        if done { return ContextDone; }
        if second != None {
          assert Viable(hubs, segments, first, origin, dest, weight, earliest);
          EarliestFirst(hubs, segments, sorted, i, origin, dest, weight, earliest);
          return Planned(Plan(shipment, [first, second.value], (second.value.arrive - first.depart) / MINUTE, 1));
        }
      }
      forall s ensures !Viable(hubs, segments, s, origin, dest, weight, earliest) {
        if s in sorted { var j :| 0 <= j < |sorted| && sorted[j] == s; }
      }
      return NoFeasibleRoute;
    }
  }

  /** The legs follow each other in time, and the totals are those of the whole journey. */
  ghost predicate Timely(p: Plan) {
    var n := |p.segments|;
    && 1 <= n && p.totalStops == n - 1
    && (forall i :: 0 <= i < n ==> p.segments[i].depart < p.segments[i].arrive)
    && (forall i :: 0 < i < n ==> p.segments[i - 1].arrive < p.segments[i].depart)
    && p.totalMinutes == (p.segments[n - 1].arrive - p.segments[0].depart) / 60_000_000_000
  }

  lemma EarliestFirst(hubs: map<string, Hub>, segments: seq<Segment>, sorted: seq<Segment>, i: nat,
                      origin: string, dest: string, weight: int, earliest: int)
    requires ByArrival(sorted) && i < |sorted|
    requires forall s :: s in segments && CanStart(s, origin, weight, earliest) ==> s in sorted
    requires forall j :: 0 <= j < i ==> !Completes(hubs, segments, sorted[j], dest, weight)
    ensures forall s :: Viable(hubs, segments, s, origin, dest, weight, earliest) ==> sorted[i].arrive <= s.arrive
  {
    forall s | Viable(hubs, segments, s, origin, dest, weight, earliest) ensures sorted[i].arrive <= s.arrive {
      var j :| 0 <= j < |sorted| && sorted[j] == s;
    }
  }

  /** A viable first segment and a route are the same thing. */
  lemma RouteExactlyWhenViable(hubs: map<string, Hub>, segments: seq<Segment>, origin: string,
                               dest: string, weight: int, earliest: int)
    ensures (exists s :: Viable(hubs, segments, s, origin, dest, weight, earliest))
       <==> (exists legs :: IsRoute(hubs, segments, legs, origin, dest, weight, earliest))
  {
    if s :| Viable(hubs, segments, s, origin, dest, weight, earliest) {
      if s.dest == dest {
        assert IsRoute(hubs, segments, [s], origin, dest, weight, earliest);
      } else {
        var second :| second in segments && Connects(hubs, s, second, dest, weight);
        assert IsRoute(hubs, segments, [s, second], origin, dest, weight, earliest);
      }
    }
    if legs :| IsRoute(hubs, segments, legs, origin, dest, weight, earliest) {
      assert legs[0] in legs;
      assert |legs| == 2 ==> legs[1] in legs;
      assert Viable(hubs, segments, legs[0], origin, dest, weight, earliest);
    }
  }


  // ---------- routes in plain terms ----------

  /** One segment from origin to destination, with room, not too early. */
  predicate DirectRoute(segments: seq<Segment>, s: Segment, origin: string, dest: string, weight: int, earliest: int) {
    s in segments && s.origin == origin && s.dest == dest && s.availableKg >= weight && s.depart >= earliest
  }

  /** Two segments through a hub, both with room, the second leaving later than the hub's handling time allows. */
  predicate OneStopRoute(hubs: map<string, Hub>, segments: seq<Segment>, first: Segment, second: Segment,
                         origin: string, dest: string, weight: int, earliest: int)
    requires forall s :: s in segments ==> s.origin in hubs && s.dest in hubs
  {
    && first in segments && second in segments
    && first.origin == origin && first.dest == second.origin && second.dest == dest
    && first.availableKg >= weight && second.availableKg >= weight && first.depart >= earliest
    && second.depart - first.arrive > 60_000_000_000 * hubs[first.dest].handlingMinutes
  }

  /**
   * What FindPlan calls a route is one of the two, and a first segment is viable exactly when it starts one of them.
   */
  lemma RoutesArePlain(hubs: map<string, Hub>, segments: seq<Segment>, origin: string, dest: string, weight: int,
                       earliest: int)
    requires forall s :: s in segments ==> s.origin in hubs && s.dest in hubs
    ensures forall s :: IsRoute(hubs, segments, [s], origin, dest, weight, earliest)
                   <==> DirectRoute(segments, s, origin, dest, weight, earliest)
    ensures forall s, t :: IsRoute(hubs, segments, [s, t], origin, dest, weight, earliest)
                      <==> OneStopRoute(hubs, segments, s, t, origin, dest, weight, earliest)
    ensures forall s :: Viable(hubs, segments, s, origin, dest, weight, earliest)
                   <==> || DirectRoute(segments, s, origin, dest, weight, earliest)
                        || exists t :: OneStopRoute(hubs, segments, s, t, origin, dest, weight, earliest)
  {
    forall s, t ensures IsRoute(hubs, segments, [s, t], origin, dest, weight, earliest)
                   <==> OneStopRoute(hubs, segments, s, t, origin, dest, weight, earliest)
    {
      assert [s, t][0] in [s, t] && [s, t][1] in [s, t];
    }
    forall s ensures IsRoute(hubs, segments, [s], origin, dest, weight, earliest)
                <==> DirectRoute(segments, s, origin, dest, weight, earliest)
    {
      assert [s][0] in [s];
    }
    forall s ensures Viable(hubs, segments, s, origin, dest, weight, earliest)
                <==> || DirectRoute(segments, s, origin, dest, weight, earliest)
                     || exists t :: OneStopRoute(hubs, segments, s, t, origin, dest, weight, earliest)
    {
      ViableIsPlain(hubs, segments, s, origin, dest, weight, earliest);
    }
  }

  lemma ViableIsPlain(hubs: map<string, Hub>, segments: seq<Segment>, s: Segment, origin: string, dest: string,
                      weight: int, earliest: int)
    requires forall s :: s in segments ==> s.origin in hubs && s.dest in hubs
    ensures Viable(hubs, segments, s, origin, dest, weight, earliest)
       <==> || DirectRoute(segments, s, origin, dest, weight, earliest)
            || exists t :: OneStopRoute(hubs, segments, s, t, origin, dest, weight, earliest)
  {
    if Viable(hubs, segments, s, origin, dest, weight, earliest) && s.dest != dest {
      var t :| t in segments && Connects(hubs, s, t, dest, weight);
      assert OneStopRoute(hubs, segments, s, t, origin, dest, weight, earliest);
    }
    if t :| OneStopRoute(hubs, segments, s, t, origin, dest, weight, earliest) {
      assert Connects(hubs, s, t, dest, weight);
    }
  }
}
