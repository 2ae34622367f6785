/** The version of a shipment counts its moves along the status line, so its life is at most five changes long. */
module Lockstep {
  import opened Domain
  import opened CargoStore
  import opened Handoff
  import opened Atomicity

  ghost predicate InLockstep(s: Shipment) {
    if s.status == Cancelled then 2 <= s.version <= 5
    else 0 <= Rank(s.status) <= 5 && s.version == 1 + Rank(s.status)
  }

  ghost predicate AllInLockstep(c: Cargo) {
    forall id :: id in c.shipments ==> InLockstep(c.shipments[id])
  }

  /** The edges of the status graph are one step up the line, or a cancellation before loading. */
  lemma EdgesClimb(from: ShipmentStatus, next: ShipmentStatus)
    ensures CanTransition(from, next) <==>
              (0 <= Rank(from) <= 3 && next == Cancelled) || (0 <= Rank(from) <= 4 && Rank(next) == Rank(from) + 1)
  {
  }

  lemma EvolvesKeepsLockstep(c: Cargo, d: Cargo)
    requires Evolves(c, d) && AllInLockstep(c)
    ensures AllInLockstep(d)
  {
    forall id | id in d.shipments ensures InLockstep(d.shipments[id]) {
      if id in c.shipments {
        EdgesClimb(c.shipments[id].status, d.shipments[id].status);
      }
    }
  }

  /** In every run over shipments made by the service, version and status stay in lockstep. */
  lemma {:induction false} LockstepAlways(tr: seq<System>, acts: seq<Action>, k: nat)
    requires IsRun(tr, acts) && Initial(tr[0]) && AllInLockstep(tr[0].cargo) && k < |tr|
    ensures AllInLockstep(tr[k].cargo)
  {
    if k > 0 {
      LockstepAlways(tr, acts, k - 1);
      RunKeepsInv(tr, acts, k - 1);
      EvolvesKeepsLockstep(tr[k - 1].cargo, tr[k].cargo);
    }
  }

  ghost predicate ChangedAt(tr: seq<System>, id: string, i: nat)
    requires i + 1 < |tr|
  {
    && id in tr[i].cargo.shipments && id in tr[i + 1].cargo.shipments
    && tr[i].cargo.shipments[id] != tr[i + 1].cargo.shipments[id]
  }

  /** How many steps before moment k changed the shipment. */
  ghost function Changes(tr: seq<System>, id: string, k: nat): nat
    requires k < |tr|
  {
    if k == 0 then 0 else Changes(tr, id, k - 1) + if ChangedAt(tr, id, k - 1) then 1 else 0
  }

  /** How many of them put it into status booked. */
  ghost function Bookings(tr: seq<System>, id: string, k: nat): nat
    requires k < |tr|
  {
    if k == 0 then 0
    else Bookings(tr, id, k - 1)
         + if ChangedAt(tr, id, k - 1) && tr[k].cargo.shipments[id].status == Booked then 1 else 0
  }

  /** What a step may do to one shipment, as far as the counts are concerned. */
  ghost predicate Counts(c: Cargo, d: Cargo, id: string) {
    && (id in c.shipments ==>
          && id in d.shipments && c.shipments[id].version >= 1
          && (d.shipments[id] != c.shipments[id] ==>
                && d.shipments[id].version == c.shipments[id].version + 1
                && (d.shipments[id].status == Booked ==> c.shipments[id].version == 1)))
    && (id !in c.shipments && id in d.shipments ==> d.shipments[id].version == 1)
  }

  lemma EvolvesCounts(c: Cargo, d: Cargo, id: string)
    requires Evolves(c, d) && AllInLockstep(c)
    ensures Counts(c, d, id)
  {
  }

  lemma RunCounts(tr: seq<System>, acts: seq<Action>, id: string)
    requires IsRun(tr, acts) && Initial(tr[0]) && AllInLockstep(tr[0].cargo)
    ensures forall m :: 0 <= m < |tr| - 1 ==> Counts(tr[m].cargo, tr[m + 1].cargo, id)
  {
    forall m | 0 <= m < |tr| - 1 ensures Counts(tr[m].cargo, tr[m + 1].cargo, id) {
      RunKeepsInv(tr, acts, m);
      LockstepAlways(tr, acts, m);
      EvolvesCounts(tr[m].cargo, tr[m + 1].cargo, id);
    }
  }

  ghost predicate Tally(tr: seq<System>, id: string, k: nat)
    requires k < |tr|
  {
    if id !in tr[k].cargo.shipments then
      id !in tr[0].cargo.shipments && Changes(tr, id, k) == 0 && Bookings(tr, id, k) == 0
    else
      var v := tr[k].cargo.shipments[id].version;
      && v >= 1
      && Bookings(tr, id, k) <= (if v == 1 then 0 else 1)
      && v == Changes(tr, id, k) + (if id in tr[0].cargo.shipments then tr[0].cargo.shipments[id].version else 1)
  }

  lemma {:induction false} CountsTally(tr: seq<System>, id: string, k: nat)
    requires k < |tr|
    requires forall m :: 0 <= m < |tr| - 1 ==> Counts(tr[m].cargo, tr[m + 1].cargo, id)
    requires id in tr[0].cargo.shipments ==> tr[0].cargo.shipments[id].version >= 1
    ensures Tally(tr, id, k)
  {
    if k > 0 {
      CountsTally(tr, id, k - 1);
      assert Counts(tr[k - 1].cargo, tr[k - 1 + 1].cargo, id);
    }
  }

  /** A shipment's version is its first version plus the number of its changes; a booking is the change from 1 to 2. */
  lemma VersionCountsChanges(tr: seq<System>, acts: seq<Action>, id: string, k: nat)
    requires IsRun(tr, acts) && Initial(tr[0]) && AllInLockstep(tr[0].cargo) && k < |tr|
    ensures Tally(tr, id, k)
  {
    RunCounts(tr, acts, id);
    CountsTally(tr, id, k);
  }

  /** At most five changes ever happen to a shipment, and at most one of them is a booking. */
  lemma AtMostFiveChanges(tr: seq<System>, acts: seq<Action>, id: string, k: nat)
    requires IsRun(tr, acts) && Initial(tr[0]) && AllInLockstep(tr[0].cargo) && k < |tr|
    ensures Changes(tr, id, k) <= 5 && Bookings(tr, id, k) <= 1
  {
    VersionCountsChanges(tr, acts, id, k);
    LockstepAlways(tr, acts, k);
  }
}
