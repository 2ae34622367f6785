/** How often and how fast an outbox event can be claimed, in every run of any number of workers. */
module OutboxRetry {
  import opened Clock
  import opened Domain
  import opened Outbox

  /** Step i claims the event. */
  ghost predicate Claims(sys: System, a: Action, e: string) {
    Ticks(sys, a) && e in a.ids
  }

  /** Step i marks the event failed, or published. */
  ghost predicate Fails(sys: System, a: Action, e: string) {
    Settles(sys, a) && sys.workers[a.w].pending[0].id == e && a.failure != None
  }

  ghost predicate Publishes(sys: System, a: Action, e: string) {
    Settles(sys, a) && sys.workers[a.w].pending[0].id == e && a.failure == None
  }

  /** What one step does to the stored event. */
  lemma EventStep(sys: System, a: Action, e: string)
    requires e in sys.box && !(a.Enqueue? && a.v.id == e)
    ensures var t := Step(sys, a);
            && e in t.box
            && (Claims(sys, a, e) ==> Eligible(sys.box[e], a.now) && t.box[e] == Claimed(sys.box[e], a.now))
            && (Fails(sys, a, e) ==> t.box[e] == Retried(sys.box[e], sys.workers[a.w].now, a.failure.value))
            && (Publishes(sys, a, e) ==> t.box[e] == sys.box[e].(publishedAt := Some(sys.workers[a.w].now)))
            && (!Claims(sys, a, e) && !Fails(sys, a, e) && !Publishes(sys, a, e) ==> t.box[e] == sys.box[e])
  {
    if Ticks(sys, a) {
      var picked := set id | id in a.ids;
      assert e in a.ids <==> e in picked;
    }
  }

  // ---------- claims are exclusive ----------

  ghost predicate FailsBetween(tr: seq<System>, acts: seq<Action>, e: string, i: nat, j: nat)
    requires |tr| == |acts| + 1 && j <= |acts|
  {
    exists m :: i <= m < j && Fails(tr[m], acts[m], e)
  }

  lemma {:induction false} ClaimedUntilFailed(tr: seq<System>, acts: seq<Action>, e: string, i: nat, j: nat)
    requires IsRun(tr, acts) && EnqueuedOnce(tr, acts, e) && i <= j < |tr|
    requires e in tr[i].box && tr[i].box[e].claimedAt != None && !FailsBetween(tr, acts, e, i, j)
    ensures e in tr[j].box && tr[j].box[e].claimedAt != None
    decreases j
  {
    if i < j {
      assert forall m :: i <= m < j - 1 ==> !Fails(tr[m], acts[m], e);
      ClaimedUntilFailed(tr, acts, e, i, j - 1);
      EventStep(tr[j - 1], acts[j - 1], e);
      assert !Fails(tr[j - 1], acts[j - 1], e);
    }
  }

  lemma {:induction false} Stays(tr: seq<System>, acts: seq<Action>, e: string, i: nat, j: nat)
    requires IsRun(tr, acts) && EnqueuedOnce(tr, acts, e) && i <= j < |tr| && e in tr[i].box
    ensures e in tr[j].box
    ensures tr[i].box[e].publishedAt != None ==> tr[j].box[e].publishedAt != None
    decreases j
  {
    if i < j {
      Stays(tr, acts, e, i, j - 1);
      EventStep(tr[j - 1], acts[j - 1], e);
    }
  }

  /** Between any two claims of the same event lies a failure of it. */
  lemma ClaimsAreExclusive(tr: seq<System>, acts: seq<Action>, e: string, i: nat, j: nat)
    requires IsRun(tr, acts) && EnqueuedOnce(tr, acts, e) && i < j < |acts| && e in tr[i].box
    requires Claims(tr[i], acts[i], e) && Claims(tr[j], acts[j], e)
    ensures FailsBetween(tr, acts, e, i + 1, j)
  {
    EventStep(tr[i], acts[i], e);
    Stays(tr, acts, e, i + 1, j);
    EventStep(tr[j], acts[j], e);
    if !FailsBetween(tr, acts, e, i + 1, j) {
      ClaimedUntilFailed(tr, acts, e, i + 1, j);
    }
  }

  /** A published event is never claimed again. */
  lemma PublishedNeverClaimed(tr: seq<System>, acts: seq<Action>, e: string, i: nat, j: nat)
    requires IsRun(tr, acts) && EnqueuedOnce(tr, acts, e) && i <= j < |acts|
    requires e in tr[i].box && tr[i].box[e].publishedAt != None
    ensures !Claims(tr[j], acts[j], e)
  {
    Stays(tr, acts, e, i, j);
    EventStep(tr[j], acts[j], e);
  }

  ghost predicate Held(sys: System, e: string) {
    exists w, i :: Holds(sys, e, w, i)
  }

  lemma HeldStep(sys: System, a: Action, e: string)
    requires Keyed(sys.box) && !Held(sys, e) && Held(Step(sys, a), e)
    ensures Claims(sys, a, e)
  {
    var t := Step(sys, a);
    var w: nat, i: nat :| Holds(t, e, w, i);
    assert !Holds(sys, e, w, i) && !Holds(sys, e, w, i + 1);
    if Ticks(sys, a) {
      TickKeyed(sys, a);
    }
  }

  /** A claim whose worker is gone is never released: the event is not claimed again for the rest of the run. */
  lemma {:induction false} OrphanIsStuck(tr: seq<System>, acts: seq<Action>, e: string, i: nat, j: nat)
    requires IsRun(tr, acts) && Initial(tr[0]) && EnqueuedOnce(tr, acts, e) && i <= j < |tr|
    requires e in tr[i].box && tr[i].box[e].claimedAt != None && !Held(tr[i], e)
    ensures e in tr[j].box && tr[j].box[e] == tr[i].box[e] && !Held(tr[j], e)
    ensures j < |acts| ==> !Claims(tr[j], acts[j], e)
    decreases j
  {
    if i < j {
      OrphanIsStuck(tr, acts, e, i, j - 1);
      AlwaysExclusive(tr, acts, e, j - 1);
      EventStep(tr[j - 1], acts[j - 1], e);
      OnlyHoldersSettle(tr[j - 1], acts[j - 1], e);
      if Held(tr[j], e) { HeldStep(tr[j - 1], acts[j - 1], e); }
    }
    if j < |acts| { EventStep(tr[j], acts[j], e); }
  }

  lemma OnlyHoldersSettle(sys: System, a: Action, e: string)
    requires !Held(sys, e)
    ensures !Fails(sys, a, e) && !Publishes(sys, a, e)
  {
    if Settles(sys, a) { assert !Holds(sys, e, a.w, 0); }
  }

  // ---------- the retry schedule ----------

  /** The times of the claims among steps b to k. */
  ghost function ClaimTimes(tr: seq<System>, acts: seq<Action>, e: string, b: nat, k: nat): seq<int>
    requires |tr| == |acts| + 1 && b <= k <= |acts|
  {
    if k == b then []
    else ClaimTimes(tr, acts, e, b, k - 1) + if Claims(tr[k - 1], acts[k - 1], e) then [acts[k - 1].now] else []
  }

  /** Each claim comes at least as many minutes after the one before as the event had attempts then. */
  ghost predicate Spaced(times: seq<int>, first: int) {
    forall j :: 0 <= j < |times| - 1 ==> times[j + 1] >= times[j] + MINUTE * (first + j + 1)
  }

  /** The stored event, seen from its claim history. */
  ghost predicate OnSchedule(v: Event, held: bool, times: seq<int>, first: int) {
    && v.attempts == first + |times| && Spaced(times, first)
    && (times == [] ==> !held)
    && (times != [] ==>
          && (v.claimedAt != None ==> v.claimedAt == Some(times[|times| - 1]))
          && (v.claimedAt == None && v.publishedAt == None ==>
                v.availableAt == times[|times| - 1] + MINUTE * v.attempts))
  }

  lemma ScheduleStep(sys: System, a: Action, e: string, times: seq<int>, first: int)
    requires Keyed(sys.box) && Exclusive(sys, e) && e in sys.box && !(a.Enqueue? && a.v.id == e)
    requires OnSchedule(sys.box[e], Held(sys, e), times, first)
    ensures var t := Step(sys, a);
            e in t.box && OnSchedule(t.box[e], Held(t, e), times + (if Claims(sys, a, e) then [a.now] else []), first)
  {
    EventStep(sys, a, e);
    var t := Step(sys, a);
    if Claims(sys, a, e) {
    } else {
      assert times + [] == times;
      if Held(t, e) && !Held(sys, e) { HeldStep(sys, a, e); }
      if Fails(sys, a, e) { assert Holds(sys, e, a.w, 0); }
      if Publishes(sys, a, e) { assert Holds(sys, e, a.w, 0); }
    }
  }

  lemma {:induction false} AlwaysOnSchedule(tr: seq<System>, acts: seq<Action>, e: string, b: nat, k: nat)
    requires IsRun(tr, acts) && Initial(tr[0]) && EnqueuedOnce(tr, acts, e) && b <= k < |tr|
    requires e in tr[b].box && !Held(tr[b], e)
    ensures e in tr[k].box
    ensures OnSchedule(tr[k].box[e], Held(tr[k], e), ClaimTimes(tr, acts, e, b, k), tr[b].box[e].attempts)
    decreases k
  {
    if k > b {
      AlwaysOnSchedule(tr, acts, e, b, k - 1);
      AlwaysExclusive(tr, acts, e, k - 1);
      ScheduleStep(tr[k - 1], acts[k - 1], e, ClaimTimes(tr, acts, e, b, k - 1), tr[b].box[e].attempts);
    }
  }

  /** An event that has just been enqueued is in nobody's hands, so every claim of its life is counted below. */
  lemma EnqueuedUnheld(tr: seq<System>, acts: seq<Action>, i: nat)
    requires IsRun(tr, acts) && Initial(tr[0]) && i < |acts| && acts[i].Enqueue?
    requires EnqueuedOnce(tr, acts, acts[i].v.id)
    ensures var e := acts[i].v.id; e in tr[i + 1].box && tr[i + 1].box[e] == acts[i].v && !Held(tr[i + 1], e)
  {
    AlwaysExclusive(tr, acts, acts[i].v.id, i);
    var s, t, e := tr[i], tr[i + 1], acts[i].v.id;
    forall w: nat, j: nat | Holds(t, e, w, j) ensures Holds(s, e, w, j) {
    }
  }

  /** The attempts counter is exact: its first value plus the number of claims since. */
  lemma AttemptsCountClaims(tr: seq<System>, acts: seq<Action>, e: string, b: nat, k: nat)
    requires IsRun(tr, acts) && Initial(tr[0]) && EnqueuedOnce(tr, acts, e) && b <= k < |tr|
    requires e in tr[b].box && !Held(tr[b], e)
    ensures e in tr[k].box && tr[k].box[e].attempts == tr[b].box[e].attempts + |ClaimTimes(tr, acts, e, b, k)|
  {
    AlwaysOnSchedule(tr, acts, e, b, k);
  }

  lemma {:induction false} SpacedSum(times: seq<int>, j: nat)
    requires Spaced(times, 0) && j < |times|
    ensures 2 * (times[j] - times[0]) >= MINUTE * (j * (j + 1))
  {
    if j > 0 {
      SpacedSum(times, j - 1);
      assert times[j - 1 + 1] >= times[j - 1] + MINUTE * j;
      assert j * (j + 1) == (j - 1) * j + 2 * j;
    }
  }

  /**
   * Backoff: for an event that enters with no attempts, the n-th claim is at least n(n-1)/2 minutes after the first,
   * in every interleaving of ticks, settlements and crashes; the workers' clocks need not even agree.
   */
  lemma BackoffBound(tr: seq<System>, acts: seq<Action>, e: string, b: nat, k: nat, n: nat)
    requires IsRun(tr, acts) && Initial(tr[0]) && EnqueuedOnce(tr, acts, e) && b <= k < |tr|
    requires e in tr[b].box && !Held(tr[b], e) && tr[b].box[e].attempts == 0
    requires 1 <= n <= |ClaimTimes(tr, acts, e, b, k)|
    ensures var times := ClaimTimes(tr, acts, e, b, k); 2 * (times[n - 1] - times[0]) >= 60_000_000_000 * (n * (n - 1))
  {
    AlwaysOnSchedule(tr, acts, e, b, k);
    SpacedSum(ClaimTimes(tr, acts, e, b, k), n - 1);
  }

  /** The condition under which Summary counts an event as failed. */
  predicate CountedFailed(v: Event) {
    v.publishedAt == None && v.attempts >= 5
  }

  /** So exactly the unpublished events with five claims or more are counted. */
  lemma CountedFailedExactly(tr: seq<System>, acts: seq<Action>, e: string, b: nat, k: nat)
    requires IsRun(tr, acts) && Initial(tr[0]) && EnqueuedOnce(tr, acts, e) && b <= k < |tr|
    requires e in tr[b].box && !Held(tr[b], e) && tr[b].box[e].attempts == 0
    ensures e in tr[k].box
    ensures CountedFailed(tr[k].box[e]) <==> tr[k].box[e].publishedAt == None && |ClaimTimes(tr, acts, e, b, k)| >= 5
  {
    AttemptsCountClaims(tr, acts, e, b, k);
  }

  /**
   * A failed event is due again exactly a minute per attempt after the tick that failed it, neither sooner nor
   * later.
   */
  lemma FailedIsDueExactly(sys: System, a: Action, e: string)
    requires e in sys.box && Fails(sys, a, e) && sys.box[e].publishedAt == None
    ensures var t := Step(sys, a);
            && e in t.box && t.box[e].claimedAt == None && t.box[e].lastError == a.failure.value
            && t.box[e].publishedAt == None
            && t.box[e].availableAt == sys.workers[a.w].now + 60_000_000_000 * sys.box[e].attempts
  {
    EventStep(sys, a, e);
  }

  /** An event counted as failed has spent at least ten minutes between its first and its fifth claim. */
  lemma FailedTookTenMinutes(tr: seq<System>, acts: seq<Action>, e: string, b: nat, k: nat)
    requires IsRun(tr, acts) && Initial(tr[0]) && EnqueuedOnce(tr, acts, e) && b <= k < |tr|
    requires e in tr[b].box && !Held(tr[b], e) && tr[b].box[e].attempts == 0
    requires e in tr[k].box && CountedFailed(tr[k].box[e])
    ensures var times := ClaimTimes(tr, acts, e, b, k); |times| >= 5 && times[4] - times[0] >= 600_000_000_000
  {
    AttemptsCountClaims(tr, acts, e, b, k);
    BackoffBound(tr, acts, e, b, k, 5);
  }
}
