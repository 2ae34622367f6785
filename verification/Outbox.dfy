/** The outbox: claim, publish or fail, and retry with growing delays, by any number of workers. */
module Outbox {
  import opened Clock
  import opened Domain

  const BATCH := 20

  datatype Event = Event(id: string, tenantId: string, topic: string, aggregateId: string, payload: seq<int>,
                         attempts: int, availableAt: int, claimedAt: Option<int>, publishedAt: Option<int>,
                         lastError: string)

  type Box = map<string, Event>

  predicate Eligible(v: Event, now: int) {
    v.publishedAt == None && v.claimedAt == None && v.availableAt <= now
  }

  function Claimed(v: Event, now: int): Event {
    v.(claimedAt := Some(now), attempts := v.attempts + 1)
  }

  ghost function Candidates(box: Box, now: int): set<string> {
    set id | id in box && Eligible(box[id], now)
  }

  /** Which claims a call of Claim may make: as many eligible events as there are, up to n, whichever come first. */
  ghost predicate ValidPick(box: Box, now: int, n: int, picked: set<string>) {
    && picked <= Candidates(box, now)
    && (n <= |picked| || picked == Candidates(box, now))
    && (|picked| <= n || picked == {})
  }

  /** Neither published nor in anyone's hands, and not to be left alone for longer. */
  predicate Due(v: Event, now: int) {
    !v.publishedAt.Some? && !v.claimedAt.Some? && now >= v.availableAt
  }

  /** Such a pick takes only events that are due, at most n, and all that are due when there are fewer. */
  lemma PickAnswers(box: Box, now: int, n: nat, picked: set<string>)
    requires ValidPick(box, now, n, picked)
    ensures |picked| <= n
    ensures forall id :: id in picked ==> id in box && Due(box[id], now)
    ensures |picked| < n ==> forall id :: id in box && Due(box[id], now) ==> id in picked
  {
  }

  ghost function AfterClaim(box: Box, now: int, picked: set<string>): Box {
    map id | id in box :: if id in picked then Claimed(box[id], now) else box[id]
  }

  function AfterPublish(box: Box, id: string, at: int): Box {
    if id in box then box[id := box[id].(publishedAt := Some(at))] else box
  }

  function Retried(v: Event, at: int, err: string): Event {
    v.(lastError := err, claimedAt := None, availableAt := at + MINUTE * v.attempts)
  }

  function AfterFailure(box: Box, id: string, at: int, err: string): Box {
    if id in box then box[id := Retried(box[id], at, err)] else box
  }

  ghost predicate Keyed(box: Box) {
    forall id :: id in box ==> box[id].id == id
  }

  /** The events are those stored under the picked ids, each once. */
  ghost predicate Lists(events: seq<Event>, box: Box, picked: set<string>) {
    && picked <= box.Keys && |events| == |picked|
    && (forall i :: 0 <= i < |events| ==> events[i].id in picked && events[i] == box[events[i].id])
    && (forall i, j :: 0 <= i < j < |events| ==> events[i].id != events[j].id)
    && (forall id :: id in picked ==> exists i :: 0 <= i < |events| && events[i].id == id)
  }

  lemma ListsAppend(events: seq<Event>, box: Box, box': Box, picked: set<string>, v: Event)
    requires Lists(events, box, picked) && v.id !in picked && box' == box[v.id := v]
    ensures Lists(events + [v], box', picked + {v.id})
  {
    var all := events + [v];
    assert all[|events|] == v;
    forall i | 0 <= i < |all| ensures all[i].id in picked + {v.id} && all[i] == box'[all[i].id] {
      if i < |events| { assert all[i] == events[i]; }
    }
    forall i, j | 0 <= i < j < |all| ensures all[i].id != all[j].id {
      assert all[i] == events[i] && (j < |events| ==> all[j] == events[j]);
    }
    forall id | id in picked + {v.id} ensures exists i :: 0 <= i < |all| && all[i].id == id {
      ListedAppend(events, v, id);
    }
  }

  lemma ListedAppend(events: seq<Event>, v: Event, id: string)
    requires id == v.id || exists i :: 0 <= i < |events| && events[i].id == id
    ensures exists i :: 0 <= i < |events + [v]| && (events + [v])[i].id == id
  {
    var all := events + [v];
    if id == v.id {
      assert all[|events|].id == id;
    } else {
      var i :| 0 <= i < |events| && events[i].id == id;
      assert all[i].id == id;
    }
  }

  /** Half-way through Claim: what is left to visit, what has been picked, and the box so far. */
  ghost predicate Claiming(was: Box, now: int, n: int, todo: set<string>, picked: set<string>,
                           out: seq<Event>, box: Box) {
    && todo <= was.Keys && picked !! todo
    && box == AfterClaim(was, now, picked) && Lists(out, box, picked)
    && (forall id :: id in picked ==> Eligible(was[id], now))
    && (|out| < n ==> forall id :: id in was && Eligible(was[id], now) ==> id in picked || id in todo)
    && (|out| <= n || out == [])
  }

  lemma ClaimBegins(was: Box, now: int, n: int)
    ensures Claiming(was, now, n, was.Keys, {}, [], was)
  {
    assert was == AfterClaim(was, now, {});
  }

  lemma AfterOneMoreClaim(was: Box, now: int, picked: set<string>, id: string)
    requires id in was && id !in picked
    ensures AfterClaim(was, now, picked)[id := Claimed(was[id], now)] == AfterClaim(was, now, picked + {id})
  {
  }

  lemma ClaimVisits(was: Box, now: int, n: int, todo: set<string>, picked: set<string>,
                    out: seq<Event>, box: Box, id: string)
    requires Keyed(was) && Claiming(was, now, n, todo, picked, out, box) && id in todo
    ensures box[id] == was[id]
    ensures if Eligible(was[id], now) && |out| < n
            then Claiming(was, now, n, todo - {id}, picked + {id},
                          out + [Claimed(was[id], now)], box[id := Claimed(was[id], now)])
            else Claiming(was, now, n, todo - {id}, picked, out, box)
  {
    if Eligible(was[id], now) && |out| < n {
      var v := Claimed(was[id], now);
      ListsAppend(out, box, box[id := v], picked, v);
      AfterOneMoreClaim(was, now, picked, id);
    }
  }

  lemma ClaimEnds(was: Box, now: int, n: int, picked: set<string>, out: seq<Event>, box: Box)
    requires Claiming(was, now, n, {}, picked, out, box)
    ensures ValidPick(was, now, n, picked)
  {
    if |out| < n {
      assert picked == Candidates(was, now);
    }
  }

  class Store {
    var outbox: Box

    constructor ()
      ensures outbox == map[]
    {
      outbox := map[];
    }

    method Enqueue(v: Event)
      modifies this
      ensures outbox == old(outbox)[v.id := v]
    {
      outbox := outbox[v.id := v];
    }

    /** Ranges over the map in an arbitrary order, claiming what is eligible until the batch is full. */
    method Claim(now: int, n: int) returns (out: seq<Event>, ghost picked: set<string>)
      requires Keyed(outbox)
      modifies this
      ensures ValidPick(old(outbox), now, n, picked) && outbox == AfterClaim(old(outbox), now, picked)
      ensures Lists(out, outbox, picked)
    {
      out, picked := [], {};
      var todo := outbox.Keys;
      ghost var was := outbox;
      ClaimBegins(was, now, n);
      while todo != {}
        invariant Claiming(was, now, n, todo, picked, out, outbox)
        decreases |todo|
      {
        var id :| id in todo;
        ClaimVisits(was, now, n, todo, picked, out, outbox, id);
        var v := outbox[id];
        if v.publishedAt == None && v.claimedAt == None && v.availableAt <= now && |out| < n {
          v := v.(claimedAt := Some(now));
          v := v.(attempts := v.attempts + 1);
          assert v == Claimed(was[id], now);
          outbox := outbox[id := v];
          out := out + [v];
          picked := picked + {id};
        }
        todo := todo - {id};
      }
      ClaimEnds(was, now, n, picked, out, outbox);
    }

    method MarkPublished(id: string, at: int) returns (err: Option<Error>)
      modifies this
      ensures outbox == AfterPublish(old(outbox), id, at) && err == if id in old(outbox) then None else Some(NotFound)
    {
      if id !in outbox { return Some(NotFound); }
      var v := outbox[id];
      v := v.(publishedAt := Some(at));
      outbox := outbox[id := v];
      return None;
    }

    method MarkFailed(id: string, at: int, text: string) returns (err: Option<Error>)
      modifies this
      ensures outbox == AfterFailure(old(outbox), id, at, text)
      ensures err == if id in old(outbox) then None else Some(NotFound)
    {
      if id !in outbox { return Some(NotFound); }
      var v := outbox[id];
      v := v.(lastError := text);
      v := v.(claimedAt := None);
      v := v.(availableAt := at + MINUTE * v.attempts);
      outbox := outbox[id := v];
      return None;
    }
  }

  /** What a whole tick leaves of an event it picked: published, or put back for later with the error text. */
  function Settled(v: Event, now: int, publish: Event -> Option<string>): Event {
    match publish(Claimed(v, now))
    case Some(text) => Retried(Claimed(v, now), now, text)
    case None => Claimed(v, now).(publishedAt := Some(now))
  }

  /** The same in plain terms: one more attempt, and stamped, or due again a minute per attempt later. */
  lemma SettledAnswers(v: Event, now: int, publish: Event -> Option<string>)
    ensures var w, seen := Settled(v, now, publish), v.(claimedAt := Some(now), attempts := v.attempts + 1);
            if publish(seen) == None then w == seen.(publishedAt := Some(now))
            else w == seen.(claimedAt := None, lastError := publish(seen).value,
                            availableAt := now + 60_000_000_000 * (v.attempts + 1))
  {
  }

  class Runner {
    const repo: Store

    constructor (repo: Store)
      ensures this.repo == repo
    {
      this.repo := repo;
    }

    /** One tick of a worker that nobody disturbs: every event it picks is settled, all others are left alone. */
    method Tick(now: int, publish: Event -> Option<string>) returns (ghost picked: set<string>)
      requires Keyed(repo.outbox)
      modifies repo
      ensures ValidPick(old(repo.outbox), now, BATCH, picked) && |picked| <= 20
      ensures |picked| < 20 ==> forall id :: id in old(repo.outbox) && Due(old(repo.outbox)[id], now) ==> id in picked
      ensures repo.outbox == map id | id in old(repo.outbox) ::
                if id in picked then Settled(old(repo.outbox)[id], now, publish) else old(repo.outbox)[id]
    {
      var events;
      events, picked := repo.Claim(now, BATCH);
      ghost var was := old(repo.outbox);
      ghost var done := {};
      for i := 0 to |events|
        invariant Settling(was, now, publish, events, picked, i, done, repo.outbox)
      {
        var event := events[i];
        SettleNext(was, now, publish, events, picked, i, done, repo.outbox);
        var failure := publish(event);
        if failure.Some? {
          var _ := repo.MarkFailed(event.id, now, failure.value);
        } else {
          var _ := repo.MarkPublished(event.id, now);
        }
        done := done + {event.id};
      }
      AllSettled(was, now, publish, events, picked, done, repo.outbox);
    }
  }

  /** A tick that has settled the first i of its events. */
  ghost predicate Settling(was: Box, now: int, publish: Event -> Option<string>,
                           events: seq<Event>, picked: set<string>,
                           i: nat, done: set<string>, box: Box)
  {
    && i <= |events| && Lists(events, AfterClaim(was, now, picked), picked) && done <= picked
    && (forall j :: 0 <= j < |events| ==> (events[j].id in done <==> j < i))
    && box == map id | id in was ::
         if id in done then Settled(was[id], now, publish) else AfterClaim(was, now, picked)[id]
  }

  lemma SettleNext(was: Box, now: int, publish: Event -> Option<string>, events: seq<Event>, picked: set<string>,
                   i: nat, done: set<string>, box: Box)
    requires i < |events| && Settling(was, now, publish, events, picked, i, done, box)
    ensures var e := events[i];
            var next := match publish(e)
              case None => AfterPublish(box, e.id, now)
              case Some(text) => AfterFailure(box, e.id, now, text);
            Settling(was, now, publish, events, picked, i + 1, done + {e.id}, next)
  {
    var e := events[i];
    assert e.id in picked && e.id !in done && e == Claimed(was[e.id], now) && box[e.id] == e;
  }

  lemma AllSettled(was: Box, now: int, publish: Event -> Option<string>, events: seq<Event>, picked: set<string>,
                   done: set<string>, box: Box)
    requires Settling(was, now, publish, events, picked, |events|, done, box)
    ensures box == map id | id in was :: if id in picked then Settled(was[id], now, publish) else was[id]
  {
    assert done == picked;
  }

  // ---------- any number of workers ----------

  /** A worker in the middle of a tick: the tick's time and the claimed events it has yet to settle. */
  datatype Worker = Worker(now: int, pending: seq<Event>)
  datatype System = System(box: Box, workers: map<nat, Worker>)

  datatype Action =
    | Enqueue(v: Event)
    | Tick(w: nat, now: int, ids: seq<string>)
    | Settle(w: nat, failure: Option<string>)
    | Crash(w: nat)

  ghost predicate Idle(sys: System, w: nat) {
    w in sys.workers ==> sys.workers[w].pending == []
  }

  ghost predicate Distinct(ids: seq<string>) {
    forall i, j :: 0 <= i < j < |ids| ==> ids[i] != ids[j]
  }

  /** Action a is a tick that goes ahead. */
  ghost predicate Ticks(sys: System, a: Action) {
    && a.Tick? && Idle(sys, a.w) && Distinct(a.ids) && (forall i :: 0 <= i < |a.ids| ==> a.ids[i] in sys.box)
    && ValidPick(sys.box, a.now, BATCH, set id | id in a.ids)
  }

  ghost predicate Settles(sys: System, a: Action) {
    a.Settle? && a.w in sys.workers && sys.workers[a.w].pending != []
  }

  ghost function Step(sys: System, a: Action): System {
    if a.Enqueue? then sys.(box := sys.box[a.v.id := a.v])
    else if Ticks(sys, a) then
      var box := AfterClaim(sys.box, a.now, set id | id in a.ids);
      var pending := seq(|a.ids|, i requires 0 <= i < |a.ids| => box[a.ids[i]]);
      System(box, sys.workers[a.w := Worker(a.now, pending)])
    else if Settles(sys, a) then
      var worker := sys.workers[a.w];
      var id := worker.pending[0].id;
      var box := match a.failure
        case None => AfterPublish(sys.box, id, worker.now)
        case Some(text) => AfterFailure(sys.box, id, worker.now, text);
      System(box, sys.workers[a.w := worker.(pending := worker.pending[1..])])
    else if a.Crash? then sys.(workers := sys.workers - {a.w})
    else sys
  }

  ghost predicate IsRun(tr: seq<System>, acts: seq<Action>) {
    |tr| == |acts| + 1 && forall i :: 0 <= i < |acts| ==> tr[i + 1] == Step(tr[i], acts[i])
  }

  ghost predicate Initial(sys: System) {
    Keyed(sys.box) && sys.workers == map[]
  }

  /** The event is enqueued only while it is not there yet. */
  ghost predicate EnqueuedOnce(tr: seq<System>, acts: seq<Action>, e: string)
    requires IsRun(tr, acts)
  {
    forall i :: 0 <= i < |acts| && acts[i].Enqueue? && acts[i].v.id == e ==> e !in tr[i].box
  }

  // ---------- one holder at a time ----------

  ghost predicate Holds(sys: System, e: string, w: nat, i: nat) {
    w in sys.workers && i < |sys.workers[w].pending| && sys.workers[w].pending[i].id == e
  }

  /** Whoever holds the event holds it alone, and its stored record carries that tick's time. */
  ghost predicate Exclusive(sys: System, e: string) {
    && (forall w, i :: Holds(sys, e, w, i) ==>
          && e in sys.box && sys.box[e].claimedAt == Some(sys.workers[w].now) && sys.box[e].publishedAt == None)
    && (forall w, i, w', i' :: Holds(sys, e, w, i) && Holds(sys, e, w', i') ==> w == w' && i == i')
  }

  lemma TickKeyed(sys: System, a: Action)
    requires Keyed(sys.box) && Ticks(sys, a)
    ensures Keyed(Step(sys, a).box)
    ensures var pending := Step(sys, a).workers[a.w].pending;
            |pending| == |a.ids| && forall i :: 0 <= i < |a.ids| ==>
              pending[i].id == a.ids[i] && a.ids[i] in sys.box && pending[i] == Claimed(sys.box[a.ids[i]], a.now)
  {
  }

  lemma TickExclusive(sys: System, a: Action, e: string)
    requires Keyed(sys.box) && Exclusive(sys, e) && Ticks(sys, a)
    ensures Exclusive(Step(sys, a), e)
  {
    TickKeyed(sys, a);
    var t := Step(sys, a);
    forall w: nat, i: nat | Holds(t, e, w, i)
      ensures if w == a.w then i < |a.ids| && a.ids[i] == e
                         && t.box[e].claimedAt == Some(a.now) && Eligible(sys.box[e], a.now)
              else Holds(sys, e, w, i) && e !in a.ids
    {
      if w == a.w {
        assert e in set id | id in a.ids;
      } else {
        assert Holds(sys, e, w, i);
        assert e in sys.box && !Eligible(sys.box[e], a.now);
        assert e !in set id | id in a.ids;
      }
    }
  }

  lemma SettleExclusive(sys: System, a: Action, e: string)
    requires Exclusive(sys, e) && Settles(sys, a)
    ensures Exclusive(Step(sys, a), e)
  {
    var t := Step(sys, a);
    assert Holds(sys, sys.workers[a.w].pending[0].id, a.w, 0);
    forall w: nat, i: nat | Holds(t, e, w, i)
      ensures Holds(sys, e, w, if w == a.w then i + 1 else i) && sys.workers[a.w].pending[0].id != e
              && t.workers[w].now == sys.workers[w].now
    {
      assert Holds(sys, e, w, if w == a.w then i + 1 else i);
    }
  }

  lemma StepExclusive(sys: System, a: Action, e: string)
    requires Keyed(sys.box) && Exclusive(sys, e)
    requires a.Enqueue? && a.v.id == e ==> e !in sys.box
    ensures Exclusive(Step(sys, a), e) && Keyed(Step(sys, a).box)
  {
    if Ticks(sys, a) {
      TickKeyed(sys, a);
      TickExclusive(sys, a, e);
    } else if Settles(sys, a) {
      SettleExclusive(sys, a, e);
    } else {
      var t := Step(sys, a);
      forall w: nat, i: nat | Holds(t, e, w, i) ensures Holds(sys, e, w, i) && t.workers[w] == sys.workers[w] {
      }
    }
  }

  /** At every moment of every run at most one worker is about to settle a given event. */
  lemma {:induction false} AlwaysExclusive(tr: seq<System>, acts: seq<Action>, e: string, k: nat)
    requires IsRun(tr, acts) && Initial(tr[0]) && EnqueuedOnce(tr, acts, e) && k < |tr|
    ensures Exclusive(tr[k], e) && Keyed(tr[k].box)
  {
    if k > 0 {
      AlwaysExclusive(tr, acts, e, k - 1);
      StepExclusive(tr[k - 1], acts[k - 1], e);
    }
  }
}
