/** The bulk processor: a dispatcher, an unbuffered job channel, workers, a stop flag and a results buffer. */
module Bulk {

  /** n values, at least one worker; a live context is one that is never cancelled during the run. */
  datatype Config = Config(n: nat, workers: nat, stopOnError: bool, live: bool)

  datatype Outcome = Skipped | Handled(failed: bool)
  datatype Result = Result(index: nat, outcome: Outcome)

  /**
   * A worker waiting for a job, holding one before the flag check, handling it, about to send, about to stop, or
   * gone.
   */
  datatype Worker =
    | Idle
    | Got(idx: nat)
    | Running(idx: nat)
    | Sending(idx: nat, outcome: Outcome)
    | Stopping
    | Exited

  datatype State = State(next: nat, dropped: set<nat>, cancelled: bool, results: seq<Result>, workers: seq<Worker>)

  datatype Action =
    | Hand(w: nat)                   // the dispatcher and an idle worker meet on the channel
    | Drop                           // the dispatcher sees the context done instead, and the index is lost
    | Look(w: nat)                   // the worker reads the flag
    | Return(w: nat, failed: bool)   // Handle returns
    | Send(w: nat)                   // a result goes into the buffer, which holds n
    | Stop(w: nat)                   // the failing worker sets the flag
    | Exit(w: nat)                   // the channel is closed and empty

  predicate Enabled(cfg: Config, s: State, a: Action) {
    match a
    case Drop => !cfg.live && s.next < cfg.n
    case Hand(w) => w < |s.workers| && s.workers[w].Idle? && s.next < cfg.n
    case Look(w) => w < |s.workers| && s.workers[w].Got?
    case Return(w, _) => w < |s.workers| && s.workers[w].Running?
    case Send(w) => w < |s.workers| && s.workers[w].Sending? && |s.results| < cfg.n
    case Stop(w) => w < |s.workers| && s.workers[w].Stopping?
    case Exit(w) => w < |s.workers| && s.workers[w].Idle? && s.next == cfg.n
  }

  function Step(cfg: Config, s: State, a: Action): State
    requires Enabled(cfg, s, a)
  {
    match a
    case Drop => s.(next := s.next + 1, dropped := s.dropped + {s.next}, cancelled := true)
    case Hand(w) => s.(next := s.next + 1, workers := s.workers[w := Got(s.next)])
    case Look(w) =>
      var idx := s.workers[w].idx;
      s.(workers := s.workers[w := if s.cancelled then Sending(idx, Skipped) else Running(idx)])
    case Return(w, failed) => s.(workers := s.workers[w := Sending(s.workers[w].idx, Handled(failed))])
    case Send(w) =>
      var job := s.workers[w];
      var then' := if cfg.stopOnError && job.outcome == Handled(true) then Stopping else Idle;
      s.(results := s.results + [Result(job.idx, job.outcome)], workers := s.workers[w := then'])
    case Stop(w) => s.(cancelled := true, workers := s.workers[w := Idle])
    case Exit(w) => s.(workers := s.workers[w := Exited])
  }

  function Initial(cfg: Config): State {
    State(0, {}, false, [], seq(cfg.workers, _ => Idle))
  }

  ghost predicate IsRun(cfg: Config, tr: seq<State>, acts: seq<Action>) {
    && |tr| == |acts| + 1 && tr[0] == Initial(cfg)
    && forall i :: 0 <= i < |acts| ==> Enabled(cfg, tr[i], acts[i]) && tr[i + 1] == Step(cfg, tr[i], acts[i])
  }

  // ---------- sums over the workers ----------

  function Sum(ws: seq<Worker>, f: Worker -> nat): nat {
    if ws == [] then 0 else Sum(ws[..|ws| - 1], f) + f(ws[|ws| - 1])
  }

  lemma {:induction false} SumUpdate(ws: seq<Worker>, w: nat, v: Worker, f: Worker -> nat)
    requires w < |ws|
    ensures Sum(ws[w := v], f) + f(ws[w]) == Sum(ws, f) + f(v)
  {
    var n := |ws| - 1;
    if w == n {
      assert ws[w := v][..n] == ws[..n];
    } else {
      assert ws[w := v][..n] == ws[..n][w := v];
      SumUpdate(ws[..n], w, v, f);
    }
  }

  lemma {:induction false} SumBound(ws: seq<Worker>, f: Worker -> nat, c: nat)
    requires forall v :: f(v) <= c
    ensures Sum(ws, f) <= c * |ws|
  {
    if ws != [] {
      SumBound(ws[..|ws| - 1], f, c);
      assert c * |ws| == c * (|ws| - 1) + c;
    }
  }

  // ---------- each index in exactly one place ----------

  function Holding(v: Worker, x: nat): nat {
    if (v.Got? || v.Running? || v.Sending?) && v.idx == x then 1 else 0
  }

  function HoldingOf(x: nat): Worker -> nat {
    v => Holding(v, x)
  }

  function Busy(v: Worker): nat {
    if v.Got? || v.Running? || v.Sending? then 1 else 0
  }

  function Occurrences(rs: seq<Result>, x: nat): nat {
    if rs == [] then 0
    else Occurrences(rs[..|rs| - 1], x) + if rs[|rs| - 1].index == x then 1 else 0
  }

  lemma OccurrencesAppend(rs: seq<Result>, r: Result, x: nat)
    ensures Occurrences(rs + [r], x) == Occurrences(rs, x) + if r.index == x then 1 else 0
  {
    assert (rs + [r])[..|rs|] == rs;
  }

  /** Index x, once dispatched, is in one worker's hands, or in one result, or was dropped. */
  ghost predicate Placed(s: State, x: nat) {
    Occurrences(s.results, x) + Sum(s.workers, HoldingOf(x)) + (if x in s.dropped then 1 else 0)
      == if x < s.next then 1 else 0
  }

  /** Dispatched means delivered, in flight or dropped; nobody leaves before the channel closes. */
  ghost predicate Counted(cfg: Config, s: State) {
    && |s.workers| == cfg.workers && s.next <= cfg.n
    && |s.results| + Sum(s.workers, Busy) + |s.dropped| == s.next
    && (forall x :: x in s.dropped ==> x < s.next) && (cfg.live ==> s.dropped == {})
    && (forall w :: 0 <= w < |s.workers| && s.workers[w].Exited? ==> s.next == cfg.n)
  }

  /** What a worker's step does, as far as index x is concerned. */
  lemma WorkerStep(cfg: Config, s: State, a: Action, x: nat)
    requires Enabled(cfg, s, a) && !a.Drop?
    ensures var t := Step(cfg, s, a);
            var v, v' := s.workers[a.w], t.workers[a.w];
            && t.workers == s.workers[a.w := v'] && t.dropped == s.dropped
            && t.next == s.next + (if a.Hand? then 1 else 0)
            && t.results == s.results + (if a.Send? then [Result(v.idx, v.outcome)] else [])
            && Holding(v', x) + (if a.Send? && v.idx == x then 1 else 0)
                 == Holding(v, x) + if a.Hand? && s.next == x then 1 else 0
  {
  }

  lemma StepPlaces(cfg: Config, s: State, a: Action, x: nat)
    requires Enabled(cfg, s, a) && Placed(s, x) && s.next !in s.dropped
    ensures Placed(Step(cfg, s, a), x)
  {
    if !a.Drop? {
      var t := Step(cfg, s, a);
      WorkerStep(cfg, s, a, x);
      SumUpdate(s.workers, a.w, t.workers[a.w], HoldingOf(x));
      if a.Send? {
        OccurrencesAppend(s.results, Result(s.workers[a.w].idx, s.workers[a.w].outcome), x);
      } else {
        assert t.results == s.results;
      }
    }
  }

  lemma StepCounts(cfg: Config, s: State, a: Action)
    requires Enabled(cfg, s, a) && Counted(cfg, s)
    ensures Counted(cfg, Step(cfg, s, a))
  {
    var t := Step(cfg, s, a);
    if !a.Drop? {
      SumUpdate(s.workers, a.w, t.workers[a.w], Busy);
    }
  }

  lemma {:induction false} AllIdle(n: nat, f: Worker -> nat)
    requires f(Idle) == 0
    ensures Sum(seq(n, _ => Idle), f) == 0
  {
    if n > 0 {
      AllIdle(n - 1, f);
      assert seq(n, _ => Idle)[..n - 1] == seq(n - 1, _ => Idle);
    }
  }

  lemma {:induction false} RunCounted(cfg: Config, tr: seq<State>, acts: seq<Action>, k: nat)
    requires IsRun(cfg, tr, acts) && k < |tr|
    ensures Counted(cfg, tr[k])
  {
    if k == 0 {
      AllIdle(cfg.workers, Busy);
    } else {
      RunCounted(cfg, tr, acts, k - 1);
      StepCounts(cfg, tr[k - 1], acts[k - 1]);
    }
  }

  lemma {:induction false} RunPlaced(cfg: Config, tr: seq<State>, acts: seq<Action>, x: nat, k: nat)
    requires IsRun(cfg, tr, acts) && k < |tr|
    ensures Placed(tr[k], x)
  {
    if k == 0 {
      AllIdle(cfg.workers, HoldingOf(x));
    } else {
      RunPlaced(cfg, tr, acts, x, k - 1);
      RunCounted(cfg, tr, acts, k - 1);
      StepPlaces(cfg, tr[k - 1], acts[k - 1], x);
    }
  }

  lemma {:induction false} SumPositive(ws: seq<Worker>, w: nat, f: Worker -> nat)
    requires w < |ws| && f(ws[w]) > 0
    ensures Sum(ws, f) > 0
  {
    if w < |ws| - 1 {
      SumPositive(ws[..|ws| - 1], w, f);
    }
  }

  /** No send of a result ever blocks: whenever a worker is about to send, the buffer has room. */
  lemma SendNeverBlocks(cfg: Config, tr: seq<State>, acts: seq<Action>, k: nat, w: nat)
    requires IsRun(cfg, tr, acts) && k < |tr| && w < |tr[k].workers| && tr[k].workers[w].Sending?
    ensures Enabled(cfg, tr[k], Send(w))
  {
    RunCounted(cfg, tr, acts, k);
    SumPositive(tr[k].workers, w, Busy);
  }

  predicate Final(cfg: Config, s: State) {
    s.next == cfg.n && forall w :: 0 <= w < |s.workers| ==> s.workers[w].Exited?
  }

  lemma {:induction false} SumZero(ws: seq<Worker>, f: Worker -> nat)
    requires forall w :: 0 <= w < |ws| ==> f(ws[w]) == 0
    ensures Sum(ws, f) == 0
  {
    if ws != [] {
      SumZero(ws[..|ws| - 1], f);
    }
  }

  /** Every complete schedule yields exactly one result per index, except for those lost to a cancelled context. */
  lemma OneResultEach(cfg: Config, tr: seq<State>, acts: seq<Action>, x: nat)
    requires IsRun(cfg, tr, acts) && Final(cfg, tr[|acts|])
    ensures Occurrences(tr[|acts|].results, x) == if x < cfg.n && x !in tr[|acts|].dropped then 1 else 0
    ensures cfg.live ==> tr[|acts|].dropped == {} && |tr[|acts|].results| == cfg.n
  {
    var s := tr[|acts|];
    RunPlaced(cfg, tr, acts, x, |acts|);
    RunCounted(cfg, tr, acts, |acts|);
    SumZero(s.workers, HoldingOf(x));
    SumZero(s.workers, Busy);
  }

  // ---------- every schedule ends ----------

  function Weight(v: Worker): nat {
    match v
    case Got(_) => 5
    case Running(_) => 4
    case Sending(_, _) => 3
    case Stopping => 2
    case Idle => 1
    case Exited => 0
  }

  function Measure(cfg: Config, s: State): int {
    8 * (cfg.n - s.next) + Sum(s.workers, Weight)
  }

  /** Each step brings the end closer, so no schedule goes on for ever. */
  lemma StepMakesProgress(cfg: Config, s: State, a: Action)
    requires Enabled(cfg, s, a)
    ensures Measure(cfg, Step(cfg, s, a)) < Measure(cfg, s)
  {
    if !a.Drop? {
      SumUpdate(s.workers, a.w, Step(cfg, s, a).workers[a.w], Weight);
    }
  }

  /** And none gets stuck: until every worker has left, some step is possible. */
  lemma NeverDeadlocks(cfg: Config, tr: seq<State>, acts: seq<Action>, k: nat)
    requires cfg.workers > 0 && IsRun(cfg, tr, acts) && k < |tr| && !Final(cfg, tr[k])
    ensures exists a :: Enabled(cfg, tr[k], a)
  {
    var s := tr[k];
    RunCounted(cfg, tr, acts, k);
    var w := if s.next < cfg.n then 0 else var v :| 0 <= v < |s.workers| && !s.workers[v].Exited?; v;
    match s.workers[w]
    case Idle => assert Enabled(cfg, s, if s.next < cfg.n then Hand(w) else Exit(w));
    case Got(_) => assert Enabled(cfg, s, Look(w));
    case Running(_) => assert Enabled(cfg, s, Return(w, false));
    case Sending(_, _) =>
      SendNeverBlocks(cfg, tr, acts, k, w);
    case Stopping => assert Enabled(cfg, s, Stop(w));
    case Exited =>
  }

  // ---------- the stop flag ----------

  function InHandle(v: Worker): nat {
    if v.Running? then 1 else 0
  }

  /** How many Handle calls have returned, before moment k, with the flag already set. */
  ghost function Late(tr: seq<State>, acts: seq<Action>, k: nat): nat
    requires k <= |acts| && |tr| == |acts| + 1
  {
    if k == 0 then 0 else Late(tr, acts, k - 1) + if acts[k - 1].Return? && tr[k - 1].cancelled then 1 else 0
  }

  lemma {:induction false} NotAllRunning(ws: seq<Worker>, w: nat)
    requires w < |ws| && !ws[w].Running?
    ensures Sum(ws, InHandle) <= |ws| - 1
  {
    var rest := ws[..|ws| - 1];
    if w == |ws| - 1 {
      SumBound(rest, InHandle, 1);
    } else {
      NotAllRunning(rest, w);
    }
  }

  /** With the flag set, what is still running plus what returned late is within the bound. */
  ghost predicate InBudget(cfg: Config, s: State, late: nat) {
    if !s.cancelled then late == 0
    else late + Sum(s.workers, InHandle) <= if cfg.live then cfg.workers - 1 else cfg.workers
  }

  lemma BudgetStep(cfg: Config, s: State, a: Action, late: nat)
    requires Enabled(cfg, s, a) && |s.workers| == cfg.workers && InBudget(cfg, s, late)
    ensures InBudget(cfg, Step(cfg, s, a), late + if a.Return? && s.cancelled then 1 else 0)
  {
    var t := Step(cfg, s, a);
    if !a.Drop? {
      SumUpdate(s.workers, a.w, t.workers[a.w], InHandle);
    } else {
      SumBound(s.workers, InHandle, 1);
    }
    if a.Stop? {
      NotAllRunning(s.workers, a.w);
    }
  }

  lemma {:induction false} LateBudget(cfg: Config, tr: seq<State>, acts: seq<Action>, k: nat)
    requires IsRun(cfg, tr, acts) && k < |tr|
    ensures InBudget(cfg, tr[k], Late(tr, acts, k))
  {
    if k > 0 {
      LateBudget(cfg, tr, acts, k - 1);
      RunCounted(cfg, tr, acts, k - 1);
      BudgetStep(cfg, tr[k - 1], acts[k - 1], Late(tr, acts, k - 1));
    }
  }

  /** At most workers-1 Handle calls return after the flag is set; with a cancelled context, at most all of them. */
  lemma AtMostWorkersMinusOneLate(cfg: Config, tr: seq<State>, acts: seq<Action>, k: nat)
    requires cfg.workers > 0 && IsRun(cfg, tr, acts) && k < |tr|
    ensures Late(tr, acts, k) <= if cfg.live then cfg.workers - 1 else cfg.workers
  {
    LateBudget(cfg, tr, acts, k);
  }

  // ---------- why an item is skipped, and what sets the flag ----------

  ghost predicate FailedBefore(rs: seq<Result>, i: nat)
    requires i <= |rs|
  {
    exists j :: 0 <= j < i && rs[j].outcome == Handled(true)
  }

  lemma FailedBeforeAppend(rs: seq<Result>, r: Result, i: nat)
    requires i <= |rs|
    ensures FailedBefore(rs + [r], i) <==> FailedBefore(rs, i)
    ensures FailedBefore(rs + [r], |rs| + 1) <==> FailedBefore(rs, |rs|) || r.outcome == Handled(true)
  {
    var all := rs + [r];
    assert all[|rs|] == r && forall j :: 0 <= j < |rs| ==> all[j] == rs[j];
    if FailedBefore(rs, i) {
      var j :| 0 <= j < i && rs[j].outcome == Handled(true);
      assert all[j].outcome == Handled(true);
    }
    if FailedBefore(rs, |rs|) {
      var j :| 0 <= j < |rs| && rs[j].outcome == Handled(true);
      assert all[j].outcome == Handled(true);
    }
  }

  ghost predicate Failure(cfg: Config, rs: seq<Result>, i: nat)
    requires i <= |rs|
  {
    cfg.stopOnError && FailedBefore(rs, i)
  }

  /**
   * The flag is set by a cancelled context, or by a failure of a run that stops on error, and by nothing else; whoever
   * has read it set sends a skip.
   */
  ghost predicate Flagged(cfg: Config, s: State) {
    && (s.cancelled ==> s.dropped != {} || Failure(cfg, s.results, |s.results|))
    && (s.dropped != {} ==> s.cancelled)
    && (forall w :: 0 <= w < |s.workers| && s.workers[w].Stopping? ==> Failure(cfg, s.results, |s.results|))
    && (forall w :: 0 <= w < |s.workers| && s.workers[w].Sending? && s.workers[w].outcome == Skipped ==> s.cancelled)
  }

  /** A failure that has been reported has set the flag, or some worker is about to. */
  ghost predicate Heeded(cfg: Config, s: State) {
    Failure(cfg, s.results, |s.results|) ==>
      s.cancelled || exists w :: 0 <= w < |s.workers| && s.workers[w].Stopping?
  }

  /** Each skip comes after a cancelled context, or after a failure of a run that stops on error. */
  ghost predicate Excused(cfg: Config, s: State) {
    forall p :: 0 <= p < |s.results| && s.results[p].outcome == Skipped ==>
      s.dropped != {} || Failure(cfg, s.results, p)
  }

  lemma SendFlags(cfg: Config, s: State, w: nat)
    requires Enabled(cfg, s, Send(w)) && Flagged(cfg, s) && Heeded(cfg, s) && Excused(cfg, s)
    ensures var t := Step(cfg, s, Send(w)); Flagged(cfg, t) && Heeded(cfg, t) && Excused(cfg, t)
  {
    var t := Step(cfg, s, Send(w));
    var r := Result(s.workers[w].idx, s.workers[w].outcome);
    forall i: nat | i <= |s.results| ensures FailedBefore(s.results + [r], i) <==> FailedBefore(s.results, i) {
      FailedBeforeAppend(s.results, r, i);
    }
    FailedBeforeAppend(s.results, r, |s.results|);
    if exists v :: 0 <= v < |s.workers| && s.workers[v].Stopping? {
      var v :| 0 <= v < |s.workers| && s.workers[v].Stopping?;
      assert t.workers[v].Stopping?;
    }
    assert cfg.stopOnError && r.outcome == Handled(true) ==> t.workers[w].Stopping?;
  }

  lemma OtherFlags(cfg: Config, s: State, a: Action)
    requires Enabled(cfg, s, a) && !a.Send? && Flagged(cfg, s) && Heeded(cfg, s) && Excused(cfg, s)
    ensures var t := Step(cfg, s, a); Flagged(cfg, t) && Heeded(cfg, t) && Excused(cfg, t)
  {
    var t := Step(cfg, s, a);
    assert t.results == s.results;
    if exists v :: 0 <= v < |s.workers| && s.workers[v].Stopping? {
      var v :| 0 <= v < |s.workers| && s.workers[v].Stopping?;
      assert t.cancelled || t.workers[v].Stopping?;
    }
  }

  lemma {:induction false} RunFlags(cfg: Config, tr: seq<State>, acts: seq<Action>, k: nat)
    requires IsRun(cfg, tr, acts) && k < |tr|
    ensures Flagged(cfg, tr[k]) && Heeded(cfg, tr[k]) && Excused(cfg, tr[k])
  {
    if k > 0 {
      RunFlags(cfg, tr, acts, k - 1);
      if acts[k - 1].Send? {
        SendFlags(cfg, tr[k - 1], acts[k - 1].w);
      } else {
        OtherFlags(cfg, tr[k - 1], acts[k - 1]);
      }
    }
  }

  /**
   * Whatever the schedule and the number of workers: an item is skipped only when the context was cancelled, or when
   * the run stops on error and some earlier result is a failure.
   */
  lemma SkippedOnlyAfterFailure(cfg: Config, tr: seq<State>, acts: seq<Action>, k: nat, p: nat)
    requires IsRun(cfg, tr, acts) && k < |tr| && p < |tr[k].results| && tr[k].results[p].outcome == Skipped
    ensures (!cfg.live && tr[k].dropped != {}) || (cfg.stopOnError && FailedBefore(tr[k].results, p))
  {
    RunFlags(cfg, tr, acts, k);
    RunCounted(cfg, tr, acts, k);
  }

  /**
   * In the end the flag is set exactly when the context was cancelled, or the run stops on error and some item
   * failed.
   */
  lemma FlagSetExactly(cfg: Config, tr: seq<State>, acts: seq<Action>)
    requires IsRun(cfg, tr, acts) && Final(cfg, tr[|acts|])
    ensures var s := tr[|acts|];
            s.cancelled <==> s.dropped != {} || (cfg.stopOnError && FailedBefore(s.results, |s.results|))
  {
    RunFlags(cfg, tr, acts, |acts|);
  }

  // ---------- what a result reports ----------

  /** Before moment k, Handle returned for item x, failing or not. */
  ghost predicate Returned(tr: seq<State>, acts: seq<Action>, k: nat, x: nat, failed: bool)
    requires k <= |acts| && |tr| == |acts| + 1
  {
    exists m :: 0 <= m < k && acts[m].Return? && acts[m].failed == failed
                && acts[m].w < |tr[m].workers| && tr[m].workers[acts[m].w] == Running(x)
  }

  ghost predicate Reported(s: State, x: nat, failed: bool) {
    || Result(x, Handled(failed)) in s.results
    || exists w :: 0 <= w < |s.workers| && s.workers[w] == Sending(x, Handled(failed))
  }

  lemma StepReports(cfg: Config, s: State, a: Action, x: nat, failed: bool)
    requires Enabled(cfg, s, a)
    ensures Reported(Step(cfg, s, a), x, failed) <==>
              Reported(s, x, failed) || (a.Return? && a.failed == failed && s.workers[a.w] == Running(x))
  {
    var t := Step(cfg, s, a);
    if !a.Drop? {
      forall w | 0 <= w < |s.workers| && w != a.w ensures t.workers[w] == s.workers[w] {
      }
      if a.Send? {
        assert t.results == s.results + [Result(s.workers[a.w].idx, s.workers[a.w].outcome)];
      } else if a.Return? {
        assert t.workers[a.w] == Sending(s.workers[a.w].idx, Handled(a.failed));
      }
    }
  }

  lemma {:induction false} ReportedExactly(cfg: Config, tr: seq<State>, acts: seq<Action>, k: nat, x: nat, failed: bool)
    requires IsRun(cfg, tr, acts) && k < |tr|
    ensures Reported(tr[k], x, failed) <==> Returned(tr, acts, k, x, failed)
  {
    if k > 0 {
      ReportedExactly(cfg, tr, acts, k - 1, x, failed);
      StepReports(cfg, tr[k - 1], acts[k - 1], x, failed);
    }
  }

  /** In the end, a result says that its item was handled, failing or not, exactly when Handle so returned for it. */
  lemma ResultsAreReturns(cfg: Config, tr: seq<State>, acts: seq<Action>, x: nat, failed: bool)
    requires IsRun(cfg, tr, acts) && Final(cfg, tr[|acts|])
    ensures Result(x, Handled(failed)) in tr[|acts|].results <==> Returned(tr, acts, |acts|, x, failed)
  {
    ReportedExactly(cfg, tr, acts, |acts|, x, failed);
  }

  // ---------- one worker ----------

  /** Handled up to and including the first failure, skipped from there on, in index order. */
  ghost predicate StopsAtFirstFailure(rs: seq<Result>, n: nat) {
    && |rs| == n
    && (forall i :: 0 <= i < n ==> rs[i].index == i)
    && (forall i :: 0 <= i < n ==> (rs[i].outcome == Skipped <==> FailedBefore(rs, i)))
  }

  ghost predicate Alone(s: State) {
    && |s.workers| == 1 && StopsAtFirstFailure(s.results, |s.results|)
    && var failed := FailedBefore(s.results, |s.results|);
       match s.workers[0]
       case Got(idx) => idx == |s.results| && s.next == idx + 1 && (s.cancelled <==> failed)
       case Running(idx) => idx == |s.results| && s.next == idx + 1 && !s.cancelled && !failed
       case Sending(idx, o) =>
         idx == |s.results| && s.next == idx + 1 && (s.cancelled <==> failed) && (o == Skipped <==> failed)
       case Stopping => s.next == |s.results| && failed
       case _ => s.next == |s.results| && (s.cancelled <==> failed)
  }

  lemma AloneStep(cfg: Config, s: State, a: Action)
    requires cfg.live && cfg.stopOnError && Enabled(cfg, s, a) && Alone(s)
    ensures Alone(Step(cfg, s, a))
  {
    if a.Send? {
      var r := Result(s.workers[0].idx, s.workers[0].outcome);
      forall i: nat | i <= |s.results|
        ensures FailedBefore(s.results + [r], i) <==> FailedBefore(s.results, i)
      {
        FailedBeforeAppend(s.results, r, i);
      }
      FailedBeforeAppend(s.results, r, |s.results|);
    }
  }

  /** With one worker that stops on error, the handled items are exactly the prefix ending at the first failure. */
  lemma {:induction false} OneWorkerStopsAtFirstFailure(cfg: Config, tr: seq<State>, acts: seq<Action>, k: nat)
    requires cfg.workers == 1 && cfg.live && cfg.stopOnError && IsRun(cfg, tr, acts) && k < |tr|
    ensures Alone(tr[k])
    ensures Final(cfg, tr[k]) ==> StopsAtFirstFailure(tr[k].results, cfg.n)
  {
    if k > 0 {
      OneWorkerStopsAtFirstFailure(cfg, tr, acts, k - 1);
      AloneStep(cfg, tr[k - 1], acts[k - 1]);
    }
  }

  // ---------- the whole call ----------

  lemma RunExtends(cfg: Config, tr: seq<State>, acts: seq<Action>, a: Action)
    requires IsRun(cfg, tr, acts) && Enabled(cfg, tr[|acts|], a)
    ensures IsRun(cfg, tr + [Step(cfg, tr[|acts|], a)], acts + [a])
  {
    var tr', acts' := tr + [Step(cfg, tr[|acts|], a)], acts + [a];
    forall i | 0 <= i < |acts'| ensures Enabled(cfg, tr'[i], acts'[i]) && tr'[i + 1] == Step(cfg, tr'[i], acts'[i]) {
      if i < |acts| {
        assert tr'[i] == tr[i] && tr'[i + 1] == tr[i + 1] && acts'[i] == acts[i];
      }
    }
  }

  /**
   * The goroutines under an arbitrary scheduler and arbitrary outcomes of Handle: they finish, and with these
   * results.
   */
  method Process(n: nat, workers: int, stopOnError: bool, live: bool) returns (out: seq<Result>)
    ensures live ==> |out| == n && forall x :: 0 <= x < n ==> Occurrences(out, x) == 1
    ensures forall x: nat :: Occurrences(out, x) <= if x < n then 1 else 0
    ensures live && stopOnError && workers <= 1 ==> StopsAtFirstFailure(out, n)
    ensures live ==> forall p :: 0 <= p < |out| && out[p].outcome == Skipped ==> stopOnError && FailedBefore(out, p)
    ensures live && !stopOnError ==> forall p :: 0 <= p < |out| ==> out[p].outcome.Handled?
  {
    var cfg := Config(n, if workers < 1 then 1 else workers, stopOnError, live);
    var s := Initial(cfg);
    ghost var tr, acts := [s], [];
    while !Final(cfg, s)
      invariant IsRun(cfg, tr, acts) && tr[|acts|] == s && s.next <= n
      decreases Measure(cfg, s)
    {
      NeverDeadlocks(cfg, tr, acts, |acts|);
      var a :| Enabled(cfg, s, a);
      StepMakesProgress(cfg, s, a);
      RunExtends(cfg, tr, acts, a);
      s := Step(cfg, s, a);
      tr, acts := tr + [s], acts + [a];
      RunCounted(cfg, tr, acts, |acts|);
    }
    forall x: nat ensures Occurrences(s.results, x) == if x < n && x !in s.dropped then 1 else 0 {
      OneResultEach(cfg, tr, acts, x);
    }
    OneResultEach(cfg, tr, acts, 0);
    forall p | live && 0 <= p < |s.results| && s.results[p].outcome == Skipped
      ensures stopOnError && FailedBefore(s.results, p)
    {
      SkippedOnlyAfterFailure(cfg, tr, acts, |acts|, p);
    }
    if live && stopOnError && workers <= 1 {
      OneWorkerStopsAtFirstFailure(cfg, tr, acts, |acts|);
    }
    return s.results;
  }

  lemma {:induction false} Occurs(rs: seq<Result>, i: nat)
    requires i < |rs|
    ensures Occurrences(rs, rs[i].index) >= 1
  {
    if i < |rs| - 1 {
      Occurs(rs[..|rs| - 1], i);
    }
  }

  /** What the caller gets for one index: the value comes with a handled item only. */
  datatype Report<T> = NoHandler(zero: T) | Report(index: nat, value: T, outcome: Outcome)

  function ReportOf<T>(values: seq<T>, zero: T, r: Result): Report<T>
    requires r.index < |values|
  {
    Report(r.index, if r.outcome.Handled? then values[r.index] else zero, r.outcome)
  }

  /** The whole call: a missing handler is one error; otherwise one report for each result. */
  method Run<T>(handler: bool, values: seq<T>, zero: T, workers: int, stopOnError: bool, live: bool)
    returns (out: seq<Report<T>>, ghost rs: seq<Result>)
    ensures !handler ==> out == [NoHandler(zero)]
    ensures handler ==>
              && |out| == |rs| && (live ==> |out| == |values|)
              && (forall i :: 0 <= i < |rs| ==>
                    && rs[i].index < |values|
                    && out[i] == Report(rs[i].index, if rs[i].outcome == Skipped then zero else values[rs[i].index],
                                        rs[i].outcome))
              && (forall x: nat :: x < |values| ==> if live then Occurrences(rs, x) == 1 else Occurrences(rs, x) <= 1)
              && (live && stopOnError && workers <= 1 ==> StopsAtFirstFailure(rs, |values|))
              && (live ==> forall p :: 0 <= p < |rs| && rs[p].outcome == Skipped ==> stopOnError && FailedBefore(rs, p))
              && (live && !stopOnError ==> forall p :: 0 <= p < |rs| ==> rs[p].outcome.Handled?)
  {
    if !handler { return [NoHandler(zero)], []; }
    var results := Process(|values|, workers, stopOnError, live);
    rs := results;
    out := [];
    for i := 0 to |results|
      invariant |out| == i
      invariant forall j :: 0 <= j < i ==> results[j].index < |values| && out[j] == ReportOf(values, zero, results[j])
    {
      Occurs(results, i);
      out := out + [ReportOf(values, zero, results[i])];
    }
  }
}
