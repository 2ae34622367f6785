/** The startup migration runner: any number of processes checking and applying against one database. */
module Migration {
  import opened Domain
  import Strings

  // ---------- discovery ----------

  datatype Entry = Entry(name: string, isDir: bool, readable: bool)

  predicate IsSql(name: string) {
    |name| >= 4 && name[|name| - 4..] == ".sql"
  }

  ghost function Scripts(entries: seq<Entry>): set<string> {
    set e | e in entries && !e.isDir && IsSql(e.name) :: e.name
  }

  ghost predicate AllReadable(entries: seq<Entry>) {
    forall e :: e in entries && !e.isDir && IsSql(e.name) ==> e.readable
  }

  /**
   * Reads the directory, which may fail, and every script in it, which may fail; then sorts. Whatever order the
   * entries come in, the list is the one ascending list.
   */
  method Discover(listing: Option<seq<Entry>>) returns (r: Option<seq<string>>)
    ensures r.Some? <==> listing.Some? && AllReadable(listing.value)
    ensures r.Some? ==> r.value == Strings.Sorted(Scripts(listing.value))
  {
    if listing == None { return None; }
    var entries, items := listing.value, [];
    for i := 0 to |entries|
      invariant Strings.Ascending(items) && Strings.Elements(items) == Scripts(entries[..i])
                && AllReadable(entries[..i])
    {
      var e := entries[i];
      ScriptsAppend(entries, i);
      if e.isDir || !IsSql(e.name) { continue; }
      if !e.readable { return None; }
      items := Strings.Insert(items, e.name);
    }
    assert entries[..|entries|] == entries;
    Strings.AscendingUnique(items, Strings.Sorted(Scripts(entries)));
    return Some(items);
  }

  lemma ScriptsAppend(entries: seq<Entry>, i: nat)
    requires i < |entries|
    ensures var e := entries[i];
            && Scripts(entries[..i + 1]) == Scripts(entries[..i]) + (if !e.isDir && IsSql(e.name) then {e.name} else {})
            && (AllReadable(entries[..i + 1]) <==>
                  AllReadable(entries[..i]) && (!e.isDir && IsSql(e.name) ==> e.readable))
  {
    assert entries[..i + 1] == entries[..i] + [entries[i]];
  }

  /** A script is a file in the directory, not a directory, whose name ends in the extension. */
  lemma ScriptsAnswers(entries: seq<Entry>, name: string)
    ensures name in Scripts(entries) <==>
              (exists e :: e in entries && !e.isDir && e.name == name) && exists stem :: name == stem + ".sql"
  {
    if IsSql(name) {
      assert name == name[..|name| - 4] + ".sql";
    }
    if stem :| name == stem + ".sql" {
      assert name[|name| - 4..] == ".sql";
    }
  }

  // ---------- the database ----------

  /** What is committed: the recorded versions, and the bodies that took effect, in commit order. */
  datatype Database = Database(recorded: set<string>, effects: seq<string>)

  /** How the transaction of one apply ends. The commit may also go through while the caller sees an error. */
  datatype Outcome = Commits | CommitsUnseen | FailsInside

  /** The body and the history row commit together or not at all; the row's key makes a second commit impossible. */
  function Apply(db: Database, version: string, outcome: Outcome): (Database, bool) {
    if version in db.recorded || outcome == FailsInside then (db, false)
    else (Database(db.recorded + {version}, db.effects + [version]), outcome == Commits)
  }

  /** The items still to run, in order. */
  function Missing(items: seq<string>, recorded: set<string>): seq<string> {
    if items == [] then []
    else
      var last := items[|items| - 1];
      Missing(items[..|items| - 1], recorded) + if last in recorded then [] else [last]
  }

  class Table {
    var db: Database

    constructor (db: Database)
      ensures this.db == db
    {
      this.db := db;
    }

    /** A runner that nobody disturbs applies, in order, the missing ones of the items it gets through. */
    method Run(items: seq<string>, lookupFails: seq<bool>, outcomes: seq<Outcome>) returns (ok: bool, ghost done: nat)
      requires Strings.Ascending(items) && |lookupFails| == |outcomes| == |items|
      modifies this
      ensures Through(old(db), db, items, done)
      ensures ok <==> forall i :: 0 <= i < |items| ==>
                        !lookupFails[i] && (items[i] in old(db).recorded || outcomes[i] == Commits)
      ensures ok ==> done == |items|
    {
      ghost var was := db;
      done := 0;
      for n := 0 to |items|
        invariant n == done && Through(was, db, items, n)
        invariant forall i :: 0 <= i < n ==> GoesThrough(was, items[i], lookupFails[i], outcomes[i])
      {
        var item := items[n];
        NextItem(was, db, items, n);
        assert item in db.recorded <==> item in was.recorded;
        if lookupFails[n] {
          assert !GoesThrough(was, items[n], lookupFails[n], outcomes[n]);
          return false, done;
        }
        if item in db.recorded {
          done := n + 1;
          continue;
        }
        var next := Apply(db, item, outcomes[n]);
        db := next.0;
        if outcomes[n] != FailsInside { done := n + 1; }
        if !next.1 {
          assert !GoesThrough(was, items[n], lookupFails[n], outcomes[n]);
          return false, done;
        }
      }
      return true, done;
    }
  }

  /** The runner gets past this item without an error. */
  predicate GoesThrough(was: Database, item: string, lookupFails: bool, outcome: Outcome) {
    !lookupFails && (item in was.recorded || outcome == Commits)
  }

  /** From was to db, the missing ones among the first n items were applied in order, and nothing else. */
  ghost predicate Through(was: Database, db: Database, items: seq<string>, n: nat) {
    && n <= |items|
    && db.effects == was.effects + Missing(items[..n], was.recorded)
    && db.recorded == was.recorded + Strings.Elements(items[..n])
  }

  lemma NextItem(was: Database, db: Database, items: seq<string>, n: nat)
    requires Strings.Ascending(items) && n < |items| && Through(was, db, items, n)
    ensures items[n] in db.recorded <==> items[n] in was.recorded
    ensures items[n] in db.recorded ==> Through(was, db, items, n + 1)
    ensures items[n] !in db.recorded ==>
              Through(was, Database(db.recorded + {items[n]}, db.effects + [items[n]]), items, n + 1)
  {
    OneMore(items, n, was.recorded);
  }

  lemma OneMore(items: seq<string>, n: nat, recorded: set<string>)
    requires Strings.Ascending(items) && n < |items|
    ensures Missing(items[..n + 1], recorded)
         == Missing(items[..n], recorded) + if items[n] in recorded then [] else [items[n]]
    ensures Strings.Elements(items[..n + 1]) == Strings.Elements(items[..n]) + {items[n]}
    ensures items[n] !in Strings.Elements(items[..n])
  {
    assert items[..n + 1][..n] == items[..n] && items[..n + 1] == items[..n] + [items[n]];
    Strings.LessTotal(items[n], items[n]);
  }

  // ---------- the runners ----------

  /** A runner about to look up item i, about to apply it, or finished. */
  datatype Runner = Check(i: nat) | Run(i: nat) | Finished(ok: bool)
  datatype System = System(db: Database, runners: map<nat, Runner>)

  datatype Action = Start(r: nat) | Lookup(r: nat, fails: bool) | Commit(r: nat, outcome: Outcome) | Crash(r: nat)

  function AtItem(items: seq<string>, i: nat): Runner {
    if i < |items| then Check(i) else Finished(true)
  }

  function Step(items: seq<string>, sys: System, a: Action): System {
    match a
    case Start(r) =>
      if r in sys.runners then sys else sys.(runners := sys.runners[r := AtItem(items, 0)])
    case Lookup(r, fails) =>
      if r !in sys.runners || !sys.runners[r].Check? || sys.runners[r].i >= |items| then sys
      else
        var i := sys.runners[r].i;
        var next := if fails then Finished(false)
                    else if items[i] in sys.db.recorded then AtItem(items, i + 1)
                    else Run(i);
        sys.(runners := sys.runners[r := next])
    case Commit(r, outcome) =>
      if r !in sys.runners || !sys.runners[r].Run? || sys.runners[r].i >= |items| then sys
      else
        var i := sys.runners[r].i;
        var (db, ok) := Apply(sys.db, items[i], outcome);
        System(db, sys.runners[r := if ok then AtItem(items, i + 1) else Finished(false)])
    case Crash(r) => sys.(runners := sys.runners - {r})
  }

  ghost predicate IsRun(items: seq<string>, tr: seq<System>, acts: seq<Action>) {
    |tr| == |acts| + 1 && forall i :: 0 <= i < |acts| ==> tr[i + 1] == Step(items, tr[i], acts[i])
  }

  // ---------- from any history ----------

  ghost predicate Distinct(s: seq<string>) {
    forall i, j :: 0 <= i < j < |s| ==> s[i] != s[j]
  }

  /** Since the start, exactly the newly recorded versions have taken effect, each once. */
  ghost predicate Consistent(start: Database, db: Database) {
    && start.effects <= db.effects
    && var new' := db.effects[|start.effects|..];
       && Distinct(new') && db.recorded == start.recorded + Strings.Elements(new')
       && forall v :: v in new' ==> v !in start.recorded
  }

  /** How far each runner has come, every item behind it is recorded. */
  ghost predicate Behind(items: seq<string>, sys: System) {
    forall r :: r in sys.runners ==>
      match sys.runners[r]
      case Check(i) => i < |items| && forall j :: 0 <= j < i ==> items[j] in sys.db.recorded
      case Run(i) => i < |items| && forall j :: 0 <= j < i ==> items[j] in sys.db.recorded
      case Finished(ok) => ok ==> forall j :: 0 <= j < |items| ==> items[j] in sys.db.recorded
  }

  lemma ApplyConsistent(start: Database, db: Database, version: string, outcome: Outcome)
    requires Consistent(start, db)
    ensures Consistent(start, Apply(db, version, outcome).0)
  {
    var db' := Apply(db, version, outcome).0;
    var n := |start.effects|;
    if db' != db {
      assert db'.effects[n..] == db.effects[n..] + [version];
      assert version !in Strings.Elements(db.effects[n..]);
    }
  }

  /**
   * From any history at all, gaps included: no body ever takes effect twice or for a version already recorded, and
   * once any runner has returned without error every item is recorded.
   */
  lemma {:induction false} NeverTwice(items: seq<string>, tr: seq<System>, acts: seq<Action>, k: nat)
    requires IsRun(items, tr, acts) && tr[0].runners == map[] && k < |tr|
    ensures Consistent(tr[0].db, tr[k].db) && Behind(items, tr[k])
  {
    if k > 0 {
      NeverTwice(items, tr, acts, k - 1);
      var s, a := tr[k - 1], acts[k - 1];
      if a.Commit? && a.r in s.runners && s.runners[a.r].Run? {
        ApplyConsistent(tr[0].db, s.db, items[s.runners[a.r].i], a.outcome);
      }
    }
  }

  // ---------- any number of runners act as one ----------

  /** The database is what one runner leaves after n items, and item n is the first that is not recorded. */
  ghost predicate Frontier(start: Database, db: Database, items: seq<string>, n: nat) {
    Through(start, db, items, n) && (n < |items| ==> items[n] !in db.recorded)
  }

  lemma {:induction false} ReachFrontier(start: Database, db: Database, items: seq<string>, m: nat) returns (n: nat)
    requires Strings.Ascending(items) && Through(start, db, items, m)
    ensures Frontier(start, db, items, n)
    decreases |items| - m
  {
    n := m;
    if m < |items| && items[m] in db.recorded {
      NextItem(start, db, items, m);
      n := ReachFrontier(start, db, items, m + 1);
    }
  }

  /** The runner whose commit goes through stands at the frontier: whatever is behind it has been recorded. */
  lemma CommitsAtFrontier(start: Database, db: Database, items: seq<string>, n: nat, i: nat)
    requires Frontier(start, db, items, n) && i < |items| && items[i] !in db.recorded
    requires forall j :: 0 <= j < i ==> items[j] in db.recorded
    ensures i == n
  {
  }

  /** A step leaves the database alone, or it is the commit of an item that is not recorded yet. */
  lemma StepCommits(items: seq<string>, sys: System, a: Action)
    ensures var db := Step(items, sys, a).db;
            || db == sys.db
            || (&& a.Commit? && a.r in sys.runners && sys.runners[a.r].Run?
                && var i := sys.runners[a.r].i;
                   && i < |items| && items[i] !in sys.db.recorded
                   && db == Database(sys.db.recorded + {items[i]}, sys.db.effects + [items[i]]))
  {
  }

  lemma StepMovesFrontier(items: seq<string>, start: Database, sys: System, a: Action, m: nat) returns (n: nat)
    requires Strings.Ascending(items) && Frontier(start, sys.db, items, m) && Behind(items, sys)
    ensures Frontier(start, Step(items, sys, a).db, items, n)
  {
    n := m;
    var db := Step(items, sys, a).db;
    StepCommits(items, sys, a);
    if db != sys.db {
      CommitsAtFrontier(start, sys.db, items, m, sys.runners[a.r].i);
      NextItem(start, sys.db, items, m);
      n := ReachFrontier(start, db, items, m + 1);
    }
  }

  /**
   * From any history, under any number of concurrent startups, failures and crashes, the database is at every moment
   * what a single undisturbed runner leaves after some number of items; all of them once any runner has returned
   * without error.
   */
  lemma {:induction false} RunnersActAsOne(items: seq<string>, tr: seq<System>, acts: seq<Action>, k: nat)
    returns (n: nat)
    requires Strings.Ascending(items) && IsRun(items, tr, acts) && tr[0].runners == map[] && k < |tr|
    ensures Through(tr[0].db, tr[k].db, items, n) && (n < |items| ==> items[n] !in tr[k].db.recorded)
    ensures (exists r :: r in tr[k].runners && tr[k].runners[r] == Finished(true)) ==> n == |items|
  {
    if k == 0 {
      n := ReachFrontier(tr[0].db, tr[0].db, items, 0);
    } else {
      var s, a := tr[k - 1], acts[k - 1];
      n := RunnersActAsOne(items, tr, acts, k - 1);
      NeverTwice(items, tr, acts, k - 1);
      n := StepMovesFrontier(items, tr[0].db, s, a, n);
    }
    NeverTwice(items, tr, acts, k);
  }

  // ---------- order ----------

  lemma {:induction false} MissingSorted(items: seq<string>, recorded: set<string>)
    requires Strings.Ascending(items)
    ensures Strings.Ascending(Missing(items, recorded))
    ensures forall v :: v in Missing(items, recorded) <==> v in items && v !in recorded
  {
    if items != [] {
      var n := |items| - 1;
      assert items == items[..n] + [items[n]];
      MissingSorted(items[..n], recorded);
      forall v | v in Missing(items[..n], recorded) ensures Strings.Less(v, items[n]) {
        var i :| 0 <= i < n && items[..n][i] == v;
      }
    }
  }

  /**
   * The bodies run since the start come in list order, each once, and are exactly those of the newly recorded
   * items.
   */
  lemma NewBodiesInOrder(items: seq<string>, tr: seq<System>, acts: seq<Action>, k: nat)
    requires Strings.Ascending(items) && IsRun(items, tr, acts) && tr[0].runners == map[] && k < |tr|
    ensures tr[0].db.effects <= tr[k].db.effects
    ensures var new' := tr[k].db.effects[|tr[0].db.effects|..];
            && Strings.Ascending(new')
            && forall v :: v in new' <==> v in items && v in tr[k].db.recorded && v !in tr[0].db.recorded
  {
    var n := RunnersActAsOne(items, tr, acts, k);
    var was := tr[0].db;
    MissingSorted(items[..n], was.recorded);
    assert tr[k].db.effects[|was.effects|..] == Missing(items[..n], was.recorded);
  }

  /** Since the start, the body of some item ran after the body of a later one. */
  ghost predicate RanLate(items: seq<string>, start: Database, db: Database) {
    exists i, j, p, q :: 0 <= i < j < |items| && 0 <= p < q < |db.effects| && |start.effects| <= q
                         && db.effects[p] == items[j] && db.effects[q] == items[i]
  }

  /** Item i was applied since the start, when a later one was recorded already. */
  ghost predicate FillsGap(items: seq<string>, start: Database, db: Database, i: nat, j: nat) {
    && i < j < |items| && items[j] in start.recorded
    && items[i] in db.recorded && items[i] !in start.recorded
  }

  lemma LateFillsGap(items: seq<string>, start: Database, db: Database, i: nat, j: nat, p: nat, q: nat)
    requires Strings.Ascending(items) && start.effects <= db.effects
    requires Strings.Ascending(db.effects[|start.effects|..])
    requires forall v :: v in db.effects[|start.effects|..] <==> v in items && v in db.recorded && v !in start.recorded
    requires Strings.Elements(start.effects) == start.recorded
    requires i < j < |items| && p < q < |db.effects| && |start.effects| <= q
    requires db.effects[p] == items[j] && db.effects[q] == items[i]
    ensures FillsGap(items, start, db, i, j)
  {
    var n := |start.effects|;
    var new' := db.effects[n..];
    assert new'[q - n] == items[i];
    if p >= n {
      assert new'[p - n] == items[j];
      Strings.LessTotal(items[i], items[j]);
    } else {
      assert start.effects[p] == items[j];
    }
  }

  lemma GapRunsLate(items: seq<string>, start: Database, db: Database, i: nat, j: nat)
    requires start.effects <= db.effects
    requires forall v :: v in db.effects[|start.effects|..] <==> v in items && v in db.recorded && v !in start.recorded
    requires Strings.Elements(start.effects) == start.recorded && FillsGap(items, start, db, i, j)
    ensures RanLate(items, start, db)
  {
    var n := |start.effects|;
    assert items[i] in db.effects[n..];
    var q :| 0 <= q < |db.effects| - n && db.effects[n..][q] == items[i];
    assert items[j] in Strings.Elements(start.effects);
    var p :| 0 <= p < n && start.effects[p] == items[j];
    assert db.effects[p] == items[j] && db.effects[n + q] == items[i];
  }

  /**
   * A body runs after a later one exactly when an item newly applied had a later one recorded at the start. At the
   * start, the versions recorded are those whose bodies have taken effect.
   */
  lemma LateExactlyOverAGap(items: seq<string>, tr: seq<System>, acts: seq<Action>, k: nat)
    requires Strings.Ascending(items) && IsRun(items, tr, acts) && tr[0].runners == map[] && k < |tr|
    requires Strings.Elements(tr[0].db.effects) == tr[0].db.recorded
    ensures RanLate(items, tr[0].db, tr[k].db) <==> exists i: nat, j: nat :: FillsGap(items, tr[0].db, tr[k].db, i, j)
  {
    var start, db := tr[0].db, tr[k].db;
    NewBodiesInOrder(items, tr, acts, k);
    if RanLate(items, start, db) {
      var i, j, p, q :| 0 <= i < j < |items| && 0 <= p < q < |db.effects| && |start.effects| <= q
                        && db.effects[p] == items[j] && db.effects[q] == items[i];
      LateFillsGap(items, start, db, i, j, p, q);
    } else if i: nat, j: nat :| FillsGap(items, start, db, i, j) {
      GapRunsLate(items, start, db, i, j);
    }
  }

  /** The recorded history has a gap: an item is missing before a recorded one. */
  ghost predicate HasGap(items: seq<string>, recorded: set<string>) {
    exists i, j :: 0 <= i < j < |items| && items[i] !in recorded && items[j] in recorded
  }

  /** So without a gap at the start no run is ever out of order, and with one every run that succeeds is. */
  lemma InOrderExactlyWithoutAGap(items: seq<string>, tr: seq<System>, acts: seq<Action>, k: nat)
    requires Strings.Ascending(items) && IsRun(items, tr, acts) && tr[0].runners == map[] && k < |tr|
    requires Strings.Elements(tr[0].db.effects) == tr[0].db.recorded
    ensures RanLate(items, tr[0].db, tr[k].db) ==> HasGap(items, tr[0].db.recorded)
    ensures HasGap(items, tr[0].db.recorded)
              && (exists r :: r in tr[k].runners && tr[k].runners[r] == Finished(true)) ==>
              RanLate(items, tr[0].db, tr[k].db)
  {
    var start, db := tr[0].db, tr[k].db;
    LateExactlyOverAGap(items, tr, acts, k);
    NeverTwice(items, tr, acts, k);
    if HasGap(items, start.recorded) && exists r :: r in tr[k].runners && tr[k].runners[r] == Finished(true) {
      var i, j :| 0 <= i < j < |items| && items[i] !in start.recorded && items[j] in start.recorded;
      assert FillsGap(items, start, db, i, j);
    }
  }

  /** Such a run: with a gap at the start, an earlier body runs after a later one. */
  lemma GapRunsOutOfOrder()
    ensures var items := ["1", "2"];
            var t0 := System(Database({"2"}, ["2"]), map[]);
            var t1 := Step(items, t0, Start(0));
            var t2 := Step(items, t1, Lookup(0, false));
            var t3 := Step(items, t2, Commit(0, Commits));
            t3.db.effects == ["2", "1"]
  {
  }

  // ---------- from a history that is a prefix ----------

  /** The recorded versions are exactly the first n items. */
  ghost predicate PrefixRecorded(items: seq<string>, db: Database, n: nat) {
    n <= |items| && db.recorded == Strings.Elements(items[..n])
  }

  lemma AfterPrefix(items: seq<string>, p: nat, n: nat, v: string)
    requires Strings.Ascending(items) && p <= n <= |items|
    ensures v in items[p..n] <==> v in items[..n] && v !in items[..p]
  {
    if v in items[p..n] {
      var i :| 0 <= i < n - p && items[p..n][i] == v;
      assert items[..n][p + i] == v;
      forall j | 0 <= j < p ensures items[..p][j] != v {
        Strings.LessTotal(items[j], v);
      }
    } else if v in items[..n] {
      var i :| 0 <= i < n && items[..n][i] == v;
      assert items[..p][i] == v;
    }
  }

  /** Past a recorded prefix, every item is missing. */
  lemma MissingAfterPrefix(items: seq<string>, p: nat, n: nat)
    requires Strings.Ascending(items) && p <= n <= |items|
    ensures Missing(items[..n], Strings.Elements(items[..p])) == items[p..n]
  {
    var missing := Missing(items[..n], Strings.Elements(items[..p]));
    MissingSorted(items[..n], Strings.Elements(items[..p]));
    forall v ensures v in missing <==> v in items[p..n] {
      AfterPrefix(items, p, n, v);
    }
    Strings.AscendingUnique(missing, items[p..n]);
  }

  /**
   * From a recorded prefix, whatever the number of concurrent startups, failures and crashes: at every moment the
   * recorded versions are a prefix of the sorted list, and since the start the bodies of exactly the newly recorded
   * ones have taken effect, each once and in list order; and once any runner has returned without error, the whole
   * list is recorded.
   */
  lemma HistoryIsAlwaysAPrefix(items: seq<string>, tr: seq<System>, acts: seq<Action>, p: nat, k: nat)
    requires Strings.Ascending(items) && IsRun(items, tr, acts) && tr[0].runners == map[] && k < |tr|
    requires PrefixRecorded(items, tr[0].db, p)
    ensures exists n :: p <= n <= |items| && PrefixRecorded(items, tr[k].db, n)
                        && tr[k].db.effects == tr[0].db.effects + items[p..n]
    ensures (exists r :: r in tr[k].runners && tr[k].runners[r] == Finished(true)) ==>
              tr[k].db.recorded == Strings.Elements(items)
  {
    var n := RunnersActAsOne(items, tr, acts, k);
    MissingAfterPrefix(items, p, n);
    assert items[..p] <= items[..n];
    assert items[..|items|] == items;
    assert PrefixRecorded(items, tr[k].db, n) && p <= n <= |items|
           && tr[k].db.effects == tr[0].db.effects + items[p..n];
  }


  // ---------- an undisturbed runner gets there ----------

  lemma RunsPrepend(items: seq<string>, sys: System, a: Action, tr: seq<System>, acts: seq<Action>)
    requires IsRun(items, tr, acts) && tr[0] == Step(items, sys, a)
    ensures IsRun(items, [sys] + tr, [a] + acts)
  {
    forall i | 0 <= i < |acts| + 1 ensures ([sys] + tr)[i + 1] == Step(items, ([sys] + tr)[i], ([a] + acts)[i]) {
      if i > 0 {
        assert tr[i - 1 + 1] == Step(items, tr[i - 1], acts[i - 1]);
      }
    }
  }

  /** A lookup that fails ends its runner with an error, and so does a commit that fails, or seems to. */
  lemma FailuresEndTheRunner(items: seq<string>, sys: System, a: Action)
    requires (a.Lookup? && a.fails) || (a.Commit? && a.outcome != Commits)
    requires a.r in sys.runners && (if a.Lookup? then sys.runners[a.r].Check? else sys.runners[a.r].Run?)
    requires sys.runners[a.r].i < |items|
    ensures Step(items, sys, a).runners == sys.runners[a.r := Finished(false)]
  {
  }

  /**
   * From wherever it stands, a runner that nobody disturbs and nothing fails returns without error, all items
   * recorded.
   */
  lemma {:induction false} UndisturbedFinishes(items: seq<string>, sys: System, r: nat, i: nat)
    returns (tr: seq<System>, acts: seq<Action>)
    requires i <= |items| && r in sys.runners && sys.runners[r] == AtItem(items, i)
    ensures IsRun(items, tr, acts) && tr[0] == sys
    ensures r in tr[|acts|].runners && tr[|acts|].runners[r] == Finished(true)
    ensures sys.db.recorded <= tr[|acts|].db.recorded
    ensures forall j :: i <= j < |items| ==> items[j] in tr[|acts|].db.recorded
    decreases |items| - i
  {
    if i == |items| {
      tr, acts := [sys], [];
    } else {
      var look, commit := Lookup(r, false), Commit(r, Commits);
      var s1 := Step(items, sys, look);
      if items[i] in sys.db.recorded {
        tr, acts := UndisturbedFinishes(items, s1, r, i + 1);
      } else {
        var s2 := Step(items, s1, commit);
        tr, acts := UndisturbedFinishes(items, s2, r, i + 1);
        RunsPrepend(items, s1, commit, tr, acts);
        tr, acts := [s1] + tr, [commit] + acts;
      }
      RunsPrepend(items, sys, look, tr, acts);
      tr, acts := [sys] + tr, [look] + acts;
    }
  }
}
