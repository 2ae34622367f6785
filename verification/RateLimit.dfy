/** The fixed-window rate limiter. */
module RateLimit {
  import opened Clock

  datatype Window = Window(started: int, count: int)

  /** The settings after New has replaced a limit below one and a duration that is not positive. */
  datatype Settings = Settings(limit: int, duration: int)
  type Limits = l: Settings | l.limit >= 1 && l.duration > 0 witness Settings(1, 1)

  function Normalized(limit: int, d: int): Limits {
    Settings(if limit < 1 then 1 else limit, if d <= 0 then MINUTE else d)
  }

  predicate Expired(l: Limits, w: Window, now: int) {
    w.started + l.duration <= now
  }

  function AllowSpec(l: Limits, windows: map<string, Window>, key: string, now: int): (map<string, Window>, bool) {
    if key == "" then (windows, false)
    else if key !in windows || Expired(l, windows[key], now) then (windows[key := Window(now, 1)], true)
    else if windows[key].count >= l.limit then (windows, false)
    else (windows[key := windows[key].(count := windows[key].count + 1)], true)
  }

  function RemainingSpec(l: Limits, windows: map<string, Window>, key: string, now: int): int {
    if key !in windows || Expired(l, windows[key], now) then l.limit
    else if windows[key].count >= l.limit then 0
    else l.limit - windows[key].count
  }

  class Limiter {
    const limits: Limits
    var windows: map<string, Window>

    constructor (limit: int, d: int)
      ensures limits == Normalized(limit, d) && windows == map[]
      ensures limits.limit == (if limit >= 1 then limit else 1)
      ensures limits.duration == (if d > 0 then d else 60_000_000_000)
    {
      limits := Normalized(limit, d);
      windows := map[];
    }

    method Allow(key: string, now: int) returns (ok: bool)
      modifies this
      ensures (windows, ok) == AllowSpec(limits, old(windows), key, now)
    {
      if key == "" { return false; }
      if key !in windows || windows[key].started + limits.duration <= now {
        windows := windows[key := Window(now, 1)];
        return true;
      }
      var w := windows[key];
      if w.count >= limits.limit { return false; }
      w := w.(count := w.count + 1);
      windows := windows[key := w];
      return true;
    }

    method Reset(key: string)
      modifies this
      ensures windows == old(windows) - {key}
    {
      windows := windows - {key};
    }

    method Remaining(key: string, now: int) returns (n: int)
      ensures n == RemainingSpec(limits, windows, key, now)
    {
      if key !in windows || windows[key].started + limits.duration <= now { return limits.limit; }
      if windows[key].count >= limits.limit { return 0; }
      return limits.limit - windows[key].count;
    }
  }

  // ---------- histories ----------

  datatype Attempt = Attempt(key: string, now: int)

  function After(l: Limits, calls: seq<Attempt>): map<string, Window> {
    if calls == [] then map[]
    else
      var last := calls[|calls| - 1];
      AllowSpec(l, After(l, calls[..|calls| - 1]), last.key, last.now).0
  }

  /** When the key was allowed. */
  function Allowed(l: Limits, calls: seq<Attempt>, key: string): seq<int> {
    if calls == [] then []
    else
      var last, init := calls[|calls| - 1], calls[..|calls| - 1];
      Allowed(l, init, key)
      + if last.key == key && AllowSpec(l, After(l, init), key, last.now).1 then [last.now] else []
  }

  /** The clock does not run backwards between the calls for the key. */
  ghost predicate Ordered(calls: seq<Attempt>, key: string) {
    forall i, j :: 0 <= i < j < |calls| && calls[i].key == key && calls[j].key == key ==> calls[i].now <= calls[j].now
  }

  ghost predicate Ascending(times: seq<int>) {
    forall i, j :: 0 <= i < j < |times| ==> times[i] <= times[j]
  }

  /** Any 2*limit consecutive allowed calls span at least a duration. */
  ghost predicate Spread(l: Limits, times: seq<int>) {
    forall i :: 0 <= i < |times| - 2 * l.limit + 1 ==> times[i] + l.duration <= times[i + 2 * l.limit - 1]
  }

  /**
   * The allowed times seen from the open window: it started at one of them, its count is what has come since, and
   * everything a full limit or more before it is at least a whole duration older.
   */
  ghost predicate Fills(l: Limits, times: seq<int>, w: Window) {
    && 1 <= w.count <= l.limit && w.count <= |times| && times[|times| - w.count] == w.started
    && (forall i :: 0 <= i <= |times| - w.count - l.limit ==> times[i] + l.duration <= w.started)
  }

  ghost predicate Shape(l: Limits, times: seq<int>, windows: map<string, Window>, key: string) {
    && Ascending(times) && Spread(l, times)
    && (if key in windows then Fills(l, times, windows[key]) else times == [])
  }

  lemma AscendingAppend(times: seq<int>, now: int)
    requires Ascending(times) && (times != [] ==> times[|times| - 1] <= now)
    ensures Ascending(times + [now])
  {
  }

  lemma SpreadAppend(l: Limits, times: seq<int>, now: int)
    requires Spread(l, times)
    requires |times| + 1 >= 2 * l.limit ==> times[|times| - 2 * l.limit + 1] + l.duration <= now
    ensures Spread(l, times + [now])
  {
    var all := times + [now];
    forall i | 0 <= i < |all| - 2 * l.limit + 1 ensures all[i] + l.duration <= all[i + 2 * l.limit - 1] {
      if i + 2 * l.limit - 1 < |times| {
        assert times[i] + l.duration <= times[i + 2 * l.limit - 1];
      }
    }
  }

  /** A new window opens. */
  lemma Reopens(l: Limits, times: seq<int>, w: Window, now: int)
    requires Ascending(times) && Fills(l, times, w) && Expired(l, w, now)
    ensures Fills(l, times + [now], Window(now, 1))
    ensures |times| + 1 >= 2 * l.limit ==> times[|times| - 2 * l.limit + 1] + l.duration <= now
  {
    forall i | 0 <= i <= |times| - l.limit ensures times[i] + l.duration <= now {
      assert i <= |times| - w.count;
      assert times[i] <= w.started;
    }
  }

  /** The open window takes one more. */
  lemma Grows(l: Limits, times: seq<int>, w: Window, now: int)
    requires Ascending(times) && Fills(l, times, w) && w.count < l.limit && times[|times| - 1] <= now
    ensures Fills(l, times + [now], w.(count := w.count + 1))
    ensures |times| + 1 >= 2 * l.limit ==> times[|times| - 2 * l.limit + 1] + l.duration <= now
  {
    assert w.started <= now;
  }

  lemma ShapeStep(l: Limits, times: seq<int>, windows: map<string, Window>, key: string, now: int)
    requires key != "" && Shape(l, times, windows, key)
    requires times != [] ==> times[|times| - 1] <= now
    ensures var (windows', ok) := AllowSpec(l, windows, key, now);
            Shape(l, times + (if ok then [now] else []), windows', key)
  {
    if AllowSpec(l, windows, key, now).1 {
      AscendingAppend(times, now);
      if key in windows {
        if Expired(l, windows[key], now) {
          Reopens(l, times, windows[key], now);
        } else {
          Grows(l, times, windows[key], now);
        }
        SpreadAppend(l, times, now);
      } else {
        assert times + [now] == [now];
      }
    } else {
      assert times + [] == times;
    }
  }

  lemma {:induction false} AllowedBounded(l: Limits, calls: seq<Attempt>, key: string, bound: int)
    requires forall i :: 0 <= i < |calls| && calls[i].key == key ==> calls[i].now <= bound
    ensures forall j :: 0 <= j < |Allowed(l, calls, key)| ==> Allowed(l, calls, key)[j] <= bound
  {
    if calls != [] {
      AllowedBounded(l, calls[..|calls| - 1], key, bound);
    }
  }

  lemma {:induction false} AlwaysInShape(l: Limits, calls: seq<Attempt>, key: string)
    requires key != "" && Ordered(calls, key)
    ensures Shape(l, Allowed(l, calls, key), After(l, calls), key)
  {
    if calls != [] {
      var last, init := calls[|calls| - 1], calls[..|calls| - 1];
      AlwaysInShape(l, init, key);
      var times := Allowed(l, init, key);
      if last.key == key {
        AllowedBounded(l, init, key, last.now);
        ShapeStep(l, times, After(l, init), key, last.now);
      } else {
        OtherKey(l, After(l, init), last.key, last.now, key);
        assert times + [] == times;
      }
    }
  }

  lemma OtherKey(l: Limits, windows: map<string, Window>, other: string, now: int, key: string)
    requires other != key
    ensures var w := AllowSpec(l, windows, other, now).0;
            (key in w <==> key in windows) && (key in w ==> w[key] == windows[key])
  {
  }

  lemma LongSpan(l: Limits, times: seq<int>, windows: map<string, Window>, key: string, i: nat, j: nat)
    requires Shape(l, times, windows, key) && i <= j < |times| && j - i + 1 >= 2 * l.limit
    ensures times[i] + l.duration <= times[j]
  {
    assert times[i] + l.duration <= times[i + 2 * l.limit - 1];
  }

  function CountIn(times: seq<int>, lo: int, hi: int): nat {
    if times == [] then 0
    else CountIn(times[..|times| - 1], lo, hi) + if lo <= times[|times| - 1] < hi then 1 else 0
  }

  /** In an ascending sequence, m hits of an interval span m positions. */
  lemma {:induction false} HitsSpan(times: seq<int>, lo: int, hi: int, m: nat)
    requires Ascending(times)
    requires 1 <= m <= CountIn(times, lo, hi)
    ensures exists i, j :: 0 <= i <= j < |times| && j - i + 1 >= m && lo <= times[i] && times[j] < hi
  {
    var n := |times| - 1;
    var init := times[..n];
    if m <= CountIn(init, lo, hi) {
      HitsSpan(init, lo, hi, m);
      var i, j :| 0 <= i <= j < |init| && j - i + 1 >= m && lo <= init[i] && init[j] < hi;
      assert times[i] == init[i] && times[j] == init[j];
    } else if m == 1 {
      assert lo <= times[n] && times[n] < hi && 0 <= n <= n < |times| && n - n + 1 >= m;
    } else {
      HitsSpan(init, lo, hi, m - 1);
      var i, j :| 0 <= i <= j < |init| && j - i + 1 >= m - 1 && lo <= init[i] && init[j] < hi;
      assert times[i] == init[i] && 0 <= i <= n < |times| && n - i + 1 >= m && lo <= times[i] && times[n] < hi;
    }
  }

  /** Over any interval as long as the window, aligned or not, at most 2*limit-1 calls of a key are allowed. */
  lemma SlidingBound(l: Limits, calls: seq<Attempt>, key: string, lo: int)
    requires Ordered(calls, key)
    ensures CountIn(Allowed(l, calls, key), lo, lo + l.duration) <= 2 * l.limit - 1
  {
    var times := Allowed(l, calls, key);
    if key == "" {
      EmptyKeyNeverAllowed(l, calls);
    } else if CountIn(times, lo, lo + l.duration) >= 2 * l.limit {
      AlwaysInShape(l, calls, key);
      HitsSpan(times, lo, lo + l.duration, 2 * l.limit);
      var i, j :| 0 <= i <= j < |times| && j - i + 1 >= 2 * l.limit && lo <= times[i] && times[j] < lo + l.duration;
      LongSpan(l, times, After(l, calls), key, i, j);
    }
  }

  lemma {:induction false} EmptyKeyNeverAllowed(l: Limits, calls: seq<Attempt>)
    ensures Allowed(l, calls, "") == []
  {
    if calls != [] {
      EmptyKeyNeverAllowed(l, calls[..|calls| - 1]);
    }
  }

  // ---------- nobody is refused without need ----------

  /**
   * A call is refused only when a full limit of calls of its key has been allowed less than a duration ago - and an
   * empty key always is.
   */
  lemma RefusedOnlyWhenFull(l: Limits, calls: seq<Attempt>, key: string, now: int)
    requires key != "" && Ordered(calls, key) && !AllowSpec(l, After(l, calls), key, now).1
    ensures var times := Allowed(l, calls, key);
            && l.limit <= |times|
            && forall i :: |times| - l.limit <= i < |times| ==> now - l.duration < times[i]
  {
    AlwaysInShape(l, calls, key);
  }

  /** The calls for one key. */
  function Only(calls: seq<Attempt>, key: string): seq<Attempt> {
    if calls == [] then []
    else
      var last := calls[|calls| - 1];
      Only(calls[..|calls| - 1], key) + if last.key == key then [last] else []
  }

  /** What is allowed of one key does not depend on the calls for any other. */
  lemma {:induction false} KeysAreIndependent(l: Limits, calls: seq<Attempt>, key: string)
    requires key != ""
    ensures Allowed(l, Only(calls, key), key) == Allowed(l, calls, key)
    ensures var a, b := After(l, calls), After(l, Only(calls, key));
            (key in a <==> key in b) && (key in a ==> a[key] == b[key])
  {
    if calls != [] {
      var last, init := calls[|calls| - 1], calls[..|calls| - 1];
      KeysAreIndependent(l, init, key);
      if last.key == key {
        assert Only(calls, key)[..|Only(calls, key)| - 1] == Only(init, key);
      } else {
        assert Only(calls, key) == Only(init, key);
        OtherKey(l, After(l, init), last.key, last.now, key);
        assert Allowed(l, init, key) + [] == Allowed(l, init, key);
      }
    }
  }

  /** After a reset the whole limit is there again. */
  lemma ResetRestores(l: Limits, windows: map<string, Window>, key: string, now: int)
    ensures RemainingSpec(l, windows - {key}, key, now) == l.limit
    ensures forall k :: k != key ==> RemainingSpec(l, windows - {key}, k, now) == RemainingSpec(l, windows, k, now)
  {
  }

  // ---------- what Remaining promises ----------

  function Repeat(key: string, now: int, m: nat): seq<Attempt> {
    seq(m, _ => Attempt(key, now))
  }

  function Copies(t: int, m: nat): seq<int> {
    seq(m, _ => t)
  }

  function Min(a: int, b: int): int {
    if a < b then a else b
  }

  lemma AllowUsesOne(l: Limits, windows: map<string, Window>, key: string, now: int)
    requires key != ""
    ensures var (w, ok) := AllowSpec(l, windows, key, now);
            var r := RemainingSpec(l, windows, key, now);
            r >= 0 && (ok <==> r > 0) && RemainingSpec(l, w, key, now) == r - if ok then 1 else 0
  {
  }

  lemma AppendAttempt(l: Limits, calls: seq<Attempt>, key: string, now: int)
    ensures var all := calls + [Attempt(key, now)];
            && After(l, all) == AllowSpec(l, After(l, calls), key, now).0
            && Allowed(l, all, key)
                 == Allowed(l, calls, key) + if AllowSpec(l, After(l, calls), key, now).1 then [now] else []
  {
    var all := calls + [Attempt(key, now)];
    assert all[..|all| - 1] == calls;
  }

  /** After a history, k calls at this instant have been made, of which the first r could succeed. */
  ghost predicate Burst(l: Limits, calls: seq<Attempt>, before: seq<int>, key: string, now: int, k: nat, r: int) {
    && r >= 0 && Allowed(l, calls, key) == before + Copies(now, Min(k, r))
    && RemainingSpec(l, After(l, calls), key, now) == r - Min(k, r)
  }

  lemma CopiesAppend(before: seq<int>, t: int, m: nat)
    ensures before + Copies(t, m) + [t] == before + Copies(t, m + 1)
    ensures before + Copies(t, 0) == before
  {
    assert Copies(t, m + 1) == Copies(t, m) + [t];
  }

  lemma BurstNext(l: Limits, calls: seq<Attempt>, before: seq<int>, key: string, now: int, k: nat, r: int)
    requires key != "" && Burst(l, calls, before, key, now, k, r)
    ensures Burst(l, calls + [Attempt(key, now)], before, key, now, k + 1, r)
  {
    AllowUsesOne(l, After(l, calls), key, now);
    AppendAttempt(l, calls, key, now);
    CopiesAppend(before, now, Min(k, r));
  }

  lemma RepeatSplits(calls: seq<Attempt>, key: string, now: int, m: nat)
    requires m > 0
    ensures calls + Repeat(key, now, m) == calls + [Attempt(key, now)] + Repeat(key, now, m - 1)
    ensures calls + Repeat(key, now, m) == calls + Repeat(key, now, m - 1) + [Attempt(key, now)]
  {
  }

  lemma {:induction false} Bursts(l: Limits, n: nat, all: seq<Attempt>, before: seq<int>,
                                  key: string, now: int, k: nat, r: int)
    requires key != "" && n <= |all| && Burst(l, all[..n], before, key, now, k, r)
    requires forall i :: n <= i < |all| ==> all[i] == Attempt(key, now)
    ensures Burst(l, all, before, key, now, k + |all| - n, r)
    decreases |all| - n
  {
    if n == |all| {
      assert all[..n] == all;
    } else {
      BurstNext(l, all[..n], before, key, now, k, r);
      assert all[..n + 1] == all[..n] + [Attempt(key, now)];
      Bursts(l, n + 1, all, before, key, now, k + 1, r);
    }
  }

  /** After any history, of the next m calls at one instant exactly the first Remaining succeed. */
  lemma RemainingIsExact(l: Limits, calls: seq<Attempt>, key: string, now: int, m: nat)
    requires key != ""
    ensures var r := RemainingSpec(l, After(l, calls), key, now);
            && r >= 0
            && Allowed(l, calls + Repeat(key, now, m), key) == Allowed(l, calls, key) + Copies(now, Min(m, r))
            && RemainingSpec(l, After(l, calls + Repeat(key, now, m)), key, now) == r - Min(m, r)
  {
    var before, r := Allowed(l, calls, key), RemainingSpec(l, After(l, calls), key, now);
    CopiesAppend(before, now, 0);
    AllowUsesOne(l, After(l, calls), key, now);
    var all := calls + Repeat(key, now, m);
    assert all[..|calls|] == calls;
    Bursts(l, |calls|, all, before, key, now, 0, r);
  }

  // ---------- the bound is attained ----------

  lemma CountAppend(times: seq<int>, t: int, lo: int, hi: int)
    ensures CountIn(times + [t], lo, hi) == CountIn(times, lo, hi) + if lo <= t < hi then 1 else 0
  {
    assert (times + [t])[..|times|] == times;
  }

  lemma {:induction false} CountCopies(times: seq<int>, t: int, m: nat, lo: int, hi: int)
    ensures CountIn(times + Copies(t, m), lo, hi) == CountIn(times, lo, hi) + if lo <= t < hi then m else 0
  {
    if m == 0 {
      CopiesAppend(times, t, 0);
    } else {
      CountCopies(times, t, m - 1, lo, hi);
      CountAppend(times + Copies(t, m - 1), t, lo, hi);
      CopiesAppend(times, t, m - 1);
    }
  }

  /** One call, then the rest of the limit just before the window ends, then a full limit at once. */
  function WorstCase(l: Limits, key: string): seq<Attempt>
  {
    [Attempt(key, 0)] + Repeat(key, l.duration - 1, l.limit - 1) + Repeat(key, l.duration, l.limit)
  }

  lemma {:induction false} WindowFills(l: Limits, key: string, m: nat)
    requires l.duration >= 2 && key != "" && m <= l.limit - 1
    ensures var calls := [Attempt(key, 0)] + Repeat(key, l.duration - 1, m);
            key in After(l, calls) && After(l, calls)[key] == Window(0, 1 + m)
  {
    if m == 0 {
      assert [Attempt(key, 0)] + Repeat(key, l.duration - 1, 0) == [] + [Attempt(key, 0)];
      AppendAttempt(l, [], key, 0);
    } else {
      WindowFills(l, key, m - 1);
      var init := [Attempt(key, 0)] + Repeat(key, l.duration - 1, m - 1);
      RepeatSplits([Attempt(key, 0)], key, l.duration - 1, m);
      AppendAttempt(l, init, key, l.duration - 1);
    }
  }

  lemma FirstAllowed(l: Limits, key: string)
    requires key != ""
    ensures var c := [Attempt(key, 0)]; Allowed(l, c, key) == [0] && After(l, c) == map[key := Window(0, 1)]
  {
    assert [] + [Attempt(key, 0)] == [Attempt(key, 0)];
    AppendAttempt(l, [], key, 0);
  }

  lemma WindowFilled(l: Limits, key: string)
    requires l.duration >= 2 && key != ""
    ensures var c := [Attempt(key, 0)] + Repeat(key, l.duration - 1, l.limit - 1);
            && Allowed(l, c, key) == [0] + Copies(l.duration - 1, l.limit - 1)
            && RemainingSpec(l, After(l, c), key, l.duration) == l.limit
  {
    FirstAllowed(l, key);
    WindowFills(l, key, l.limit - 1);
    RemainingIsExact(l, [Attempt(key, 0)], key, l.duration - 1, l.limit - 1);
  }

  lemma WorstCaseAllowed(l: Limits, key: string)
    requires l.duration >= 2 && key != ""
    ensures Allowed(l, WorstCase(l, key), key) ==
              [0] + Copies(l.duration - 1, l.limit - 1) + Copies(l.duration, l.limit)
  {
    WindowFilled(l, key);
    RemainingIsExact(l, [Attempt(key, 0)] + Repeat(key, l.duration - 1, l.limit - 1), key, l.duration, l.limit);
  }

  lemma WorstCaseOrdered(l: Limits, key: string)
    ensures Ordered(WorstCase(l, key), key)
  {
  }

  lemma WorstCaseCount(n: nat, d: int)
    requires n >= 1 && d >= 2
    ensures CountIn([0] + Copies(d - 1, n - 1) + Copies(d, n), d - 1, 2 * d - 1) == 2 * n - 1
  {
    var lo, hi := d - 1, 2 * d - 1;
    assert CountIn([0], lo, hi) == 0 by { assert [0][..0] == []; }
    CountCopies([0], d - 1, n - 1, lo, hi);
    CountCopies([0] + Copies(d - 1, n - 1), d, n, lo, hi);
  }

  lemma WorstHistory(l: Limits, key: string) returns (calls: seq<Attempt>)
    requires l.duration >= 2 && key != ""
    ensures Ordered(calls, key)
    ensures Allowed(l, calls, key) == [0] + Copies(l.duration - 1, l.limit - 1) + Copies(l.duration, l.limit)
  {
    calls := WorstCase(l, key);
    WorstCaseOrdered(l, key);
    WorstCaseAllowed(l, key);
  }

  /** For every limit, and every duration longer than one tick of the clock, some ordered history attains the bound. */
  lemma BoundIsTight(l: Limits, key: string) returns (calls: seq<Attempt>)
    requires l.duration >= 2 && key != ""
    ensures Ordered(calls, key)
    ensures CountIn(Allowed(l, calls, key), l.duration - 1, 2 * l.duration - 1) == 2 * l.limit - 1
  {
    calls := WorstHistory(l, key);
    WorstCaseCount(l.limit, l.duration);
  }
}
