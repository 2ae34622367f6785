/** The request idempotency store: replay within a day, and cleanup that no Begin can notice. */
module IdempotencyStore {
  import opened Clock
  import opened Domain
  import opened JoinedKey

  datatype Record = Record(tenantId: string, key: string, fingerprint: string, status: int, body: seq<int>,
                           createdAt: int, expiresAt: int)

  type Records = map<string, Record>

  datatype Answer = Rejected(error: Error) | Replay(record: Record) | Fresh(record: Record)

  function BeginSpec(rs: Records, tenant: string, key: string, fingerprint: string, now: int): (Records, Answer) {
    var c := JoinKey(tenant, key);
    if tenant == "" || key == "" || fingerprint == "" then (rs, Rejected(Invalid))
    else if c in rs && now < rs[c].expiresAt then
      (rs, if rs[c].fingerprint != fingerprint then Rejected(Conflict) else Replay(rs[c]))
    else
      var v := Record(tenant, key, fingerprint, 102, [], now, now + DAY);
      (rs[c := v], Fresh(v))
  }

  function CompleteSpec(rs: Records, tenant: string, key: string, status: int, body: seq<int>):
    (Records, Option<Error>)
  {
    var c := JoinKey(tenant, key);
    if c !in rs then (rs, Some(NotFound)) else (rs[c := rs[c].(status := status, body := body)], None)
  }

  function ExpiredBy(rs: Records, now: int): set<string> {
    set k | k in rs && rs[k].expiresAt <= now
  }

  class Store {
    var records: Records

    constructor ()
      ensures records == map[]
    {
      records := map[];
    }

    method Begin(tenant: string, key: string, fingerprint: string, now: int) returns (a: Answer)
      modifies this
      ensures (records, a) == BeginSpec(old(records), tenant, key, fingerprint, now)
    {
      if tenant == "" || key == "" || fingerprint == "" { return Rejected(Invalid); }
      var c := JoinKey(tenant, key);
      if c in records && now < records[c].expiresAt {
        var prior := records[c];
        if prior.fingerprint != fingerprint { return Rejected(Conflict); }
        return Replay(prior);
      }
      var v := Record(tenant, key, fingerprint, 102, [], now, now + DAY);
      records := records[c := v];
      return Fresh(v);
    }

    method Complete(tenant: string, key: string, status: int, body: seq<int>) returns (err: Option<Error>)
      modifies this
      ensures (records, err) == CompleteSpec(old(records), tenant, key, status, body)
    {
      var c := JoinKey(tenant, key);
      if c !in records { return Some(NotFound); }
      var v := records[c];
      v := v.(status := status);
      v := v.(body := body);
      records := records[c := v];
      return None;
    }

    /** Deletes while ranging over the map: exactly the expired records go, and their number is returned. */
    method Cleanup(now: int) returns (n: nat)
      modifies this
      ensures records == old(records) - ExpiredBy(old(records), now) && n == |ExpiredBy(old(records), now)|
    {
      n := 0;
      var todo := records.Keys;
      ghost var gone: set<string> := {};
      while todo != {}
        invariant todo <= records.Keys && gone !! todo && n == |gone|
        invariant records == old(records) - gone
        invariant gone == set k | k in old(records) && k !in todo && old(records)[k].expiresAt <= now
        decreases |todo|
      {
        var k :| k in todo;
        if records[k].expiresAt <= now {
          records := records - {k};
          gone := gone + {k};
          n := n + 1;
        }
        todo := todo - {k};
      }
      assert gone == ExpiredBy(old(records), now);
    }
  }

  // ---------- histories ----------

  datatype Op =
    | Begin(tenant: string, key: string, fingerprint: string, now: int)
    | Complete(tenant: string, key: string, status: int, body: seq<int>)
    | Cleanup(now: int)

  function Do(rs: Records, op: Op): Records {
    match op
    case Begin(tenant, key, fingerprint, now) => BeginSpec(rs, tenant, key, fingerprint, now).0
    case Complete(tenant, key, status, body) => CompleteSpec(rs, tenant, key, status, body).0
    case Cleanup(now) => rs - ExpiredBy(rs, now)
  }

  function After(ops: seq<Op>): Records {
    if ops == [] then map[] else Do(After(ops[..|ops| - 1]), ops[|ops| - 1])
  }

  function AnswerTo(rs: Records, op: Op): Answer
    requires op.Begin?
  {
    BeginSpec(rs, op.tenant, op.key, op.fingerprint, op.now).1
  }

  /** What every Begin of the history was told, in order. */
  function Answers(ops: seq<Op>): seq<Answer> {
    if ops == [] then []
    else
      var last, init := ops[|ops| - 1], ops[..|ops| - 1];
      Answers(init) + if last.Begin? then [AnswerTo(After(init), last)] else []
  }

  /** The clock does not run backwards; Complete does not look at it. */
  ghost predicate Ordered(ops: seq<Op>) {
    forall i, j :: 0 <= i < j < |ops| && !ops[i].Complete? && !ops[j].Complete? ==> ops[i].now <= ops[j].now
  }

  // ---------- spacing ----------

  ghost predicate FreshAt(ops: seq<Op>, i: nat) {
    i < |ops| && ops[i].Begin? && AnswerTo(After(ops[..i]), ops[i]).Fresh?
  }

  ghost predicate Guards(rs: Records, c: string, until: int) {
    c in rs && rs[c].expiresAt == until
  }

  lemma GuardStays(rs: Records, op: Op, c: string, until: int)
    requires Guards(rs, c, until) && (op.Complete? || op.now < until)
    ensures Guards(Do(rs, op), c, until)
  {
  }

  lemma {:induction false} GuardedUntilExpiry(ops: seq<Op>, i: nat, k: nat)
    requires FreshAt(ops, i) && i < k <= |ops|
    requires forall m :: i < m < k && !ops[m].Complete? ==> ops[m].now < ops[i].now + DAY
    ensures Guards(After(ops[..k]), JoinKey(ops[i].tenant, ops[i].key), ops[i].now + DAY)
    decreases k
  {
    assert ops[..k][..k - 1] == ops[..k - 1];
    if k > i + 1 {
      GuardedUntilExpiry(ops, i, k - 1);
      GuardStays(After(ops[..k - 1]), ops[k - 1], JoinKey(ops[i].tenant, ops[i].key), ops[i].now + DAY);
    }
  }

  /**
   * Two fresh admissions under the same joined key are at least a day apart, whatever completions and cleanups come
   * between.
   */
  lemma FreshAnswersAreADayApart(ops: seq<Op>, i: nat, j: nat)
    requires Ordered(ops) && i < j && FreshAt(ops, i) && FreshAt(ops, j)
    requires JoinKey(ops[i].tenant, ops[i].key) == JoinKey(ops[j].tenant, ops[j].key)
    ensures ops[j].now >= ops[i].now + 86_400_000_000_000
  {
    if ops[j].now < ops[i].now + DAY {
      GuardedUntilExpiry(ops, i, j);
    }
  }

  // ---------- what is replayed ----------

  ghost predicate CompletesAt(ops: seq<Op>, k: nat, c: string) {
    k < |ops| && ops[k].Complete? && JoinKey(ops[k].tenant, ops[k].key) == c
  }

  /** Status and body last recorded for c since step i: those of the last completion, or still in progress. */
  ghost function LastOutcome(ops: seq<Op>, i: nat, k: nat, c: string): (int, seq<int>)
    requires i < k <= |ops|
  {
    if k == i + 1 then (102, [])
    else if CompletesAt(ops, k - 1, c) then (ops[k - 1].status, ops[k - 1].body)
    else LastOutcome(ops, i, k - 1, c)
  }

  /** The record is that of the fresh admission at step i, brought up to moment k, and no later one replaced it. */
  ghost predicate From(ops: seq<Op>, i: nat, k: nat, c: string, v: Record)
    requires k <= |ops|
  {
    && i < k && FreshAt(ops, i) && JoinKey(ops[i].tenant, ops[i].key) == c
    && v == Record(ops[i].tenant, ops[i].key, ops[i].fingerprint,
                   LastOutcome(ops, i, k, c).0, LastOutcome(ops, i, k, c).1,
                   ops[i].now, ops[i].now + DAY)
    && forall m :: i < m < k && FreshAt(ops, m) ==> JoinKey(ops[m].tenant, ops[m].key) != c
  }

  /** Where the record of a key comes from across one operation. */
  lemma RecordStep(rs: Records, op: Op, c: string)
    requires c in Do(rs, op)
    ensures if op.Begin? && JoinKey(op.tenant, op.key) == c && AnswerTo(rs, op).Fresh?
            then Do(rs, op)[c] == Record(op.tenant, op.key, op.fingerprint, 102, [], op.now, op.now + DAY)
            else c in rs && Do(rs, op)[c] == if op.Complete? && JoinKey(op.tenant, op.key) == c
                                             then rs[c].(status := op.status, body := op.body) else rs[c]
  {
  }

  lemma OriginStays(ops: seq<Op>, i: nat, k: nat, c: string, v: Record, w: Record)
    requires k < |ops| && From(ops, i, k, c, v)
    requires FreshAt(ops, k) ==> JoinKey(ops[k].tenant, ops[k].key) != c
    requires w == if CompletesAt(ops, k, c) then v.(status := ops[k].status, body := ops[k].body) else v
    ensures From(ops, i, k + 1, c, w)
  {
  }

  lemma {:induction false} RecordsHaveOrigin(ops: seq<Op>, k: nat, c: string) returns (i: nat)
    requires k <= |ops| && c in After(ops[..k])
    ensures From(ops, i, k, c, After(ops[..k])[c])
  {
    var n := k - 1;
    assert ops[..k][..n] == ops[..n];
    RecordStep(After(ops[..n]), ops[n], c);
    if FreshAt(ops, n) && JoinKey(ops[n].tenant, ops[n].key) == c {
      i := n;
    } else {
      i := RecordsHaveOrigin(ops, n, c);
      OriginStays(ops, i, n, c, After(ops[..n])[c], After(ops[..k])[c]);
    }
  }

  /**
   * Every answer to a valid Begin is explained by the history: a replay returns the record of the latest fresh
   * admission under the joined key, less than a day old and with the same fingerprint, carrying the outcome of its
   * last completion; a conflict means such an admission with another fingerprint; otherwise the Begin is fresh itself.
   * The replayed record is this tenant's and key's own exactly when the two tenants' names are separable.
   */
  lemma AnswersAreExplained(ops: seq<Op>, j: nat)
    requires j < |ops| && ops[j].Begin? && ops[j].tenant != "" && ops[j].key != "" && ops[j].fingerprint != ""
    ensures var c := JoinKey(ops[j].tenant, ops[j].key);
            match AnswerTo(After(ops[..j]), ops[j])
            case Replay(v) =>
              && (exists i: nat :: From(ops, i, j, c, v) && ops[i].fingerprint == ops[j].fingerprint
                                   && ops[j].now < ops[i].now + DAY)
              && (v.tenantId == ops[j].tenant && v.key == ops[j].key <==> Separable(v.tenantId, ops[j].tenant))
            case Rejected(e) =>
              e == Conflict && exists i: nat, v :: From(ops, i, j, c, v) && ops[i].fingerprint != ops[j].fingerprint
                                                   && ops[j].now < ops[i].now + DAY
            case Fresh(v) =>
              v == Record(ops[j].tenant, ops[j].key, ops[j].fingerprint, 102, [], ops[j].now,
                          ops[j].now + 86_400_000_000_000)
  {
    var c := JoinKey(ops[j].tenant, ops[j].key);
    var rs := After(ops[..j]);
    if c in rs {
      var i := RecordsHaveOrigin(ops, j, c);
      assert From(ops, i, j, c, rs[c]);
      if Separable(rs[c].tenantId, ops[j].tenant) {
        JoinInjective(rs[c].tenantId, rs[c].key, ops[j].tenant, ops[j].key);
      }
    }
  }

  /**
   * A Begin is invalid exactly when something is missing; otherwise it is fresh exactly when there is no fresh
   * admission under the joined key less than a day before.
   */
  lemma FreshExactly(ops: seq<Op>, j: nat)
    requires Ordered(ops) && j < |ops| && ops[j].Begin?
    ensures var answer, c := AnswerTo(After(ops[..j]), ops[j]), JoinKey(ops[j].tenant, ops[j].key);
            var sane := ops[j].tenant != "" && ops[j].key != "" && ops[j].fingerprint != "";
            && (answer == Rejected(Invalid) <==> !sane)
            && (sane ==>
                  (answer.Fresh? <==>
                     !exists i: nat :: i < j && FreshAt(ops, i) && JoinKey(ops[i].tenant, ops[i].key) == c
                                       && ops[j].now < ops[i].now + 86_400_000_000_000))
  {
    var answer, c := AnswerTo(After(ops[..j]), ops[j]), JoinKey(ops[j].tenant, ops[j].key);
    if ops[j].tenant != "" && ops[j].key != "" && ops[j].fingerprint != "" {
      AnswersAreExplained(ops, j);
      if answer.Fresh? {
        forall i: nat | i < j && FreshAt(ops, i) && JoinKey(ops[i].tenant, ops[i].key) == c
          ensures ops[j].now >= ops[i].now + DAY
        {
          FreshAnswersAreADayApart(ops, i, j);
        }
      }
    }
  }

  /** The other case does occur: tenant a|b is answered with a record of tenant a. */
  lemma ReplayOfAnotherTenant()
    ensures var first, second := Begin("a", "b|k", "f", 0), Begin("a|b", "k", "f", 1);
            var answer := AnswerTo(After([first]), second);
            answer.Replay? && answer.record.tenantId == "a"
  {
    var first := Begin("a", "b|k", "f", 0);
    assert [first][..0] == [];
    assert After([first]) == Do(map[], first);
    assert JoinKey("a", "b|k") == "a|b|k" == JoinKey("a|b", "k");
  }

  // ---------- cleanup is invisible ----------

  function WithoutCleanup(ops: seq<Op>): seq<Op> {
    if ops == [] then []
    else
      var last := ops[|ops| - 1];
      WithoutCleanup(ops[..|ops| - 1]) + if last.Cleanup? then [] else [last]
  }

  /** The swept store is the unswept one without some records that have expired by time t. */
  ghost predicate Swept(swept: Records, full: Records, t: int) {
    && (forall k :: k in swept ==> k in full && swept[k] == full[k])
    && (forall k :: k in full && k !in swept ==> full[k].expiresAt <= t)
  }

  lemma SweptStep(swept: Records, full: Records, t: int, op: Op)
    requires Swept(swept, full, t) && (op.Complete? || t <= op.now)
    ensures op.Cleanup? ==> Swept(Do(swept, op), full, op.now)
    ensures !op.Cleanup? ==> Swept(Do(swept, op), Do(full, op), t)
    ensures op.Begin? ==> AnswerTo(swept, op) == AnswerTo(full, op)
  {
  }

  lemma {:induction false} SweptAlways(ops: seq<Op>, t: int)
    requires Ordered(ops) && forall i :: 0 <= i < |ops| && !ops[i].Complete? ==> ops[i].now <= t
    ensures Swept(After(ops), After(WithoutCleanup(ops)), t)
    ensures Answers(ops) == Answers(WithoutCleanup(ops))
    decreases |ops|
  {
    if ops != [] {
      var last, init := ops[|ops| - 1], ops[..|ops| - 1];
      var bound := if last.Complete? then t else last.now;
      SweptAlways(init, bound);
      SweptStep(After(init), After(WithoutCleanup(init)), bound, last);
      if last.Cleanup? {
        assert WithoutCleanup(ops) == WithoutCleanup(init);
      } else {
        assert WithoutCleanup(ops) == WithoutCleanup(init) + [last];
        assert WithoutCleanup(ops)[..|WithoutCleanup(ops)| - 1] == WithoutCleanup(init);
      }
    }
  }

  /** Removing every Cleanup from a history changes no answer of any Begin. */
  lemma CleanupIsInvisible(ops: seq<Op>)
    requires Ordered(ops)
    ensures Answers(ops) == Answers(WithoutCleanup(ops))
  {
    SweptAlways(ops, LastTime(ops));
  }

  function LastTime(ops: seq<Op>): (t: int)
    ensures forall i :: 0 <= i < |ops| && !ops[i].Complete? ==> ops[i].now <= t
  {
    if ops == [] then 0
    else
      var last, t := ops[|ops| - 1], LastTime(ops[..|ops| - 1]);
      if !last.Complete? && last.now > t then last.now else t
  }

  // ---------- but Complete can tell ----------

  /** Step i is the latest fresh admission under c among the first k. */
  ghost predicate Latest(ops: seq<Op>, i: nat, k: nat, c: string) {
    && i < k <= |ops| && FreshAt(ops, i) && JoinKey(ops[i].tenant, ops[i].key) == c
    && forall j :: i < j < k && FreshAt(ops, j) ==> JoinKey(ops[j].tenant, ops[j].key) != c
  }

  /** Some cleanup since step i came after the record admitted there had expired. */
  ghost predicate SweptSince(ops: seq<Op>, i: nat, k: nat)
    requires i < k <= |ops| && ops[i].Begin?
  {
    exists m :: i < m < k && ops[m].Cleanup? && ops[i].now + DAY <= ops[m].now
  }

  lemma KeptStep(rs: Records, op: Op, c: string, until: int)
    requires c in rs ==> rs[c].expiresAt == until
    requires op.Begin? && AnswerTo(rs, op).Fresh? ==> JoinKey(op.tenant, op.key) != c
    ensures c in Do(rs, op) <==> c in rs && !(op.Cleanup? && until <= op.now)
    ensures c in Do(rs, op) ==> Do(rs, op)[c].expiresAt == until
  {
  }

  /** A record is in the store exactly when no cleanup has swept it since its admission. */
  lemma {:induction false} KeptUnlessSwept(ops: seq<Op>, i: nat, k: nat, c: string)
    requires Latest(ops, i, k, c)
    ensures c in After(ops[..k]) <==> !SweptSince(ops, i, k)
    ensures c in After(ops[..k]) ==> After(ops[..k])[c].expiresAt == ops[i].now + DAY
    decreases k
  {
    var n := k - 1;
    assert ops[..k][..n] == ops[..n];
    if i < n {
      KeptUnlessSwept(ops, i, n, c);
      KeptStep(After(ops[..n]), ops[n], c, ops[i].now + DAY);
      assert ops[n].Cleanup? && ops[i].now + DAY <= ops[n].now ==> SweptSince(ops, i, k);
    }
  }

  ghost predicate EverAdmitted(ops: seq<Op>, c: string) {
    exists i: nat :: FreshAt(ops, i) && JoinKey(ops[i].tenant, ops[i].key) == c
  }

  lemma FreshBefore(ops: seq<Op>, i: nat)
    requires i < |ops|
    ensures i < |ops| - 1 ==> (FreshAt(ops, i) <==> FreshAt(ops[..|ops| - 1], i))
  {
    assert ops[..|ops| - 1][..i] == ops[..i];
  }

  lemma AdmittedStep(ops: seq<Op>, c: string)
    requires ops != []
    ensures var n := |ops| - 1;
            EverAdmitted(ops, c) <==> EverAdmitted(ops[..n], c)
                                      || (FreshAt(ops, n) && JoinKey(ops[n].tenant, ops[n].key) == c)
  {
    forall i: nat | i < |ops| ensures i < |ops| - 1 ==> (FreshAt(ops, i) <==> FreshAt(ops[..|ops| - 1], i)) {
      FreshBefore(ops, i);
    }
  }

  lemma FullStep(rs: Records, op: Op, c: string)
    requires !op.Cleanup?
    ensures c in Do(rs, op) <==> c in rs || (op.Begin? && AnswerTo(rs, op).Fresh? && JoinKey(op.tenant, op.key) == c)
  {
  }

  /** Without cleanups, whatever was ever admitted is in the store. */
  lemma {:induction false} FullHoldsAllAdmitted(ops: seq<Op>, c: string)
    requires Ordered(ops)
    ensures c in After(WithoutCleanup(ops)) <==> EverAdmitted(ops, c)
    decreases |ops|
  {
    if ops != [] {
      var last, init := ops[|ops| - 1], ops[..|ops| - 1];
      FullHoldsAllAdmitted(init, c);
      AdmittedStep(ops, c);
      var full := WithoutCleanup(init);
      if last.Cleanup? {
        assert WithoutCleanup(ops) == full;
      } else {
        assert WithoutCleanup(ops)[..|full|] == full;
        FullStep(After(full), last, c);
        if last.Begin? {
          SweptAlways(init, last.now);
          SweptStep(After(init), After(full), last.now, last);
        }
      }
    }
  }

  lemma {:induction false} LatestOfAdmitted(ops: seq<Op>, k: nat, c: string) returns (i: nat)
    requires k <= |ops| && exists j: nat :: j < k && FreshAt(ops, j) && JoinKey(ops[j].tenant, ops[j].key) == c
    ensures Latest(ops, i, k, c)
  {
    if FreshAt(ops, k - 1) && JoinKey(ops[k - 1].tenant, ops[k - 1].key) == c {
      i := k - 1;
    } else {
      i := LatestOfAdmitted(ops, k - 1, c);
    }
  }

  /**
   * Cleanup is visible to Complete: after a history and after the same history without its cleanups, Complete answers
   * differently exactly when some cleanup came at least a day after the latest fresh admission under the joined key.
   */
  lemma CompleteSeesSweep(ops: seq<Op>, tenant: string, key: string, status: int, body: seq<int>)
    requires Ordered(ops)
    ensures CompleteSpec(After(ops), tenant, key, status, body).1
              != CompleteSpec(After(WithoutCleanup(ops)), tenant, key, status, body).1
       <==> exists i: nat :: Latest(ops, i, |ops|, JoinKey(tenant, key)) && SweptSince(ops, i, |ops|)
  {
    var c := JoinKey(tenant, key);
    assert ops[..|ops|] == ops;
    FullHoldsAllAdmitted(ops, c);
    if EverAdmitted(ops, c) {
      var i := LatestOfAdmitted(ops, |ops|, c);
      KeptUnlessSwept(ops, i, |ops|, c);
      assert forall j: nat :: Latest(ops, j, |ops|, c) ==> j == i;
    } else if c in After(ops) {
      var _ := RecordsHaveOrigin(ops, |ops|, c);
      assert false;
    }
  }

  /** Such a history: a request completed after its record was swept is not found; without the cleanup it is. */
  lemma SweptBeforeCompletion()
    ensures var ops := [Begin("t", "k", "f", 0), Cleanup(DAY)];
            && Ordered(ops)
            && CompleteSpec(After(ops), "t", "k", 200, []).1 == Some(NotFound)
            && CompleteSpec(After(WithoutCleanup(ops)), "t", "k", 200, []).1 == None
  {
    var first := Begin("t", "k", "f", 0);
    var ops := [first, Cleanup(DAY)];
    assert [first][..0] == [] && ops[..1] == [first];
    assert After([first]) == Do(map[], first);
    assert WithoutCleanup([first]) == [first] && WithoutCleanup(ops) == [first];
  }
}
