/** What the identity calls, which check no version, are worth when others run between their reads and their write. */
module IdentityRaces {
  import opened Domain
  import opened Identity

  // ---------- logins ----------

  ghost predicate LoginsActive(sys: System) {
    forall n :: n in sys.calls && sys.calls[n].LoginWrite? ==> sys.calls[n].user.active
  }

  lemma StepKeepsLogins(hash: Hash, sys: System, a: Action)
    requires LoginsActive(sys)
    ensures LoginsActive(Step(hash, sys, a))
  {
  }

  lemma {:induction false} LoginsAlwaysActive(hash: Hash, tr: seq<System>, acts: seq<Action>, k: nat)
    requires IsRun(hash, tr, acts) && tr[0].calls == map[] && k < |tr|
    ensures LoginsActive(tr[k])
  {
    if k > 0 {
      LoginsAlwaysActive(hash, tr, acts, k - 1);
      StepKeepsLogins(hash, tr[k - 1], acts[k - 1]);
    }
  }

  lemma LoginAlone(hash: Hash, c: Accounts, w: Call, now: int)
    requires w.LoginWrite? && w.user.active
    ensures Solo(hash, c, LoginRead(w.email, true, Some(w.token), w.newId, w.ttl), now) == Solo(hash, c, w, now)
       <==> c.GetUserByEmail(w.email) == Ok(w.user)
  {
    var r := LoginRead(w.email, true, Some(w.token), w.newId, w.ttl);
    FinishesAlone(hash, c, w, now);
    var next := Advance(hash, c, r, now).1;
    if next.Done? {
      FinishesAlone(hash, c, r, now);
    } else {
      assert Solo(hash, c, r, now) == Solo(hash, c, next, now);
      FinishesAlone(hash, c, next, now);
    }
  }

  /**
   * A login has the effect and reply of the whole call executed at its write exactly when the account under the email
   * is still the one it read.
   */
  lemma LoginIsAtomicExactly(hash: Hash, tr: seq<System>, acts: seq<Action>, k: nat)
    requires IsRun(hash, tr, acts) && tr[0].calls == map[] && k < |acts|
    requires acts[k].Proceed? && acts[k].call in tr[k].calls && tr[k].calls[acts[k].call].LoginWrite?
    ensures var w, reply := tr[k].calls[acts[k].call], tr[k + 1].calls[acts[k].call].reply;
            var whole := LoginRead(w.email, true, Some(w.token), w.newId, w.ttl);
            Solo(hash, tr[k].accounts, whole, acts[k].now) == (tr[k + 1].accounts, reply) <==>
              tr[k].accounts.GetUserByEmail(w.email) == Ok(w.user)
  {
    LoginsAlwaysActive(hash, tr, acts, k);
    var w := tr[k].calls[acts[k].call];
    assert tr[k + 1] == Step(hash, tr[k], acts[k]);
    LoginAlone(hash, tr[k].accounts, w, acts[k].now);
    FinishesAlone(hash, tr[k].accounts, w, acts[k].now);
  }

  // ---------- deactivations ----------

  /** The token would authenticate a coordinator. */
  predicate Empowers(hash: Hash, c: Accounts, token: string, now: int) {
    && token != "" && Usable(c.GetSession(hash(token)), now)
    && var u := c.GetUser(c.GetSession(hash(token)).value.userId);
       u.Ok? && u.value.active && u.value.role == Coordinator
  }

  lemma AuthenticatedAlone(hash: Hash, c: Accounts, token: string, now: int)
    ensures var who := Solo(hash, c, Begin(Request.Authenticate(token)), now).1;
            who.Granted? && who.user.role == Coordinator <==> Empowers(hash, c, token, now)
  {
    if token != "" && Usable(c.GetSession(hash(token)), now) {
      var s := c.GetSession(hash(token)).value;
      assert Solo(hash, c, AuthSession(token), now) == Solo(hash, c, AuthUser(s), now);
      FinishesAlone(hash, c, AuthUser(s), now);
    } else if token != "" {
      FinishesAlone(hash, c, AuthSession(token), now);
    }
  }

  /**
   * A deactivation has the effect and reply of the whole call executed at its write exactly when the actor's token
   * would authenticate a coordinator at that moment.
   */
  lemma DeactivationIsAtomicExactly(hash: Hash, tr: seq<System>, acts: seq<Action>, k: nat)
    requires IsRun(hash, tr, acts) && k < |acts|
    requires acts[k].Proceed? && acts[k].call in tr[k].calls && tr[k].calls[acts[k].call].DeactivateWrite?
    ensures var w, reply := tr[k].calls[acts[k].call], tr[k + 1].calls[acts[k].call].reply;
            var whole := Begin(Deactivate(w.token, w.target));
            Solo(hash, tr[k].accounts, whole, acts[k].now) == (tr[k + 1].accounts, reply) <==>
              Empowers(hash, tr[k].accounts, w.token, acts[k].now)
  {
    var c, now, w := tr[k].accounts, acts[k].now, tr[k].calls[acts[k].call];
    assert tr[k + 1] == Step(hash, tr[k], acts[k]);
    ActorIsAuthenticated(hash, c, w.token, w.target, now);
    AuthenticatedAlone(hash, c, w.token, now);
    FinishesAlone(hash, c, w, now);
  }

  // ---------- grants ----------

  /** The step that brings call n to where it stands after it. */
  ghost predicate MovesTo(hash: Hash, sys: System, a: Action, n: nat, call: Call) {
    || (a.Start? && a.call == n && n !in sys.calls && call == Begin(a.req))
    || (a.Proceed? && a.call == n && n in sys.calls && !sys.calls[n].Done?
        && call == Advance(hash, sys.accounts, sys.calls[n], a.now).1)
  }

  lemma CallStep(hash: Hash, sys: System, a: Action, n: nat)
    requires n in Step(hash, sys, a).calls
    ensures var call := Step(hash, sys, a).calls[n];
            MovesTo(hash, sys, a, n, call) || (n in sys.calls && call == sys.calls[n])
  {
  }

  lemma {:induction false} LastStep(hash: Hash, tr: seq<System>, acts: seq<Action>, n: nat, k: nat) returns (i: nat)
    requires IsRun(hash, tr, acts) && tr[0].calls == map[] && k < |tr| && n in tr[k].calls
    ensures i < k && MovesTo(hash, tr[i], acts[i], n, tr[k].calls[n])
  {
    i := k - 1;
    CallStep(hash, tr[i], acts[i], n);
    if !MovesTo(hash, tr[i], acts[i], n, tr[k].calls[n]) {
      i := LastStep(hash, tr, acts, n, k - 1);
    }
  }

  lemma BeforeGrant(hash: Hash, c: Accounts, call: Call, now: int)
    requires !call.Done?
    ensures var w := Advance(hash, c, call, now).1;
            && (w.Done? && w.reply.Granted? ==>
                  && call == AuthUser(w.reply.session) && w.reply.user.active
                  && c.GetUser(w.reply.session.userId) == Ok(w.reply.user))
            && (w.AuthUser? ==>
                  && call.AuthSession? && c.GetSession(hash(call.token)) == Ok(w.session)
                  && IsSessionActive(w.session, now) == None)
  {
  }

  lemma BeginGrantsNothing(req: Request)
    ensures !Begin(req).AuthUser? && !(Begin(req).Done? && Begin(req).reply.Granted?)
  {
  }

  /** At step i, call n looked the token up and found this session, neither revoked nor expired. */
  ghost predicate LooksUp(hash: Hash, tr: seq<System>, acts: seq<Action>, n: nat, i: nat, token: string, s: Session)
    requires i < |acts| < |tr|
  {
    && acts[i].Proceed? && acts[i].call == n && n in tr[i].calls && tr[i].calls[n] == AuthSession(token)
    && tr[i].accounts.GetSession(hash(token)) == Ok(s) && s.revokedAt == None && acts[i].now < s.expiresAt
  }

  /**
   * The second step of an authentication: its session was on file and usable at an earlier step, and it is granted
   * exactly when its user is on file as active now, whatever has become of the session.
   */
  lemma PastItsLookup(hash: Hash, tr: seq<System>, acts: seq<Action>, n: nat, k: nat) returns (i: nat, token: string)
    requires IsRun(hash, tr, acts) && tr[0].calls == map[] && k < |acts|
    requires acts[k].Proceed? && acts[k].call == n && n in tr[k].calls && tr[k].calls[n].AuthUser?
    ensures i < k && LooksUp(hash, tr, acts, n, i, token, tr[k].calls[n].session)
    ensures n in tr[k + 1].calls && tr[k + 1].calls[n].Done?
    ensures var s, u := tr[k].calls[n].session, tr[k].accounts.GetUser(tr[k].calls[n].session.userId);
            && (tr[k + 1].calls[n].reply.Granted? <==> u.Ok? && u.value.active)
            && (u.Ok? && u.value.active ==> tr[k + 1].calls[n].reply == Granted(u.value, s))
  {
    i := LastStep(hash, tr, acts, n, k);
    if acts[i].Start? { BeginGrantsNothing(acts[i].req); }
    BeforeGrant(hash, tr[i].accounts, tr[i].calls[n], acts[i].now);
    token := tr[i].calls[n].token;
    assert tr[k + 1] == Step(hash, tr[k], acts[k]);
  }

  /**
   * Every grant is explained: at some step i the session was on file under the token's hash, neither revoked nor
   * expired, and at some later step j its user was on file as active, exactly as the reply has them. So what a
   * revocation cannot stop is a lookup before it, and nothing else.
   */
  lemma GrantsAreExplained(hash: Hash, tr: seq<System>, acts: seq<Action>, n: nat, k: nat)
    returns (i: nat, j: nat, token: string)
    requires IsRun(hash, tr, acts) && tr[0].calls == map[] && k < |tr|
    requires n in tr[k].calls && tr[k].calls[n].Done? && tr[k].calls[n].reply.Granted?
    ensures i < j < k
    ensures var r := tr[k].calls[n].reply;
            && LooksUp(hash, tr, acts, n, i, token, r.session)
            && tr[j].accounts.GetUser(r.session.userId) == Ok(r.user) && r.user.active
  {
    j := LastStep(hash, tr, acts, n, k);
    if acts[j].Start? { BeginGrantsNothing(acts[j].req); }
    BeforeGrant(hash, tr[j].accounts, tr[j].calls[n], acts[j].now);
    i, token := PastItsLookup(hash, tr, acts, n, j);
  }

  // ---------- the races ----------

  const ANN := User("a", "t", "ann", [], Coordinator, true, 0, None)
  const BOB := User("b", "t", "bob", [], Coordinator, true, 0, None)

  ghost function SessionOf(hash: Hash, user: string, token: string): Session {
    Session("", user, hash(token), 10, None, 0)
  }

  /** Ann has token p and Bob has token q. */
  ghost function Office(hash: Hash): Accounts {
    Accounts(map["a" := ANN, "b" := BOB], map["ann" := "a", "bob" := "b"],
             map[hash("p") := SessionOf(hash, "a", "p"), hash("q") := SessionOf(hash, "b", "q")])
  }

  lemma RunsJoin(hash: Hash, tr1: seq<System>, acts1: seq<Action>, tr2: seq<System>, acts2: seq<Action>)
    requires IsRun(hash, tr1, acts1) && IsRun(hash, tr2, acts2) && tr1[|acts1|] == tr2[0]
    ensures IsRun(hash, tr1 + tr2[1..], acts1 + acts2)
  {
    var tr, acts, n := tr1 + tr2[1..], acts1 + acts2, |acts1|;
    forall i | 0 <= i < |acts| ensures tr[i + 1] == Step(hash, tr[i], acts[i]) {
      if i < n {
        assert tr[i] == tr1[i] && tr[i + 1] == tr1[i + 1] && acts[i] == acts1[i];
      } else {
        assert tr[i] == tr2[i - n] && tr[i + 1] == tr2[i - n + 1] && acts[i] == acts2[i - n];
      }
    }
  }

  /** An authentication past its lookup is granted, though the session has been revoked by a logout meanwhile. */
  lemma RevokedTokenIsGranted(hash: Hash) returns (tr: seq<System>, acts: seq<Action>)
    requires hash("p") != hash("q")
    ensures IsRun(hash, tr, acts) && |acts| == 5 && tr[0] == System(Office(hash), map[])
    ensures Revokes(hash, tr[3], acts[3], hash("p")) && RevokedKey(tr[4], hash("p"))
    ensures acts[4] == Proceed(0, 0) && !Admitted(tr[4], 0, "a") && Admitted(tr[5], 0, "a")
  {
    var c, s := Office(hash), SessionOf(hash, "a", "p");
    var d := c.RevokeSession(hash("p"), 0).0;
    acts := [Start(0, Request.Authenticate("p")), Proceed(0, 0),
             Start(1, Request.Logout("p")), Proceed(1, 0), Proceed(0, 0)];
    tr := [System(c, map[]),
           System(c, map[0 := AuthSession("p")]),
           System(c, map[0 := AuthUser(s)]),
           System(c, map[0 := AuthUser(s), 1 := LogoutWrite("p")]),
           System(d, map[0 := AuthUser(s), 1 := Done(Fine)]),
           System(d, map[0 := Done(Granted(ANN, s)), 1 := Done(Fine)])];
    forall i | 0 <= i < 5 ensures tr[i + 1] == Step(hash, tr[i], acts[i]) {
      if i == 0 {
      } else if i == 1 {
      } else if i == 2 {
      } else if i == 3 {
      } else {
      }
    }
  }

  /** A deactivated id becomes active again when a user is created under it with another email. */
  lemma CreationRevives(hash: Hash)
    ensures var c := Office(hash).DeactivateUser("a", 0).0;
            var sys, a := System(c, map[]), AddUser(ANN.(email := "annie"));
            Barred(sys, "a") && Revives(sys, a, "a") && !Barred(Step(hash, sys, a), "a")
  {
  }

  /** A deactivation of one coordinator by another that has been authorized. */
  lemma DeactivationChecked(hash: Hash, sys: System, n: nat, token: string, target: string)
    returns (tr: seq<System>, acts: seq<Action>)
    requires hash("p") != hash("q") && sys.accounts == Office(hash) && n !in sys.calls && token in {"p", "q"}
    ensures IsRun(hash, tr, acts) && |acts| == 3 && tr[0] == sys
    ensures tr[3] == sys.(calls := sys.calls[n := DeactivateWrite(token, target)])
  {
    var s := SessionOf(hash, if token == "p" then "a" else "b", token);
    acts := [Start(n, Deactivate(token, target)), Proceed(n, 0), Proceed(n, 0)];
    tr := [sys,
           sys.(calls := sys.calls[n := ActorSession(token, target)]),
           sys.(calls := sys.calls[n := ActorUser(token, s, target)]),
           sys.(calls := sys.calls[n := DeactivateWrite(token, target)])];
    forall i | 0 <= i < 3 ensures tr[i + 1] == Step(hash, tr[i], acts[i]) {
      if i == 0 {
      } else if i == 1 {
      } else {
      }
    }
  }

  lemma BothDeactivate(hash: Hash, sys: System)
    requires sys == System(Office(hash), map[0 := DeactivateWrite("p", "b"), 1 := DeactivateWrite("q", "a")])
    ensures var t := Step(hash, sys, Proceed(0, 0)); var u := Step(hash, t, Proceed(1, 0));
            Barred(u, "a") && Barred(u, "b") && u.calls == map[0 := Done(Fine), 1 := Done(Fine)]
  {
  }

  /** Two coordinators deactivate each other, and both are answered that it is done. */
  lemma MutualDeactivation(hash: Hash) returns (tr: seq<System>, acts: seq<Action>)
    requires hash("p") != hash("q")
    ensures IsRun(hash, tr, acts) && |acts| == 8 && tr[0] == System(Office(hash), map[])
    ensures Barred(tr[8], "a") && Barred(tr[8], "b") && tr[8].calls == map[0 := Done(Fine), 1 := Done(Fine)]
  {
    var tr1, acts1 := DeactivationChecked(hash, System(Office(hash), map[]), 0, "p", "b");
    var tr2, acts2 := DeactivationChecked(hash, tr1[3], 1, "q", "a");
    RunsJoin(hash, tr1, acts1, tr2, acts2);
    var sys := tr2[3];
    BothDeactivate(hash, sys);
    var t := Step(hash, sys, Proceed(0, 0));
    var tr3, acts3 := [sys, t, Step(hash, t, Proceed(1, 0))], [Proceed(0, 0), Proceed(1, 0)];
    RunsJoin(hash, tr1 + tr2[1..], acts1 + acts2, tr3, acts3);
    tr, acts := tr1 + tr2[1..] + tr3[1..], acts1 + acts2 + acts3;
  }

  const BOB_LOGIN := LoginWrite("bob", BOB, "r", "", 10)

  /** A login that has read its account. */
  lemma LoginChecked(hash: Hash) returns (tr: seq<System>, acts: seq<Action>)
    ensures IsRun(hash, tr, acts) && |acts| == 2 && tr[0] == System(Office(hash), map[])
    ensures tr[2] == System(Office(hash), map[0 := BOB_LOGIN])
  {
    acts := [Start(0, Request.Login("bob", true, Some("r"), "", 10)), Proceed(0, 0)];
    tr := [System(Office(hash), map[]),
           System(Office(hash), map[0 := LoginRead("bob", true, Some("r"), "", 10)]),
           System(Office(hash), map[0 := BOB_LOGIN])];
    forall i | 0 <= i < 2 ensures tr[i + 1] == Step(hash, tr[i], acts[i]) {
      if i == 0 {
      } else {
      }
    }
  }

  lemma DeactivateThenLogin(hash: Hash, sys: System)
    requires sys == System(Office(hash), map[0 := BOB_LOGIN, 1 := DeactivateWrite("p", "b")])
    ensures var t := Step(hash, sys, Proceed(1, 0)); var u := Step(hash, t, Proceed(0, 0));
            && Barred(t, "b") && 0 in u.calls && u.calls[0] == Done(LoggedIn("r", 10, BOB))
            && Solo(hash, t.accounts, LoginRead("bob", true, Some("r"), "", 10), 0) == (t.accounts, Failed(Forbidden))
  {
    var t := Step(hash, sys, Proceed(1, 0));
    FinishesAlone(hash, t.accounts, LoginRead("bob", true, Some("r"), "", 10), 0);
  }

  /** A login is answered with a session after its user has been deactivated, where alone it would be refused. */
  lemma LoginAfterDeactivation(hash: Hash) returns (tr: seq<System>, acts: seq<Action>)
    requires hash("p") != hash("q")
    ensures IsRun(hash, tr, acts) && |acts| == 7 && tr[0] == System(Office(hash), map[])
    ensures Barred(tr[6], "b") && 0 in tr[7].calls && tr[7].calls[0] == Done(LoggedIn("r", 10, BOB))
    ensures Solo(hash, tr[6].accounts, LoginRead("bob", true, Some("r"), "", 10), 0)
              == (tr[6].accounts, Failed(Forbidden))
  {
    var tr1, acts1 := LoginChecked(hash);
    var tr2, acts2 := DeactivationChecked(hash, tr1[2], 1, "p", "b");
    RunsJoin(hash, tr1, acts1, tr2, acts2);
    var sys := tr2[3];
    DeactivateThenLogin(hash, sys);
    var t := Step(hash, sys, Proceed(1, 0));
    var tr3, acts3 := [sys, t, Step(hash, t, Proceed(0, 0))], [Proceed(1, 0), Proceed(0, 0)];
    RunsJoin(hash, tr1 + tr2[1..], acts1 + acts2, tr3, acts3);
    tr, acts := tr1 + tr2[1..] + tr3[1..], acts1 + acts2 + acts3;
  }
}
