/**
 * What each identity call does when it runs alone, in plain terms; and that nobody gets a session without a
 * password.
 */
module IdentityOutcomes {
  import opened Domain
  import opened Identity
  import opened IdentityRaces

  // ---------- alone ----------

  /** The email belongs to a user who is on file as active. */
  predicate Known(c: Accounts, email: string) {
    email in c.byEmail && c.byEmail[email] in c.users && c.users[c.byEmail[email]].active
  }

  /**
   * The whole login: an active user with the right password and a token from the generator is logged in, and the
   * session stands for the time to live; nobody else is, and then nothing changes.
   */
  lemma LoginAnswers(hash: Hash, c: Accounts, email: string, matches: bool, generated: Option<string>, newId: string,
                     ttl: int, now: int)
    ensures var (d, r) := Solo(hash, c, Begin(Request.Login(email, matches, generated, newId, ttl)), now);
            && (r == Failed(NotFound) <==> email !in c.byEmail)
            && (r == Failed(Forbidden) <==> email in c.byEmail && !(Known(c, email) && matches))
            && (r == NoToken <==> Known(c, email) && matches && generated == None)
            && (r.LoggedIn? <==> Known(c, email) && matches && generated != None)
            && (r.LoggedIn? ==>
                  && var u, token := c.users[c.byEmail[email]], generated.value;
                     && r == LoggedIn(token, now + ttl, u)
                     && var s := Session(newId, u.id, hash(token), now + ttl, None, now);
                        d == c.(sessions := c.sessions[hash(token) := s]))
            && (!r.LoggedIn? ==> d == c)
  {
    var p := LoginRead(email, matches, generated, newId, ttl);
    var next := Advance(hash, c, p, now).1;
    if next.Done? {
      FinishesAlone(hash, c, p, now);
    } else {
      assert Solo(hash, c, p, now) == Solo(hash, c, next, now);
      FinishesAlone(hash, c, next, now);
    }
  }

  /** The whole logout: only an empty token is refused; a session under the token's hash is revoked, no other. */
  lemma LogoutAnswers(hash: Hash, c: Accounts, token: string, now: int)
    ensures var (d, r) := Solo(hash, c, Begin(Request.Logout(token)), now);
            && r == (if token == "" then Failed(Invalid) else Fine)
            && d.users == c.users && d.byEmail == c.byEmail && d.sessions.Keys == c.sessions.Keys
            && forall k :: k in c.sessions ==>
                 d.sessions[k] == if token != "" && k == hash(token) then c.sessions[k].(revokedAt := Some(now))
                                  else c.sessions[k]
  {
    if token != "" {
      FinishesAlone(hash, c, LogoutWrite(token), now);
    }
  }

  /** The token's hash has a session that is neither revoked nor expired, of a user who is on file as active. */
  predicate Valid(hash: Hash, c: Accounts, token: string, now: int) {
    && token != "" && hash(token) in c.sessions
    && var s := c.sessions[hash(token)];
       s.revokedAt == None && now < s.expiresAt && s.userId in c.users && c.users[s.userId].active
  }

  /** The whole authentication changes nothing, and grants the token exactly when it is valid. */
  lemma AuthenticationAnswers(hash: Hash, c: Accounts, token: string, now: int)
    ensures var (d, r) := Solo(hash, c, Begin(Request.Authenticate(token)), now);
            && d == c
            && (Valid(hash, c, token, now) ==>
                  r == Granted(c.users[c.sessions[hash(token)].userId], c.sessions[hash(token)]))
            && (!Valid(hash, c, token, now) ==> r == Failed(Forbidden))
  {
    if token != "" {
      var p := AuthSession(token);
      var next := Advance(hash, c, p, now).1;
      if next.Done? {
        FinishesAlone(hash, c, p, now);
      } else {
        assert Solo(hash, c, p, now) == Solo(hash, c, next, now);
        FinishesAlone(hash, c, next, now);
      }
    }
  }

  /**
   * The whole deactivation: a valid token of a coordinator deactivates a user who is on file, and revokes that user's
   * sessions and no others.
   */
  lemma DeactivationAnswers(hash: Hash, c: Accounts, actor: string, target: string, now: int)
    ensures var (d, r) := Solo(hash, c, Begin(Deactivate(actor, target)), now);
            var mayAct := Valid(hash, c, actor, now) && c.users[c.sessions[hash(actor)].userId].role == Coordinator;
            && (r == Failed(Forbidden) <==> !mayAct)
            && (r == Failed(NotFound) <==> mayAct && target !in c.users)
            && (r == Fine <==> mayAct && target in c.users)
            && (r != Fine ==> d == c)
            && (r == Fine ==>
                  && d.byEmail == c.byEmail && d.sessions.Keys == c.sessions.Keys
                  && d.users == c.users[target := c.users[target].(active := false, deactivatedAt := Some(now))]
                  && forall k :: k in c.sessions ==>
                       d.sessions[k] == if c.sessions[k].userId == target then c.sessions[k].(revokedAt := Some(now))
                                        else c.sessions[k])
  {
    ActorIsAuthenticated(hash, c, actor, target, now);
    AuthenticationAnswers(hash, c, actor, now);
    FinishesAlone(hash, c, DeactivateWrite(actor, target), now);
  }

  /** A user created under a free email is found by it, and by id; whoever had another email is found as before. */
  lemma CreationAnswers(c: Accounts, u: User)
    ensures var (d, err) := c.CreateUser(u);
            && err == (if u.email in c.byEmail then Some(Conflict) else None)
            && (err != None ==> d == c)
            && (err == None ==>
                  && d.GetUserByEmail(u.email) == Ok(u) && d.GetUser(u.id) == Ok(u) && d.sessions == c.sessions
                  && (forall id :: id != u.id ==> d.GetUser(id) == c.GetUser(id))
                  && forall e :: e != u.email && (e in c.byEmail ==> c.byEmail[e] != u.id) ==>
                       d.GetUserByEmail(e) == c.GetUserByEmail(e))
  {
  }

  /** Revoking a user's sessions wholesale touches those, and no others. */
  lemma WholesaleAnswers(c: Accounts, user: string, at: int)
    ensures var d := c.RevokeUserSessions(user, at);
            && d.users == c.users && d.byEmail == c.byEmail && d.sessions.Keys == c.sessions.Keys
            && forall k :: k in c.sessions ==>
                 d.sessions[k] == if c.sessions[k].userId == user then c.sessions[k].(revokedAt := Some(at))
                                  else c.sessions[k]
  {
  }

  // ---------- no session without a password ----------

  /** What a call is about, in terms of the request it came from. */
  predicate Carries(req: Request, call: Call) {
    match call
    case LoginRead(email, matches, generated, newId, ttl) => req == Request.Login(email, matches, generated, newId, ttl)
    case LoginWrite(email, _, token, newId, ttl) => req == Request.Login(email, true, Some(token), newId, ttl)
    case LogoutWrite(token) => req == Request.Logout(token)
    case AuthSession(token) => req == Request.Authenticate(token)
    case AuthUser(_) => req.Authenticate?
    case ActorSession(token, target) => req == Deactivate(token, target)
    case ActorUser(token, _, target) => req == Deactivate(token, target)
    case DeactivateWrite(token, target) => req == Deactivate(token, target)
    case Done(reply) =>
      && (reply.LoggedIn? ==> req.Login? && req.matches && req.generated == Some(reply.token))
      && (reply.Granted? ==> req.Authenticate?)
  }

  lemma AdvanceCarries(hash: Hash, c: Accounts, req: Request, call: Call, now: int)
    requires Carries(req, call)
    ensures Carries(req, Advance(hash, c, call, now).1)
  {
  }

  lemma {:induction false} StartOf(hash: Hash, tr: seq<System>, acts: seq<Action>, n: nat, k: nat) returns (b: nat)
    requires IsRun(hash, tr, acts) && tr[0].calls == map[] && k < |tr| && n in tr[k].calls
    ensures b < k && acts[b].Start? && acts[b].call == n && Carries(acts[b].req, tr[k].calls[n])
  {
    var i := k - 1;
    CallStep(hash, tr[i], acts[i], n);
    if n !in tr[i].calls {
      b := i;
    } else {
      b := StartOf(hash, tr, acts, n, i);
      if acts[i].Proceed? {
        AdvanceCarries(hash, tr[i].accounts, acts[b].req, tr[i].calls[n], acts[i].now);
      }
    }
  }

  lemma BeforeLogin(hash: Hash, c: Accounts, call: Call, now: int)
    requires !call.Done?
    ensures var w := Advance(hash, c, call, now).1;
            && (w.LoginWrite? ==> call.LoginRead? && Known(c, w.email) && c.users[c.byEmail[w.email]] == w.user)
            && (w.Done? && w.reply.LoggedIn? ==> call.LoginWrite? && call.token == w.reply.token)
  {
  }

  lemma BeginLogsNobodyIn(req: Request)
    ensures !Begin(req).LoginWrite? && !(Begin(req).Done? && Begin(req).reply.LoggedIn?)
  {
  }

  /** Step b starts a login with the right password, and at step i its email pointed to this user, active. */
  ghost predicate Proven(tr: seq<System>, acts: seq<Action>, n: nat, b: nat, i: nat, token: string, user: User)
    requires b < |acts| && i < |acts| < |tr|
  {
    && acts[b].Start? && acts[b].call == n && acts[b].req.Login? && acts[b].req.matches
    && acts[b].req.generated == Some(token)
    && var c, email := tr[i].accounts, acts[b].req.email; Known(c, email) && c.users[c.byEmail[email]] == user
  }

  /** In every run, whoever is about to be given a session has shown the password of an active account. */
  lemma SessionsAreProven(hash: Hash, tr: seq<System>, acts: seq<Action>, n: nat, k: nat) returns (b: nat, i: nat)
    requires IsRun(hash, tr, acts) && tr[0].calls == map[] && k < |tr| && n in tr[k].calls && tr[k].calls[n].LoginWrite?
    ensures b < k && i < k && Proven(tr, acts, n, b, i, tr[k].calls[n].token, tr[k].calls[n].user)
  {
    b := StartOf(hash, tr, acts, n, k);
    i := LastStep(hash, tr, acts, n, k);
    if acts[i].Start? { BeginLogsNobodyIn(acts[i].req); }
    BeforeLogin(hash, tr[i].accounts, tr[i].calls[n], acts[i].now);
  }

  /** So has whoever is answered with a token. */
  lemma LoginsAreProven(hash: Hash, tr: seq<System>, acts: seq<Action>, n: nat, k: nat) returns (b: nat, i: nat)
    requires IsRun(hash, tr, acts) && tr[0].calls == map[] && k < |tr|
    requires n in tr[k].calls && tr[k].calls[n].Done? && tr[k].calls[n].reply.LoggedIn?
    ensures b < k && i < k && Proven(tr, acts, n, b, i, tr[k].calls[n].reply.token, tr[k].calls[n].reply.user)
  {
    var j := LastStep(hash, tr, acts, n, k);
    if acts[j].Start? { BeginLogsNobodyIn(acts[j].req); }
    BeforeLogin(hash, tr[j].accounts, tr[j].calls[n], acts[j].now);
    b, i := SessionsAreProven(hash, tr, acts, n, j);
  }

  /** And behind every session on file stands such a login. */
  lemma StoredSessionsAreProven(hash: Hash, tr: seq<System>, acts: seq<Action>, key: string, k: nat)
    returns (n: nat, b: nat, i: nat, token: string, user: User)
    requires IsRun(hash, tr, acts) && tr[0].calls == map[] && tr[0].accounts.sessions == map[]
    requires k < |tr| && key in tr[k].accounts.sessions
    ensures b < k && i < k && Proven(tr, acts, n, b, i, token, user)
    ensures hash(token) == key && tr[k].accounts.sessions[key].userId == user.id
  {
    var s := tr[k].accounts.sessions[key];
    SessionsComeFromLogins(hash, tr, acts, key, k);
    var m: nat :| m < k && Issues(hash, tr[m], acts[m], key, s);
    n := acts[m].call;
    token, user := tr[m].calls[n].token, tr[m].calls[n].user;
    b, i := SessionsAreProven(hash, tr, acts, n, m);
  }

  // ---------- no deactivation without a coordinator ----------

  lemma BeforeDeactivation(hash: Hash, c: Accounts, call: Call, now: int)
    requires !call.Done?
    ensures var w := Advance(hash, c, call, now).1;
            && (w.DeactivateWrite? ==>
                  && call.ActorUser? && call.token == w.token && call.target == w.target
                  && call.session.userId in c.users && c.users[call.session.userId].active
                  && c.users[call.session.userId].role == Coordinator)
            && (w.ActorUser? ==>
                  && call == ActorSession(w.token, w.target) && hash(w.token) in c.sessions
                  && c.sessions[hash(w.token)] == w.session && w.session.revokedAt == None && now < w.session.expiresAt)
  {
  }

  lemma BeginDeactivatesNobody(req: Request)
    ensures !Begin(req).DeactivateWrite? && !Begin(req).ActorUser?
  {
  }

  /**
   * In every run, whoever is about to be deactivated is the target of a call whose actor's session was on file and
   * usable at a step i, and was an active coordinator's at a later step j.
   */
  lemma DeactivationsAreEntitled(hash: Hash, tr: seq<System>, acts: seq<Action>, n: nat, k: nat)
    returns (i: nat, j: nat, s: Session)
    requires IsRun(hash, tr, acts) && tr[0].calls == map[] && k < |tr|
    requires n in tr[k].calls && tr[k].calls[n].DeactivateWrite?
    ensures i < j < k && acts[i].Proceed?
    ensures var key := hash(tr[k].calls[n].token);
            && key in tr[i].accounts.sessions && tr[i].accounts.sessions[key] == s
            && s.revokedAt == None && acts[i].now < s.expiresAt
            && s.userId in tr[j].accounts.users && tr[j].accounts.users[s.userId].active
            && tr[j].accounts.users[s.userId].role == Coordinator
  {
    j := LastStep(hash, tr, acts, n, k);
    if acts[j].Start? { BeginDeactivatesNobody(acts[j].req); }
    BeforeDeactivation(hash, tr[j].accounts, tr[j].calls[n], acts[j].now);
    s := tr[j].calls[n].session;
    i := LastStep(hash, tr, acts, n, j);
    if acts[i].Start? { BeginDeactivatesNobody(acts[i].req); }
    BeforeDeactivation(hash, tr[i].accounts, tr[i].calls[n], acts[i].now);
  }
}
