/** Users and sessions: the identity part of the store and the service calls over it. */
module Identity {
  import opened Domain
  import Strings

  /** A token is only ever used through its hash, any function from strings to strings. */
  type Hash = string -> string

  datatype Accounts = Accounts(users: map<string, User>, byEmail: map<string, string>, sessions: map<string, Session>)
  {
    function GetUserByEmail(email: string): Result<User> {
      if email !in byEmail then Err(NotFound)
      else if byEmail[email] in users then Ok(users[byEmail[email]])
      else Ok(ZeroUser())
    }

    function GetUser(id: string): Result<User> {
      if id in users then Ok(users[id]) else Err(NotFound)
    }

    function CreateUser(u: User): (Accounts, Option<Error>) {
      if u.email in byEmail then (this, Some(Conflict))
      else (this.(users := users[u.id := u], byEmail := byEmail[u.email := u.id]), None)
    }

    function RevokeAll(user: string, at: int): map<string, Session> {
      map k | k in sessions :: if sessions[k].userId == user then sessions[k].(revokedAt := Some(at)) else sessions[k]
    }

    function DeactivateUser(id: string, at: int): (Accounts, Option<Error>) {
      if id !in users then (this, Some(NotFound))
      else
        var u := users[id].(active := false, deactivatedAt := Some(at));
        (this.(users := users[id := u], sessions := RevokeAll(id, at)), None)
    }

    function CreateSession(v: Session): Accounts {
      this.(sessions := sessions[v.tokenHash := v])
    }

    function GetSession(key: string): Result<Session> {
      if key in sessions then Ok(sessions[key]) else Err(NotFound)
    }

    function RevokeSession(key: string, at: int): (Accounts, Option<Error>) {
      if key !in sessions then (this, Some(NotFound))
      else (this.(sessions := sessions[key := sessions[key].(revokedAt := Some(at))]), None)
    }

    function RevokeUserSessions(user: string, at: int): Accounts {
      this.(sessions := RevokeAll(user, at))
    }
  }

  function ZeroUser(): User {
    User("", "", "", [], OtherRole(""), false, 0, None)
  }

  // ---------- the store ----------

  class Store {
    var users: map<string, User>
    var byEmail: map<string, string>
    var sessions: map<string, Session>

    ghost function Contents(): Accounts
      reads this
    {
      Accounts(users, byEmail, sessions)
    }

    constructor ()
      ensures Contents() == Accounts(map[], map[], map[])
    {
      users, byEmail, sessions := map[], map[], map[];
    }

    method GetUserByEmail(email: string) returns (r: Result<User>)
      ensures r == Contents().GetUserByEmail(email)
    {
      if email !in byEmail { return Err(NotFound); }
      if byEmail[email] !in users { return Ok(ZeroUser()); }
      return Ok(users[byEmail[email]]);
    }

    method GetUser(id: string) returns (r: Result<User>)
      ensures r == Contents().GetUser(id)
    {
      if id !in users { return Err(NotFound); }
      return Ok(users[id]);
    }

    method CreateUser(u: User) returns (err: Option<Error>)
      modifies this
      ensures (Contents(), err) == old(Contents()).CreateUser(u)
    {
      if u.email in byEmail { return Some(Conflict); }
      users := users[u.id := u];
      byEmail := byEmail[u.email := u.id];
      return None;
    }

    /** The loop shared by deactivation and bulk revocation; the order in which the map is ranged over is arbitrary. */
    method RevokeUserSessions(user: string, at: int)
      modifies this`sessions
      ensures Contents() == old(Contents()).RevokeUserSessions(user, at)
    {
      var todo := sessions.Keys;
      while todo != {}
        invariant todo <= sessions.Keys == old(sessions).Keys
        invariant forall k :: k in sessions ==>
                    sessions[k] == (if k in todo then old(sessions)[k] else old(Contents()).RevokeAll(user, at)[k])
        decreases |todo|
      {
        var key :| key in todo;
        var v := sessions[key];
        if v.userId == user {
          v := v.(revokedAt := Some(at));
          sessions := sessions[key := v];
        }
        todo := todo - {key};
      }
      assert sessions == old(Contents()).RevokeAll(user, at);
    }

    method DeactivateUser(id: string, at: int) returns (err: Option<Error>)
      modifies this
      ensures (Contents(), err) == old(Contents()).DeactivateUser(id, at)
    {
      if id !in users { return Some(NotFound); }
      var u := users[id];
      u := u.(active := false);
      u := u.(deactivatedAt := Some(at));
      users := users[id := u];
      RevokeUserSessions(id, at);
      return None;
    }

    method CreateSession(v: Session)
      modifies this
      ensures Contents() == old(Contents()).CreateSession(v)
    {
      sessions := sessions[v.tokenHash := v];
    }

    method GetSession(key: string) returns (r: Result<Session>)
      ensures r == Contents().GetSession(key)
    {
      if key !in sessions { return Err(NotFound); }
      return Ok(sessions[key]);
    }

    method RevokeSession(key: string, at: int) returns (err: Option<Error>)
      modifies this
      ensures (Contents(), err) == old(Contents()).RevokeSession(key, at)
    {
      if key !in sessions { return Some(NotFound); }
      var v := sessions[key];
      v := v.(revokedAt := Some(at));
      sessions := sessions[key := v];
      return None;
    }
  }

  // ---------- the service calls as programs ----------

  /**
   * Password comparison, the token generator, which may fail, and the session id enter as matches, generated and
   * newId.
   */
  datatype Request =
    | Login(email: string, matches: bool, generated: Option<string>, newId: string, ttl: int)
    | Logout(token: string)
    | Authenticate(token: string)
    | Deactivate(actor: string, target: string)

  datatype Reply =
    | Failed(error: Error)
    | NoToken
    | LoggedIn(token: string, expiresAt: int, user: User)
    | Granted(user: User, session: Session)
    | Fine

  datatype Call =
    | LoginRead(email: string, matches: bool, generated: Option<string>, newId: string, ttl: int)
    | LoginWrite(email: string, user: User, token: string, newId: string, ttl: int)
    | LogoutWrite(token: string)
    | AuthSession(token: string)
    | AuthUser(session: Session)
    | ActorSession(token: string, target: string)
    | ActorUser(token: string, session: Session, target: string)
    | DeactivateWrite(token: string, target: string)
    | Done(reply: Reply)

  function Begin(req: Request): Call {
    match req
    case Login(email, matches, token, newId, ttl) => LoginRead(email, matches, token, newId, ttl)
    case Logout(token) => if token == "" then Done(Failed(Invalid)) else LogoutWrite(token)
    case Authenticate(token) => if token == "" then Done(Failed(Forbidden)) else AuthSession(token)
    case Deactivate(actor, target) => if actor == "" then Done(Failed(Forbidden)) else ActorSession(actor, target)
  }

  predicate Usable(s: Result<Session>, now: int) {
    s.Ok? && IsSessionActive(s.value, now) == None
  }

  function Advance(hash: Hash, c: Accounts, call: Call, now: int): (Accounts, Call) {
    match call
    case LoginRead(email, matches, token, newId, ttl) =>
      (c, match c.GetUserByEmail(email)
          case Err(e) => Done(Failed(e))
          case Ok(u) =>
            if !u.active || !matches then Done(Failed(Forbidden))
            else if token == None then Done(NoToken)
            else LoginWrite(email, u, token.value, newId, ttl))
    case LoginWrite(_, u, token, newId, ttl) =>
      (c.CreateSession(Session(newId, u.id, hash(token), now + ttl, None, now)), Done(LoggedIn(token, now + ttl, u)))
    case LogoutWrite(token) => (c.RevokeSession(hash(token), now).0, Done(Fine))
    case AuthSession(token) =>
      var s := c.GetSession(hash(token));
      (c, if Usable(s, now) then AuthUser(s.value) else Done(Failed(Forbidden)))
    case AuthUser(s) =>
      var u := c.GetUser(s.userId);
      (c, Done(if u.Ok? && u.value.active then Granted(u.value, s) else Failed(Forbidden)))
    case ActorSession(token, target) =>
      var s := c.GetSession(hash(token));
      (c, if Usable(s, now) then ActorUser(token, s.value, target) else Done(Failed(Forbidden)))
    case ActorUser(token, s, target) =>
      var u := c.GetUser(s.userId);
      (c, if u.Ok? && u.value.active && u.value.role == Coordinator then DeactivateWrite(token, target)
          else Done(Failed(Forbidden)))
    case DeactivateWrite(_, target) =>
      var (d, err) := c.DeactivateUser(target, now);
      (d, Done(if err == None then Fine else Failed(err.value)))
    case Done(_) => (c, call)
  }

  function Remaining(call: Call): nat {
    match call
    case ActorSession(_, _) => 3
    case ActorUser(_, _, _) => 2
    case LoginRead(_, _, _, _, _) => 2
    case AuthSession(_) => 2
    case Done(_) => 0
    case _ => 1
  }

  /** A call executed with nothing in between. */
  function Solo(hash: Hash, c: Accounts, call: Call, now: int): (Accounts, Reply)
    decreases Remaining(call)
  {
    if call.Done? then (c, call.reply)
    else
      var (d, next) := Advance(hash, c, call, now);
      Solo(hash, d, next, now)
  }

  lemma FinishesAlone(hash: Hash, c: Accounts, call: Call, now: int)
    requires !call.Done? && Advance(hash, c, call, now).1.Done?
    ensures Solo(hash, c, call, now) == (Advance(hash, c, call, now).0, Advance(hash, c, call, now).1.reply)
  {
    var r := Advance(hash, c, call, now);
    assert Solo(hash, r.0, r.1, now) == (r.0, r.1.reply);
  }

  /** The service calls as the program text has them; each does what its program does when it runs alone. */
  class Service {
    const store: Store
    const hash: Hash
    const toLower: string -> string
    const ttl: int

    constructor (store: Store, hash: Hash, toLower: string -> string, ttl: int)
      ensures this.store == store && this.hash == hash && this.toLower == toLower && this.ttl == ttl
    {
      this.store, this.hash, this.toLower, this.ttl := store, hash, toLower, ttl;
    }

    method Login(email: string, matches: bool, token: Option<string>, newId: string, now: int) returns (r: Reply)
      modifies store
      ensures var address := toLower(Strings.TrimSpace(email));
              (store.Contents(), r)
                == Solo(hash, old(store.Contents()), Begin(Request.Login(address, matches, token, newId, ttl)), now)
    {
      ghost var c := store.Contents();
      var address := toLower(Strings.TrimSpace(email));
      var found := store.GetUserByEmail(address);
      if found.Err? { return Failed(found.error); }
      var u := found.value;
      if !u.active { return Failed(Forbidden); }
      if !matches { return Failed(Forbidden); }
      if token == None { return NoToken; }
      ghost var write := LoginWrite(address, u, token.value, newId, ttl);
      assert Advance(hash, c, LoginRead(address, matches, token, newId, ttl), now) == (c, write);
      var session := Session(newId, u.id, hash(token.value), now + ttl, None, now);
      store.CreateSession(session);
      assert Solo(hash, c, write, now) == (store.Contents(), LoggedIn(token.value, now + ttl, u));
      return LoggedIn(token.value, session.expiresAt, u);
    }

    method Logout(token: string, now: int) returns (r: Reply)
      modifies store
      ensures (store.Contents(), r) == Solo(hash, old(store.Contents()), Begin(Request.Logout(token)), now)
    {
      if token == "" { return Failed(Invalid); }
      // The only failure of this store is not-found, which a logout forgives.
      var _ := store.RevokeSession(hash(token), now);
      return Fine;
    }

    method Authenticate(token: string, now: int) returns (r: Reply)
      ensures (store.Contents(), r) == Solo(hash, store.Contents(), Begin(Request.Authenticate(token)), now)
    {
      if token == "" { return Failed(Forbidden); }
      var s := store.GetSession(hash(token));
      if s.Err? { return Failed(Forbidden); }
      if IsSessionActive(s.value, now) != None { return Failed(Forbidden); }
      FinishesAlone(hash, store.Contents(), AuthUser(s.value), now);
      var u := store.GetUser(s.value.userId);
      if u.Err? || !u.value.active { return Failed(Forbidden); }
      return Granted(u.value, s.value);
    }

    method DeactivateUser(actor: string, target: string, now: int) returns (r: Reply)
      modifies store
      ensures (store.Contents(), r) == Solo(hash, old(store.Contents()), Begin(Deactivate(actor, target)), now)
    {
      var who := Authenticate(actor, now);
      ActorIsAuthenticated(hash, store.Contents(), actor, target, now);
      if who.Failed? { return who; }
      if who.user.role != Coordinator { return Failed(Forbidden); }
      var err := store.DeactivateUser(target, now);
      if err != None { return Failed(err.value); }
      return Fine;
    }
  }

  lemma ActorIsAuthenticated(hash: Hash, c: Accounts, actor: string, target: string, now: int)
    ensures var (c', who) := Solo(hash, c, Begin(Request.Authenticate(actor)), now);
            && c' == c && (who.Granted? || who == Failed(Forbidden))
            && Solo(hash, c, Begin(Deactivate(actor, target)), now)
                 == if who.Granted? && who.user.role == Coordinator
                    then Solo(hash, c, DeactivateWrite(actor, target), now) else (c, Failed(Forbidden))
  {
    if actor != "" && Usable(c.GetSession(hash(actor)), now) {
      var s := c.GetSession(hash(actor)).value;
      assert Solo(hash, c, AuthSession(actor), now) == Solo(hash, c, AuthUser(s), now);
      assert Solo(hash, c, ActorSession(actor, target), now) == Solo(hash, c, ActorUser(actor, s, target), now);
      FinishesAlone(hash, c, AuthUser(s), now);
      if Advance(hash, c, ActorUser(actor, s, target), now).1.Done? {
        FinishesAlone(hash, c, ActorUser(actor, s, target), now);
      }
    }
  }

  // ---------- interleavings ----------

  datatype System = System(accounts: Accounts, calls: map<nat, Call>)

  /** Users are created, and a user's sessions revoked wholesale, by direct store calls. */
  datatype Action =
    | Start(call: nat, req: Request)
    | Proceed(call: nat, now: int)
    | AddUser(user: User)
    | RevokeFor(id: string, now: int)

  function Step(hash: Hash, sys: System, a: Action): System {
    match a
    case Start(n, req) => if n in sys.calls then sys else sys.(calls := sys.calls[n := Begin(req)])
    case Proceed(n, now) =>
      if n !in sys.calls then sys
      else
        var (accounts, call) := Advance(hash, sys.accounts, sys.calls[n], now);
        System(accounts, sys.calls[n := call])
    case AddUser(u) => sys.(accounts := sys.accounts.CreateUser(u).0)
    case RevokeFor(id, now) => sys.(accounts := sys.accounts.RevokeUserSessions(id, now))
  }

  ghost predicate IsRun(hash: Hash, tr: seq<System>, acts: seq<Action>) {
    && |tr| == |acts| + 1
    && forall i :: 0 <= i < |acts| ==> tr[i + 1] == Step(hash, tr[i], acts[i])
  }

  // ---------- deactivation is final ----------

  ghost predicate Barred(sys: System, id: string) {
    id in sys.accounts.users && !sys.accounts.users[id].active
  }

  /** Step a stores an active user under an id that is already taken. */
  ghost predicate Revives(sys: System, a: Action, id: string) {
    a.AddUser? && a.user.id == id && a.user.active && a.user.email !in sys.accounts.byEmail
  }

  lemma BarredStep(hash: Hash, sys: System, a: Action, id: string)
    requires Barred(sys, id)
    ensures Barred(Step(hash, sys, a), id) <==> !Revives(sys, a, id)
  {
    if a.Proceed? && a.call in sys.calls {
      match sys.calls[a.call]
      case DeactivateWrite(_, _) =>
      case _ => assert Step(hash, sys, a).accounts.users == sys.accounts.users;
    }
  }

  lemma {:induction false} BarredStays(hash: Hash, tr: seq<System>, acts: seq<Action>, id: string, b: nat, k: nat)
    requires IsRun(hash, tr, acts) && b <= k < |tr| && Barred(tr[b], id)
    requires forall i :: b <= i < k ==> !Revives(tr[i], acts[i], id)
    ensures Barred(tr[k], id)
    decreases k
  {
    if k > b {
      BarredStays(hash, tr, acts, id, b, k - 1);
      BarredStep(hash, tr[k - 1], acts[k - 1], id);
    }
  }

  /** A deactivated user stays barred at every later moment if and only if the id is never created anew as active. */
  lemma BarredExactlyUntilRevived(hash: Hash, tr: seq<System>, acts: seq<Action>, id: string, b: nat, k: nat)
    requires IsRun(hash, tr, acts) && b <= k < |tr| && Barred(tr[b], id)
    ensures (forall m :: b <= m <= k ==> Barred(tr[m], id)) <==>
              (forall i :: b <= i < k ==> !Revives(tr[i], acts[i], id))
  {
    if forall i :: b <= i < k ==> !Revives(tr[i], acts[i], id) {
      forall m | b <= m <= k ensures Barred(tr[m], id) {
        BarredStays(hash, tr, acts, id, b, m);
      }
    } else {
      var i :| b <= i < k && Revives(tr[i], acts[i], id);
      if Barred(tr[i], id) {
        BarredStep(hash, tr[i], acts[i], id);
        assert !Barred(tr[i + 1], id);
      }
    }
  }

  /** Call n is an authentication that succeeded for the user. */
  ghost predicate Admitted(sys: System, n: nat, id: string) {
    n in sys.calls && sys.calls[n].Done? && sys.calls[n].reply.Granted? && sys.calls[n].reply.session.userId == id
  }

  lemma NotAdmittedWhileBarred(hash: Hash, sys: System, a: Action, n: nat, id: string)
    requires Barred(sys, id) && !Admitted(sys, n, id)
    ensures !Admitted(Step(hash, sys, a), n, id)
  {
  }

  /**
   * Once the store step that deactivates a user has run, no authentication that has not already returned succeeds for
   * that user, in any interleaving - also with a session that a login in flight creates afterwards.
   */
  lemma {:induction false} DeactivationIsFinal(hash: Hash, tr: seq<System>, acts: seq<Action>, d: nat, n: nat, k: nat)
    requires IsRun(hash, tr, acts) && d < k < |tr|
    requires acts[d].Proceed? && acts[d].call in tr[d].calls && tr[d].calls[acts[d].call].DeactivateWrite?
    requires var id := tr[d].calls[acts[d].call].target;
             && id in tr[d].accounts.users
             && !Admitted(tr[d], n, id)
             && forall i :: d < i < k ==> !Revives(tr[i], acts[i], id)
    ensures !Admitted(tr[k], n, tr[d].calls[acts[d].call].target)
    decreases k
  {
    var id := tr[d].calls[acts[d].call].target;
    assert tr[d + 1] == Step(hash, tr[d], acts[d]);
    assert Barred(tr[d + 1], id);
    if k > d + 1 {
      DeactivationIsFinal(hash, tr, acts, d, n, k - 1);
      BarredStays(hash, tr, acts, id, d + 1, k - 1);
      NotAdmittedWhileBarred(hash, tr[k - 1], acts[k - 1], n, id);
    }
  }

  // ---------- revocation is final ----------

  ghost predicate RevokedKey(sys: System, key: string) {
    key in sys.accounts.sessions && sys.accounts.sessions[key].revokedAt != None
  }

  /** Step a files a new session under the key. */
  ghost predicate Reissues(hash: Hash, sys: System, a: Action, key: string) {
    a.Proceed? && a.call in sys.calls && sys.calls[a.call].LoginWrite? && hash(sys.calls[a.call].token) == key
  }

  lemma RevokedStep(hash: Hash, sys: System, a: Action, key: string)
    requires RevokedKey(sys, key)
    ensures RevokedKey(Step(hash, sys, a), key) <==> !Reissues(hash, sys, a, key)
  {
    if a.Proceed? && a.call in sys.calls {
      match sys.calls[a.call]
      case LoginWrite(_, _, _, _, _) =>
      case LogoutWrite(_) =>
      case DeactivateWrite(_, _) =>
      case _ => assert Step(hash, sys, a).accounts == sys.accounts;
    }
  }

  lemma {:induction false} RevokedStays(hash: Hash, tr: seq<System>, acts: seq<Action>, key: string, b: nat, k: nat)
    requires IsRun(hash, tr, acts) && b <= k < |tr| && RevokedKey(tr[b], key)
    requires forall i :: b <= i < k ==> !Reissues(hash, tr[i], acts[i], key)
    ensures RevokedKey(tr[k], key)
    decreases k
  {
    if k > b {
      RevokedStays(hash, tr, acts, key, b, k - 1);
      RevokedStep(hash, tr[k - 1], acts[k - 1], key);
    }
  }

  /** A step that revokes the session under the key: its logout, or a wholesale revocation for its user. */
  ghost predicate Revokes(hash: Hash, sys: System, a: Action, key: string) {
    && key in sys.accounts.sessions
    && var user := sys.accounts.sessions[key].userId;
       match a
       case RevokeFor(id, _) => id == user
       case Proceed(n, _) =>
         && n in sys.calls
         && (|| (sys.calls[n].LogoutWrite? && hash(sys.calls[n].token) == key)
             || (sys.calls[n].DeactivateWrite? && sys.calls[n].target == user && user in sys.accounts.users))
       case _ => false
  }

  lemma RevocationHappens(hash: Hash, sys: System, a: Action, key: string)
    requires Revokes(hash, sys, a, key)
    ensures RevokedKey(Step(hash, sys, a), key)
  {
  }

  /** And nothing else revokes a session that stands: not the logout of another, nor another user's deactivation. */
  lemma RevokedExactlyBy(hash: Hash, sys: System, a: Action, key: string)
    requires key in sys.accounts.sessions && !RevokedKey(sys, key)
    ensures RevokedKey(Step(hash, sys, a), key) <==> Revokes(hash, sys, a, key)
  {
    if a.Proceed? && a.call in sys.calls {
      match sys.calls[a.call]
      case LoginWrite(_, _, _, _, _) =>
      case LogoutWrite(_) =>
      case DeactivateWrite(_, _) =>
      case _ => assert Step(hash, sys, a).accounts == sys.accounts;
    }
  }

  /** Call n is an authentication of the token that has yet to look its session up, or one that was refused. */
  ghost predicate AsksInVain(sys: System, n: nat, token: string) {
    n in sys.calls ==> sys.calls[n] == AuthSession(token) || sys.calls[n] == Done(Failed(Forbidden))
  }

  lemma InVainStep(hash: Hash, sys: System, a: Action, n: nat, token: string)
    requires AsksInVain(sys, n, token) && RevokedKey(sys, hash(token))
    requires a.Start? && a.call == n && n !in sys.calls ==> a.req == Request.Authenticate(token)
    ensures AsksInVain(Step(hash, sys, a), n, token)
  {
  }

  /**
   * Once a step has revoked the session of a token, no authentication of that token that starts later, or that has
   * not looked the session up yet, is ever granted, until a login happens to issue a token with the same hash.
   */
  lemma {:induction false} RevocationIsFinal(hash: Hash, tr: seq<System>, acts: seq<Action>,
                                             d: nat, n: nat, token: string, k: nat)
    requires IsRun(hash, tr, acts) && d < k < |tr| && Revokes(hash, tr[d], acts[d], hash(token))
    requires AsksInVain(tr[d + 1], n, token)
    requires forall i :: d < i < k ==> !Reissues(hash, tr[i], acts[i], hash(token))
    requires forall i :: d < i < k && acts[i].Start? && acts[i].call == n && n !in tr[i].calls ==>
               acts[i].req == Request.Authenticate(token)
    ensures AsksInVain(tr[k], n, token)
    decreases k
  {
    if k > d + 1 {
      RevocationIsFinal(hash, tr, acts, d, n, token, k - 1);
      RevocationHappens(hash, tr[d], acts[d], hash(token));
      assert tr[d + 1] == Step(hash, tr[d], acts[d]);
      RevokedStays(hash, tr, acts, hash(token), d + 1, k - 1);
      InVainStep(hash, tr[k - 1], acts[k - 1], n, token);
    }
  }

  // ---------- sessions come from logins and expire ----------

  /** Step a is the login that files this session under the key. */
  ghost predicate Issues(hash: Hash, sys: System, a: Action, key: string, s: Session) {
    && Reissues(hash, sys, a, key)
    && s.userId == sys.calls[a.call].user.id && s.expiresAt == a.now + sys.calls[a.call].ttl && s.createdAt == a.now
  }

  ghost predicate IssuedBefore(hash: Hash, tr: seq<System>, acts: seq<Action>, key: string, s: Session, k: nat)
    requires |tr| == |acts| + 1 && k <= |acts|
  {
    exists i :: 0 <= i < k && Issues(hash, tr[i], acts[i], key, s)
  }

  /** A step leaves a session as it is, up to revocation, unless it issues it. */
  lemma SessionStep(hash: Hash, sys: System, a: Action, key: string)
    requires key in Step(hash, sys, a).accounts.sessions
    ensures var s := Step(hash, sys, a).accounts.sessions[key];
            || Issues(hash, sys, a, key, s)
            || (&& key in sys.accounts.sessions
                && s == sys.accounts.sessions[key].(revokedAt := s.revokedAt)
                && (s.revokedAt == None ==> sys.accounts.sessions[key].revokedAt == None))
  {
  }

  lemma {:induction false} SessionsComeFromLogins(hash: Hash, tr: seq<System>, acts: seq<Action>, key: string, k: nat)
    requires IsRun(hash, tr, acts) && tr[0].accounts.sessions == map[] && k < |tr| && key in tr[k].accounts.sessions
    ensures IssuedBefore(hash, tr, acts, key, tr[k].accounts.sessions[key], k)
  {
    var s, a := tr[k].accounts.sessions[key], acts[k - 1];
    SessionStep(hash, tr[k - 1], a, key);
    if !Issues(hash, tr[k - 1], a, key, s) {
      SessionsComeFromLogins(hash, tr, acts, key, k - 1);
      var i :| 0 <= i < k - 1 && Issues(hash, tr[i], acts[i], key, tr[k - 1].accounts.sessions[key]);
      assert Issues(hash, tr[i], acts[i], key, s);
    }
  }

  /**
   * A token gets past the session check only on the strength of an earlier login that issued its hash to that user,
   * strictly within that login's time to live, and only while the session is not revoked.
   */
  lemma SessionsExpire(hash: Hash, tr: seq<System>, acts: seq<Action>, token: string, k: nat, now: int)
    requires IsRun(hash, tr, acts) && tr[0].accounts.sessions == map[] && k < |tr|
    requires Advance(hash, tr[k].accounts, AuthSession(token), now).1.AuthUser?
    ensures var s := Advance(hash, tr[k].accounts, AuthSession(token), now).1.session;
            && s.revokedAt == None
            && exists i :: 0 <= i < k && Issues(hash, tr[i], acts[i], hash(token), s)
                           && now < acts[i].now + tr[i].calls[acts[i].call].ttl
  {
    SessionsComeFromLogins(hash, tr, acts, hash(token), k);
  }
}
