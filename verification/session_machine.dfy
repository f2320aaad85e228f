/** The session service as a transition system.

    Every critical section of internal/auth/service.go is one event, so events of different calls
    interleave freely: a login reads the user, stamps a session, and later commits it under the lock;
    a token validation reads the map, compares the clock, and later deletes under the lock.
    An event carries every outside choice (clock values, random tokens, the fate of a save), which
    leaves the effect of an event a function of the state. */
module SessionMachine {

  datatype User = User(id: string, username: string, passwordHash: string, roles: seq<string>)

  datatype Session = Session(
    id: string, token: string, userId: string, username: string, roles: seq<string>,
    createdAt: int, expiresAt: int)

  type SessionMap = map<string, Session>

  /** The fate of one whole-map save: done, failed with the old content still there, or failed
      (as seen by the caller) after the new content had already been put in place. */
  datatype SaveOutcome = Saved | Kept | Replaced

  datatype Config = Config(ttl: int, epoch: int, hash: string -> string)

  datatype LoginCall = Reading(user: User) | Stamped(session: Session)

  datatype CheckCall = Got(token: string, session: Session) | Doomed(token: string, session: Session)

  datatype State = State(
    users: map<string, User>,
    mem: SessionMap,                // the sessions field
    disk: SessionMap,               // what LoadSessionState would read
    now: int,
    born: SessionMap,               // history: every session ever stamped, by token
    logins: map<nat, LoginCall>,    // Login calls in progress
    checks: map<nat, CheckCall>)    // ValidateToken calls in progress

  datatype Event =
    | Tick(to: int)
    | SetUsers(users: map<string, User>)
    | LoginRead(call: nat, username: string, password: string)
    | LoginStamp(call: nat, token: string, id: string)
    | LoginCommit(call: nat, save: SaveOutcome)
    | ReadMiss(call: nat, token: string)
    | ReadHit(call: nat, token: string)
    | Accept(call: nat)
    | Expire(call: nat)
    | Purge(call: nat, save: SaveOutcome)
    | Logout(token: string, save: SaveOutcome)
    | LogoutMiss(token: string)
    | Revoke(id: string, token: string, save: SaveOutcome)
    | RevokeMiss(id: string)
    | List(at: int, save: SaveOutcome)
    | Restart(users: map<string, User>)

  // ---------- maps ----------

  ghost predicate SubMap(a: SessionMap, b: SessionMap) {
    forall t :: t in a ==> t in b && a[t] == b[t]
  }

  /** The sessions not expired at `at`; a session is still good at the instant it expires. */
  function Live(m: SessionMap, at: int): SessionMap {
    map t | t in m && at <= m[t].expiresAt :: m[t]
  }

  /** What the durable copy holds after a save of `mem`. */
  function Persist(mem: SessionMap, disk: SessionMap, save: SaveOutcome): SessionMap {
    if save.Kept? then disk else mem
  }

  ghost predicate DistinctIds(m: SessionMap) {
    forall t, u :: t in m && u in m && t != u ==> m[t].id != m[u].id
  }

  ghost predicate KeyedByToken(m: SessionMap) {
    forall t :: t in m ==> m[t].token == t && t != ""
  }

  ghost predicate HasId(m: SessionMap, id: string) {
    exists t :: t in m && m[t].id == id
  }

  function NewSession(u: User, token: string, id: string, now: int, ttl: int): Session {
    Session(id, token, u.id, u.username, u.roles, now, now + ttl)
  }

  // ---------- events ----------

  /** When an event can happen. Tokens and ids are fresh and the clock never goes back. */
  ghost predicate Enabled(cfg: Config, s: State, e: Event) {
    match e
    case Tick(to) => s.now <= to
    case SetUsers(_) => true
    case LoginRead(c, username, password) =>
      && c !in s.logins && username in s.users
      && cfg.hash(password) == s.users[username].passwordHash
    case LoginStamp(c, token, id) =>
      && c in s.logins && s.logins[c].Reading?
      && token != "" && token !in s.born && !HasId(s.born, id)
    case LoginCommit(c, _) => c in s.logins && s.logins[c].Stamped?
    case ReadMiss(_, token) => token !in s.mem
    case ReadHit(c, token) => c !in s.checks && token in s.mem
    case Accept(c) => c in s.checks && s.checks[c].Got? && s.now <= s.checks[c].session.expiresAt
    case Expire(c) => c in s.checks && s.checks[c].Got? && s.now > s.checks[c].session.expiresAt
    case Purge(c, _) => c in s.checks && s.checks[c].Doomed?
    case Logout(token, _) => token in s.mem
    case LogoutMiss(token) => token !in s.mem
    case Revoke(id, token, _) => token in s.mem && s.mem[token].id == id
    case RevokeMiss(id) => !HasId(s.mem, id)
    case List(at, _) => at <= s.now
    case Restart(_) => true
  }

  ghost function Remove(s: State, token: string, save: SaveOutcome): State {
    s.(mem := s.mem - {token}, disk := Persist(s.mem - {token}, s.disk, save))
  }

  ghost function Apply(cfg: Config, s: State, e: Event): State
    requires Enabled(cfg, s, e)
  {
    match e
    case Tick(to) => s.(now := to)
    case SetUsers(users) => s.(users := users)
    case LoginRead(c, username, _) => s.(logins := s.logins[c := Reading(s.users[username])])
    case LoginStamp(c, token, id) =>
      var session := NewSession(s.logins[c].user, token, id, s.now, cfg.ttl);
      s.(logins := s.logins[c := Stamped(session)], born := s.born[token := session])
    case LoginCommit(c, save) =>
      var session := s.logins[c].session;
      var added := s.mem[session.token := session];
      s.(mem := if save.Saved? then added else added - {session.token},
         disk := Persist(added, s.disk, save), logins := s.logins - {c})
    case ReadMiss(_, _) => s
    case ReadHit(c, token) => s.(checks := s.checks[c := Got(token, s.mem[token])])
    case Accept(c) => s.(checks := s.checks - {c})
    case Expire(c) => s.(checks := s.checks[c := Doomed(s.checks[c].token, s.checks[c].session)])
    case Purge(c, save) => Remove(s.(checks := s.checks - {c}), s.checks[c].token, save)
    case Logout(token, save) => Remove(s, token, save)
    case LogoutMiss(_) => s
    case Revoke(_, token, save) => Remove(s, token, save)
    case RevokeMiss(_) => s
    case List(at, save) =>
      var kept := Live(s.mem, at);
      if kept == s.mem then s else s.(mem := kept, disk := Persist(kept, s.disk, save))
    case Restart(users) => s.(users := users, mem := s.disk, logins := map[], checks := map[])
  }

  // ---------- the invariant ----------

  ghost predicate LoginOk(s: State, c: nat)
    requires c in s.logins
  {
    s.logins[c].Stamped? ==>
      var session := s.logins[c].session;
      && session.token in s.born && s.born[session.token] == session
      && session.token !in s.disk
  }

  ghost predicate LoginsApart(s: State) {
    forall c, d :: c in s.logins && d in s.logins && c != d && s.logins[c].Stamped? && s.logins[d].Stamped? ==>
      s.logins[c].session.token != s.logins[d].session.token
  }

  ghost predicate CheckOk(s: State, c: nat)
    requires c in s.checks
  {
    var k := s.checks[c];
    && k.token in s.born && s.born[k.token] == k.session
    && (k.Doomed? ==> k.session.expiresAt < s.now)
  }

  ghost predicate BornOk(cfg: Config, s: State, t: string)
    requires t in s.born
  {
    && s.born[t].token == t && t != ""
    && s.born[t].createdAt <= s.now
    && s.born[t].expiresAt == s.born[t].createdAt + cfg.ttl
  }

  /** What every reachable state satisfies: memory is a part of the durable copy, the durable copy is a
      part of what was ever stamped, and ids and tokens stay unique over the whole history. */
  ghost predicate Inv(cfg: Config, s: State) {
    && SubMap(s.mem, s.disk)
    && SubMap(s.disk, s.born)
    && (forall t :: t in s.born ==> BornOk(cfg, s, t))
    && DistinctIds(s.born)
    && (forall c :: c in s.logins ==> LoginOk(s, c))
    && LoginsApart(s)
    && (forall c :: c in s.checks ==> CheckOk(s, c))
  }

  function Start(cfg: Config): State {
    State(map[], map[], map[], cfg.epoch, map[], map[], map[])
  }

  lemma InvStart(cfg: Config)
    ensures Inv(cfg, Start(cfg))
  {
  }

  /** Removing sessions from memory, then saving the rest. */
  lemma ShrinkKeepsInv(cfg: Config, s: State, rest: SessionMap, save: SaveOutcome)
    requires Inv(cfg, s) && SubMap(rest, s.mem)
    ensures Inv(cfg, s.(mem := rest, disk := Persist(rest, s.disk, save)))
  {
    var s' := s.(mem := rest, disk := Persist(rest, s.disk, save));
    forall c | c in s'.logins
      ensures LoginOk(s', c)
    {
      assert LoginOk(s, c);
    }
    forall c | c in s'.checks
      ensures CheckOk(s', c)
    {
      assert CheckOk(s, c);
    }
    forall t | t in s'.born
      ensures BornOk(cfg, s', t)
    {
      assert BornOk(cfg, s, t);
    }
  }

  /** Only the validation calls in progress differ. */
  lemma CheckCallKeepsInv(cfg: Config, s: State, s': State)
    requires Inv(cfg, s) && s' == s.(checks := s'.checks)
    requires forall c :: c in s'.checks ==> CheckOk(s', c)
    ensures Inv(cfg, s')
  {
  }

  lemma CheckEventKeepsInv(cfg: Config, s: State, e: Event)
    requires Inv(cfg, s) && Enabled(cfg, s, e) && (e.ReadHit? || e.Accept? || e.Expire?)
    ensures Inv(cfg, Apply(cfg, s, e))
  {
    var s' := Apply(cfg, s, e);
    forall c | c in s'.checks
      ensures CheckOk(s', c)
    {
      assert c in s.checks ==> CheckOk(s, c);
    }
    CheckCallKeepsInv(cfg, s, s');
  }

  /** The clock, the users, failed look-ups and restarts. */
  lemma QuietKeepsInv(cfg: Config, s: State, e: Event)
    requires Inv(cfg, s) && Enabled(cfg, s, e)
    requires e.Tick? || e.SetUsers? || e.ReadMiss? || e.LogoutMiss? || e.RevokeMiss? || e.Restart?
    ensures Inv(cfg, Apply(cfg, s, e))
  {
  }

  lemma LoginReadKeepsInv(cfg: Config, s: State, e: Event)
    requires Inv(cfg, s) && Enabled(cfg, s, e) && e.LoginRead?
    ensures Inv(cfg, Apply(cfg, s, e))
  {
  }

  /** A login stamps its session with a fresh token and id. */
  lemma LoginStampKeepsInv(cfg: Config, s: State, e: Event)
    requires Inv(cfg, s) && Enabled(cfg, s, e) && e.LoginStamp?
    ensures Inv(cfg, Apply(cfg, s, e))
  {
    var s' := Apply(cfg, s, e);
    forall c | c in s'.logins
      ensures LoginOk(s', c)
    {
      assert c != e.call ==> LoginOk(s, c);
    }
    forall c | c in s'.checks
      ensures CheckOk(s', c)
    {
      assert CheckOk(s, c);
    }
    forall t | t in s'.born
      ensures BornOk(cfg, s', t)
    {
      assert t != e.token ==> BornOk(cfg, s, t);
    }
  }

  lemma CommitKeepsInv(cfg: Config, s: State, c: nat, save: SaveOutcome)
    requires Inv(cfg, s) && Enabled(cfg, s, LoginCommit(c, save))
    ensures Inv(cfg, Apply(cfg, s, LoginCommit(c, save)))
  {
  }

  /** Every event keeps the invariant, whatever the fate of its save. */
  lemma InvStep(cfg: Config, s: State, e: Event)
    requires Inv(cfg, s) && Enabled(cfg, s, e)
    ensures Inv(cfg, Apply(cfg, s, e))
  {
    if e.LoginRead? {
      LoginReadKeepsInv(cfg, s, e);
    } else if e.LoginStamp? {
      LoginStampKeepsInv(cfg, s, e);
    } else if e.LoginCommit? {
      CommitKeepsInv(cfg, s, e.call, e.save);
    } else if e.Purge? {
      var s0 := s.(checks := s.checks - {e.call});
      forall c | c in s0.checks
        ensures CheckOk(s0, c)
      {
        assert CheckOk(s, c);
      }
      CheckCallKeepsInv(cfg, s, s0);
      ShrinkKeepsInv(cfg, s0, s.mem - {s.checks[e.call].token}, e.save);
    } else if e.Logout? || e.Revoke? {
      ShrinkKeepsInv(cfg, s, s.mem - {e.token}, e.save);
    } else if e.List? {
      ShrinkKeepsInv(cfg, s, Live(s.mem, e.at), e.save);
    } else if e.ReadHit? || e.Accept? || e.Expire? {
      CheckEventKeepsInv(cfg, s, e);
    } else {
      QuietKeepsInv(cfg, s, e);
    }
  }

  /** Every reachable map is keyed by its own tokens, holds no empty token, and has pairwise distinct
      ids, in memory and on disk alike. */
  lemma ReachableMapsWellFormed(cfg: Config, s: State)
    requires Inv(cfg, s)
    ensures KeyedByToken(s.mem) && DistinctIds(s.mem)
    ensures KeyedByToken(s.disk) && DistinctIds(s.disk)
  {
  }

  /** A login whose save failed leaves the map exactly as it was: its token was not there before. */
  lemma FailedLoginRestores(cfg: Config, s: State, c: nat, save: SaveOutcome)
    requires Inv(cfg, s) && Enabled(cfg, s, LoginCommit(c, save)) && !save.Saved?
    ensures Apply(cfg, s, LoginCommit(c, save)).mem == s.mem
  {
    assert LoginOk(s, c);
  }
}
