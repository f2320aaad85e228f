/** The session service. Each method changes the sessions map in place and saves it, as the Go code does, and
    writes what it did into a ghost history of SessionMachine events. The history is that of a run at all
    times, so everything proved about runs holds of every sequence of calls. */
module AuthService {
  import opened Listing
  import opened Options
  import opened PasswordPolicy
  import opened SessionLinear
  import opened SessionMachine
  import opened SessionRuns
  import opened SessionStore
  import opened Sorting
  import opened Text
  import opened UserStore

  datatype Error = InvalidCredentials | InvalidToken | WeakPassword | NoRandom | SaveFailed | UserStoreFailed

  datatype Result<+T> = Ok(value: T) | Failed(error: Error)

  datatype SessionView = SessionView(
    id: string, userId: string, username: string, roles: seq<string>, createdAt: int, expiresAt: int)

  function ViewOf(s: Session): SessionView {
    SessionView(s.id, s.userId, s.username, s.roles, s.createdAt, s.expiresAt)
  }

  /** The view has every field of the session but the token. */
  predicate Shows(v: SessionView, s: Session) {
    && v.id == s.id && v.userId == s.userId && v.username == s.username && v.roles == s.roles
    && v.createdAt == s.createdAt && v.expiresAt == s.expiresAt
  }

  ghost predicate ViewsInOrder(views: seq<SessionView>, m: SessionMap, order: seq<string>) {
    && Enumerates(order, m.Keys) && |views| == |order|
    && forall i :: 0 <= i < |order| ==> order[i] in m && Shows(views[i], m[order[i]])
  }

  /** The views hold the given sessions, each once, and no two of them have the same id. */
  ghost predicate ViewsOf(views: seq<SessionView>, m: SessionMap) {
    && |views| == |m|
    && (forall i, j :: 0 <= i < j < |views| ==> views[i].id != views[j].id)
    && exists order :: ViewsInOrder(views, m, order)
  }

  method AllViews(listed: seq<Session>) returns (out: seq<SessionView>)
    ensures |out| == |listed| && forall i :: 0 <= i < |out| ==> Shows(out[i], listed[i])
  {
    out := [];
    for k := 0 to |listed|
      invariant |out| == k && forall i :: 0 <= i < k ==> Shows(out[i], listed[i])
    {
      out := out + [ViewOf(listed[k])];
    }
  }

  lemma ViewsEnumerate(views: seq<SessionView>, listed: seq<Session>, order: seq<string>, m: SessionMap)
    requires Enumerates(order, m.Keys) && listed == Pick(m, order) && DistinctIds(m)
    requires |views| == |listed| && forall i :: 0 <= i < |views| ==> Shows(views[i], listed[i])
    ensures ViewsOf(views, m)
  {
    assert ViewsInOrder(views, m, order);
    EnumerationSize(order, m.Keys);
    forall i, j | 0 <= i < j < |views|
      ensures views[i].id != views[j].id
    {
      assert order[i] != order[j] && order[i] in m && order[j] in m;
    }
  }

  /** The JSON session file. */
  datatype SessionFile = Absent | Blank | Damaged | Holds(sessions: SessionMap)

  function FileSessions(f: SessionFile): SessionMap {
    if f.Holds? then f.sessions else map[]
  }

  /** What a session map looks like once the session with this id is revoked. */
  function DropId(m: SessionMap, id: string): SessionMap {
    map t | t in m && m[t].id != id :: m[t]
  }

  function DropIds(m: SessionMap, ids: seq<string>): SessionMap {
    if ids == [] then m else DropId(DropIds(m, ids[..|ids| - 1]), ids[|ids| - 1])
  }

  lemma {:induction false} DropIdsExact(m: SessionMap, ids: seq<string>, t: string)
    ensures t in DropIds(m, ids) <==> t in m && m[t].id !in ids
    ensures t in DropIds(m, ids) ==> DropIds(m, ids)[t] == m[t]
  {
    if ids == [] {
    } else {
      DropIdsExact(m, ids[..|ids| - 1], t);
      assert ids == ids[..|ids| - 1] + [ids[|ids| - 1]];
    }
  }

  /** Revoking listed sessions one after the other, in any order: each revocation finds its session and
      takes out that one only. */
  lemma ListedIdsRevocableInAnyOrder(m: SessionMap, ids: seq<string>, k: nat) returns (t: string)
    requires DistinctIds(m) && k < |ids|
    requires forall i, j :: 0 <= i < j < |ids| ==> ids[i] != ids[j]
    requires forall i :: 0 <= i < |ids| ==> HasId(m, ids[i])
    ensures t in m && m[t].id == ids[k] && HasId(DropIds(m, ids[..k]), ids[k])
    ensures DropIds(m, ids[..k + 1]) == DropIds(m, ids[..k]) - {t}
  {
    assert HasId(m, ids[k]);
    t :| t in m && m[t].id == ids[k];
    var before, after := DropIds(m, ids[..k]), DropIds(m, ids[..k + 1]);
    DropIdsExact(m, ids[..k], t);
    forall u
      ensures u in after <==> u in before && u != t
      ensures u in after ==> after[u] == before[u]
    {
      DropIdsExact(m, ids[..k], u);
      DropIdsExact(m, ids[..k + 1], u);
      assert ids[..k + 1] == ids[..k] + [ids[k]];
    }
  }

  /** One more revocation among the ones of `ids`, of which `done` came before and `pending` are to come. */
  lemma NextRevocation(m: SessionMap, ids: set<string>, done: seq<string>, pending: set<string>, id: string)
    requires DistinctIds(m) && forall d :: d in ids ==> HasId(m, d)
    requires id in pending && pending <= ids && Enumerates(done, ids - pending)
    ensures HasId(DropIds(m, done), id)
    ensures DropIds(m, done + [id]) == DropId(DropIds(m, done), id)
    ensures Enumerates(done + [id], ids - (pending - {id}))
  {
    var all := done + [id];
    assert all[..|done|] == done;
    forall i | 0 <= i < |all|
      ensures all[i] in ids
    {
      assert all[i] in done || all[i] == id;
    }
    var t := ListedIdsRevocableInAnyOrder(m, all, |done|);
  }

  predicate Viewed(views: seq<SessionView>, id: string) {
    exists i :: 0 <= i < |views| && views[i].id == id
  }

  /** The ids among `chosen` that the views show. */
  function ViewedIds(views: seq<SessionView>, chosen: set<string>): set<string> {
    set id | id in chosen && Viewed(views, id)
  }

  /** What is left of the map without the sessions with these ids. */
  function Without(m: SessionMap, ids: set<string>): SessionMap {
    map t | t in m && m[t].id !in ids :: m[t]
  }

  lemma ViewAt(views: seq<SessionView>, m: SessionMap, order: seq<string>, i: nat)
    requires ViewsInOrder(views, m, order) && i < |views|
    ensures HasId(m, views[i].id)
  {
    assert m[order[i]].id == views[i].id;
  }

  lemma ViewedMeansThere(views: seq<SessionView>, m: SessionMap, id: string)
    requires ViewsOf(views, m) && Viewed(views, id)
    ensures HasId(m, id)
  {
    var order :| ViewsInOrder(views, m, order);
    var i :| 0 <= i < |views| && views[i].id == id;
    ViewAt(views, m, order, i);
  }

  lemma EverySessionIsViewed(views: seq<SessionView>, m: SessionMap, t: string)
    requires ViewsOf(views, m) && t in m
    ensures Viewed(views, m[t].id)
  {
    var order :| ViewsInOrder(views, m, order);
    assert t in order;
    var i :| 0 <= i < |order| && order[i] == t;
    assert views[i].id == m[t].id;
  }

  /** Revoking the viewed ones among the chosen sessions revokes the chosen ones. */
  lemma ViewedIdsSuffice(views: seq<SessionView>, chosen: set<string>, m: SessionMap)
    requires ViewsOf(views, m)
    ensures Without(m, ViewedIds(views, chosen)) == Without(m, chosen)
  {
    forall t | t in m
      ensures m[t].id in ViewedIds(views, chosen) <==> m[t].id in chosen
    {
      EverySessionIsViewed(views, m, t);
    }
  }

  lemma DropIdsOf(m: SessionMap, ids: set<string>, order: seq<string>)
    requires Enumerates(order, ids)
    ensures DropIds(m, order) == Without(m, ids)
  {
    forall t
      ensures t in DropIds(m, order) <==> t in Without(m, ids)
      ensures t in DropIds(m, order) ==> DropIds(m, order)[t] == Without(m, ids)[t]
    {
      DropIdsExact(m, order, t);
    }
  }

  class AuthService {
    const ttl: int
    const pepper: string
    const sha: string -> string
    const tables: RuneTables
    const users: FileUserStore
    const store: PostgresSessionStore?
    const stateFile: string
    var sessions: SessionMap
    var file: SessionFile
    ghost const cfg: Config
    ghost var history: seq<Event>
    ghost var state: State

    // ---------- state ----------

    /** The hex digest of the peppered password. */
    function HashPassword(password: string): string {
      sha(pepper + ":" + password)
    }

    predicate VerifyPassword(password: string, storedHash: string) {
      HashPassword(password) == storedHash
    }

    /** Login with this name and password gets past the credential checks. */
    predicate CanLogin(us: Users, username: string, password: string) {
      username in us && VerifyPassword(password, us[username].passwordHash)
    }

    /** The session is what a login of this user at this time opens: the user's own id, name and roles, for one
        lifetime. */
    predicate OpenedFor(session: Session, u: User, token: string, id: string, now: int) {
      && session.token == token && session.id == id
      && session.userId == u.id && session.username == u.username && session.roles == u.roles
      && session.createdAt == now && session.expiresAt == now + ttl
    }

    ghost function Repr(): set<object> {
      {this} + (if store == null then {} else {store})
    }

    predicate Persistent() {
      store != null || stateFile != ""
    }

    /** What LoadSessionState would read. */
    ghost function Durable(): SessionMap
      reads this, store
    {
      if store != null then Sessions(store.table) else FileSessions(file)
    }

    /** The history explains the durable copy. */
    ghost predicate Recorded()
      reads this, store, users
    {
      && cfg.ttl == ttl && (forall p :: cfg.hash(p) == HashPassword(p))
      && users.Valid()
      && Leads(cfg, history, state)
      && (Persistent() ==> Durable() == state.disk)
    }

    /** No call is in progress: the state in which a call of this single-threaded object starts and ends. */
    ghost predicate Idle()
      reads this
    {
      Leads(cfg, history, state) && state.logins == map[] && state.checks == map[]
    }

    /** The history explains memory as well: `state.disk` is the durable copy, `state.mem` the map. */
    ghost predicate Valid()
      reads this, store, users
    {
      Recorded() && Idle() && sessions == state.mem
    }

    /** The fate of saving `m` under the given fault. Without a store and a file there is nothing to fail. */
    ghost function Fate(fault: Fault, m: SessionMap): SaveOutcome {
      if store != null then TxFate(fault, |m|)
      else if stateFile == "" || fault.Healthy? then Saved
      else if fault == AtCommit(true) then Replaced
      else Kept
    }

    /** A process that starts over what earlier ones left behind; `prior` is their history
        and `past` the state it led to, possibly in the middle of calls. */
    constructor (ttl: int, pepper: string, sha: string -> string, tables: RuneTables, users: FileUserStore,
                 store: PostgresSessionStore?, stateFile: string, file: SessionFile,
                 ghost cfg: Config, ghost prior: seq<Event>, ghost past: State)
      requires users.Valid()
      requires cfg.ttl == ttl && forall p :: cfg.hash(p) == sha(pepper + ":" + p)
      requires Leads(cfg, prior, past)
      requires store != null ==> Sessions(store.table) == past.disk
      requires store == null && stateFile != "" ==> FileSessions(file) == past.disk
      requires store == null && stateFile == "" ==> past == Start(cfg)
      ensures this.ttl == ttl && this.pepper == pepper && this.sha == sha && this.tables == tables
      ensures this.users == users && this.store == store && this.stateFile == stateFile && this.file == file
      ensures this.cfg == cfg
      ensures Recorded() && sessions == map[] && history == prior && state == past
    {
      this.ttl, this.pepper, this.sha, this.tables := ttl, pepper, sha, tables;
      this.users, this.store, this.stateFile, this.file := users, store, stateFile, file;
      this.sessions := map[];
      this.cfg := cfg;
      this.history, this.state := prior, past;
    }

    // ---------- history ----------

    ghost method Record(e: Event)
      requires Leads(cfg, history, state) && Enabled(cfg, state, e)
      modifies this`history, this`state
      ensures history == old(history) + [e] && Leads(cfg, history, state)
      ensures state == Apply(cfg, old(state), e)
    {
      LeadsOn(cfg, history, state, e);
      history, state := history + [e], Apply(cfg, state, e);
    }

    /** What the machine's invariant says about the sessions map. */
    lemma SessionsWellFormed()
      requires Leads(cfg, history, state)
      ensures KeyedByToken(state.mem) && DistinctIds(state.mem)
      ensures forall t :: t in state.mem ==> t in state.born
    {
      LeadsInv(cfg, history, state);
      ReachableMapsWellFormed(cfg, state);
    }

    /** What the theorems about runs say of this object: every session it holds was made by a login in its history,
        with the user id, name and roles of the record read there and a life that starts at its stamp. */
    lemma EverySessionHasALogin(token: string)
      returns (ss: seq<State>, u: User, userRead: nat, stamp: nat, commit: nat)
      requires Valid() && token in sessions
      ensures IsRun(cfg, ss, history) && ss[|history|] == state
      ensures FromLogin(cfg, ss, history, sessions[token], u, userRead, stamp, commit)
      ensures HashPassword(history[userRead].password) == u.passwordHash && sessions[token].token == token
      ensures sessions[token].userId == u.id && sessions[token].username == u.username
      ensures sessions[token].roles == u.roles
      ensures sessions[token].createdAt == ss[stamp].now && sessions[token].expiresAt == ss[stamp].now + ttl
    {
      ss :| IsRun(cfg, ss, history) && ss[|history|] == state;
      RunInv(cfg, ss, history, |history|);
      u, userRead, stamp, commit := Origin(cfg, ss, history, |history|, token);
    }

    /** A map stays well formed when a session leaves it. */
    lemma RemainingSessionsFit(token: string)
      requires Leads(cfg, history, state)
      ensures KeyedByToken(state.mem - {token}) && DistinctIds(state.mem - {token})
    {
      SessionsWellFormed();
    }

    /** A call starts: the clock has moved on, and the user store may have changed meanwhile. */
    ghost method Begin(now: int)
      requires Valid() && state.now <= now
      modifies this`history, this`state
      ensures Valid() && history == old(history) + [Tick(now), SetUsers(users.users)]
      ensures state == old(state).(now := now, users := users.users)
    {
      Record(Tick(now));
      Record(SetUsers(users.users));
    }

    ghost method RecordLogin(username: string, password: string, token: string, id: string, save: SaveOutcome)
      requires Idle() && (forall p :: cfg.hash(p) == HashPassword(p)) && CanLogin(state.users, username, password)
      requires token != "" && token !in state.born && !HasId(state.born, id)
      modifies this`history, this`state
      ensures Idle() && state.now == old(state).now
      ensures history == old(history) +
        [LoginRead(0, username, password), LoginStamp(0, token, id), LoginCommit(0, save)]
      ensures var session := NewSession(old(state).users[username], token, id, old(state).now, cfg.ttl);
              var added := old(state).mem[token := session];
              && state.mem == (if save.Saved? then added else added - {token})
              && state.disk == Persist(added, old(state).disk, save)
    {
      Record(LoginRead(0, username, password));
      Record(LoginStamp(0, token, id));
      Record(LoginCommit(0, save));
      assert state.logins == map[];
    }

    ghost method RecordAccept(token: string)
      requires Idle() && token in state.mem && state.now <= state.mem[token].expiresAt
      modifies this`history, this`state
      ensures Idle() && history == old(history) + [ReadHit(0, token), Accept(0)] && state == old(state)
    {
      Record(ReadHit(0, token));
      Record(Accept(0));
      assert state.checks == map[];
    }

    ghost method RecordPurge(token: string, save: SaveOutcome)
      requires Idle() && token in state.mem && state.now > state.mem[token].expiresAt
      modifies this`history, this`state
      ensures Idle() && history == old(history) + [ReadHit(0, token), Expire(0), Purge(0, save)]
      ensures state == Remove(old(state), token, save)
    {
      Record(ReadHit(0, token));
      Record(Expire(0));
      Record(Purge(0, save));
      assert state.checks == map[];
    }

    /** The one event of a logout or a revocation that found its session. */
    ghost method RecordTakeOut(e: Event, token: string)
      requires Idle() && Enabled(cfg, state, e) && TakesOut(e, token)
      modifies this`history, this`state
      ensures Idle() && history == old(history) + [e] && state == Remove(old(state), token, e.save)
    {
      Record(e);
    }

    ghost method RecordList(save: SaveOutcome)
      requires Idle()
      modifies this`history, this`state
      ensures Idle() && history == old(history) + [List(old(state).now, save)]
      ensures var kept := Live(old(state).mem, old(state).now);
              && state.now == old(state).now && state.mem == kept
              && state.disk == if kept == old(state).mem then old(state).disk else Persist(kept, old(state).disk, save)
    {
      Record(List(state.now, save));
    }

    // ---------- the durable copy ----------

    method PersistSessionsLocked(fault: Fault) returns (ok: bool)
      requires KeyedByToken(sessions) && DistinctIds(sessions)
      modifies store, this`file
      ensures ok <==> Fate(fault, sessions).Saved?
      ensures ok <==> !Persistent() || fault.Healthy? || (store != null && fault.AtInsert? && fault.n >= |sessions|)
      ensures Persistent() ==> Durable() == Persist(sessions, old(Durable()), Fate(fault, sessions))
      ensures Persistent() ==> Durable() == if ok || fault == AtCommit(true) then sessions else old(Durable())
    {
      if store != null {
        ok := store.Save(sessions, fault);
        LoadAfterSave(sessions);
        return;
      }
      if stateFile == "" {
        return true;
      }
      if fault.Healthy? || fault == AtCommit(true) {
        file := Holds(sessions);
      }
      return fault.Healthy?;
    }

    /** The delete section of three calls: take the token's session out of the map, and save what is left. */
    method DeleteAndPersist(token: string, fault: Fault) returns (ok: bool)
      requires Leads(cfg, history, state) && sessions == state.mem
      modifies store, this`sessions, this`file
      ensures sessions == old(sessions) - {token} && (ok <==> Fate(fault, sessions).Saved?)
      ensures Persistent() ==> Durable() == Persist(sessions, old(Durable()), Fate(fault, sessions))
    {
      RemainingSessionsFit(token);
      sessions := sessions - {token};
      ok := PersistSessionsLocked(fault);
    }

    /** Reads the durable copy into memory: what a start-up does, over whatever the last process left. */
    method LoadSessionState(broken: bool) returns (ok: bool)
      requires Recorded() && SubMap(sessions, state.disk)
      requires !Persistent() ==> Valid()
      modifies this`sessions, this`history, this`state
      ensures ok <==> !Persistent() || (if store != null then !broken else !file.Damaged?)
      ensures ok ==> Valid()
      ensures ok && Persistent() ==> sessions == Durable() && history == old(history) + [Restart(users.users)]
      ensures !ok || !Persistent() ==> sessions == old(sessions) && history == old(history) && state == old(state)
    {
      if store != null {
        var state := store.Load(broken);
        if state.None? {
          return false;
        }
        sessions := state.value;
      } else {
        if stateFile == "" {
          return true;
        }
        if file.Damaged? {
          return false;
        }
        if file.Holds? {
          sessions := file.sessions;
        }
      }
      Record(Restart(users.users));
      return true;
    }

    // ---------- calls ----------

    /** Looks the user up and compares the digests. */
    method CheckCredentials(username: string, password: string) returns (u: Option<User>)
      requires users.Valid()
      ensures u == if CanLogin(users.users, username, password) then Some(users.users[username]) else None
    {
      var found := users.GetByUsername(username);
      if found.None? || !VerifyPassword(password, found.value.passwordHash) {
        return None;
      }
      return found;
    }

    /** A map stays well formed when a session with a new token and a new id joins it. */
    lemma FreshSessionFits(session: Session)
      requires Leads(cfg, history, state) && session.token !in state.born && !HasId(state.born, session.id)
      requires session.token != ""
      ensures session.token !in state.mem && state.mem[session.token := session] - {session.token} == state.mem
      ensures KeyedByToken(state.mem[session.token := session]) && DistinctIds(state.mem[session.token := session])
    {
      SessionsWellFormed();
      LeadsInv(cfg, history, state);
      forall t | t in state.mem
        ensures state.mem[t].id != session.id
      {
        assert t in state.disk && t in state.born;
      }
    }

    /** The first half of Login's locked section. */
    method InsertAndPersist(session: Session, fault: Fault) returns (ok: bool)
      requires Leads(cfg, history, state) && sessions == state.mem
      requires session.token != "" && session.token !in state.born && !HasId(state.born, session.id)
      modifies store, this`sessions, this`file
      ensures sessions == old(sessions)[session.token := session] && (ok <==> Fate(fault, sessions).Saved?)
      ensures session.token !in old(sessions) && sessions - {session.token} == old(sessions)
      ensures Persistent() ==> Durable() == Persist(sessions, old(Durable()), Fate(fault, sessions))
    {
      FreshSessionFits(session);
      sessions := sessions[session.token := session];
      ok := PersistSessionsLocked(fault);
    }

    /** The rest of Login: stamp the session, then, under the lock, insert, save, and take the session back
        when the save failed. */
    method StoreSession(u: User, ghost username: string, ghost password: string, now: int, token: string, id: string,
                        fault: Fault) returns (r: Result<Session>)
      requires Valid() && state.now <= now
      requires CanLogin(users.users, username, password) && u == users.users[username]
      requires token != "" && token !in state.born && !HasId(state.born, id)
      modifies Repr()
      ensures Valid() && state.now == now && token !in old(sessions)
      ensures var session := NewSession(u, token, id, now, ttl);
              var added := old(sessions)[token := session];
              && r == (if Fate(fault, added).Saved? then Ok(session) else Failed(SaveFailed))
              && sessions == (if r.Ok? then added else old(sessions))
              && state.disk == Persist(added, old(state.disk), Fate(fault, added))
              && history == old(history) + [Tick(now), SetUsers(users.users)] +
                   [LoginRead(0, username, password), LoginStamp(0, token, id), LoginCommit(0, Fate(fault, added))]
    {
      var session := NewSession(u, token, id, now, ttl);
      Begin(now);
      var ok := InsertAndPersist(session, fault);
      assert session == NewSession(state.users[username], token, id, state.now, cfg.ttl);
      RecordLogin(username, password, token, id, Fate(fault, sessions));
      if !ok {
        sessions := sessions - {token};
        return Failed(SaveFailed);
      }
      return Ok(session);
    }

    /** A login goes through exactly when the credentials match, a token could be drawn, and the save held;
        otherwise the sessions are as before. Only a save that broke after taking hold leaves the new
        session behind, on disk. */
    method Login(username: string, password: string, now: int, token: Option<string>, id: string, fault: Fault)
      returns (r: Result<Session>)
      requires Valid() && state.now <= now
      requires token.Some? ==> token.value != "" && token.value !in state.born && !HasId(state.born, id)
      modifies Repr()
      ensures Valid() && state.now <= now
      ensures !CanLogin(users.users, username, password) ==>
        r == Failed(InvalidCredentials) && sessions == old(sessions) && state.disk == old(state.disk)
      ensures CanLogin(users.users, username, password) && token.None? ==>
        r == Failed(NoRandom) && sessions == old(sessions) && state.disk == old(state.disk)
      ensures CanLogin(users.users, username, password) && token.Some? ==>
        var session := NewSession(users.users[username], token.value, id, now, ttl);
        var added := old(sessions)[token.value := session];
        && token.value !in old(sessions)
        && r == (if Fate(fault, added).Saved? then Ok(session) else Failed(SaveFailed))
        && sessions == (if r.Ok? then added else old(sessions))
        && state.disk == Persist(added, old(state.disk), Fate(fault, added))
        && history == old(history) + [Tick(now), SetUsers(users.users)] +
             [LoginRead(0, username, password), LoginStamp(0, token.value, id), LoginCommit(0, Fate(fault, added))]
      ensures r.Ok? ==> OpenedFor(r.value, users.users[username], token.value, id, now)
    {
      var u := CheckCredentials(username, password);
      if u.None? {
        return Failed(InvalidCredentials);
      }
      if token.None? {
        return Failed(NoRandom);
      }
      r := StoreSession(u.value, username, password, now, token.value, id, fault);
    }

    /** The read section, then, when the session has expired, the delete section; its save is not waited for.
        The answer is the atomic one. */
    method ValidateToken(token: string, now: int, fault: Fault) returns (r: Result<Session>)
      requires Valid() && state.now <= now
      modifies Repr()
      ensures Valid()
      ensures r == match Answer(old(sessions), now, token)
                   case Some(session) => Ok(session)
                   case None => Failed(InvalidToken)
      ensures r.Ok? <==> token in old(sessions) && now <= old(sessions)[token].expiresAt
      ensures r.Ok? ==> r.value == old(sessions)[token]
      ensures sessions == if r.Ok? then old(sessions) else old(sessions) - {token}
      ensures token in old(sessions) && r.Failed? ==>
        state.disk == Persist(sessions, old(state.disk), Fate(fault, sessions))
      ensures token !in old(sessions) || r.Ok? ==> state.disk == old(state.disk)
      ensures state.now == now && state.users == users.users
    {
      Begin(now);
      if token !in sessions {
        Record(ReadMiss(0, token));
        return Failed(InvalidToken);
      }
      var session := sessions[token];
      if now > session.expiresAt {
        var _ := DeleteAndPersist(token, fault);
        RecordPurge(token, Fate(fault, sessions));
        return Failed(InvalidToken);
      }
      RecordAccept(token);
      return Ok(session);
    }

    /** Logout, and RevokeToken, which has the same text: the removal stays even when the save fails. */
    method Logout(token: string, now: int, fault: Fault) returns (r: Result<()>)
      requires Valid() && state.now <= now
      modifies Repr()
      ensures Valid()
      ensures sessions == old(sessions) - {token}
      ensures token !in old(sessions) ==> r == Failed(InvalidToken) && state.disk == old(state.disk)
      ensures token in old(sessions) ==>
        && r == (if Fate(fault, sessions).Saved? then Ok(()) else Failed(SaveFailed))
        && state == Remove(old(state).(now := now, users := users.users), token, Fate(fault, sessions))
    {
      Begin(now);
      if token !in sessions {
        Record(LogoutMiss(token));
        return Failed(InvalidToken);
      }
      var ok := DeleteAndPersist(token, fault);
      RecordTakeOut(SessionMachine.Event.Logout(token, Fate(fault, sessions)), token);
      return if ok then Ok(()) else Failed(SaveFailed);
    }

    /** Walks the map in any order until an id matches. The empty string stands for "not found", which is
        sound because no session has an empty token; the order does not matter because ids are distinct. */
    method FindById(sessionId: string) returns (foundToken: string)
      requires KeyedByToken(sessions) && DistinctIds(sessions)
      ensures foundToken == "" <==> !HasId(sessions, sessionId)
      ensures foundToken != "" ==> foundToken in sessions && sessions[foundToken].id == sessionId
      ensures DropId(sessions, sessionId) == sessions - {foundToken}
    {
      var pending := sessions.Keys;
      while pending != {}
        invariant pending <= sessions.Keys
        invariant forall t :: t in sessions && t !in pending ==> sessions[t].id != sessionId
        decreases pending
      {
        var token :| token in pending;
        if sessions[token].id == sessionId {
          assert HasId(sessions, sessionId);
          return token;
        }
        pending := pending - {token};
      }
      return "";
    }

    /** Revokes the session with this id, and no other. */
    method RevokeSessionByID(sessionId: string, now: int, fault: Fault) returns (r: Result<()>)
      requires Valid() && state.now <= now
      modifies Repr()
      ensures Valid() && state.now == now
      ensures sessions == DropId(old(sessions), sessionId)
      ensures forall t :: t in sessions <==> t in old(sessions) && old(sessions)[t].id != sessionId
      ensures !HasId(old(sessions), sessionId) ==>
        r == Failed(InvalidToken) && sessions == old(sessions) && state.disk == old(state.disk)
      ensures HasId(old(sessions), sessionId) ==>
        && r == (if Fate(fault, sessions).Saved? then Ok(()) else Failed(SaveFailed))
        && state.disk == Persist(sessions, old(state.disk), Fate(fault, sessions))
    {
      SessionsWellFormed();
      Begin(now);
      var foundToken := FindById(sessionId);
      if foundToken == "" {
        Record(RevokeMiss(sessionId));
        assert sessions - {""} == sessions;
        return Failed(InvalidToken);
      }
      var ok := DeleteAndPersist(foundToken, fault);
      RecordTakeOut(Revoke(sessionId, foundToken, Fate(fault, sessions)), foundToken);
      return if ok then Ok(()) else Failed(SaveFailed);
    }

    /** Deletes while it walks: each unexpired session is returned once, and exactly those stay in the map. */
    method PurgeAndCollect(now: int) returns (out: seq<Session>, dirty: bool, ghost order: seq<string>)
      modifies this`sessions
      ensures sessions == Live(old(sessions), now) && (dirty <==> sessions != old(sessions))
      ensures forall t :: t in sessions <==> t in old(sessions) && now <= old(sessions)[t].expiresAt
      ensures forall i :: 0 <= i < |out| ==> now <= out[i].expiresAt
      ensures Enumerates(order, sessions.Keys) && out == Pick(sessions, order)
    {
      ghost var before := sessions;
      out, order, dirty := [], [], false;
      var pending := sessions.Keys;
      while pending != {}
        invariant pending <= sessions.Keys <= before.Keys
        invariant forall t :: t in sessions ==> sessions[t] == before[t]
        invariant forall t :: t in before && t !in sessions ==> now > before[t].expiresAt
        invariant forall t :: t in sessions && t !in pending ==> now <= before[t].expiresAt
        invariant Enumerates(order, sessions.Keys - pending)
        invariant |out| == |order|
        invariant forall i :: 0 <= i < |order| ==> order[i] in sessions && out[i] == sessions[order[i]]
        invariant dirty <==> sessions != before
        decreases pending
      {
        var token :| token in pending;
        var session := sessions[token];
        pending := pending - {token};
        if now > session.expiresAt {
          sessions := sessions - {token};
          dirty := true;
          continue;
        }
        out, order := out + [session], order + [token];
      }
      assert sessions.Keys - pending == sessions.Keys;
      assert sessions == Live(before, now);
    }

    lemma LiveSessionsFit(at: int)
      requires Leads(cfg, history, state)
      ensures KeyedByToken(Live(state.mem, at)) && DistinctIds(Live(state.mem, at))
    {
      SessionsWellFormed();
    }

    /** The locked section of a listing: what is left is saved when something was purged. */
    method PurgeAndPersist(now: int, fault: Fault) returns (out: seq<Session>, ghost order: seq<string>)
      requires Leads(cfg, history, state) && sessions == state.mem
      modifies store, this`sessions, this`file
      ensures sessions == Live(old(sessions), now)
      ensures forall t :: t in sessions <==> t in old(sessions) && now <= old(sessions)[t].expiresAt
      ensures Enumerates(order, sessions.Keys) && out == Pick(sessions, order)
      ensures forall i :: 0 <= i < |out| ==> now <= out[i].expiresAt
      ensures Persistent() && sessions == old(sessions) ==> Durable() == old(Durable())
      ensures Persistent() && sessions != old(sessions) ==>
        Durable() == Persist(sessions, old(Durable()), Fate(fault, sessions))
    {
      LiveSessionsFit(now);
      var dirty;
      out, dirty, order := PurgeAndCollect(now);
      if dirty {
        var _ := PersistSessionsLocked(fault);
      }
    }

    /** Lists, and saves what is left when something was purged; that save is not waited for. */
    method ListSessions(now: int, fault: Fault) returns (out: seq<Session>, ghost order: seq<string>)
      requires Valid() && state.now <= now
      modifies Repr()
      ensures Valid() && state.now == now
      ensures sessions == Live(old(sessions), now)
      ensures forall t :: t in sessions <==> t in old(sessions) && now <= old(sessions)[t].expiresAt
      ensures Enumerates(order, sessions.Keys) && out == Pick(sessions, order)
      ensures forall i :: 0 <= i < |out| ==> now <= out[i].expiresAt
      ensures state.disk ==
        if sessions == old(sessions) then old(state.disk) else Persist(sessions, old(state.disk), Fate(fault, sessions))
    {
      Begin(now);
      out, order := PurgeAndPersist(now, fault);
      RecordList(Fate(fault, sessions));
    }

    /** The listing without the tokens. */
    method ListSessionViews(now: int, fault: Fault) returns (out: seq<SessionView>)
      requires Valid() && state.now <= now
      modifies Repr()
      ensures Valid() && state.now == now
      ensures sessions == Live(old(sessions), now)
      ensures forall t :: t in sessions <==> t in old(sessions) && now <= old(sessions)[t].expiresAt
      ensures ViewsOf(out, sessions)
      ensures forall i :: 0 <= i < |out| ==> now <= out[i].expiresAt
      ensures state.disk ==
        if sessions == old(sessions) then old(state.disk) else Persist(sessions, old(state.disk), Fate(fault, sessions))
    {
      var listed;
      ghost var order;
      listed, order := ListSessions(now, fault);
      SessionsWellFormed();
      out := AllViews(listed);
      ViewsEnumerate(out, listed, order, sessions);
    }

    /** Revokes the sessions with these ids one after the other, in any order. */
    method RevokeEach(ids: set<string>, now: int) returns (replies: seq<Result<()>>, ghost order: seq<string>)
      requires Valid() && state.now <= now && forall id :: id in ids ==> HasId(sessions, id)
      modifies Repr()
      ensures Valid() && Enumerates(order, ids)
      ensures |replies| == |order| && forall k :: 0 <= k < |replies| ==> replies[k] == Ok(())
      ensures sessions == DropIds(old(sessions), order)
    {
      ghost var before := sessions;
      SessionsWellFormed();
      replies, order := [], [];
      var pending := ids;
      while pending != {}
        invariant Valid() && state.now <= now && pending <= ids && Enumerates(order, ids - pending)
        invariant sessions == DropIds(before, order)
        invariant |replies| == |order| && forall k :: 0 <= k < |replies| ==> replies[k] == Ok(())
        decreases pending
      {
        var id :| id in pending;
        NextRevocation(before, ids, order, pending, id);
        var r := RevokeSessionByID(id, now, Healthy);
        replies, order := replies + [r], order + [id];
        pending := pending - {id};
      }
      assert ids - pending == ids;
    }

    /** What the sessions page does: list the sessions, then revoke the chosen ones among them. While saves hold,
        every revocation returns Ok, and exactly the chosen ones go. */
    method ListThenRevoke(chosen: set<string>, now: int) returns (views: seq<SessionView>, replies: seq<Result<()>>)
      requires Valid() && state.now <= now
      modifies Repr()
      ensures Valid()
      ensures ViewsOf(views, Live(old(sessions), now))
      ensures |replies| == |ViewedIds(views, chosen)| && forall k :: 0 <= k < |replies| ==> replies[k] == Ok(())
      ensures sessions == Without(Live(old(sessions), now), chosen)
      ensures forall t :: t in sessions <==>
        && t in old(sessions) && now <= old(sessions)[t].expiresAt && old(sessions)[t].id !in chosen
    {
      views := ListSessionViews(now, Healthy);
      ghost var listed := sessions;
      ghost var order;
      var ids := ViewedIds(views, chosen);
      forall id | id in ids
        ensures HasId(listed, id)
      {
        ViewedMeansThere(views, listed, id);
      }
      replies, order := RevokeEach(ids, now);
      EnumerationSize(order, ids);
      DropIdsOf(listed, ids, order);
      ViewedIdsSuffice(views, chosen, listed);
    }

    /** Policy, token and old password are good. */
    ghost predicate MayChangePassword(m: SessionMap, us: Users, token: string, current: string, replacement: string,
                                      now: int)
    {
      && MeetsPolicy(tables, replacement)
      && Answer(m, now, token).Some? && CanLogin(us, m[token].username, current)
    }

    /** From `us` to `us'`, the user's hash became that of `password`: it, and whatever shares its digest, is what
        logs the user in. Nobody else is touched. */
    ghost predicate PasswordReplaced(us: Users, us': Users, username: string, password: string) {
      && us'.Keys == us.Keys && username in us'
      && us'[username] == us[username].(passwordHash := HashPassword(password))
      && (forall n :: n in us && n != username ==> us'[n] == us[n])
      && (forall p :: CanLogin(us', username, p) <==> HashPassword(p) == HashPassword(password))
    }

    lemma PutReplaces(us: Users, username: string, password: string)
      requires username in us
      ensures PasswordReplaced(us, us[username := us[username].(passwordHash := HashPassword(password))],
                               username, password)
    {
    }

    lemma ReplacedIsSameIff(us: Users, us': Users, username: string, current: string, password: string)
      requires CanLogin(us, username, current) && PasswordReplaced(us, us', username, password)
      ensures us' == us <==> HashPassword(password) == HashPassword(current)
    {
    }

    /** The rest of ChangePassword, once the token is good. */
    method ReplacePassword(username: string, currentPassword: string, newPassword: string, userWriteFails: bool)
      returns (r: Result<()>)
      requires Valid()
      modifies users
      ensures Valid()
      ensures r == if !CanLogin(old(users.users), username, currentPassword) then Failed(InvalidCredentials)
                   else if userWriteFails then Failed(UserStoreFailed) else Ok(())
      ensures if CanLogin(old(users.users), username, currentPassword)
              then PasswordReplaced(old(users.users), users.users, username, newPassword)
              else users.users == old(users.users)
    {
      var user := CheckCredentials(username, currentPassword);
      if user.None? {
        return Failed(InvalidCredentials);
      }
      PutReplaces(users.users, username, newPassword);
      var stored := users.Put(user.value.(passwordHash := HashPassword(newPassword)), userWriteFails);
      return if stored then Ok(()) else Failed(UserStoreFailed);
    }

    /** With good inputs the new password is in force whether or not the user file could be written, and the answer
        says which; with any other input no user is touched. So a failed call leaves the users alone exactly when
        an input was bad or both passwords have the same digest. */
    method ChangePassword(token: string, currentPassword: string, newPassword: string, now: int,
                          fault: Fault, userWriteFails: bool) returns (r: Result<()>)
      requires Valid() && state.now <= now
      modifies Repr(), users
      ensures Valid()
      ensures var good := MayChangePassword(old(sessions), old(users.users), token, currentPassword, newPassword, now);
              && (r.Ok? <==> good && !userWriteFails)
              && (r == Failed(UserStoreFailed) <==> good && userWriteFails)
              && (good ==>
                    && PasswordReplaced(old(users.users), users.users, old(sessions)[token].username, newPassword)
                    && sessions == old(sessions) && state.disk == old(state.disk))
              && (!r.Ok? ==>
                    (users.users == old(users.users) <==>
                      !good || HashPassword(newPassword) == HashPassword(currentPassword)))
      ensures r == Failed(WeakPassword) <==> !MeetsPolicy(tables, newPassword)
      ensures r == Failed(WeakPassword) ==>
        && sessions == old(sessions) && state.disk == old(state.disk)
        && users.users == old(users.users) && history == old(history)
      ensures r == Failed(InvalidToken) <==> MeetsPolicy(tables, newPassword) && Answer(old(sessions), now, token).None?
      ensures r == Failed(InvalidCredentials) <==>
        && MeetsPolicy(tables, newPassword) && Answer(old(sessions), now, token).Some?
        && !CanLogin(old(users.users), old(sessions)[token].username, currentPassword)
      ensures sessions == if r == Failed(InvalidToken) then old(sessions) - {token} else old(sessions)
    {
      var strong := ValidatePasswordPolicy(tables, newPassword);
      if !strong {
        return Failed(WeakPassword);
      }
      var checked := ValidateToken(token, now, fault);
      if checked.Failed? {
        return Failed(checked.error);
      }
      r := ReplacePassword(checked.value.username, currentPassword, newPassword, userWriteFails);
      if CanLogin(old(users.users), checked.value.username, currentPassword) {
        ReplacedIsSameIff(old(users.users), users.users, checked.value.username, currentPassword, newPassword);
      }
    }

    /** Adds the bootstrap user when no user has its name. */
    method EnsureBootstrapUser(name: string, password: string, writeFails: bool) returns (ok: bool)
      requires Valid()
      modifies users
      ensures Valid()
      ensures ok <==> name in old(users.users) || !writeFails
      ensures users.users == if name in old(users.users) then old(users.users)
        else old(users.users)[name := User("bootstrap-admin", name, HashPassword(password), ["admin"])]
    {
      var boot := users.GetByUsername(name);
      if boot.Some? {
        return true;
      }
      ok := users.Put(User("bootstrap-admin", name, HashPassword(password), ["admin"]), writeFails);
    }
  }

  /** Builds the service and reads its session file; fails on a bad configuration or a damaged file. */
  method OpenFileService(ttl: int, pepper: string, sha: string -> string, tables: RuneTables, users: FileUserStore,
                         stateFile: string, file: SessionFile,
                         ghost cfg: Config, ghost prior: seq<Event>, ghost past: State) returns (s: AuthService?)
    requires users.Valid()
    requires cfg.ttl == ttl && forall p :: cfg.hash(p) == sha(pepper + ":" + p)
    requires Leads(cfg, prior, past)
    requires if stateFile != "" then FileSessions(file) == past.disk else past == Start(cfg)
    ensures s == null <==> pepper == "" || ttl <= 0 || (stateFile != "" && file.Damaged?)
    ensures s != null ==> fresh(s) && s.Valid() && s.users == users && s.store == null
    ensures s != null ==>
      s.ttl == ttl && s.pepper == pepper && s.sha == sha && s.tables == tables && s.stateFile == stateFile
    ensures s != null ==> if stateFile != "" then s.sessions == FileSessions(file) else s.state == past
  {
    if pepper == "" || ttl <= 0 {
      return null;
    }
    LeadsStart(cfg);
    var service := new AuthService(ttl, pepper, sha, tables, users, null, stateFile, file, cfg, prior, past);
    var ok := service.LoadSessionState(false);
    return if ok then service else null;
  }

  /** The file-backed start-up: user store, session service, session state, bootstrap user. Since the user file
      holds no password hashes, the only account that can log in afterwards is a bootstrap user that was not
      in the file; a bootstrap user that was in it is kept as it was read, and locked out with the rest. */
  method StartUp(ttl: int, pepper: string, sha: string -> string, tables: RuneTables,
                 userPath: string, userFile: UserFile, stateFile: string, file: SessionFile,
                 bootName: string, bootPassword: string, writeFails: bool,
                 ghost cfg: Config, ghost prior: seq<Event>, ghost past: State) returns (s: AuthService?)
    requires cfg.ttl == ttl && forall p :: cfg.hash(p) == sha(pepper + ":" + p)
    requires Leads(cfg, prior, past)
    requires if stateFile != "" then FileSessions(file) == past.disk else past == Start(cfg)
    requires forall x :: sha(x) != ""
    ensures s == null <==>
      || Trim(userPath) == "" || userFile.Garbled?
      || pepper == "" || ttl <= 0 || (stateFile != "" && file.Damaged?)
      || (bootName !in FileUsers(userFile) && writeFails)
    ensures s != null ==> s.Valid() && (stateFile != "" ==> s.sessions == FileSessions(file))
    ensures s != null ==> s.users.users.Keys == FileUsers(userFile).Keys + {bootName}
    ensures s != null ==> forall name :: name in FileUsers(userFile) ==>
      s.users.users[name] == FileUsers(userFile)[name] && s.users.users[name].passwordHash == ""
    ensures s != null && bootName !in FileUsers(userFile) ==>
      var boot := s.users.users[bootName];
      boot.id == "bootstrap-admin" && boot.username == bootName && boot.roles == ["admin"]
    ensures s != null ==> forall name, p :: s.CanLogin(s.users.users, name, p) <==>
      name == bootName && bootName !in FileUsers(userFile) && s.HashPassword(p) == s.HashPassword(bootPassword)
  {
    var users := OpenUserStore(userPath, userFile);
    if users == null {
      return null;
    }
    LoadedUsersHaveNoHash(if userFile.Encoded? then userFile.records else []);
    var service := OpenFileService(ttl, pepper, sha, tables, users, stateFile, file, cfg, prior, past);
    if service == null {
      return null;
    }
    var ok := service.EnsureBootstrapUser(bootName, bootPassword, writeFails);
    return if ok then service else null;
  }

  /** A fresh service without files whose one user has the given password. */
  method OneUserService(ttl: int, pepper: string, sha: string -> string, tables: RuneTables,
                        name: string, password: string) returns (s: AuthService)
    requires ttl > 0 && pepper != ""
    ensures fresh(s) && fresh(s.users) && s.store == null && s.Valid() && s.state.now == 0 && s.state.born == map[]
    ensures s.ttl == ttl && s.stateFile == "" && s.tables == tables && s.CanLogin(s.users.users, name, password)
  {
    var users := new FileUserStore(UserFile.Missing);
    var _ := users.Put(User("1", name, sha(pepper + ":" + password), []), false);
    ghost var cfg := Config(ttl, 0, p => sha(pepper + ":" + p));
    LeadsStart(cfg);
    s := OpenFileService(ttl, pepper, sha, tables, users, "", SessionFile.Absent, cfg, [], Start(cfg));
  }

  /** A failed write in the flesh: a user logs in and changes the password while the user file cannot be written.
      The call reports the failure, and from then on the new password logs the user in, and the old one, unless
      the digests agree, does not. */
  method FailedWriteSetsPassword(ttl: int, pepper: string, sha: string -> string, tables: RuneTables,
                                 name: string, oldPassword: string, newPassword: string, token: string)
    returns (s: AuthService, r: Result<()>)
    requires ttl > 0 && pepper != "" && token != "" && MeetsPolicy(tables, newPassword)
    ensures s.Valid() && r == Failed(UserStoreFailed)
    ensures s.CanLogin(s.users.users, name, newPassword)
    ensures s.CanLogin(s.users.users, name, oldPassword) <==> s.HashPassword(oldPassword) == s.HashPassword(newPassword)
  {
    s := OneUserService(ttl, pepper, sha, tables, name, oldPassword);
    var login := s.Login(name, oldPassword, 0, Some(token), "1", Healthy);
    r := s.ChangePassword(token, oldPassword, newPassword, 0, Healthy, true);
  }
}
