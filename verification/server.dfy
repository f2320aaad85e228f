/** The HTTP handlers as steps of one server over its three services, and what no sequence of requests can do. */
module Server {
  import A = AuthService
  import M = Migrations
  import P = Profiles
  import opened PasswordPolicy
  import PS = ProfileServices
  import opened Options
  import opened Parsers
  import opened SessionLinear
  import opened SessionMachine
  import opened SessionStore
  import opened Sorting
  import opened Text
  import U = UserStore

  datatype Verb = GET | POST | PUT | DELETE | OTHER

  /** The handler a request reaches; item routes carry the path. */
  datatype Route =
    | Login | Me | Logout | ChangePassword
    | Sessions | SessionItem(path: string)
    | ProfileList | ProfileItem(path: string)
    | MigrationList | MigrationStatus | MigrationItem(path: string)

  datatype Body =
    | Malformed
    | Credentials(username: string, password: string)
    | Passwords(current: string, replacement: string)
    | ProfileBody(p: P.Profile)

  datatype Request = Request(verb: Verb, route: Route, header: string, body: Body)

  /** What the outside adds to a request: clock readings, random draws, and what breaks. */
  datatype Env = Env(
    now: int, later: int, token: Option<string>, sessionId: string, profileId: Option<string>,
    checkFault: Fault, fault: Fault, writeFails: bool,
    dirFails: bool, unreadable: set<string>, statFails: bool, appliedAt: string)

  datatype Content =
    | Nothing | Problem
    | Opened(session: Session) | Views(views: seq<A.SessionView>)
    | One(p: P.Profile) | Many(ps: seq<P.Profile>)
    | Files(files: seq<M.FileInfo>) | Statuses(rows: seq<M.Status>) | Marked(name: string)

  datatype Response = Response(status: nat, content: Content)

  predicate HasCredentials(body: Body) {
    body.Credentials? && body.username != "" && body.password != ""
  }

  predicate HasPasswords(body: Body) {
    body.Passwords? && body.current != "" && body.replacement != ""
  }

  function Fail(status: nat): Response {
    Response(status, Problem)
  }

  predicate Succeeded(r: Response) {
    200 <= r.status < 300
  }

  // ---------- what a request may change ----------

  /** The data a request can touch. */
  datatype Snapshot = Snapshot(sessions: SessionMap, users: U.Users, profiles: P.ProfileMap, applied: Option<M.Applied>)

  /** The session the bearer token of the request stands for at the given time. */
  function Bearer(b: Snapshot, req: Request, at: int): Option<Session> {
    match ExtractBearer(req.header)
    case Rejected => None
    case Accepted(token) => Answer(b.sessions, at, token)
  }

  /** The request carries the token of a live session with the admin role. */
  ghost predicate ByAdmin(b: Snapshot, req: Request, at: int) {
    Bearer(b, req, at).Some? && HasRole(Bearer(b, req, at).value.roles, "admin")
  }

  /** The request asks, as an admin, for the revocation of this session. */
  ghost predicate RevokedByAdmin(b: Snapshot, req: Request, at: int, session: Session) {
    && req.route.SessionItem? && req.verb.DELETE? && ByAdmin(b, req, at)
    && ParseSessionId(req.route.path) == Accepted(session.id)
  }

  /** The requests that may change profiles: a creation, an update, a deletion. */
  predicate WritesProfiles(req: Request) {
    || (req.route.ProfileList? && req.verb.POST?)
    || (req.route.ProfileItem? && (req.verb.PUT? || req.verb.DELETE?))
  }

  /** The requests that may change what is applied: a mark. */
  predicate MarksMigration(req: Request) {
    req.route.MigrationItem? && req.verb.POST?
  }

  /** Profiles and applied migrations change only by a request that is made for it, comes from an admin, and is
      answered with success. */
  ghost predicate DataSafe(b: Snapshot, req: Request, env: Env, resp: Response, a: Snapshot) {
    && (a.profiles != b.profiles ==> WritesProfiles(req) && ByAdmin(b, req, env.now) && Succeeded(resp))
    && (a.applied != b.applied ==> MarksMigration(req) && ByAdmin(b, req, env.now) && Succeeded(resp))
  }

  /** A session goes away only when it has expired, when its own bearer logs out, or when an admin revokes it;
      one comes in only by a login that succeeds; and no session ever changes. */
  ghost predicate SessionsSafe(b: Snapshot, req: Request, env: Env, resp: Response, a: Snapshot) {
    && (forall t :: t in b.sessions && t !in a.sessions ==>
          || b.sessions[t].expiresAt < env.later
          || (req.route.Logout? && ExtractBearer(req.header) == Accepted(t))
          || RevokedByAdmin(b, req, env.now, b.sessions[t]))
    && (forall t :: t in a.sessions && t !in b.sessions ==>
          req.route.Login? && resp == Response(200, Opened(a.sessions[t])))
    && (forall t :: t in a.sessions && t in b.sessions ==> a.sessions[t] == b.sessions[t])
  }

  /** A user record changes only for the bearer of a live session of that user. */
  ghost predicate UsersSafe(b: Snapshot, req: Request, env: Env, a: Snapshot) {
    a.users != b.users ==>
      && req.route.ChangePassword? && Bearer(b, req, env.later).Some?
      && a.users.Keys == b.users.Keys
      && forall n :: n in b.users && n != Bearer(b, req, env.later).value.username ==> a.users[n] == b.users[n]
  }

  /** The account has no password hash, as after a start-up that read it from the user file. */
  predicate Locked(users: U.Users, name: string) {
    name in users && users[name].passwordHash == ""
  }

  /** A locked account stays as it is, and no login with its name succeeds. */
  ghost predicate LocksSafe(b: Snapshot, req: Request, resp: Response, a: Snapshot) {
    && (forall n :: Locked(b.users, n) ==> n in a.users && a.users[n] == b.users[n])
    && (req.route.Login? && Succeeded(resp) ==> req.body.Credentials? && !Locked(b.users, req.body.username))
  }

  ghost predicate Safe(b: Snapshot, req: Request, env: Env, resp: Response, a: Snapshot) {
    && DataSafe(b, req, env, resp, a) && SessionsSafe(b, req, env, resp, a)
    && UsersSafe(b, req, env, a) && LocksSafe(b, req, resp, a)
  }

  /** Nothing changed, but for sessions that had expired. */
  ghost predicate PurgedOnly(b: Snapshot, at: int, a: Snapshot) {
    && a == b.(sessions := a.sessions)
    && SubMap(a.sessions, b.sessions)
    && forall t :: t in b.sessions && t !in a.sessions ==> b.sessions[t].expiresAt < at
  }

  /** What a validation of this token leaves. */
  function Checked(b: Snapshot, token: string, at: int): Snapshot {
    if Answer(b.sessions, at, token).Some? then b else b.(sessions := b.sessions - {token})
  }

  lemma CheckingPurgesOnly(b: Snapshot, token: string, at: int)
    ensures PurgedOnly(b, at, Checked(b, token, at))
  {
  }

  /** A validation of a token and then its logout leave the same as its logout alone. */
  lemma CheckedThenEnded(b: Snapshot, token: string, at: int)
    ensures Checked(b, token, at).(sessions := Checked(b, token, at).sessions - {token}) ==
      b.(sessions := b.sessions - {token})
    ensures token in Checked(b, token, at).sessions <==> Answer(b.sessions, at, token).Some?
  {
    assert b.sessions - {token} - {token} == b.sessions - {token};
  }

  lemma PurgingIsSafe(b: Snapshot, req: Request, env: Env, resp: Response, at: int, a: Snapshot)
    requires PurgedOnly(b, at, a) && at <= env.later && !req.route.Login?
    ensures Safe(b, req, env, resp, a)
  {
  }

  lemma LoginIsSafe(b: Snapshot, req: Request, env: Env, token: string, session: Session)
    requires req.route.Login? && HasCredentials(req.body) && !Locked(b.users, req.body.username) && token !in b.sessions
    ensures Safe(b, req, env, Response(200, Opened(session)), b.(sessions := b.sessions[token := session]))
  {
  }

  lemma LogoutIsSafe(b: Snapshot, req: Request, env: Env, resp: Response, token: string, a: Snapshot)
    requires req.route.Logout? && ExtractBearer(req.header) == Accepted(token)
    requires a == b.(sessions := b.sessions - {token})
    ensures Safe(b, req, env, resp, a)
  {
  }

  lemma RevocationIsSafe(b: Snapshot, req: Request, env: Env, resp: Response, id: string, a: Snapshot)
    requires req.route.SessionItem? && req.verb.DELETE? && ByAdmin(b, req, env.now)
    requires ParseSessionId(req.route.path) == Accepted(id)
    requires a == b.(sessions := A.DropId(b.sessions, id))
    ensures Safe(b, req, env, resp, a)
  {
  }

  lemma ProfileChangeIsSafe(b: Snapshot, req: Request, env: Env, resp: Response, a: Snapshot)
    requires ByAdmin(b, req, env.now) && a == b.(profiles := a.profiles) && !req.route.Login?
    requires a != b ==> WritesProfiles(req) && Succeeded(resp)
    ensures Safe(b, req, env, resp, a)
  {
  }

  lemma MarkingIsSafe(b: Snapshot, req: Request, env: Env, resp: Response, a: Snapshot)
    requires MarksMigration(req) && ByAdmin(b, req, env.now) && a == b.(applied := a.applied)
    requires !Succeeded(resp) ==> a == b
    ensures Safe(b, req, env, resp, a)
  {
  }

  /** A password change touches the record of the live session's user only, and not a locked one, or it purges
      that session. */
  ghost predicate PasswordOutcome(b: Snapshot, token: string, at: int, a: Snapshot) {
    || a == b
    || a == Checked(b, token, at)
    || (&& Answer(b.sessions, at, token).Some? && a == b.(users := a.users) && a.users.Keys == b.users.Keys
        && !Locked(b.users, b.sessions[token].username)
        && forall n :: n in b.users && n != b.sessions[token].username ==> a.users[n] == b.users[n])
  }

  lemma PasswordChangeIsSafe(b: Snapshot, req: Request, env: Env, resp: Response, token: string, a: Snapshot)
    requires req.route.ChangePassword? && ExtractBearer(req.header) == Accepted(token) && env.now <= env.later
    requires PasswordOutcome(Checked(b, token, env.now), token, env.later, a)
    ensures Safe(b, req, env, resp, a)
  {
  }

  // ---------- what a request does ----------

  /** The verdict of the gate: 200 to go on, or the status of the refusal. */
  ghost function GateStatus(open: bool, b: Snapshot, req: Request, role: string, at: int): nat {
    if !open then 503
    else if Bearer(b, req, at).None? then 401
    else if role != "" && !HasRole(Bearer(b, req, at).value.roles, role) then 403
    else 200
  }

  /** The request carries this token, and it is that of a session that has not expired. */
  ghost predicate CarriesLive(b: Snapshot, req: Request, at: int, token: string) {
    ExtractBearer(req.header) == Accepted(token) && token in b.sessions && at <= b.sessions[token].expiresAt
  }

  predicate Allows(session: Session, role: string) {
    role == "" || exists i :: 0 <= i < |session.roles| && EqualFold(Trim(session.roles[i]), role)
  }

  /** What the verdict means. */
  lemma GateExact(open: bool, b: Snapshot, req: Request, role: string, at: int)
    ensures var g := GateStatus(open, b, req, role, at);
      && g in {200, 401, 403, 503}
      && (g == 503 <==> !open)
      && (g == 401 <==> open && !exists token :: CarriesLive(b, req, at, token))
      && (g == 200 <==> open && exists token :: CarriesLive(b, req, at, token) && Allows(b.sessions[token], role))
    ensures GateStatus(open, b, req, role, at) == 200 ==>
      exists token :: CarriesLive(b, req, at, token) && Bearer(b, req, at) == Some(b.sessions[token])
  {
    match ExtractBearer(req.header)
    case Rejected =>
    case Accepted(token) =>
      assert CarriesLive(b, req, at, token) <==> Answer(b.sessions, at, token).Some?;
  }

  /** A listing at the given time: the sessions that have expired are gone, and the views show each of the others
      once. */
  ghost predicate SessionsListed(b: Snapshot, a: Snapshot, at: int, views: seq<A.SessionView>) {
    && a == b.(sessions := Live(b.sessions, at))
    && (forall t :: t in a.sessions <==> t in b.sessions && at <= b.sessions[t].expiresAt)
    && A.ViewsOf(views, a.sessions)
    && forall i :: 0 <= i < |views| ==> at <= views[i].expiresAt
  }

  lemma ListingIsSafe(b: Snapshot, req: Request, env: Env, resp: Response, a: Snapshot, views: seq<A.SessionView>)
    requires SessionsListed(b, a, env.later, views) && !req.route.Login?
    ensures Safe(b, req, env, resp, a)
  {
    PurgingIsSafe(b, req, env, resp, env.later, a);
  }

  function ProfileAnswer(r: P.Reply, good: nat): Response {
    match r
    case Found(p) => Response(good, One(p))
    case Done => Response(good, Nothing)
    case Refused(e) => Fail(if e.InvalidInput? then 400 else if e.NotFound? then 404 else 500)
  }

  /** What a profile item request past the gate does to the profiles, and its answer. */
  ghost predicate ItemAnswered(m: P.ProfileMap, m': P.ProfileMap, req: Request, now: int, fails: bool, resp: Response)
    requires req.route.ProfileItem?
  {
    match ParseProfileId(req.route.path)
    case Rejected => m' == m && resp == Fail(404)
    case Accepted(id) =>
      match req.verb
      case GET => m' == m && resp == if id in m then Response(200, One(m[id])) else Fail(404)
      case PUT =>
        if !req.body.ProfileBody? || !P.Valid(req.body.p) then m' == m && resp == Fail(400)
        else if id !in m then m' == m && resp == Fail(404)
        else if fails then m' == m && resp == Fail(500)
        else
          && resp.status == 200 && resp.content.One? && m' == m[id := resp.content.p]
          && P.Submitted(resp.content.p, req.body.p) && resp.content.p.modifiedAt == now
          && resp.content.p.id == m[id].id && resp.content.p.createdAt == m[id].createdAt
      case DELETE =>
        if id !in m then m' == m && resp == Fail(404)
        else if fails then m' == m && resp == Fail(500)
        else m' == m - {id} && resp == Response(204, Nothing)
      case _ => m' == m && resp == Fail(405)
  }

  /** The service step a verb stands for, and the status of its success. */
  predicate StandsFor(req: Request, id: string, now: int, op: P.Op, good: nat) {
    match req.verb
    case GET => op == P.Get(id) && good == 200
    case PUT => req.body.ProfileBody? && op == P.Update(id, req.body.p, now) && good == 200
    case DELETE => op == P.Delete(id) && good == 204
    case _ => false
  }

  lemma StepAnswers(m: P.ProfileMap, req: Request, id: string, op: P.Op, good: nat, now: int, fails: bool)
    requires req.route.ProfileItem? && ParseProfileId(req.route.path) == Accepted(id)
    requires StandsFor(req, id, now, op, good)
    ensures var step := P.FileStep(m, op, fails);
      && ItemAnswered(m, step.0, req, now, fails, ProfileAnswer(step.1, good))
      && (step.0 != m ==> (req.verb.PUT? || req.verb.DELETE?) && Succeeded(ProfileAnswer(step.1, good)))
  {
  }

  // ---------- conversations ----------

  datatype Exchange = Exchange(before: Snapshot, req: Request, env: Env, resp: Response, after: Snapshot)

  /** Requests served one after the other. */
  ghost predicate Conversation(xs: seq<Exchange>) {
    && (forall i :: 0 <= i < |xs| ==> Safe(xs[i].before, xs[i].req, xs[i].env, xs[i].resp, xs[i].after))
    && (forall i :: 0 <= i < |xs| - 1 ==> xs[i].after == xs[i + 1].before)
  }

  lemma CarriesOn(xs: seq<Exchange>, x: Exchange)
    requires Conversation(xs) && (xs != [] ==> xs[|xs| - 1].after == x.before)
    requires Safe(x.before, x.req, x.env, x.resp, x.after)
    ensures Conversation(xs + [x])
  {
    var ys := xs + [x];
    forall i | 0 <= i < |ys|
      ensures Safe(ys[i].before, ys[i].req, ys[i].env, ys[i].resp, ys[i].after)
    {
      assert i < |xs| ==> ys[i] == xs[i];
    }
    forall i | 0 <= i < |ys| - 1
      ensures ys[i].after == ys[i + 1].before
    {
      assert i < |xs| - 1 ==> ys[i] == xs[i] && ys[i + 1] == xs[i + 1];
    }
  }

  // ---------- the server ----------

  class Server {
    const auth: A.AuthService?
    const profiles: PS.FileProfileService?
    const migrations: M.MigrationService?

    ghost function AuthRepr(): set<object> {
      if auth == null then {} else auth.Repr() + {auth.users}
    }

    ghost function DataRepr(): set<object> {
      (if profiles == null then {} else {profiles}) + (if migrations == null then {} else {migrations.store})
    }

    ghost predicate Valid()
      reads AuthRepr(), DataRepr()
    {
      && AuthRepr() !! DataRepr()
      && (auth != null ==> auth.Valid() && forall p :: auth.HashPassword(p) != "")
      && (profiles != null ==> profiles.Valid())
      && (migrations != null ==> M.DistinctNames(migrations.dir))
    }

    constructor (auth: A.AuthService?, profiles: PS.FileProfileService?, migrations: M.MigrationService?)
      requires auth != null ==> auth.Valid() && forall p :: auth.HashPassword(p) != ""
      requires profiles != null ==> profiles.Valid()
      requires migrations != null ==> M.DistinctNames(migrations.dir)
      ensures Valid()
      ensures this.auth == auth && this.profiles == profiles && this.migrations == migrations
    {
      this.auth, this.profiles, this.migrations := auth, profiles, migrations;
    }

    /** The clock readings and random draws that go with a request. */
    ghost predicate Fits(env: Env)
      reads AuthRepr()
    {
      && env.now <= env.later
      && (auth != null ==>
            && auth.state.now <= env.now
            && (env.token.Some? ==>
                  && env.token.value != "" && env.token.value !in auth.state.born
                  && !HasId(auth.state.born, env.sessionId)))
      && (env.profileId.Some? ==> env.profileId.value != "")
    }

    /** The bearer is live at the second look, knows the old password, and asks for a good one. */
    ghost predicate AcceptsPassword(b: Snapshot, token: string, body: Body, env: Env)
      requires auth != null && HasPasswords(body)
    {
      auth.MayChangePassword(b.sessions, b.users, token, body.current, body.replacement, env.later)
    }

    /** How a request for a password change that carries a token and both passwords is answered. */
    ghost predicate PasswordAnswered(b: Snapshot, token: string, body: Body, env: Env, resp: Response, a: Snapshot)
      requires auth != null && HasPasswords(body)
    {
      var accepted := AcceptsPassword(b, token, body, env);
      && (resp.status == 204 <==> accepted && !env.writeFails)
      && (resp.status == 500 <==> accepted && env.writeFails)
      && (resp.status == 400 <==> !MeetsPolicy(auth.tables, body.replacement))
      && resp.status in {204, 400, 401, 500}
      && if accepted then auth.PasswordReplaced(b.users, a.users, b.sessions[token].username, body.replacement)
         else a.users == b.users
    }

    /** Looking at the token first, and purging its session if it has expired, makes no difference. */
    lemma AnsweredAfterCheck(b: Snapshot, token: string, body: Body, env: Env, resp: Response, a: Snapshot)
      requires auth != null && HasPasswords(body) && env.now <= env.later
      requires PasswordAnswered(Checked(b, token, env.now), token, body, env, resp, a)
      ensures PasswordAnswered(b, token, body, env, resp, a)
    {
    }

    /** A profile list request past the gate. */
    ghost predicate Listed(m: P.ProfileMap, m': P.ProfileMap, req: Request, env: Env, resp: Response)
      requires profiles != null
    {
      match req.verb
      case GET =>
        && m' == m && resp.status == 200 && resp.content.Many? && P.Lists(resp.content.ps, m)
        && forall i, j :: 0 <= i < j < |resp.content.ps| ==>
             resp.content.ps[i].createdAt <= resp.content.ps[j].createdAt
      case POST =>
        if !req.body.ProfileBody? || !P.Valid(req.body.p) then m' == m && resp == Fail(400)
        else if env.profileId.None? || (env.writeFails && profiles.stateFile != "") then m' == m && resp == Fail(500)
        else
          && resp.status == 201 && resp.content.One? && m' == m[env.profileId.value := resp.content.p]
          && P.Submitted(resp.content.p, req.body.p) && resp.content.p.id == env.profileId.value
          && resp.content.p.createdAt == env.later && resp.content.p.modifiedAt == env.later
      case _ => m' == m && resp == Fail(405)
    }

    /** A migration list or status request past the gate. */
    ghost predicate Reported(k: Option<M.Applied>, req: Request, env: Env, resp: Response)
      requires migrations != null
    {
      var broken := env.dirFails || M.HashFails(migrations.dir, env.unreadable);
      if !req.verb.GET? then resp == Fail(405)
      else if broken || (req.route.MigrationStatus? && k.None?) then resp == Fail(500)
      else
        && resp.status == 200
        && (req.route.MigrationList? ==> resp.content.Files? && M.IsListing(migrations.dir, resp.content.files))
        && (req.route.MigrationStatus? ==>
              && resp.content.Statuses? && M.IsStatus(migrations.dir, k.value, resp.content.rows)
              && forall i :: 0 <= i < |resp.content.rows| ==>
                   && (resp.content.rows[i].applied <==> resp.content.rows[i].name in k.value)
                   && M.RowOfDir(resp.content.rows[i], migrations.dir))
    }

    /** A migration request past the gate. */
    ghost predicate Marking(k: Option<M.Applied>, k': Option<M.Applied>, req: Request, env: Env, resp: Response)
      requires migrations != null && req.route.MigrationItem?
    {
      match ParseMigrationPath(req.route.path)
      case NoRoute => k' == k && resp == Fail(404)
      case BadName => k' == k && resp == Fail(400)
      case Apply(name) =>
        var good :=
          && M.CanMark(migrations.dir, Trim(name)) && !env.statFails
          && k.Some? && (migrations.store.stateFile == "" || !env.writeFails);
        && resp == (if good then Response(200, Marked(name)) else Fail(400))
        && k' == if good && migrations.store.stateFile != "" then Some(k.value[Trim(name) := env.appliedAt]) else k
    }

    ghost function Snap(): Snapshot
      reads AuthRepr(), DataRepr()
    {
      Snapshot(
        if auth == null then map[] else auth.sessions,
        if auth == null then map[] else auth.users.users,
        if profiles == null then map[] else profiles.profiles,
        if migrations == null then None else migrations.store.Known())
    }

    /** ValidateToken, seen from the server: only this token's session may go, and only because it expired. */
    method CheckToken(token: string, now: int, fault: Fault) returns (r: A.Result<Session>)
      requires Valid() && auth != null && auth.state.now <= now
      modifies AuthRepr()
      ensures Valid() && auth.state.now == now
      ensures r == match Answer(old(Snap()).sessions, now, token)
                   case Some(session) => A.Ok(session)
                   case None => A.Failed(A.InvalidToken)
      ensures Snap() == Checked(old(Snap()), token, now)
    {
      r := auth.ValidateToken(token, now, fault);
    }

    /** The session a login with good credentials would open. */
    ghost function NewLogin(b: Snapshot, username: string, env: Env): Option<Session>
      requires auth != null
    {
      if username !in b.users || env.token.None? then None
      else Some(NewSession(b.users[username], env.token.value, env.sessionId, env.now, auth.ttl))
    }

    /** The other session calls, seen from the server. */
    method OpenSession(username: string, password: string, env: Env) returns (r: A.Result<Session>)
      requires Valid() && Fits(env) && auth != null
      modifies AuthRepr()
      ensures Valid()
      ensures var b, added := old(Snap()), NewLogin(old(Snap()), username, env);
        && (r == A.Failed(A.InvalidCredentials) <==> !auth.CanLogin(b.users, username, password))
        && (r.Ok? <==> auth.CanLogin(b.users, username, password) && added.Some? &&
                       auth.Fate(env.fault, b.sessions[env.token.value := added.value]).Saved?)
        && (r.Ok? ==> r.value == added.value && env.token.value !in b.sessions)
        && Snap() == if r.Ok? then b.(sessions := b.sessions[env.token.value := r.value]) else b
      ensures r.Ok? ==> auth.OpenedFor(r.value, old(Snap()).users[username], env.token.value, env.sessionId, env.now)
    {
      r := auth.Login(username, password, env.now, env.token, env.sessionId, env.fault);
    }

    method ListViews(now: int, fault: Fault) returns (views: seq<A.SessionView>)
      requires Valid() && auth != null && auth.state.now <= now
      modifies AuthRepr()
      ensures Valid() && SessionsListed(old(Snap()), Snap(), now, views)
    {
      views := auth.ListSessionViews(now, fault);
    }

    method EndSession(token: string, now: int, fault: Fault) returns (r: A.Result<()>)
      requires Valid() && auth != null && auth.state.now <= now
      modifies AuthRepr()
      ensures Valid() && Snap() == old(Snap()).(sessions := old(Snap()).sessions - {token})
      ensures r.Ok? <==> token in old(Snap()).sessions && auth.Fate(fault, Snap().sessions).Saved?
    {
      r := auth.Logout(token, now, fault);
    }

    method RevokeSession(id: string, now: int, fault: Fault) returns (r: A.Result<()>)
      requires Valid() && auth != null && auth.state.now <= now
      modifies AuthRepr()
      ensures Valid() && Snap() == old(Snap()).(sessions := A.DropId(old(Snap()).sessions, id))
      ensures r == A.Failed(A.InvalidToken) <==> !HasId(old(Snap()).sessions, id)
      ensures r.Ok? <==> HasId(old(Snap()).sessions, id) && auth.Fate(fault, Snap().sessions).Saved?
    {
      r := auth.RevokeSessionByID(id, now, fault);
    }

    /** The gate: the bearer's session when the token is good and the role is there, or the refusal. */
    method RequireSession(req: Request, role: string, now: int, fault: Fault)
      returns (session: Option<Session>, refusal: Response)
      requires Valid() && (auth != null ==> auth.state.now <= now)
      modifies AuthRepr()
      ensures Valid()
      ensures var g := GateStatus(auth != null, old(Snap()), req, role, now);
        if g == 200 then session == Bearer(old(Snap()), req, now) && Snap() == old(Snap())
        else session.None? && refusal == Fail(g)
      ensures PurgedOnly(old(Snap()), now, Snap())
      ensures auth != null ==> auth.state.now <= now
    {
      refusal := Fail(401);
      if auth == null {
        return None, Fail(503);
      }
      var token := ExtractBearer(req.header);
      if token.Rejected? {
        return None, Fail(401);
      }
      var checked := CheckToken(token.text, now, fault);
      CheckingPurgesOnly(old(Snap()), token.text, now);
      if checked.Failed? {
        return None, Fail(401);
      }
      if role != "" {
        var has := FindRole(checked.value.roles, role);
        if !has {
          return None, Fail(403);
        }
      }
      return Some(checked.value), refusal;
    }

    // ---------- auth routes ----------

    method HandleLogin(req: Request, env: Env) returns (resp: Response)
      requires Valid() && Fits(env) && req.route.Login?
      modifies AuthRepr()
      ensures Valid() && Safe(old(Snap()), req, env, resp, Snap())
      ensures !req.verb.POST? ==> resp == Fail(405)
      ensures req.verb.POST? && auth == null ==> resp == Fail(503)
      ensures resp.status == 400 <==>
        && req.verb.POST? && auth != null
        && !(req.body.Credentials? && req.body.username != "" && req.body.password != "")
      ensures resp.status == 200 ==>
        && auth != null && HasCredentials(req.body) && req.body.username in old(Snap()).users
        && env.token.Some? && resp.content.Opened?
        && auth.OpenedFor(resp.content.session, old(Snap()).users[req.body.username],
                          env.token.value, env.sessionId, env.now)
      ensures auth != null && req.verb.POST? && HasCredentials(req.body) ==>
        var added := NewLogin(old(Snap()), req.body.username, env);
        if !auth.CanLogin(old(Snap()).users, req.body.username, req.body.password) then resp == Fail(401)
        else if added.None? || !auth.Fate(env.fault, old(Snap()).sessions[env.token.value := added.value]).Saved? then
          resp == Fail(500)
        else
          && resp == Response(200, Opened(added.value))
          && Snap().sessions == old(Snap()).sessions[env.token.value := added.value]
    {
      if !req.verb.POST? {
        return Fail(405);
      }
      if auth == null {
        return Fail(503);
      }
      if !HasCredentials(req.body) {
        return Fail(400);
      }
      var r := OpenSession(req.body.username, req.body.password, env);
      match r
      case Ok(session) =>
        LoginIsSafe(old(Snap()), req, env, env.token.value, session);
        return Response(200, Opened(session));
      case Failed(e) => return Fail(if e.InvalidCredentials? then 401 else 500);
    }

    method HandleMe(req: Request, env: Env) returns (resp: Response)
      requires Valid() && Fits(env) && req.route.Me?
      modifies AuthRepr()
      ensures Valid() && Safe(old(Snap()), req, env, resp, Snap())
      ensures resp.status == if !req.verb.GET? then 405 else GateStatus(auth != null, old(Snap()), req, "", env.now)
      ensures resp.status == 200 ==>
        && Bearer(old(Snap()), req, env.now).Some?
        && resp.content.Views? && |resp.content.views| == 1
        && A.Shows(resp.content.views[0], Bearer(old(Snap()), req, env.now).value)
    {
      if !req.verb.GET? {
        return Fail(405);
      }
      var session, refusal := RequireSession(req, "", env.now, env.checkFault);
      PurgingIsSafe(old(Snap()), req, env, refusal, env.now, Snap());
      if session.None? {
        return refusal;
      }
      return Response(200, Views([A.ViewOf(session.value)]));
    }

    /** Any failure of the logout itself is reported as a bad token, a failed save included. */
    method HandleLogout(req: Request, env: Env) returns (resp: Response)
      requires Valid() && Fits(env) && req.route.Logout?
      modifies AuthRepr()
      ensures Valid() && Safe(old(Snap()), req, env, resp, Snap())
      ensures !req.verb.POST? ==> resp == Fail(405)
      ensures req.verb.POST? && auth == null ==> resp == Fail(503)
      ensures req.verb.POST? && auth != null && ExtractBearer(req.header).Rejected? ==> resp == Fail(401)
      ensures auth != null && req.verb.POST? && ExtractBearer(req.header).Accepted? ==>
        && Snap() == old(Snap()).(sessions := old(Snap()).sessions - {ExtractBearer(req.header).text})
        && resp.status == (if Bearer(old(Snap()), req, env.now).Some? && auth.Fate(env.fault, Snap().sessions).Saved?
                           then 204 else 401)
    {
      if !req.verb.POST? {
        return Fail(405);
      }
      if auth == null {
        return Fail(503);
      }
      var token := ExtractBearer(req.header);
      if token.Rejected? {
        return Fail(401);
      }
      var _ := CheckToken(token.text, env.now, env.checkFault);
      CheckedThenEnded(old(Snap()), token.text, env.now);
      var r := EndSession(token.text, env.later, env.fault);
      resp := if r.Failed? then Fail(401) else Response(204, Nothing);
      LogoutIsSafe(old(Snap()), req, env, resp, token.text, Snap());
    }

    method AnswerChangePassword(req: Request, token: string, env: Env) returns (resp: Response)
      requires Valid() && auth != null && auth.state.now <= env.later
      modifies AuthRepr()
      ensures Valid() && PasswordOutcome(old(Snap()), token, env.later, Snap())
      ensures if !HasPasswords(req.body) then resp == Fail(400)
              else PasswordAnswered(old(Snap()), token, req.body, env, resp, Snap())
    {
      if !HasPasswords(req.body) {
        return Fail(400);
      }
      var r := auth.ChangePassword(token, req.body.current, req.body.replacement, env.later, env.fault, env.writeFails);
      match r
      case Ok(_) => return Response(204, Nothing);
      case Failed(e) =>
        return Fail(if e.WeakPassword? then 400 else if e.InvalidToken? || e.InvalidCredentials? then 401 else 500);
    }

    method HandleChangePassword(req: Request, env: Env) returns (resp: Response)
      requires Valid() && Fits(env) && req.route.ChangePassword?
      modifies AuthRepr()
      ensures Valid() && Safe(old(Snap()), req, env, resp, Snap())
      ensures !req.verb.POST? ==> resp == Fail(405)
      ensures req.verb.POST? && auth == null ==> resp == Fail(503)
      ensures req.verb.POST? && auth != null && ExtractBearer(req.header).Rejected? ==> resp == Fail(401)
      ensures auth != null && req.verb.POST? && ExtractBearer(req.header).Accepted? ==>
        if !(req.body.Passwords? && req.body.current != "" && req.body.replacement != "") then resp == Fail(400)
        else PasswordAnswered(old(Snap()), ExtractBearer(req.header).text, req.body, env, resp, Snap())
    {
      if !req.verb.POST? {
        return Fail(405);
      }
      if auth == null {
        return Fail(503);
      }
      var token := ExtractBearer(req.header);
      if token.Rejected? {
        return Fail(401);
      }
      var _ := CheckToken(token.text, env.now, env.checkFault);
      resp := AnswerChangePassword(req, token.text, env);
      if HasPasswords(req.body) {
        AnsweredAfterCheck(old(Snap()), token.text, req.body, env, resp, Snap());
      }
      PasswordChangeIsSafe(old(Snap()), req, env, resp, token.text, Snap());
    }

    // ---------- session administration ----------

    method HandleSessions(req: Request, env: Env) returns (resp: Response)
      requires Valid() && Fits(env) && req.route.Sessions?
      modifies AuthRepr()
      ensures Valid() && Safe(old(Snap()), req, env, resp, Snap())
      ensures var g := GateStatus(auth != null, old(Snap()), req, "admin", env.now);
        if !req.verb.GET? then resp == Fail(405) else if g != 200 then resp == Fail(g) else
          && resp.status == 200 && resp.content.Views?
          && SessionsListed(old(Snap()), Snap(), env.later, resp.content.views)
    {
      if !req.verb.GET? {
        return Fail(405);
      }
      var session, refusal := RequireSession(req, "admin", env.now, env.checkFault);
      if session.None? {
        PurgingIsSafe(old(Snap()), req, env, refusal, env.now, Snap());
        return refusal;
      }
      var views := ListViews(env.later, env.fault);
      ListingIsSafe(old(Snap()), req, env, Response(200, Views(views)), Snap(), views);
      return Response(200, Views(views));
    }

    method HandleSessionItem(req: Request, env: Env) returns (resp: Response)
      requires Valid() && Fits(env) && req.route.SessionItem?
      modifies AuthRepr()
      ensures Valid() && Safe(old(Snap()), req, env, resp, Snap())
      ensures var g := GateStatus(auth != null, old(Snap()), req, "admin", env.now);
        var id := ParseSessionId(req.route.path);
        if !req.verb.DELETE? then resp == Fail(405) else if g != 200 then resp == Fail(g)
        else if id.Rejected? then resp == Fail(400) else
          && Snap() == old(Snap()).(sessions := A.DropId(old(Snap()).sessions, id.text))
          && resp.status == (if !HasId(old(Snap()).sessions, id.text) then 404
                             else if auth.Fate(env.fault, Snap().sessions).Saved? then 204 else 500)
    {
      if !req.verb.DELETE? {
        return Fail(405);
      }
      var session, refusal := RequireSession(req, "admin", env.now, env.checkFault);
      if session.None? {
        PurgingIsSafe(old(Snap()), req, env, refusal, env.now, Snap());
        return refusal;
      }
      var id := ParseSessionId(req.route.path);
      if id.Rejected? {
        return Fail(400);
      }
      var r := RevokeSession(id.text, env.later, env.fault);
      resp := if r.Ok? then Response(204, Nothing) else Fail(if r.error.InvalidToken? then 404 else 500);
      RevocationIsSafe(old(Snap()), req, env, resp, id.text, Snap());
    }

    // ---------- profiles ----------

    method AnswerProfiles(req: Request, env: Env) returns (resp: Response)
      requires Valid() && (env.profileId.Some? ==> env.profileId.value != "")
      modifies DataRepr()
      ensures Valid() && Snap() == old(Snap()).(profiles := Snap().profiles)
      ensures Snap() != old(Snap()) ==> req.verb.POST? && Succeeded(resp)
      ensures if profiles == null then resp == Fail(503)
              else Listed(old(Snap()).profiles, Snap().profiles, req, env, resp)
    {
      if profiles == null {
        return Fail(503);
      }
      match req.verb
      case GET =>
        var items := profiles.List();
        return Response(200, Many(items));
      case POST =>
        if !req.body.ProfileBody? {
          return Fail(400);
        }
        var r := profiles.Create(req.body.p, env.later, env.profileId, env.writeFails);
        return ProfileAnswer(r, 201);
      case _ => return Fail(405);
    }

    method HandleProfiles(req: Request, env: Env) returns (resp: Response)
      requires Valid() && Fits(env) && req.route.ProfileList?
      modifies AuthRepr() + DataRepr()
      ensures Valid() && Safe(old(Snap()), req, env, resp, Snap())
      ensures var g := GateStatus(auth != null, old(Snap()), req, "admin", env.now);
        if g != 200 then resp == Fail(g) else if profiles == null then resp == Fail(503)
        else Listed(old(Snap()).profiles, Snap().profiles, req, env, resp)
    {
      var session, refusal := RequireSession(req, "admin", env.now, env.checkFault);
      if session.None? {
        PurgingIsSafe(old(Snap()), req, env, refusal, env.now, Snap());
        return refusal;
      }
      resp := AnswerProfiles(req, env);
      ProfileChangeIsSafe(old(Snap()), req, env, resp, Snap());
    }

    /** A call of the profile service that names a profile, seen from the server. */
    method RunOnProfile(op: P.Op, writeFails: bool) returns (r: P.Reply)
      requires Valid() && profiles != null && !op.Create?
      modifies DataRepr()
      ensures Valid() && Snap() == old(Snap()).(profiles := Snap().profiles)
      ensures (Snap().profiles, r) == P.FileStep(old(Snap()).profiles, op, writeFails && profiles.stateFile != "")
    {
      match op
      case Get(id) => r := profiles.Get(id);
      case Update(id, p, now) => r := profiles.Update(id, p, now, writeFails);
      case Delete(id) => r := profiles.Delete(id, writeFails);
    }

    method AnswerVerb(req: Request, id: string, op: P.Op, good: nat, env: Env) returns (resp: Response)
      requires Valid() && profiles != null && req.route.ProfileItem?
      requires ParseProfileId(req.route.path) == Accepted(id) && StandsFor(req, id, env.later, op, good)
      modifies DataRepr()
      ensures Valid() && Snap() == old(Snap()).(profiles := Snap().profiles)
      ensures Snap() != old(Snap()) ==> (req.verb.PUT? || req.verb.DELETE?) && Succeeded(resp)
      ensures ItemAnswered(old(Snap()).profiles, Snap().profiles, req, env.later,
                           env.writeFails && profiles.stateFile != "", resp)
    {
      StepAnswers(Snap().profiles, req, id, op, good, env.later, env.writeFails && profiles.stateFile != "");
      var r := RunOnProfile(op, env.writeFails);
      return ProfileAnswer(r, good);
    }

    method AnswerProfileItem(req: Request, env: Env) returns (resp: Response)
      requires Valid() && req.route.ProfileItem?
      modifies DataRepr()
      ensures Valid() && Snap() == old(Snap()).(profiles := Snap().profiles)
      ensures Snap() != old(Snap()) ==> (req.verb.PUT? || req.verb.DELETE?) && Succeeded(resp)
      ensures if profiles == null then resp == Fail(503)
              else ItemAnswered(old(Snap()).profiles, Snap().profiles, req, env.later,
                                env.writeFails && profiles.stateFile != "", resp)
    {
      if profiles == null {
        return Fail(503);
      }
      var parsed := ParseProfileId(req.route.path);
      if parsed.Rejected? {
        return Fail(404);
      }
      var id := parsed.text;
      var op, good;
      match req.verb {
        case GET =>
          op, good := P.Get(id), 200;
        case PUT =>
          if !req.body.ProfileBody? {
            return Fail(400);
          }
          op, good := P.Update(id, req.body.p, env.later), 200;
        case DELETE =>
          op, good := P.Delete(id), 204;
        case _ =>
          return Fail(405);
      }
      resp := AnswerVerb(req, id, op, good, env);
    }

    method HandleProfileItem(req: Request, env: Env) returns (resp: Response)
      requires Valid() && Fits(env) && req.route.ProfileItem?
      modifies AuthRepr() + DataRepr()
      ensures Valid() && Safe(old(Snap()), req, env, resp, Snap())
      ensures var g := GateStatus(auth != null, old(Snap()), req, "admin", env.now);
        if g != 200 then resp == Fail(g) else if profiles == null then resp == Fail(503)
        else ItemAnswered(old(Snap()).profiles, Snap().profiles, req, env.later,
                          env.writeFails && profiles.stateFile != "", resp)
    {
      var session, refusal := RequireSession(req, "admin", env.now, env.checkFault);
      if session.None? {
        PurgingIsSafe(old(Snap()), req, env, refusal, env.now, Snap());
        return refusal;
      }
      resp := AnswerProfileItem(req, env);
      ProfileChangeIsSafe(old(Snap()), req, env, resp, Snap());
    }

    // ---------- migrations ----------

    method HandleMigrations(req: Request, env: Env) returns (resp: Response)
      requires Valid() && Fits(env) && (req.route.MigrationList? || req.route.MigrationStatus?)
      modifies AuthRepr() + DataRepr()
      ensures Valid() && Safe(old(Snap()), req, env, resp, Snap())
      ensures var g := GateStatus(auth != null, old(Snap()), req, "admin", env.now);
        if req.route.MigrationStatus? && !req.verb.GET? then resp == Fail(405)
        else if g != 200 then resp == Fail(g)
        else if migrations == null then resp == Fail(503)
        else Reported(old(Snap()).applied, req, env, resp)
    {
      if req.route.MigrationStatus? && !req.verb.GET? {
        return Fail(405);
      }
      var session, refusal := RequireSession(req, "admin", env.now, env.checkFault);
      if session.None? {
        PurgingIsSafe(old(Snap()), req, env, refusal, env.now, Snap());
        return refusal;
      }
      if migrations == null {
        return Fail(503);
      }
      if req.route.MigrationStatus? {
        var rows := migrations.Status(env.dirFails, env.unreadable);
        return if rows.None? then Fail(500) else Response(200, Statuses(rows.value));
      }
      if !req.verb.GET? {
        return Fail(405);
      }
      var files := migrations.List(env.dirFails, env.unreadable);
      return if files.None? then Fail(500) else Response(200, Files(files.value));
    }

    method AnswerMigrationItem(req: Request, env: Env) returns (resp: Response)
      requires Valid() && req.route.MigrationItem?
      modifies DataRepr()
      ensures Valid() && Snap() == old(Snap()).(applied := Snap().applied)
      ensures !Succeeded(resp) ==> Snap() == old(Snap())
      ensures if migrations == null then resp == Fail(503)
              else Marking(old(Snap()).applied, Snap().applied, req, env, resp)
    {
      if migrations == null {
        return Fail(503);
      }
      var target := ParseMigrationPath(req.route.path);
      match target
      case NoRoute => return Fail(404);
      case BadName => return Fail(400);
      case Apply(name) =>
        var ok := migrations.MarkApplied(name, env.appliedAt, env.statFails, env.writeFails);
        return if ok then Response(200, Marked(name)) else Fail(400);
    }

    method HandleMigrationItem(req: Request, env: Env) returns (resp: Response)
      requires Valid() && Fits(env) && req.route.MigrationItem?
      modifies AuthRepr() + DataRepr()
      ensures Valid() && Safe(old(Snap()), req, env, resp, Snap())
      ensures var g := GateStatus(auth != null, old(Snap()), req, "admin", env.now);
        if !req.verb.POST? then resp == Fail(405) else if g != 200 then resp == Fail(g)
        else if migrations == null then resp == Fail(503)
        else Marking(old(Snap()).applied, Snap().applied, req, env, resp)
    {
      if !req.verb.POST? {
        return Fail(405);
      }
      var session, refusal := RequireSession(req, "admin", env.now, env.checkFault);
      if session.None? {
        PurgingIsSafe(old(Snap()), req, env, refusal, env.now, Snap());
        return refusal;
      }
      resp := AnswerMigrationItem(req, env);
      MarkingIsSafe(old(Snap()), req, env, resp, Snap());
    }

    /** One request, whichever it is: the step the whole-run results below are about. */
    method Handle(req: Request, env: Env) returns (resp: Response)
      requires Valid() && Fits(env)
      modifies AuthRepr() + DataRepr()
      ensures Valid() && Safe(old(Snap()), req, env, resp, Snap())
    {
      match req.route
      case Login => resp := HandleLogin(req, env);
      case Me => resp := HandleMe(req, env);
      case Logout => resp := HandleLogout(req, env);
      case ChangePassword => resp := HandleChangePassword(req, env);
      case Sessions => resp := HandleSessions(req, env);
      case SessionItem(_) => resp := HandleSessionItem(req, env);
      case ProfileList => resp := HandleProfiles(req, env);
      case ProfileItem(_) => resp := HandleProfileItem(req, env);
      case MigrationList => resp := HandleMigrations(req, env);
      case MigrationStatus => resp := HandleMigrations(req, env);
      case MigrationItem(_) => resp := HandleMigrationItem(req, env);
    }

    /** Every sequence of requests the server handles is a conversation: any request carries one on. */
    method Converse(ghost xs: seq<Exchange>, req: Request, env: Env) returns (resp: Response, ghost xs': seq<Exchange>)
      requires Valid() && Fits(env)
      requires Conversation(xs) && (xs != [] ==> xs[|xs| - 1].after == Snap())
      modifies AuthRepr() + DataRepr()
      ensures Valid()
      ensures xs' == xs + [Exchange(old(Snap()), req, env, resp, Snap())] && Conversation(xs')
    {
      ghost var b := Snap();
      resp := Handle(req, env);
      xs' := xs + [Exchange(b, req, env, resp, Snap())];
      CarriesOn(xs, Exchange(b, req, env, resp, Snap()));
    }
  }

  // ---------- whole runs ----------

  /** If profiles or applied migrations differ between two moments of a conversation, some request in between
      carried a live admin's token and was answered with success. */
  lemma {:induction false} DataChangesNeedAnAdmin(xs: seq<Exchange>) returns (k: nat)
    requires Conversation(xs) && xs != []
    requires xs[0].before.profiles != xs[|xs| - 1].after.profiles || xs[0].before.applied != xs[|xs| - 1].after.applied
    ensures k < |xs| && ByAdmin(xs[k].before, xs[k].req, xs[k].env.now) && Succeeded(xs[k].resp)
    ensures WritesProfiles(xs[k].req) || MarksMigration(xs[k].req)
  {
    var last := |xs| - 1;
    if xs[last].before.profiles != xs[last].after.profiles || xs[last].before.applied != xs[last].after.applied {
      k := last;
    } else {
      assert xs[last - 1].after == xs[last].before;
      k := DataChangesNeedAnAdmin(xs[..last]);
    }
  }

  /** A session that was there and is there no more has expired, was logged out with its own token, or was
      revoked by an admin, at some request of the conversation. */
  lemma {:induction false} SessionsEndForAReason(xs: seq<Exchange>, t: string) returns (k: nat)
    requires Conversation(xs) && xs != [] && t in xs[0].before.sessions && t !in xs[|xs| - 1].after.sessions
    ensures k < |xs| && t in xs[k].before.sessions && xs[k].before.sessions[t] == xs[0].before.sessions[t]
    ensures
      || xs[k].before.sessions[t].expiresAt < xs[k].env.later
      || (xs[k].req.route.Logout? && ExtractBearer(xs[k].req.header) == Accepted(t))
      || RevokedByAdmin(xs[k].before, xs[k].req, xs[k].env.now, xs[k].before.sessions[t])
  {
    if t !in xs[0].after.sessions {
      k := 0;
    } else {
      assert Safe(xs[0].before, xs[0].req, xs[0].env, xs[0].resp, xs[0].after);
      assert xs[0].after == xs[1].before;
      k := SessionsEndForAReason(xs[1..], t);
      k := k + 1;
    }
  }

  /** A locked account stays locked: whatever requests come, with whatever sessions of it are still live, it gets no
      new password, and every login with its name is turned away. */
  lemma {:induction false} LockedOutForever(xs: seq<Exchange>, name: string, k: nat)
    requires Conversation(xs) && k < |xs| && Locked(xs[0].before.users, name)
    ensures name in xs[k].after.users && xs[k].after.users[name] == xs[0].before.users[name]
    ensures xs[k].req.route.Login? && Succeeded(xs[k].resp) ==>
      xs[k].req.body.Credentials? && xs[k].req.body.username != name
  {
    assert Safe(xs[k].before, xs[k].req, xs[k].env, xs[k].resp, xs[k].after);
    if k == 0 {
    } else {
      LockedOutForever(xs, name, k - 1);
      assert xs[k - 1].after == xs[k].before;
    }
  }
}
