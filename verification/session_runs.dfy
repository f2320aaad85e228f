/** What every run of the session service keeps, over save failures, interleaved calls and restarts.

    A run is a sequence of states `ss` joined by events `es`: event `es[i]` leads from `ss[i]` to `ss[i + 1]`. */
module SessionRuns {
  import opened SessionMachine

  ghost predicate StepAt(cfg: Config, ss: seq<State>, es: seq<Event>, i: nat)
    requires |ss| == |es| + 1 && i < |es|
  {
    Enabled(cfg, ss[i], es[i]) && ss[i + 1] == Apply(cfg, ss[i], es[i])
  }

  ghost predicate IsRun(cfg: Config, ss: seq<State>, es: seq<Event>) {
    && |ss| == |es| + 1
    && ss[0] == Start(cfg)
    && forall i :: 0 <= i < |es| ==> StepAt(cfg, ss, es, i)
  }

  /** Some run with the events `es` ends in the state `s`. */
  ghost predicate Leads(cfg: Config, es: seq<Event>, s: State) {
    exists ss :: IsRun(cfg, ss, es) && ss[|es|] == s
  }

  lemma LeadsStart(cfg: Config)
    ensures Leads(cfg, [], Start(cfg))
  {
    assert IsRun(cfg, [Start(cfg)], []);
  }

  /** A run goes on with any event that can happen where it ended. */
  lemma RunOn(cfg: Config, ss: seq<State>, es: seq<Event>, e: Event) returns (ss': seq<State>, es': seq<Event>)
    requires IsRun(cfg, ss, es) && Enabled(cfg, ss[|es|], e)
    ensures ss' == ss + [Apply(cfg, ss[|es|], e)] && es' == es + [e]
    ensures IsRun(cfg, ss', es')
  {
    ss', es' := ss + [Apply(cfg, ss[|es|], e)], es + [e];
    forall i | 0 <= i < |es'|
      ensures StepAt(cfg, ss', es', i)
    {
      assert i < |es| ==> StepAt(cfg, ss, es, i);
    }
  }

  lemma LeadsOn(cfg: Config, es: seq<Event>, s: State, e: Event)
    requires Leads(cfg, es, s) && Enabled(cfg, s, e)
    ensures Leads(cfg, es + [e], Apply(cfg, s, e))
  {
    var ss :| IsRun(cfg, ss, es) && ss[|es|] == s;
    var ss', es' := RunOn(cfg, ss, es, e);
    assert ss'[|es'|] == Apply(cfg, s, e);
  }

  /** Crash durability: in every state of every run, memory is a part of the durable copy, and the other
      parts of the invariant hold too. */
  lemma {:induction false} RunInv(cfg: Config, ss: seq<State>, es: seq<Event>, i: nat)
    requires IsRun(cfg, ss, es) && i <= |es|
    ensures Inv(cfg, ss[i])
  {
    if i == 0 {
      InvStart(cfg);
    } else {
      RunInv(cfg, ss, es, i - 1);
      assert StepAt(cfg, ss, es, i - 1);
      InvStep(cfg, ss[i - 1], es[i - 1]);
    }
  }

  lemma LeadsInv(cfg: Config, es: seq<Event>, s: State)
    requires Leads(cfg, es, s)
    ensures Inv(cfg, s)
  {
    var ss :| IsRun(cfg, ss, es) && ss[|es|] == s;
    RunInv(cfg, ss, es, |es|);
  }

  lemma StepMonotone(cfg: Config, s: State, e: Event)
    requires Enabled(cfg, s, e)
    ensures s.now <= Apply(cfg, s, e).now && SubMap(s.born, Apply(cfg, s, e).born)
  {
  }

  /** The clock does not go back, and what was stamped once stays in the history. */
  lemma {:induction false} RunMonotone(cfg: Config, ss: seq<State>, es: seq<Event>, i: nat, j: nat)
    requires IsRun(cfg, ss, es) && i <= j <= |es|
    ensures ss[i].now <= ss[j].now && SubMap(ss[i].born, ss[j].born)
    decreases j
  {
    if i == j {
    } else {
      RunMonotone(cfg, ss, es, i, j - 1);
      assert StepAt(cfg, ss, es, j - 1);
      StepMonotone(cfg, ss[j - 1], es[j - 1]);
    }
  }

  // ---------- logins survive ----------

  /** The event is the commit of `session`. */
  predicate Commits(s: State, e: Event, session: Session) {
    e.LoginCommit? && e.call in s.logins && s.logins[e.call] == Stamped(session)
  }

  /** A request that takes `token` out of the map: its own logout, or a revocation. */
  predicate TakesOut(e: Event, token: string) {
    (e.Logout? || e.Revoke?) && e.token == token
  }

  /** Somebody else's commit leaves a stored session alone: the committed token is a new one. */
  lemma SurvivesCommit(cfg: Config, s: State, c: nat, save: SaveOutcome, token: string)
    requires Inv(cfg, s) && Enabled(cfg, s, LoginCommit(c, save)) && token in s.mem
    ensures token in Apply(cfg, s, LoginCommit(c, save)).mem
    ensures Apply(cfg, s, LoginCommit(c, save)).mem[token] == s.mem[token]
  {
  }

  /** A purge takes its own token, and that one has expired. */
  lemma SurvivesPurge(cfg: Config, s: State, c: nat, save: SaveOutcome, token: string)
    requires Inv(cfg, s) && Enabled(cfg, s, Purge(c, save)) && token in s.mem && s.now <= s.mem[token].expiresAt
    ensures token in Apply(cfg, s, Purge(c, save)).mem
    ensures Apply(cfg, s, Purge(c, save)).mem[token] == s.mem[token]
  {
  }

  lemma SurvivesElse(cfg: Config, s: State, e: Event, token: string)
    requires SubMap(s.mem, s.disk) && Enabled(cfg, s, e) && token in s.mem && !e.LoginCommit? && !e.Purge?
    requires !TakesOut(e, token) && Apply(cfg, s, e).now <= s.mem[token].expiresAt
    ensures token in Apply(cfg, s, e).mem && Apply(cfg, s, e).mem[token] == s.mem[token]
  {
  }

  /** One step: a stored session that has not expired is lost only to a request that takes it out. */
  lemma SurvivesStep(cfg: Config, s: State, e: Event, token: string)
    requires Inv(cfg, s) && Enabled(cfg, s, e) && token in s.mem
    requires !TakesOut(e, token) && Apply(cfg, s, e).now <= s.mem[token].expiresAt
    ensures token in Apply(cfg, s, e).mem && Apply(cfg, s, e).mem[token] == s.mem[token]
  {
    if e.LoginCommit? {
      SurvivesCommit(cfg, s, e.call, e.save, token);
    } else if e.Purge? {
      SurvivesPurge(cfg, s, e.call, e.save, token);
    } else {
      SurvivesElse(cfg, s, e, token);
    }
  }

  lemma CommitStores(cfg: Config, s: State, e: Event, session: Session)
    requires Enabled(cfg, s, e) && Commits(s, e, session) && e.save.Saved?
    ensures session.token in Apply(cfg, s, e).mem && Apply(cfg, s, e).mem[session.token] == session
  {
  }

  /** No acknowledged login is lost: whatever saves fail and however often the server restarts, the session
      stays in memory and on disk until a request takes it out or it expires. */
  lemma {:induction false} LoginSurvives(cfg: Config, ss: seq<State>, es: seq<Event>, i: nat, j: nat, session: Session)
    requires IsRun(cfg, ss, es) && i < j <= |es|
    requires Commits(ss[i], es[i], session) && es[i].save.Saved?
    requires forall k :: i < k < j ==> !TakesOut(es[k], session.token)
    requires ss[j].now <= session.expiresAt
    ensures session.token in ss[j].mem && ss[j].mem[session.token] == session
    ensures session.token in ss[j].disk && ss[j].disk[session.token] == session
    decreases j
  {
    RunInv(cfg, ss, es, j);
    if i + 1 == j {
      assert StepAt(cfg, ss, es, i);
      CommitStores(cfg, ss[i], es[i], session);
    } else {
      assert StepAt(cfg, ss, es, j - 1);
      StepMonotone(cfg, ss[j - 1], es[j - 1]);
      LoginSurvives(cfg, ss, es, i, j - 1, session);
      RunInv(cfg, ss, es, j - 1);
      assert StepAt(cfg, ss, es, j - 1);
      SurvivesStep(cfg, ss[j - 1], es[j - 1], session.token);
    }
  }

  // ---------- removed sessions ----------

  /** A token that was stamped once and that no login in progress is about to store. */
  ghost predicate NotPending(s: State, token: string) {
    && token in s.born
    && forall c :: c in s.logins && s.logins[c].Stamped? ==> s.logins[c].session.token != token
  }

  lemma NotPendingStep(cfg: Config, s: State, e: Event, token: string)
    requires Enabled(cfg, s, e) && NotPending(s, token)
    ensures NotPending(Apply(cfg, s, e), token)
    ensures token in Apply(cfg, s, e).mem ==> token in s.mem || token in s.disk
    ensures token in Apply(cfg, s, e).disk ==> token in s.mem || token in s.disk
  {
  }

  lemma {:induction false} NotPendingLater(cfg: Config, ss: seq<State>, es: seq<Event>, i: nat, j: nat, token: string)
    requires IsRun(cfg, ss, es) && i <= j <= |es| && NotPending(ss[i], token)
    ensures NotPending(ss[j], token)
    ensures token !in ss[i].mem && token !in ss[i].disk ==> token !in ss[j].mem && token !in ss[j].disk
    decreases j
  {
    if i == j {
    } else {
      NotPendingLater(cfg, ss, es, i, j - 1, token);
      assert StepAt(cfg, ss, es, j - 1);
      NotPendingStep(cfg, ss[j - 1], es[j - 1], token);
    }
  }

  lemma StoredNotPending(cfg: Config, s: State, token: string)
    requires Inv(cfg, s) && token in s.disk
    ensures NotPending(s, token)
  {
  }

  /** A session whose Logout or Revoke returned nil (or reported an error after its save had taken hold)
      never comes back, in memory or on disk, in any later state of the run. */
  lemma AcknowledgedRemovalIsFinal(cfg: Config, ss: seq<State>, es: seq<Event>, i: nat, j: nat, token: string)
    requires IsRun(cfg, ss, es) && i < j <= |es|
    requires TakesOut(es[i], token) && !es[i].save.Kept?
    ensures token !in ss[j].mem && token !in ss[j].disk
  {
    RunInv(cfg, ss, es, i);
    assert StepAt(cfg, ss, es, i);
    StoredNotPending(cfg, ss[i], token);
    NotPendingStep(cfg, ss[i], es[i], token);
    NotPendingLater(cfg, ss, es, i + 1, j, token);
  }

  /** The step puts a whole new map into the durable copy. */
  ghost predicate Overwrites(s: State, e: Event) {
    match e
    case LoginCommit(_, save) => !save.Kept?
    case Purge(_, save) => !save.Kept?
    case Logout(_, save) => !save.Kept?
    case Revoke(_, _, save) => !save.Kept?
    case List(at, save) => Live(s.mem, at) != s.mem && !save.Kept?
    case _ => false
  }

  lemma OrphanStep(cfg: Config, s: State, e: Event, token: string)
    requires Enabled(cfg, s, e) && NotPending(s, token) && token !in s.mem && !e.Restart?
    ensures token !in Apply(cfg, s, e).mem
    ensures token in Apply(cfg, s, e).disk <==> token in s.disk && !Overwrites(s, e)
  {
  }

  /** A session on disk but not in memory, as a failed save leaves it: until the next restart it stays out
      of memory, and it is still on disk exactly when no save has taken hold in the meantime. */
  lemma {:induction false} OrphanFate(cfg: Config, ss: seq<State>, es: seq<Event>, i: nat, j: nat, token: string)
    requires IsRun(cfg, ss, es) && i <= j <= |es|
    requires token in ss[i].disk && token !in ss[i].mem
    requires forall k :: i <= k < j ==> !es[k].Restart?
    ensures token !in ss[j].mem
    ensures token in ss[j].disk <==> forall k :: i <= k < j ==> !Overwrites(ss[k], es[k])
    decreases j
  {
    if i == j {
    } else {
      OrphanFate(cfg, ss, es, i, j - 1, token);
      RunInv(cfg, ss, es, i);
      StoredNotPending(cfg, ss[i], token);
      NotPendingLater(cfg, ss, es, i, j - 1, token);
      assert StepAt(cfg, ss, es, j - 1);
      OrphanStep(cfg, ss[j - 1], es[j - 1], token);
    }
  }

  lemma RemovalStep(cfg: Config, s: State, e: Event, token: string)
    requires Inv(cfg, s) && Enabled(cfg, s, e) && TakesOut(e, token)
    ensures NotPending(s, token) && NotPending(Apply(cfg, s, e), token)
    ensures token !in Apply(cfg, s, e).mem
    ensures token in Apply(cfg, s, e).disk <==> e.save.Kept?
  {
  }

  /** A session whose Logout or Revoke reported a failed save, with the durable copy unchanged, comes back at
      the next restart exactly when no later save had taken hold. */
  lemma UnsavedRemovalReturnsIff(cfg: Config, ss: seq<State>, es: seq<Event>, i: nat, j: nat, token: string)
    requires IsRun(cfg, ss, es) && i < j < |es|
    requires TakesOut(es[i], token) && es[i].save.Kept?
    requires es[j].Restart? && forall k :: i < k < j ==> !es[k].Restart?
    ensures token in ss[j + 1].mem <==> forall k :: i < k < j ==> !Overwrites(ss[k], es[k])
  {
    RunInv(cfg, ss, es, i);
    assert StepAt(cfg, ss, es, i);
    RemovalStep(cfg, ss[i], es[i], token);
    OrphanFate(cfg, ss, es, i + 1, j, token);
    assert StepAt(cfg, ss, es, j);
  }

  lemma NotPendingAfterCommit(cfg: Config, s: State, e: Event, token: string)
    requires Inv(cfg, s) && Enabled(cfg, s, e) && e.LoginCommit? && s.logins[e.call].session.token == token
    ensures NotPending(Apply(cfg, s, e), token)
  {
  }

  /** The mirror image: a session whose Login reported a failed save is never in memory before the next
      restart, and enters it there exactly when that save had taken hold and no later one did. */
  lemma FailedLoginAppearsIff(cfg: Config, ss: seq<State>, es: seq<Event>, i: nat, j: nat, session: Session)
    requires IsRun(cfg, ss, es) && i < j < |es|
    requires Commits(ss[i], es[i], session) && !es[i].save.Saved?
    requires es[j].Restart? && forall k :: i < k < j ==> !es[k].Restart?
    ensures session.token !in ss[j].mem
    ensures session.token in ss[j + 1].mem <==>
      es[i].save.Replaced? && forall k :: i < k < j ==> !Overwrites(ss[k], es[k])
  {
    RunInv(cfg, ss, es, i);
    assert StepAt(cfg, ss, es, i);
    assert LoginOk(ss[i], es[i].call);
    assert StepAt(cfg, ss, es, j);
    if es[i].save.Replaced? {
      OrphanFate(cfg, ss, es, i + 1, j, session.token);
    } else {
      NotPendingAfterCommit(cfg, ss[i], es[i], session.token);
      NotPendingLater(cfg, ss, es, i + 1, j, session.token);
    }
  }

  /** A first login, up to where it is about to be committed. */
  lemma FirstLogin(cfg: Config, u: User, password: string, token: string, id: string)
    returns (ss: seq<State>, es: seq<Event>)
    requires cfg.hash(password) == u.passwordHash && token != ""
    ensures es == [SetUsers(map[u.username := u]), LoginRead(0, u.username, password), LoginStamp(0, token, id)]
    ensures IsRun(cfg, ss, es) && ss[3].mem == ss[3].disk == map[]
    ensures ss[3].logins == map[0 := Stamped(NewSession(u, token, id, cfg.epoch, cfg.ttl))]
  {
    ss, es := [Start(cfg)], [];
    assert IsRun(cfg, ss, es);
    ss, es := RunOn(cfg, ss, es, SetUsers(map[u.username := u]));
    ss, es := RunOn(cfg, ss, es, LoginRead(0, u.username, password));
    ss, es := RunOn(cfg, ss, es, LoginStamp(0, token, id));
  }

  /** An unsaved logout in the flesh: the session was in memory, is gone after the logout, and is back after the
      restart. */
  lemma UnsavedLogoutReturns(cfg: Config, u: User, password: string, token: string, id: string)
    returns (ss: seq<State>, es: seq<Event>)
    requires cfg.hash(password) == u.passwordHash && token != ""
    ensures IsRun(cfg, ss, es) && |es| == 6
    ensures es[3..] == [LoginCommit(0, Saved), Logout(token, Kept), Restart(map[])]
    ensures token in ss[4].mem && token !in ss[5].mem && token in ss[6].mem
  {
    ss, es := FirstLogin(cfg, u, password, token, id);
    ss, es := RunOn(cfg, ss, es, LoginCommit(0, Saved));
    ss, es := RunOn(cfg, ss, es, Logout(token, Kept));
    ss, es := RunOn(cfg, ss, es, Restart(map[]));
  }

  /** A failed login in the flesh: its session is not in memory after the call, and is there after the restart. */
  lemma FailedLoginAppears(cfg: Config, u: User, password: string, token: string, id: string)
    returns (ss: seq<State>, es: seq<Event>)
    requires cfg.hash(password) == u.passwordHash && token != ""
    ensures IsRun(cfg, ss, es) && |es| == 5
    ensures es[3..] == [LoginCommit(0, Replaced), Restart(map[])]
    ensures token !in ss[4].mem && token in ss[5].mem
  {
    ss, es := FirstLogin(cfg, u, password, token, id);
    ss, es := RunOn(cfg, ss, es, LoginCommit(0, Replaced));
    ss, es := RunOn(cfg, ss, es, Restart(map[]));
  }

  // ---------- where a stored session comes from ----------

  /** Only a commit puts anything new into the durable copy. */
  lemma StoredElse(cfg: Config, s: State, e: Event, token: string)
    requires SubMap(s.mem, s.disk) && Enabled(cfg, s, e) && !e.LoginCommit? && token in Apply(cfg, s, e).disk
    ensures token in s.disk && Apply(cfg, s, e).disk[token] == s.disk[token]
  {
  }

  lemma StoredStep(cfg: Config, s: State, e: Event, token: string)
    requires Inv(cfg, s) && Enabled(cfg, s, e) && token in Apply(cfg, s, e).disk
    ensures (token in s.disk && Apply(cfg, s, e).disk[token] == s.disk[token]) ||
            (token !in s.disk && Commits(s, e, Apply(cfg, s, e).disk[token]) && !e.save.Kept?)
  {
    if e.LoginCommit? {
      assert LoginOk(s, e.call);
    } else {
      StoredElse(cfg, s, e, token);
    }
  }

  /** A session on disk was put there by the commit of a login that had stamped exactly it. */
  lemma {:induction false} StoredByCommit(cfg: Config, ss: seq<State>, es: seq<Event>, j: nat, token: string)
    returns (i: nat)
    requires IsRun(cfg, ss, es) && j <= |es| && token in ss[j].disk
    ensures i < j && Commits(ss[i], es[i], ss[j].disk[token]) && !es[i].save.Kept?
    ensures ss[j].disk[token].token == token
    decreases j
  {
    RunInv(cfg, ss, es, j);
    assert BornOk(cfg, ss[j], token);
    assert j > 0;
    RunInv(cfg, ss, es, j - 1);
    assert StepAt(cfg, ss, es, j - 1);
    StoredStep(cfg, ss[j - 1], es[j - 1], token);
    if token in ss[j - 1].disk {
      i := StoredByCommit(cfg, ss, es, j - 1, token);
    } else {
      i := j - 1;
    }
  }

  lemma StampStep(cfg: Config, s: State, e: Event, c: nat)
    requires Enabled(cfg, s, e) && c in Apply(cfg, s, e).logins && Apply(cfg, s, e).logins[c].Stamped?
    ensures c in s.logins
    ensures s.logins[c].Stamped? ==> Apply(cfg, s, e).logins[c] == s.logins[c]
    ensures s.logins[c].Reading? ==>
      && e.LoginStamp? && e.call == c
      && Apply(cfg, s, e).logins[c].session == NewSession(s.logins[c].user, e.token, e.id, s.now, cfg.ttl)
  {
  }

  /** A stamped login in progress stamped its session at an earlier moment. */
  lemma {:induction false} StampedBefore(cfg: Config, ss: seq<State>, es: seq<Event>, j: nat, c: nat) returns (i: nat)
    requires IsRun(cfg, ss, es) && j <= |es| && c in ss[j].logins && ss[j].logins[c].Stamped?
    ensures i < j && es[i] == LoginStamp(c, ss[j].logins[c].session.token, ss[j].logins[c].session.id)
    ensures c in ss[i].logins && ss[i].logins[c].Reading?
    ensures ss[j].logins[c].session == NewSession(ss[i].logins[c].user, es[i].token, es[i].id, ss[i].now, cfg.ttl)
    decreases j
  {
    assert j > 0;
    assert StepAt(cfg, ss, es, j - 1);
    StampStep(cfg, ss[j - 1], es[j - 1], c);
    if ss[j - 1].logins[c].Stamped? {
      i := StampedBefore(cfg, ss, es, j - 1, c);
    } else {
      i := j - 1;
    }
  }

  /** A login in progress that is about to stamp read its user at an earlier moment, and the password it was
      given matched that user's hash there. */
  lemma {:induction false} ReadBefore(cfg: Config, ss: seq<State>, es: seq<Event>, j: nat, c: nat) returns (i: nat)
    requires IsRun(cfg, ss, es) && j <= |es| && c in ss[j].logins && ss[j].logins[c].Reading?
    ensures i < j && es[i].LoginRead? && es[i].call == c
    ensures es[i].username in ss[i].users && ss[i].users[es[i].username] == ss[j].logins[c].user
    ensures cfg.hash(es[i].password) == ss[j].logins[c].user.passwordHash
    decreases j
  {
    assert j > 0;
    assert StepAt(cfg, ss, es, j - 1);
    if c in ss[j - 1].logins && ss[j - 1].logins[c].Reading? && !(es[j - 1].LoginRead? && es[j - 1].call == c) {
      i := ReadBefore(cfg, ss, es, j - 1, c);
    } else {
      i := j - 1;
    }
  }

  /** `session` was made by one login: it read the user record `u` with a matching password at `userRead`, stamped
      the session from that record and the clock at `stamp`, and committed it at `commit`. */
  ghost predicate FromLogin(cfg: Config, ss: seq<State>, es: seq<Event>, session: Session, u: User,
                            userRead: nat, stamp: nat, commit: nat)
    requires |ss| == |es| + 1
  {
    && userRead < stamp < commit < |es|
    && es[userRead].LoginRead? && es[userRead].username in ss[userRead].users
    && u == ss[userRead].users[es[userRead].username] && cfg.hash(es[userRead].password) == u.passwordHash
    && es[stamp] == LoginStamp(es[userRead].call, session.token, session.id)
    && session.userId == u.id && session.username == u.username && session.roles == u.roles
    && session.createdAt == ss[stamp].now && session.expiresAt == ss[stamp].now + cfg.ttl
    && Commits(ss[commit], es[commit], session) && es[commit].call == es[userRead].call
    && !es[commit].save.Kept?
  }

  /** Every session on disk was made by a login. */
  lemma Origin(cfg: Config, ss: seq<State>, es: seq<Event>, j: nat, token: string)
    returns (u: User, userRead: nat, stamp: nat, commit: nat)
    requires IsRun(cfg, ss, es) && j <= |es| && token in ss[j].disk
    ensures FromLogin(cfg, ss, es, ss[j].disk[token], u, userRead, stamp, commit) && commit < j
    ensures ss[j].disk[token].token == token && ss[j].disk[token].userId == u.id
    ensures ss[j].disk[token].username == u.username && ss[j].disk[token].roles == u.roles
    ensures ss[j].disk[token].createdAt == ss[stamp].now && ss[j].disk[token].expiresAt == ss[stamp].now + cfg.ttl
  {
    commit := StoredByCommit(cfg, ss, es, j, token);
    stamp := StampedBefore(cfg, ss, es, commit, es[commit].call);
    userRead := ReadBefore(cfg, ss, es, stamp, es[commit].call);
    u := ss[userRead].users[es[userRead].username];
  }

  // ---------- validation calls ----------

  /** The event at which a validation call returns after its read section found a session. */
  predicate Ends(e: Event, c: nat) {
    (e.Accept? || e.Purge?) && e.call == c
  }

  lemma CheckStep(cfg: Config, s: State, e: Event, c: nat)
    requires Enabled(cfg, s, e) && c in Apply(cfg, s, e).checks
    ensures c !in s.checks ==>
      && e == ReadHit(c, Apply(cfg, s, e).checks[c].token)
      && e.token in s.mem && s.mem[e.token] == Apply(cfg, s, e).checks[c].session
    ensures c in s.checks ==>
      && s.checks[c].token == Apply(cfg, s, e).checks[c].token
      && s.checks[c].session == Apply(cfg, s, e).checks[c].session
      && (Apply(cfg, s, e).checks[c].Got? ==> s.checks[c].Got?)
    ensures c in s.checks ==> !e.Restart? && !Ends(e, c)
  {
  }

  /** The read section of a validation in progress: the call has been running ever since, over no restart. */
  lemma {:induction false} CheckReadBefore(cfg: Config, ss: seq<State>, es: seq<Event>, j: nat, c: nat) returns (i: nat)
    requires IsRun(cfg, ss, es) && j <= |es| && c in ss[j].checks
    ensures i < j && es[i] == ReadHit(c, ss[j].checks[c].token)
    ensures es[i].token in ss[i].mem && ss[i].mem[es[i].token] == ss[j].checks[c].session
    ensures forall k :: i < k <= j ==> c in ss[k].checks
    ensures forall k :: i < k < j ==> !es[k].Restart? && !Ends(es[k], c)
    ensures ss[j].checks[c].Got? ==> forall k :: i < k <= j ==> ss[k].checks[c].Got?
    decreases j
  {
    assert j > 0;
    assert StepAt(cfg, ss, es, j - 1);
    CheckStep(cfg, ss[j - 1], es[j - 1], c);
    if c in ss[j - 1].checks {
      i := CheckReadBefore(cfg, ss, es, j - 1, c);
    } else {
      i := j - 1;
    }
  }

  /** Provenance: every successful validation goes back to a login that committed its session before this
      validation read it. The clock at the answer is within the session's life, both ends included, and nobody's
      acknowledged Logout or Revoke came between the commit and the read. */
  lemma Provenance(cfg: Config, ss: seq<State>, es: seq<Event>, j: nat)
    returns (u: User, session: Session, userRead: nat, stamp: nat, commit: nat, read: nat)
    requires IsRun(cfg, ss, es) && j < |es| && es[j].Accept?
    ensures FromLogin(cfg, ss, es, session, u, userRead, stamp, commit) && commit < read < j
    ensures es[read] == ReadHit(es[j].call, session.token)
    ensures es[j].call in ss[j].checks && ss[j].checks[es[j].call] == Got(session.token, session)
    ensures session.createdAt <= ss[j].now <= session.createdAt + cfg.ttl
    ensures forall k :: commit < k < read && TakesOut(es[k], session.token) ==> es[k].save.Kept?
  {
    var c := es[j].call;
    assert StepAt(cfg, ss, es, j);
    read := CheckReadBefore(cfg, ss, es, j, c);
    var token := ss[j].checks[c].token;
    session := ss[j].checks[c].session;
    RunInv(cfg, ss, es, read);
    u, userRead, stamp, commit := Origin(cfg, ss, es, read, token);
    RunMonotone(cfg, ss, es, stamp, j);
    forall k | commit < k < read && TakesOut(es[k], session.token)
      ensures es[k].save.Kept?
    {
      if !es[k].save.Kept? {
        AcknowledgedRemovalIsFinal(cfg, ss, es, k, read, token);
      }
    }
  }
}
