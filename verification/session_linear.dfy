/** ValidateToken takes the lock twice. This module shows that nobody can tell: every run reads as a run in
    which each validation happens at one instant, and purging expired sessions never changes an answer. */
module SessionLinear {
  import opened Options
  import opened SessionMachine
  import opened SessionRuns

  // ---------- the atomic specification ----------

  /** The answer an instantaneous validation gives. */
  function Answer(m: SessionMap, now: int, token: string): Option<Session> {
    if token in m && now <= m[token].expiresAt then Some(m[token]) else None
  }

  /** What a run shows besides the progress of validation calls. */
  datatype View = View(users: map<string, User>, mem: SessionMap, disk: SessionMap, now: int,
                       born: SessionMap, logins: map<nat, LoginCall>)

  function Shown(s: State): View {
    View(s.users, s.mem, s.disk, s.now, s.born, s.logins)
  }

  /** Look up and expire at one instant: answer from the map, drop the session if it has expired, and
      possibly write the map out. */
  ghost predicate AtomicValidate(v: View, token: string, answer: Option<Session>, v': View) {
    && answer == Answer(v.mem, v.now, token)
    && v'.mem == (if token in v.mem && answer.None? then v.mem - {token} else v.mem)
    && (v'.disk == v.disk || v'.disk == v'.mem)
    && v' == v.(mem := v'.mem, disk := v'.disk)
  }

  /** What one event of a run amounts to when validations are instantaneous. */
  datatype Op = Silent | Validated(token: string, answer: Option<Session>) | Other(e: Event)

  ghost predicate AcceptsAt(es: seq<Event>, i: nat, j: int, c: nat) {
    && i < j < |es| && es[j] == Accept(c)
    && forall k :: i < k < j ==> !es[k].Restart? && !Ends(es[k], c)
  }

  /** The call that read at step `i` goes on to accept. */
  ghost predicate Accepts(es: seq<Event>, i: nat, c: nat) {
    exists j :: AcceptsAt(es, i, j, c)
  }

  /** The linearization point of a call is its read section when the call accepts or finds nothing, and
      its delete section when it purges; its other events are silent. */
  ghost function OpAt(ss: seq<State>, es: seq<Event>, i: nat): Op
    requires |ss| == |es| + 1 && i < |es|
  {
    match es[i]
    case ReadMiss(_, token) => Validated(token, None)
    case ReadHit(c, token) =>
      if Accepts(es, i, c) then Validated(token, Answer(ss[i].mem, ss[i].now, token)) else Silent
    case Purge(c, _) => if c in ss[i].checks then Validated(ss[i].checks[c].token, None) else Silent
    case Accept(_) => Silent
    case Expire(_) => Silent
    case e => Other(e)
  }

  ghost predicate AtomicStep(cfg: Config, s: State, op: Op, s': State) {
    match op
    case Silent => Shown(s') == Shown(s)
    case Validated(token, answer) => AtomicValidate(Shown(s), token, answer, Shown(s'))
    case Other(e) => Enabled(cfg, s, e) && s' == Apply(cfg, s, e)
  }

  // ---------- linearizability ----------

  lemma CheckForward(cfg: Config, s: State, e: Event, c: nat)
    requires Enabled(cfg, s, e) && c in s.checks && !e.Restart? && !Ends(e, c)
    ensures c in Apply(cfg, s, e).checks
    ensures Apply(cfg, s, e).checks[c].token == s.checks[c].token
    ensures Apply(cfg, s, e).checks[c].session == s.checks[c].session
  {
  }

  lemma {:induction false} CheckPersists(cfg: Config, ss: seq<State>, es: seq<Event>, i: nat, j: nat, c: nat)
    requires IsRun(cfg, ss, es) && i <= j <= |es| && c in ss[i].checks
    requires forall k :: i <= k < j ==> !es[k].Restart? && !Ends(es[k], c)
    ensures c in ss[j].checks
    ensures ss[j].checks[c].token == ss[i].checks[c].token && ss[j].checks[c].session == ss[i].checks[c].session
    decreases j
  {
    if i == j {
    } else {
      CheckPersists(cfg, ss, es, i, j - 1, c);
      assert StepAt(cfg, ss, es, j - 1);
      CheckForward(cfg, ss[j - 1], es[j - 1], c);
    }
  }

  /** A call that will accept read a session that had not expired when it was read. */
  lemma AcceptedReadIsLive(cfg: Config, ss: seq<State>, es: seq<Event>, i: nat, j: nat, c: nat)
    requires IsRun(cfg, ss, es) && i < |es| && es[i].ReadHit? && es[i].call == c && AcceptsAt(es, i, j, c)
    ensures c in ss[j].checks && ss[j].checks[c].token == es[i].token
    ensures Answer(ss[i].mem, ss[i].now, es[i].token) == Some(ss[j].checks[c].session)
  {
    assert StepAt(cfg, ss, es, i);
    CheckPersists(cfg, ss, es, i + 1, j, c);
    assert StepAt(cfg, ss, es, j);
    RunMonotone(cfg, ss, es, i, j);
  }

  /** The delete section drops a session only after it expired, however long it waited for the lock. */
  lemma PurgeIsAtomic(cfg: Config, s: State, c: nat, save: SaveOutcome)
    requires Inv(cfg, s) && Enabled(cfg, s, Purge(c, save))
    ensures s.checks[c].token in s.mem ==> s.mem[s.checks[c].token].expiresAt < s.now
    ensures AtomicValidate(Shown(s), s.checks[c].token, None, Shown(Apply(cfg, s, Purge(c, save))))
  {
    assert CheckOk(s, c);
    var token := s.checks[c].token;
    if token !in s.mem {
      assert s.mem - {token} == s.mem;
    }
  }

  /** Linearizability, first half: step by step, the run is a run of the atomic specification. */
  lemma EveryStepIsAtomic(cfg: Config, ss: seq<State>, es: seq<Event>, i: nat)
    requires IsRun(cfg, ss, es) && i < |es|
    ensures AtomicStep(cfg, ss[i], OpAt(ss, es, i), ss[i + 1])
  {
    RunInv(cfg, ss, es, i);
    assert StepAt(cfg, ss, es, i);
    match es[i]
    case Purge(c, save) => PurgeIsAtomic(cfg, ss[i], c, save);
    case ReadHit(c, token) =>
      if Accepts(es, i, c) {
        var j :| AcceptsAt(es, i, j, c);
        AcceptedReadIsLive(cfg, ss, es, i, j, c);
      }
    case _ =>
  }

  /** Step `point` is the instant of the call that finishes at step `j`: its own read section, with no end of that
      call and no restart in between, when the call accepts; its own last section otherwise. */
  ghost predicate IsInstant(es: seq<Event>, point: nat, j: nat)
    requires j < |es|
  {
    match es[j]
    case Accept(c) => AcceptsAt(es, point, j, c) && es[point].ReadHit? && es[point].call == c
    case ReadMiss(_, _) => point == j
    case Purge(_, _) => point == j
    case _ => false
  }

  /** Linearizability, second half: a call that returns at step `j` has its instant within the call, and the
      atomic validation at that instant gives the very answer the call returns. */
  lemma EveryCallHasItsInstant(cfg: Config, ss: seq<State>, es: seq<Event>, j: nat, c: nat)
    returns (read: nat, point: nat)
    requires IsRun(cfg, ss, es) && j < |es| && Ends(es[j], c)
    ensures read <= point <= j && read < j && c in ss[j].checks && es[read] == ReadHit(c, ss[j].checks[c].token)
    ensures forall k :: read < k < j ==> !es[k].Restart? && !Ends(es[k], c)
    ensures point == (if es[j].Accept? then read else j) && IsInstant(es, point, j)
    ensures OpAt(ss, es, point) ==
      Validated(ss[j].checks[c].token, if es[j].Accept? then Some(ss[j].checks[c].session) else None)
  {
    assert StepAt(cfg, ss, es, j);
    read := CheckReadBefore(cfg, ss, es, j, c);
    if es[j].Accept? {
      point := read;
      assert AcceptsAt(es, read, j, c);
      AcceptedReadIsLive(cfg, ss, es, read, j, c);
    } else {
      point := j;
    }
  }

  lemma InstantsAreDistinct(es: seq<Event>, point: nat, j1: nat, j2: nat)
    requires j1 < |es| && j2 < |es| && IsInstant(es, point, j1) && IsInstant(es, point, j2)
    ensures j1 == j2
  {
  }

  /** Instants and finished calls belong together one to one: every atomic validation of the run is the instant of
      a call, and of one call only. */
  lemma EveryInstantHasItsCall(cfg: Config, ss: seq<State>, es: seq<Event>, point: nat) returns (j: nat)
    requires IsRun(cfg, ss, es) && point < |es| && OpAt(ss, es, point).Validated?
    ensures point <= j < |es| && IsInstant(es, point, j)
    ensures forall j': nat :: j' < |es| && IsInstant(es, point, j') ==> j' == j
  {
    match es[point] {
      case ReadHit(c, _) =>
        var end :| AcceptsAt(es, point, end, c);
        j := end;
      case _ =>
        j := point;
    }
    forall j': nat | j' < |es| && IsInstant(es, point, j')
      ensures j' == j
    {
      InstantsAreDistinct(es, point, j', j);
    }
  }

  // ---------- purging is invisible ----------

  /** An ideal service: it never purges, and forgets a session only when a request names it. A restart
      hands it whatever the real one reads back. */
  ghost function IdealStep(s: State, e: Event, ideal: SessionMap): SessionMap {
    match e
    case LoginCommit(c, save) =>
      if save.Saved? && c in s.logins && s.logins[c].Stamped? then
        ideal[s.logins[c].session.token := s.logins[c].session]
      else ideal
    case Logout(token, _) => ideal - {token}
    case LogoutMiss(token) => ideal - {token}
    case Revoke(_, token, _) => ideal - {token}
    case RevokeMiss(id) => map t | t in ideal && ideal[t].id != id :: ideal[t]
    case Restart(_) => s.disk
    case _ => ideal
  }

  ghost predicate IsIdealRun(ss: seq<State>, es: seq<Event>, ideals: seq<SessionMap>) {
    && |ideals| == |ss| == |es| + 1
    && ideals[0] == map[]
    && forall i {:trigger es[i]} :: 0 <= i < |es| ==> ideals[i + 1] == IdealStep(ss[i], es[i], ideals[i])
  }

  /** The real map is a part of the ideal one, and what it lacks has expired. */
  ghost predicate Behind(mem: SessionMap, now: int, ideal: SessionMap) {
    SubMap(mem, ideal) && forall t :: t in ideal && t !in mem ==> ideal[t].expiresAt < now
  }

  lemma BehindShrink(mem: SessionMap, rest: SessionMap, now: int, ideal: SessionMap)
    requires Behind(mem, now, ideal) && SubMap(rest, mem)
    requires forall t :: t in mem && t !in rest ==> mem[t].expiresAt < now
    ensures Behind(rest, now, ideal)
  {
  }

  /** Purges take expired sessions out of the real map only. */
  lemma BehindPurge(cfg: Config, s: State, e: Event, ideal: SessionMap)
    requires Inv(cfg, s) && Enabled(cfg, s, e) && Behind(s.mem, s.now, ideal) && (e.Purge? || e.List?)
    ensures Behind(Apply(cfg, s, e).mem, s.now, ideal)
  {
    if e.Purge? {
      assert CheckOk(s, e.call);
      BehindShrink(s.mem, s.mem - {s.checks[e.call].token}, s.now, ideal);
    } else {
      BehindShrink(s.mem, Live(s.mem, e.at), s.now, ideal);
    }
  }

  lemma BehindAdd(mem: SessionMap, now: int, ideal: SessionMap, session: Session)
    requires Behind(mem, now, ideal)
    ensures Behind(mem[session.token := session], now, ideal[session.token := session])
  {
  }

  lemma BehindCommit(cfg: Config, s: State, e: Event, ideal: SessionMap)
    requires Inv(cfg, s) && Enabled(cfg, s, e) && Behind(s.mem, s.now, ideal) && e.LoginCommit?
    ensures Behind(Apply(cfg, s, e).mem, s.now, IdealStep(s, e, ideal))
  {
    if e.save.Saved? {
      BehindAdd(s.mem, s.now, ideal, s.logins[e.call].session);
    } else {
      FailedLoginRestores(cfg, s, e.call, e.save);
    }
  }

  /** Requests, restarts and silent events. */
  lemma BehindElse(cfg: Config, s: State, e: Event, ideal: SessionMap)
    requires SubMap(s.mem, s.disk) && Enabled(cfg, s, e) && Behind(s.mem, s.now, ideal)
    requires !e.LoginCommit? && !e.Purge? && !e.List?
    ensures Behind(Apply(cfg, s, e).mem, Apply(cfg, s, e).now, IdealStep(s, e, ideal))
  {
  }

  lemma BehindStep(cfg: Config, s: State, e: Event, ideal: SessionMap)
    requires Inv(cfg, s) && Enabled(cfg, s, e) && Behind(s.mem, s.now, ideal)
    ensures Behind(Apply(cfg, s, e).mem, Apply(cfg, s, e).now, IdealStep(s, e, ideal))
  {
    if e.LoginCommit? {
      BehindCommit(cfg, s, e, ideal);
    } else if e.Purge? || e.List? {
      BehindPurge(cfg, s, e, ideal);
    } else {
      BehindElse(cfg, s, e, ideal);
    }
  }

  lemma {:induction false} AlwaysBehind(cfg: Config, ss: seq<State>, es: seq<Event>, ideals: seq<SessionMap>, i: nat)
    requires IsRun(cfg, ss, es) && IsIdealRun(ss, es, ideals) && i <= |es|
    ensures Behind(ss[i].mem, ss[i].now, ideals[i])
  {
    if i == 0 {
    } else {
      AlwaysBehind(cfg, ss, es, ideals, i - 1);
      RunInv(cfg, ss, es, i - 1);
      assert StepAt(cfg, ss, es, i - 1);
      BehindStep(cfg, ss[i - 1], es[i - 1], ideals[i - 1]);
      assert ideals[i] == IdealStep(ss[i - 1], es[i - 1], ideals[i - 1]);
    }
  }

  /** Lazy purging is invisible: at every moment of every run the purged map and the never-purged map give
      the same answer for every token, whichever purges happened and whichever of their saves failed. */
  lemma PurgingIsInvisible(cfg: Config, ss: seq<State>, es: seq<Event>, ideals: seq<SessionMap>, i: nat, token: string)
    requires IsRun(cfg, ss, es) && IsIdealRun(ss, es, ideals) && i <= |es|
    ensures Answer(ss[i].mem, ss[i].now, token) == Answer(ideals[i], ss[i].now, token)
  {
    AlwaysBehind(cfg, ss, es, ideals, i);
  }

  /** Both results together: what a finished validation call returned is what the ideal service would have
      answered at the call's own instant. */
  lemma CallsAnswerAsIdeal(cfg: Config, ss: seq<State>, es: seq<Event>, ideals: seq<SessionMap>, j: nat, c: nat)
    returns (read: nat, point: nat)
    requires IsRun(cfg, ss, es) && IsIdealRun(ss, es, ideals) && j < |es| && Ends(es[j], c)
    ensures read <= point <= j && read < j && c in ss[j].checks && es[read] == ReadHit(c, ss[j].checks[c].token)
    ensures IsInstant(es, point, j)
    ensures Answer(ideals[point], ss[point].now, es[read].token) ==
      if es[j].Accept? then Some(ss[j].checks[c].session) else None
  {
    read, point := EveryCallHasItsInstant(cfg, ss, es, j, c);
    EveryStepIsAtomic(cfg, ss, es, point);
    PurgingIsInvisible(cfg, ss, es, ideals, point, es[read].token);
  }
}
