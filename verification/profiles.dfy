/** SQL profiles: the abstract map both services stand for, the file they are kept in, and the laws that tie
    the two implementations together. */
module Profiles {
  import opened Faults
  import opened Listing
  import opened Sorting
  import opened Text

  datatype Profile = Profile(
    id: string, name: string, dbType: string, host: string, port: int, username: string,
    database: string, commands: string, useSSL: bool, createdAt: int, modifiedAt: int)

  type ProfileMap = map<string, Profile>

  datatype Error = NotFound | InvalidInput | NoRandom | StoreFailed

  datatype Reply = Found(p: Profile) | Done | Refused(error: Error)

  datatype Op =
    | Create(p: Profile, id: string, now: int)
    | Get(id: string)
    | Update(id: string, p: Profile, now: int)
    | Delete(id: string)

  // ---------- validation ----------

  const DB_TYPES := {"mysql", "mssql", "pgsql"}

  predicate Valid(p: Profile) {
    && Trim(p.name) != ""
    && Lower(Trim(p.dbType)) in DB_TYPES
    && Trim(p.host) != ""
    && 0 < p.port <= 65535
    && Trim(p.database) != ""
    && Trim(p.commands) != ""
  }

  function Normalize(p: Profile): Profile {
    p.(name := Trim(p.name), dbType := Lower(Trim(p.dbType)))
  }

  /** How a stored profile looks. */
  predicate NormalForm(p: Profile) {
    && p.name != "" && Trimmed(p.name)
    && (p.dbType == "mysql" || p.dbType == "mssql" || p.dbType == "pgsql")
    && Trim(p.host) != ""
    && 0 < p.port <= 65535
    && Trim(p.database) != "" && Trim(p.commands) != ""
  }

  lemma TypesAreLower(t: string)
    requires t in DB_TYPES
    ensures Lower(t) == t && Trimmed(t)
  {
  }

  /** Normalising a valid profile gives a normal form. */
  lemma NormalizeIsNormal(p: Profile)
    requires Valid(p)
    ensures NormalForm(Normalize(p))
  {
    TrimIsTrimmed(p.name);
  }

  /** A normal form is valid, and normalising leaves it alone. */
  lemma NormalFormIsFixed(p: Profile)
    requires NormalForm(p)
    ensures Valid(p) && Normalize(p) == p
  {
    TypesAreLower(p.dbType);
    TrimIsTrimmed(p.name);
    TrimIsTrimmed(p.dbType);
  }

  /** Normalising twice is normalising once, for every profile, valid or not. */
  lemma NormalizeIdempotent(p: Profile)
    ensures Normalize(Normalize(p)) == Normalize(p)
  {
    TrimIsTrimmed(p.name);
    TrimIsTrimmed(p.dbType);
    LowerKeepsTrimmed(Trim(p.dbType));
    TrimIsTrimmed(Lower(Trim(p.dbType)));
    LowerIdempotent(Trim(p.dbType));
  }

  // ---------- the abstract map ----------

  /** What an update makes of the stored profile: identity and creation time stay. */
  function Updated(existing: Profile, p: Profile, now: int): Profile {
    Normalize(p).(id := existing.id, createdAt := existing.createdAt, modifiedAt := now)
  }

  function Created(p: Profile, id: string, now: int): Profile {
    Normalize(p).(id := id, createdAt := now, modifiedAt := now)
  }

  /** `q` holds what `p` submits: every field a client fills in, the name and the type in their stored spelling. */
  predicate Submitted(q: Profile, p: Profile) {
    && q.name == Trim(p.name) && q.dbType == Lower(Trim(p.dbType))
    && q.host == p.host && q.port == p.port && q.username == p.username
    && q.database == p.database && q.commands == p.commands && q.useSSL == p.useSSL
  }

  /** The interface both services implement, as a step on the abstract map. */
  function Step(m: ProfileMap, op: Op): (ProfileMap, Reply) {
    match op
    case Create(p, id, now) =>
      if !Valid(p) then (m, Refused(InvalidInput))
      else (m[id := Created(p, id, now)], Found(Created(p, id, now)))
    case Get(id) => if id in m then (m, Found(m[id])) else (m, Refused(NotFound))
    case Update(id, p, now) =>
      if !Valid(p) then (m, Refused(InvalidInput))
      else if id !in m then (m, Refused(NotFound))
      else (m[id := Updated(m[id], p, now)], Found(Updated(m[id], p, now)))
    case Delete(id) => if id in m then (m - {id}, Done) else (m, Refused(NotFound))
  }

  /** The file service under a write that fails or not: a failed write rolls the map back. */
  function FileStep(m: ProfileMap, op: Op, writeFails: bool): (ProfileMap, Reply) {
    var (m', reply) := Step(m, op);
    if writeFails && !op.Get? && !reply.Refused? then (m, Refused(StoreFailed)) else (m', reply)
  }

  /** The Postgres service: it trims the id it is given, and a creation collides with an id in use. For an update,
      the answer that may be lost is the read-back that follows it. */
  function PgStep(m: ProfileMap, op: Op, fault: DbFault): (ProfileMap, Reply) {
    match op
    case Create(p, id, now) =>
      if !Valid(p) then (m, Refused(InvalidInput))
      else if fault.Down? || id in m then (m, Refused(StoreFailed))
      else (m[id := Created(p, id, now)], if fault.Fine? then Found(Created(p, id, now)) else Refused(StoreFailed))
    case Get(id) =>
      if Trim(id) == "" then (m, Refused(NotFound))
      else if !fault.Fine? then (m, Refused(StoreFailed))
      else Step(m, Get(Trim(id)))
    case Update(id, p, now) =>
      if !Valid(p) then (m, Refused(InvalidInput))
      else if Trim(id) == "" then (m, Refused(NotFound))
      else if fault.Down? then (m, Refused(StoreFailed))
      else
        var (m', reply) := Step(m, Update(Trim(id), p, now));
        (m', if fault.Fine? then reply else Refused(StoreFailed))
    case Delete(id) =>
      if Trim(id) == "" then (m, Refused(NotFound))
      else if fault.Down? then (m, Refused(StoreFailed))
      else
        var (m', reply) := Step(m, Delete(Trim(id)));
        (m', if fault.Fine? then reply else Refused(StoreFailed))
  }

  // ---------- laws of one step ----------

  /** A profile as the map holds it under `k`. */
  ghost predicate Fits(p: Profile, k: string) {
    p.id == k && k != "" && Trimmed(k) && NormalForm(p) && p.createdAt <= p.modifiedAt
  }

  /** Stored under its own id, which is not empty and has no white space at its ends, and in normal form. */
  ghost predicate WellFormed(m: ProfileMap) {
    forall k :: k in m ==> Fits(m[k], k)
  }

  /** The clock is past every creation, and a created profile has an id like those the service draws. */
  ghost predicate Timely(m: ProfileMap, op: Op) {
    match op
    case Create(_, id, _) => id != "" && Trimmed(id) && id !in m
    case Update(id, _, now) => forall k :: k in m ==> m[k].createdAt <= now
    case _ => true
  }

  lemma NewEntryFits(m: ProfileMap, op: Op)
    requires WellFormed(m) && Timely(m, op) && (op.Create? || op.Update?) && Valid(op.p)
    ensures op.Create? ==> Fits(Created(op.p, op.id, op.now), op.id)
    ensures op.Update? && op.id in m ==> Fits(Updated(m[op.id], op.p, op.now), op.id)
  {
    NormalizeIsNormal(op.p);
  }

  lemma StepKeepsWellFormed(m: ProfileMap, op: Op)
    requires WellFormed(m) && Timely(m, op)
    ensures WellFormed(Step(m, op).0)
  {
    if (op.Create? || op.Update?) && Valid(op.p) {
      NewEntryFits(m, op);
    }
  }

  lemma PgStepIsAStep(m: ProfileMap, op: Op, fault: DbFault)
    ensures PgStep(m, op, fault).0 == m || PgStep(m, op, fault).0 == Step(m, op).0 ||
            (op.Update? && PgStep(m, op, fault).0 == Step(m, Update(Trim(op.id), op.p, op.now)).0) ||
            (op.Delete? && PgStep(m, op, fault).0 == m - {Trim(op.id)})
  {
  }

  /** Neither service leaves the normal forms, whatever breaks. */
  lemma ServicesKeepWellFormed(m: ProfileMap, op: Op, writeFails: bool, fault: DbFault)
    requires WellFormed(m) && Timely(m, op)
    ensures WellFormed(FileStep(m, op, writeFails).0)
    ensures WellFormed(PgStep(m, op, fault).0)
  {
    StepKeepsWellFormed(m, op);
    PgStepIsAStep(m, op, fault);
    if op.Update? {
      StepKeepsWellFormed(m, Update(Trim(op.id), op.p, op.now));
    }
  }

  /** A step that is refused changes nothing; one that is not changes at most the profile it names; an update
      keeps that profile's id and creation time. */
  lemma StepChangesOneProfile(m: ProfileMap, op: Op, writeFails: bool, k: string)
    ensures var (m', reply) := FileStep(m, op, writeFails);
      && (reply.Refused? ==> m' == m)
      && (k != op.id ==> (k in m' <==> k in m) && (k in m ==> m'[k] == m[k]))
      && (op.Update? && !reply.Refused? ==>
           op.id in m && op.id in m' && m'[op.id].id == m[op.id].id && m'[op.id].createdAt == m[op.id].createdAt)
  {
  }

  /** The call has something to change: a creation that would go in, the deletion of a stored profile, an update
      of one that sends other content or comes at another time than the last. */
  predicate Effective(m: ProfileMap, op: Op) {
    match op
    case Create(p, id, _) => Valid(p) && id !in m
    case Get(_) => false
    case Update(id, p, now) =>
      && Valid(p) && Trim(id) in m
      && !(Submitted(m[Trim(id)], p) && now == m[Trim(id)].modifiedAt)
    case Delete(id) => Trim(id) in m
  }

  lemma UpdateChangesNothingIff(existing: Profile, p: Profile, now: int)
    ensures Updated(existing, p, now) == existing <==> Submitted(existing, p) && now == existing.modifiedAt
  {
  }

  /** The same for Postgres has an exception: a refused call leaves the table alone except when the change had
      run and its answer was lost. */
  lemma PgRefusalKeepsTableIff(m: ProfileMap, op: Op, fault: DbFault)
    requires WellFormed(m) && PgStep(m, op, fault).1.Refused?
    ensures PgStep(m, op, fault).0 == m <==> !(fault.AnswerLost? && Effective(m, op))
  {
    if op.Update? && Valid(op.p) && Trim(op.id) in m {
      var k := Trim(op.id);
      UpdateChangesNothingIff(m[k], op.p, op.now);
      assert k in m[k := Updated(m[k], op.p, op.now)];
    }
  }

  /** A lost answer in the flesh: the deletion is refused, and the profile is gone. */
  lemma PgRefusalMayChange(m: ProfileMap, id: string)
    requires WellFormed(m) && id in m
    ensures PgStep(m, Delete(id), AnswerLost).1 == Refused(StoreFailed)
    ensures id !in PgStep(m, Delete(id), AnswerLost).0
  {
  }

  /** Sending a stored profile back as an update changes its modification time only. */
  lemma SelfUpdate(m: ProfileMap, id: string, now: int)
    requires WellFormed(m) && id in m
    ensures Step(m, Update(id, m[id], now)) == (m[id := m[id].(modifiedAt := now)], Found(m[id].(modifiedAt := now)))
  {
    NormalFormIsFixed(m[id]);
  }

  // ---------- the two services agree ----------

  /** On a healthy day the services give the same reply and the same map for the same call, unless the id in
      the call has white space around the id of a stored profile: Postgres would find it, the file would not. */
  lemma ServicesAgreeIff(m: ProfileMap, op: Op)
    requires WellFormed(m) && Timely(m, op)
    ensures FileStep(m, op, false) == PgStep(m, op, Fine) <==>
      op.Create? || (op.Update? && !Valid(op.p)) || Trimmed(op.id) || Trim(op.id) !in m
  {
    TrimIsTrimmed(op.id);
    if !op.Create? && Trim(op.id) in m && !Trimmed(op.id) {
      assert op.id !in m && Fits(m[Trim(op.id)], Trim(op.id));
    }
  }

  /** One space in front of a stored id: Postgres finds the profile, the file service does not. */
  lemma PaddedIdsDisagree(m: ProfileMap, id: string)
    requires WellFormed(m) && id in m
    ensures FileStep(m, Get(" " + id), false) == (m, Refused(NotFound))
    ensures PgStep(m, Get(" " + id), Fine) == (m, Found(m[id]))
  {
    assert Fits(m[id], id);
    var padded := " " + id;
    assert padded[1..] == id;
    TrimIsTrimmed(id);
    assert TrimLeft(id) == id;
    assert Trim(padded) == id;
    assert IsSpace(padded[0]) && !Trimmed(padded);
    assert padded in m ==> Fits(m[padded], padded);
  }

  /** The replies to a sequence of calls, and the map they leave. */
  function FileRun(m: ProfileMap, ops: seq<Op>): (ProfileMap, seq<Reply>)
    decreases |ops|
  {
    if ops == [] then (m, [])
    else
      var (m', reply) := FileStep(m, ops[0], false);
      var (m'', replies) := FileRun(m', ops[1..]);
      (m'', [reply] + replies)
  }

  function PgRun(m: ProfileMap, ops: seq<Op>): (ProfileMap, seq<Reply>)
    decreases |ops|
  {
    if ops == [] then (m, [])
    else
      var (m', reply) := PgStep(m, ops[0], Fine);
      var (m'', replies) := PgRun(m', ops[1..]);
      (m'', [reply] + replies)
  }

  /** Ids equal to their own trim, fresh ids for creations, and a clock that does not go back. */
  ghost predicate Regular(m: ProfileMap, ops: seq<Op>)
    decreases |ops|
  {
    ops == [] ||
    (Timely(m, ops[0]) && Trimmed(ops[0].id) && Regular(Step(m, ops[0]).0, ops[1..]))
  }

  /** Both services refine the one abstract map: on every regular sequence of calls they give the same replies
      and end with the same profiles, all in normal form. */
  lemma {:induction false} SameRuns(m: ProfileMap, ops: seq<Op>)
    requires WellFormed(m) && Regular(m, ops)
    ensures FileRun(m, ops) == PgRun(m, ops)
    ensures WellFormed(FileRun(m, ops).0)
    decreases |ops|
  {
    if ops == [] {
    } else {
      ServicesAgreeIff(m, ops[0]);
      StepKeepsWellFormed(m, ops[0]);
      SameRuns(Step(m, ops[0]).0, ops[1..]);
    }
  }

  /** The map the file service holds after calls some of whose writes fail. */
  function FileMap(m: ProfileMap, ops: seq<Op>, fails: seq<bool>): ProfileMap
    requires |ops| == |fails|
  {
    if ops == [] then m
    else
      var n := |ops| - 1;
      FileStep(FileMap(m, ops[..n], fails[..n]), ops[n], fails[n]).0
  }

  /** From an empty store, every profile the file service ever holds is in normal form, whichever writes failed. */
  lemma {:induction false} ReachedProfilesAreNormal(ops: seq<Op>, fails: seq<bool>)
    requires |ops| == |fails|
    requires forall i :: 0 <= i < |ops| ==> Timely(FileMap(map[], ops[..i], fails[..i]), ops[i])
    ensures WellFormed(FileMap(map[], ops, fails))
  {
    if ops == [] {
    } else {
      var n := |ops| - 1;
      forall i | 0 <= i < n
        ensures Timely(FileMap(map[], ops[..n][..i], fails[..n][..i]), ops[..n][i])
      {
        assert ops[..n][..i] == ops[..i] && fails[..n][..i] == fails[..i];
      }
      ReachedProfilesAreNormal(ops[..n], fails[..n]);
      ServicesKeepWellFormed(FileMap(map[], ops[..n], fails[..n]), ops[n], fails[n], Fine);
    }
  }

  /** The rows of the Postgres service after calls that may break in any way. */
  function PgMap(m: ProfileMap, ops: seq<Op>, faults: seq<DbFault>): ProfileMap
    requires |ops| == |faults|
  {
    if ops == [] then m
    else
      var n := |ops| - 1;
      PgStep(PgMap(m, ops[..n], faults[..n]), ops[n], faults[n]).0
  }

  /** The same of the Postgres service, whatever broke. */
  lemma {:induction false} ReachedRowsAreNormal(ops: seq<Op>, faults: seq<DbFault>)
    requires |ops| == |faults|
    requires forall i :: 0 <= i < |ops| ==> Timely(PgMap(map[], ops[..i], faults[..i]), ops[i])
    ensures WellFormed(PgMap(map[], ops, faults))
  {
    if ops == [] {
    } else {
      var n := |ops| - 1;
      forall i | 0 <= i < n
        ensures Timely(PgMap(map[], ops[..n][..i], faults[..n][..i]), ops[..n][i])
      {
        assert ops[..n][..i] == ops[..i] && faults[..n][..i] == faults[..i];
      }
      ReachedRowsAreNormal(ops[..n], faults[..n]);
      ServicesKeepWellFormed(PgMap(map[], ops[..n], faults[..n]), ops[n], false, faults[n]);
    }
  }

  // ---------- the state file ----------

  /** What loadState rebuilds from a decoded list: entries without an id are skipped, the last one wins. */
  function LoadList(ps: seq<Profile>): ProfileMap {
    if ps == [] then map[]
    else
      var before, p := LoadList(ps[..|ps| - 1]), ps[|ps| - 1];
      if p.id == "" then before else before[p.id := p]
  }

  /** What the list says about an id: the last entry that has it. */
  predicate LastWith(ps: seq<Profile>, i: nat, k: string) {
    i < |ps| && ps[i].id == k && forall j :: i < j < |ps| ==> ps[j].id != k
  }

  lemma LastOfOneMore(ps: seq<Profile>, i: nat, k: string)
    requires ps != []
    ensures LastWith(ps, i, k) <==>
      if ps[|ps| - 1].id == k then i == |ps| - 1 else LastWith(ps[..|ps| - 1], i, k)
  {
  }

  lemma {:induction false} LoadListExact(ps: seq<Profile>, k: string)
    ensures k in LoadList(ps) <==> k != "" && exists i: nat :: LastWith(ps, i, k)
    ensures forall i: nat :: LastWith(ps, i, k) && k != "" ==> k in LoadList(ps) && LoadList(ps)[k] == ps[i]
  {
    if ps == [] {
    } else {
      var n := |ps| - 1;
      LoadListExact(ps[..n], k);
      forall i: nat
        ensures LastWith(ps, i, k) <==> if ps[n].id == k then i == n else LastWith(ps[..n], i, k)
      {
        LastOfOneMore(ps, i, k);
      }
      if ps[n].id == k {
        assert LastWith(ps, n, k);
      } else if exists i: nat :: LastWith(ps[..n], i, k) {
        var i: nat :| LastWith(ps[..n], i, k);
        assert LastWith(ps, i, k);
      }
    }
  }

  ghost predicate KeyedById(m: ProfileMap) {
    forall k :: k in m ==> m[k].id == k && k != ""
  }

  /** `ps` holds the values of `m`, each once, in some order. */
  ghost predicate Lists(ps: seq<Profile>, m: ProfileMap) {
    && NoRepeats(ps)
    && (forall p :: p in ps <==> p.id in m && m[p.id] == p)
  }

  lemma PickLists(m: ProfileMap, order: seq<string>)
    requires KeyedById(m) && Enumerates(order, m.Keys)
    ensures Lists(Pick(m, order), m)
  {
  }

  /** The part of the map that the list holds. */
  function ListedPart(m: ProfileMap, ps: seq<Profile>): ProfileMap {
    map k | k in m && m[k] in ps :: m[k]
  }

  lemma ListedOneMore(m: ProfileMap, ps: seq<Profile>, p: Profile)
    requires KeyedById(m) && p.id in m && m[p.id] == p
    ensures ListedPart(m, ps + [p]) == ListedPart(m, ps)[p.id := p]
  {
  }

  lemma {:induction false} LoadsListedPart(ps: seq<Profile>, m: ProfileMap)
    requires KeyedById(m) && forall i :: 0 <= i < |ps| ==> ps[i].id in m && m[ps[i].id] == ps[i]
    ensures LoadList(ps) == ListedPart(m, ps)
  {
    if ps == [] {
    } else {
      var n := |ps| - 1;
      LoadsListedPart(ps[..n], m);
      ListedOneMore(m, ps[..n], ps[n]);
      assert ps == ps[..n] + [ps[n]];
    }
  }

  /** The round trip: whatever order the values were written in, loading the list gives the same map. */
  lemma LoadAfterPersist(ps: seq<Profile>, m: ProfileMap)
    requires KeyedById(m) && Lists(ps, m)
    ensures LoadList(ps) == m
  {
    forall i | 0 <= i < |ps|
      ensures ps[i].id in m && m[ps[i].id] == ps[i]
    {
      assert ps[i] in ps;
    }
    LoadsListedPart(ps, m);
    assert ListedPart(m, ps) == m;
  }

  // ---------- sorting by creation time ----------

  predicate NotAfter(p: Profile, q: Profile) {
    p.createdAt <= q.createdAt
  }

  /** Every sorted listing of a map is the same list when no two profiles were created at the same time, so a
      restart shows the same list again. */
  lemma ListingDetermined(ps: seq<Profile>, qs: seq<Profile>, m: ProfileMap)
    requires KeyedById(m) && Lists(ps, m) && Lists(qs, m)
    requires SortedBy(NotAfter, ps) && SortedBy(NotAfter, qs)
    requires forall k, l :: k in m && l in m && k != l ==> m[k].createdAt != m[l].createdAt
    ensures ps == qs
  {
    SameMembersPermutation(ps, qs);
    forall i, j | 0 <= i < j < |ps|
      ensures !NotAfter(ps[j], ps[i])
    {
      assert ps[i] in ps && ps[j] in ps && ps[i] != ps[j];
      assert m[ps[i].id] == ps[i] && m[ps[j].id] == ps[j];
    }
    SortUnique(NotAfter, ps, qs);
  }

  /** A permutation of a listing is a listing. */
  lemma ListsUnderPermutation(ps: seq<Profile>, qs: seq<Profile>, m: ProfileMap)
    requires Lists(ps, m) && multiset(ps) == multiset(qs)
    ensures Lists(qs, m)
  {
    PermutationNoRepeats(ps, qs);
    PermutationMembers(ps, qs);
  }
}
