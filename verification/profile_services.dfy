/** The two SQL-profile services, each shown to do what its step function in Profiles says. */
module ProfileServices {
  import opened Faults
  import opened Listing
  import opened Options
  import opened Profiles
  import opened Sorting
  import opened Text

  /** The JSON state file. */
  datatype ProfileFile = Missing | Blank | Damaged | Holds(profiles: seq<Profile>)

  function Contents(f: ProfileFile): ProfileMap {
    if f.Holds? then LoadList(f.profiles) else map[]
  }

  lemma {:induction false} LoadedIsKeyed(ps: seq<Profile>)
    ensures KeyedById(LoadList(ps))
  {
    if ps == [] {
    } else {
      LoadedIsKeyed(ps[..|ps| - 1]);
    }
  }

  /** Copies a map entry by entry, in any order. */
  method CloneProfiles(src: ProfileMap) returns (out: ProfileMap)
    ensures out == src
  {
    out := map[];
    var pending := src.Keys;
    while pending != {}
      invariant pending <= src.Keys && out.Keys == src.Keys - pending
      invariant forall k :: k in out ==> out[k] == src[k]
      decreases pending
    {
      var k :| k in pending;
      out := out[k := src[k]];
      pending := pending - {k};
    }
  }

  /** Collects the values in map order, then sorts by creation time. */
  method SortedValues(m: ProfileMap) returns (out: seq<Profile>)
    requires KeyedById(m)
    ensures Lists(out, m) && SortedBy(NotAfter, out)
    ensures forall i, j :: 0 <= i < j < |out| ==> out[i].createdAt <= out[j].createdAt
  {
    ghost var order;
    var values;
    values, order := Values(m);
    PickLists(m, order);
    out := Sort(NotAfter, values);
    ListsUnderPermutation(values, out, m);
  }

  class FileProfileService {
    const stateFile: string
    var profiles: ProfileMap
    var file: ProfileFile

    /** Memory is what a restart would load from the file, in every state, after failures too. */
    ghost predicate Valid()
      reads this
    {
      KeyedById(profiles) && (stateFile != "" ==> Contents(file) == profiles)
    }

    /** NewService and NewServiceWithFile; without a path nothing is ever written. */
    constructor (stateFile: string, file: ProfileFile)
      ensures this.stateFile == stateFile && this.file == file && profiles == map[]
    {
      this.stateFile, this.file, this.profiles := stateFile, file, map[];
    }

    /** Reads the file into a service that holds nothing yet. */
    method LoadState() returns (ok: bool)
      requires profiles == map[]
      modifies this`profiles
      ensures ok == !file.Damaged? && (ok ==> profiles == Contents(file) && Valid())
    {
      if file.Missing? || file.Blank? {
        return true;
      }
      if file.Damaged? {
        return false;
      }
      var decoded := file.profiles;
      for i := 0 to |decoded|
        invariant profiles == LoadList(decoded[..i])
      {
        assert decoded[..i + 1][..i] == decoded[..i];
        if decoded[i].id != "" {
          profiles := profiles[decoded[i].id := decoded[i]];
        }
      }
      assert decoded[..|decoded|] == decoded;
      LoadedIsKeyed(decoded);
      return true;
    }

    /** Writes the sorted list; a failed write leaves the old file. */
    method PersistLocked(writeFails: bool) returns (ok: bool)
      requires KeyedById(profiles)
      modifies this`file
      ensures ok == !(writeFails && stateFile != "")
      ensures !ok || stateFile == "" ==> file == old(file)
      ensures ok && stateFile != "" ==>
        file.Holds? && Lists(file.profiles, profiles) && SortedBy(NotAfter, file.profiles) && Contents(file) == profiles
    {
      if stateFile == "" {
        return true;
      }
      var out := SortedValues(profiles);
      if writeFails {
        return false;
      }
      file := Holds(out);
      LoadAfterPersist(out, profiles);
      return true;
    }

    method Create(p: Profile, now: int, drawn: Option<string>, writeFails: bool) returns (r: Reply)
      requires Valid() && (drawn.Some? ==> drawn.value != "")
      modifies this
      ensures Valid()
      ensures drawn.Some? ==>
        (profiles, r) == FileStep(old(profiles), Op.Create(p, drawn.value, now), writeFails && stateFile != "")
      ensures drawn.None? ==>
        profiles == old(profiles) && r == Refused(if Profiles.Valid(p) then NoRandom else InvalidInput)
      ensures r.Found? <==> Profiles.Valid(p) && drawn.Some? && !(writeFails && stateFile != "")
      ensures r.Found? ==>
        && Submitted(r.p, p) && r.p.id == drawn.value && r.p.createdAt == now && r.p.modifiedAt == now
        && profiles == old(profiles)[drawn.value := r.p]
      ensures !r.Found? ==> r.Refused? && profiles == old(profiles) && file == old(file)
    {
      if !Profiles.Valid(p) {
        return Refused(InvalidInput);
      }
      if drawn.None? {
        return Refused(NoRandom);
      }
      var created := p.(id := drawn.value, createdAt := now, modifiedAt := now,
                        name := Trim(p.name), dbType := Lower(Trim(p.dbType)));
      var prev := CloneProfiles(profiles);
      profiles := profiles[created.id := created];
      var ok := PersistLocked(writeFails);
      if !ok {
        profiles := prev;
        return Refused(StoreFailed);
      }
      return Found(created);
    }

    method Get(id: string) returns (r: Reply)
      ensures (profiles, r) == FileStep(profiles, Op.Get(id), false)
      ensures r == if id in profiles then Found(profiles[id]) else Refused(NotFound)
    {
      return if id in profiles then Found(profiles[id]) else Refused(NotFound);
    }

    method Update(id: string, p: Profile, now: int, writeFails: bool) returns (r: Reply)
      requires Valid()
      modifies this
      ensures Valid()
      ensures (profiles, r) == FileStep(old(profiles), Op.Update(id, p, now), writeFails && stateFile != "")
      ensures r == Refused(InvalidInput) <==> !Profiles.Valid(p)
      ensures r == Refused(NotFound) <==> Profiles.Valid(p) && id !in old(profiles)
      ensures r.Found? <==> Profiles.Valid(p) && id in old(profiles) && !(writeFails && stateFile != "")
      ensures r.Found? ==>
        && Submitted(r.p, p) && r.p.modifiedAt == now
        && r.p.id == old(profiles)[id].id && r.p.createdAt == old(profiles)[id].createdAt
        && profiles == old(profiles)[id := r.p]
      ensures !r.Found? ==> r.Refused? && profiles == old(profiles) && file == old(file)
    {
      if !Profiles.Valid(p) {
        return Refused(InvalidInput);
      }
      var prev := CloneProfiles(profiles);
      if id !in profiles {
        return Refused(NotFound);
      }
      var existing := profiles[id].(
        name := Trim(p.name), dbType := Lower(Trim(p.dbType)), host := p.host, port := p.port,
        username := p.username, database := p.database, commands := p.commands, useSSL := p.useSSL,
        modifiedAt := now);
      profiles := profiles[id := existing];
      var ok := PersistLocked(writeFails);
      if !ok {
        profiles := prev;
        return Refused(StoreFailed);
      }
      return Found(existing);
    }

    method Delete(id: string, writeFails: bool) returns (r: Reply)
      requires Valid()
      modifies this
      ensures Valid()
      ensures (profiles, r) == FileStep(old(profiles), Op.Delete(id), writeFails && stateFile != "")
      ensures r == Refused(NotFound) <==> id !in old(profiles)
      ensures r == Done <==> id in old(profiles) && !(writeFails && stateFile != "")
      ensures r == Done ==> profiles == old(profiles) - {id}
      ensures r != Done ==> r.Refused? && profiles == old(profiles) && file == old(file)
    {
      var prev := CloneProfiles(profiles);
      if id !in profiles {
        return Refused(NotFound);
      }
      profiles := profiles - {id};
      var ok := PersistLocked(writeFails);
      if !ok {
        profiles := prev;
        return Refused(StoreFailed);
      }
      return Done;
    }

    /** Every profile once, oldest first. */
    method List() returns (out: seq<Profile>)
      requires Valid()
      ensures Lists(out, profiles) && SortedBy(NotAfter, out)
      ensures forall i, j :: 0 <= i < j < |out| ==> out[i].createdAt <= out[j].createdAt
    {
      out := SortedValues(profiles);
    }
  }

  /** A restart over the file a service left behind: the new service holds the same profiles. */
  method Restart(s: FileProfileService) returns (t: FileProfileService)
    requires s.Valid() && s.stateFile != "" && !s.file.Damaged?
    ensures t.Valid() && t.profiles == s.profiles && t.file == s.file
  {
    t := new FileProfileService(s.stateFile, s.file);
    var ok := t.LoadState();
    assert ok;
  }

  class PgProfileService {
    /** sql_profiles by its primary key. */
    var rows: ProfileMap

    ghost predicate Valid()
      reads this
    {
      KeyedById(rows)
    }

    constructor ()
      ensures Valid() && rows == map[]
    {
      rows := map[];
    }

    method Create(p: Profile, now: int, drawn: Option<string>, fault: DbFault) returns (r: Reply)
      requires Valid() && (drawn.Some? ==> drawn.value != "")
      modifies this
      ensures Valid()
      ensures drawn.Some? ==> (rows, r) == PgStep(old(rows), Op.Create(p, drawn.value, now), fault)
      ensures drawn.None? ==> rows == old(rows) && r == Refused(if Profiles.Valid(p) then NoRandom else InvalidInput)
      ensures var inserted := Profiles.Valid(p) && drawn.Some? && drawn.value !in old(rows) && !fault.Down?;
              && (r.Found? <==> inserted && fault.Fine?)
              && (if !inserted then rows == old(rows) else
                    && drawn.value in rows && rows == old(rows)[drawn.value := rows[drawn.value]]
                    && var row := rows[drawn.value];
                       && Submitted(row, p) && row.id == drawn.value && row.createdAt == now && row.modifiedAt == now
                       && (r.Found? ==> r.p == row))
    {
      if !Profiles.Valid(p) {
        return Refused(InvalidInput);
      }
      if drawn.None? {
        return Refused(NoRandom);
      }
      var created := p.(id := drawn.value, name := Trim(p.name), dbType := Lower(Trim(p.dbType)),
                        createdAt := now, modifiedAt := now);
      if fault.Down? || created.id in rows {
        return Refused(StoreFailed);
      }
      rows := rows[created.id := created];
      return if fault.Fine? then Found(created) else Refused(StoreFailed);
    }

    method Get(id: string, fault: DbFault) returns (r: Reply)
      ensures (rows, r) == PgStep(rows, Op.Get(id), fault)
      ensures r == if Trim(id) != "" && !fault.Fine? then Refused(StoreFailed)
                   else if Trim(id) != "" && Trim(id) in rows then Found(rows[Trim(id)]) else Refused(NotFound)
    {
      var key := Trim(id);
      if key == "" {
        return Refused(NotFound);
      }
      if !fault.Fine? {
        return Refused(StoreFailed);
      }
      return if key in rows then Found(rows[key]) else Refused(NotFound);
    }

    /** The UPDATE statement: the row with this id, if there is one, gets the submitted fields. */
    method ExecUpdate(key: string, p: Profile, now: int) returns (affected: nat)
      requires Valid()
      modifies this
      ensures Valid() && affected == if key in old(rows) then 1 else 0
      ensures rows == if affected == 1 then old(rows)[key := Updated(old(rows)[key], p, now)] else old(rows)
      ensures affected == 1 ==>
        && Submitted(rows[key], p) && rows[key].modifiedAt == now
        && rows[key].id == old(rows)[key].id && rows[key].createdAt == old(rows)[key].createdAt
    {
      if key !in rows {
        return 0;
      }
      rows := rows[key := rows[key].(
        name := Trim(p.name), dbType := Lower(Trim(p.dbType)), host := p.host, port := p.port,
        username := p.username, database := p.database, commands := p.commands, useSSL := p.useSSL,
        modifiedAt := now)];
      return 1;
    }

    /** UPDATE, then a look at the affected rows, then a read-back of the row. */
    method Update(id: string, p: Profile, now: int, fault: DbFault) returns (r: Reply)
      requires Valid()
      modifies this
      ensures Valid()
      ensures (rows, r) == PgStep(old(rows), Op.Update(id, p, now), fault)
      ensures r == Refused(InvalidInput) <==> !Profiles.Valid(p)
      ensures var key := Trim(id);
              var updated := Profiles.Valid(p) && key in old(rows) && !fault.Down?;
              && (r.Found? <==> updated && fault.Fine?)
              && (if !updated then rows == old(rows) else
                    && key in rows && rows == old(rows)[key := rows[key]]
                    && Submitted(rows[key], p) && rows[key].modifiedAt == now
                    && rows[key].id == old(rows)[key].id && rows[key].createdAt == old(rows)[key].createdAt
                    && (r.Found? ==> r.p == rows[key]))
    {
      if !Profiles.Valid(p) {
        return Refused(InvalidInput);
      }
      var key := Trim(id);
      if key == "" {
        return Refused(NotFound);
      }
      if fault.Down? {
        return Refused(StoreFailed);
      }
      var affected := ExecUpdate(key, p, now);
      if affected == 0 && fault.Fine? {
        return Refused(NotFound);
      }
      TrimIsTrimmed(id);
      r := Get(key, fault);
    }

    method Delete(id: string, fault: DbFault) returns (r: Reply)
      requires Valid()
      modifies this
      ensures Valid()
      ensures (rows, r) == PgStep(old(rows), Op.Delete(id), fault)
      ensures rows == if fault.Down? then old(rows) else old(rows) - {Trim(id)}
      ensures r == Done <==> Trim(id) in old(rows) && fault.Fine?
      ensures r == Refused(NotFound) <==> Trim(id) == "" || (Trim(id) !in old(rows) && fault.Fine?)
    {
      var key := Trim(id);
      if key == "" {
        return Refused(NotFound);
      }
      if fault.Down? {
        return Refused(StoreFailed);
      }
      var affected := if key in rows then 1 else 0;
      if affected == 1 {
        rows := rows - {key};
      }
      if fault.AnswerLost? {
        return Refused(StoreFailed);
      }
      return if affected == 0 then Refused(NotFound) else Done;
    }

    /** A failed query lists nothing, and a row that does not scan is passed over. */
    method List(broken: bool, unreadable: set<string>) returns (out: seq<Profile>)
      requires Valid()
      ensures broken ==> out == []
      ensures !broken ==> Lists(out, rows - unreadable) && SortedBy(NotAfter, out)
      ensures forall i, j :: 0 <= i < j < |out| ==> out[i].createdAt <= out[j].createdAt
    {
      if broken {
        return [];
      }
      out := SortedValues(rows - unreadable);
    }
  }
}
