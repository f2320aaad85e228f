/** Migration status: the files of a directory joined with a store of applied names. */
module Migrations {
  import opened Faults
  import opened Options
  import opened Sorting
  import opened Text

  datatype Entry = Entry(name: string, isDir: bool, checksum: string)

  datatype FileInfo = FileInfo(name: string, checksum: string)

  datatype Status = Status(name: string, checksum: string, applied: bool, appliedAt: string)

  type Applied = map<string, string>

  // ---------- the listing of a directory ----------

  ghost predicate DistinctNames(dir: seq<Entry>) {
    forall i, j :: 0 <= i < j < |dir| ==> dir[i].name != dir[j].name
  }

  predicate IsMigration(e: Entry) {
    !e.isDir && HasSuffix(e.name, ".sql")
  }

  predicate InDir(dir: seq<Entry>, name: string) {
    exists i :: 0 <= i < |dir| && dir[i].name == name
  }

  /** Some migration of the directory cannot be read to be hashed. */
  predicate HashFails(dir: seq<Entry>, unreadable: set<string>) {
    exists i :: 0 <= i < |dir| && IsMigration(dir[i]) && dir[i].name in unreadable
  }

  /** `f` is what the listing says of one of the migrations. */
  predicate Describes(f: FileInfo, dir: seq<Entry>) {
    exists i ::
      && 0 <= i < |dir| && !dir[i].isDir && HasSuffix(dir[i].name, ".sql")
      && f.name == dir[i].name && f.checksum == dir[i].checksum
  }

  predicate NameNotAfter(a: FileInfo, b: FileInfo) {
    !Less(b.name, a.name)
  }

  lemma {:induction false} LessAntisymmetric(s: string, t: string)
    ensures !(Less(s, t) && Less(t, s))
  {
    if s == "" || t == "" || s[0] != t[0] {
    } else {
      LessAntisymmetric(s[1..], t[1..]);
    }
  }

  lemma NamesOrdered()
    ensures TotalPreorder(NameNotAfter)
  {
    forall a: FileInfo, b: FileInfo
      ensures NameNotAfter(a, b) || NameNotAfter(b, a)
    {
      LessAntisymmetric(a.name, b.name);
    }
    forall a: FileInfo, b: FileInfo, c: FileInfo | NameNotAfter(a, b) && NameNotAfter(b, c)
      ensures NameNotAfter(a, c)
    {
      LessTotal(a.name, b.name);
      LessTotal(b.name, c.name);
      LessTotal(c.name, a.name);
      if Less(c.name, a.name) {
        if a.name == b.name || b.name == c.name {
          assert false;
        }
        LessTransitive(a.name, b.name, c.name);
        LessTransitive(c.name, a.name, c.name);
        LessTotal(c.name, c.name);
        assert false;
      }
    }
  }

  ghost predicate StrictlySorted(out: seq<FileInfo>) {
    forall i, j :: 0 <= i < j < |out| ==> Less(out[i].name, out[j].name)
  }

  /** What a listing of the directory must be: its migrations, each once, in strictly increasing name order. */
  ghost predicate IsListing(dir: seq<Entry>, out: seq<FileInfo>) {
    (forall f :: f in out <==> Describes(f, dir)) && StrictlySorted(out)
  }

  lemma StrictIsSorted(out: seq<FileInfo>)
    requires StrictlySorted(out)
    ensures SortedBy(NameNotAfter, out) && NoRepeats(out)
    ensures forall i, j :: 0 <= i < j < |out| ==> !NameNotAfter(out[j], out[i])
  {
    forall i, j | 0 <= i < j < |out|
      ensures NameNotAfter(out[i], out[j]) && out[i] != out[j]
    {
      LessAntisymmetric(out[i].name, out[j].name);
      LessTotal(out[i].name, out[i].name);
    }
  }

  /** There is only one such list. */
  lemma ListingUnique(dir: seq<Entry>, a: seq<FileInfo>, b: seq<FileInfo>)
    requires IsListing(dir, a) && IsListing(dir, b)
    ensures a == b
  {
    StrictIsSorted(a);
    StrictIsSorted(b);
    forall f
      ensures f in a <==> f in b
    {
      assert f in a <==> Describes(f, dir);
    }
    SameMembersPermutation(a, b);
    SortUnique(NameNotAfter, a, b);
  }

  ghost predicate NamesApart(fs: seq<FileInfo>) {
    forall i, j :: 0 <= i < j < |fs| ==> fs[i].name != fs[j].name
  }

  lemma SortedStrictly(found: seq<FileInfo>, sorted: seq<FileInfo>)
    requires NamesApart(found) && SortedBy(NameNotAfter, sorted) && multiset(sorted) == multiset(found)
    ensures forall f :: f in sorted <==> f in found
    ensures StrictlySorted(sorted)
  {
    PermutationMembers(sorted, found);
    PermutationNoRepeats(found, sorted);
    forall i, j | 0 <= i < j < |sorted|
      ensures Less(sorted[i].name, sorted[j].name)
    {
      assert sorted[i] in found && sorted[j] in found;
      LessTotal(sorted[i].name, sorted[j].name);
      assert NameNotAfter(sorted[i], sorted[j]);
    }
  }

  // ---------- the join with the applied names ----------

  function Row(f: FileInfo, applied: Applied): Status {
    Status(f.name, f.checksum, f.name in applied, if f.name in applied then applied[f.name] else "")
  }

  function Join(files: seq<FileInfo>, applied: Applied): (rows: seq<Status>)
    ensures |rows| == |files| && forall i :: 0 <= i < |files| ==> rows[i] == Row(files[i], applied)
  {
    seq(|files|, i requires 0 <= i < |files| => Row(files[i], applied))
  }

  ghost predicate Reports(files: seq<FileInfo>, applied: Applied, rows: seq<Status>) {
    && |rows| == |files|
    && forall i :: 0 <= i < |rows| ==>
         && rows[i].name == files[i].name && rows[i].checksum == files[i].checksum
         && (rows[i].applied <==> rows[i].name in applied)
         && rows[i].appliedAt == if rows[i].name in applied then applied[rows[i].name] else ""
  }

  /** What a status report must be: the directory's listing, each entry called applied exactly when the store has
      its name, and then with the time the store has for it. */
  ghost predicate IsStatus(dir: seq<Entry>, applied: Applied, rows: seq<Status>) {
    exists files :: IsListing(dir, files) && Reports(files, applied, rows)
  }

  /** The row has the name and the checksum of a migration of the directory. */
  predicate RowOfDir(row: Status, dir: seq<Entry>) {
    exists e ::
      && 0 <= e < |dir| && !dir[e].isDir && HasSuffix(dir[e].name, ".sql")
      && row.name == dir[e].name && row.checksum == dir[e].checksum
  }

  lemma RowExact(dir: seq<Entry>, applied: Applied, rows: seq<Status>, i: nat)
    requires IsStatus(dir, applied, rows) && i < |rows|
    ensures RowOfDir(rows[i], dir)
    ensures rows[i].applied <==> rows[i].name in applied
    ensures rows[i].appliedAt == if rows[i].name in applied then applied[rows[i].name] else ""
  {
    var files :| IsListing(dir, files) && Reports(files, applied, rows);
    assert files[i] in files;
    assert Describes(files[i], dir);
  }

  lemma StatusUnique(dir: seq<Entry>, applied: Applied, a: seq<Status>, b: seq<Status>)
    requires IsStatus(dir, applied, a) && IsStatus(dir, applied, b)
    ensures a == b
  {
    var files :| IsListing(dir, files) && Reports(files, applied, a);
    var files' :| IsListing(dir, files') && Reports(files', applied, b);
    ListingUnique(dir, files, files');
  }

  /** The entries, their order and what is said of them are the same, except that the entry with this name, and
      it alone, has become an applied one. */
  predicate FlipsOnly(before: seq<Status>, after: seq<Status>, name: string, at: string) {
    && |after| == |before|
    && forall i :: 0 <= i < |before| ==>
         after[i] == if before[i].name == name then before[i].(applied := true, appliedAt := at) else before[i]
  }

  predicate Occurs(rows: seq<Status>, i: nat, name: string) {
    i < |rows| && rows[i].name == name
  }

  /** Marking a name turns the one entry of a report that has it, if there is one, and leaves the rest alone. */
  lemma MarkFlipsOneEntry(dir: seq<Entry>, applied: Applied, name: string, at: string,
                          before: seq<Status>, after: seq<Status>)
    requires IsStatus(dir, applied, before) && IsStatus(dir, applied[name := at], after)
    ensures FlipsOnly(before, after, name, at)
    ensures forall i, j :: Occurs(before, i, name) && Occurs(before, j, name) ==> i == j
    ensures (exists i :: Occurs(before, i, name)) <==>
      exists e :: 0 <= e < |dir| && IsMigration(dir[e]) && dir[e].name == name
  {
    var files :| IsListing(dir, files) && Reports(files, applied, before);
    var files' :| IsListing(dir, files') && Reports(files', applied[name := at], after);
    ListingUnique(dir, files, files');
    forall i, j | Occurs(before, i, name) && Occurs(before, j, name)
      ensures i == j
    {
      LessTotal(name, name);
    }
    forall i | Occurs(before, i, name)
      ensures exists e :: 0 <= e < |dir| && IsMigration(dir[e]) && dir[e].name == name
    {
      assert files[i] in files;
    }
    forall e | 0 <= e < |dir| && IsMigration(dir[e]) && dir[e].name == name
      ensures exists i :: Occurs(before, i, name)
    {
      var f := FileInfo(dir[e].name, dir[e].checksum);
      assert Describes(f, dir);
      var i :| 0 <= i < |files| && files[i] == f;
      assert Occurs(before, i, name);
    }
  }

  // ---------- the file store ----------

  /** The state file of applied names; one that cannot be read counts as damaged. */
  datatype StateFile = Missing | Blank | Damaged | Holds(applied: Applied)

  /** The file store: load the whole map, change one entry, write the whole map. */
  class FileAppliedStore {
    const stateFile: string
    var file: StateFile

    constructor (stateFile: string, file: StateFile)
      ensures this.stateFile == stateFile && this.file == file
    {
      this.stateFile, this.file := stateFile, file;
    }

    /** What Load reports; without a path nothing was ever applied. */
    ghost function Known(): Option<Applied>
      reads this
    {
      if stateFile == "" || file.Missing? || file.Blank? then Some(map[])
      else if file.Damaged? then None
      else Some(file.applied)
    }

    method Load() returns (state: Option<Applied>)
      ensures state == Known()
    {
      if stateFile == "" || file.Missing? || file.Blank? {
        return Some(map[]);
      }
      if file.Damaged? {
        return None;
      }
      return Some(file.applied);
    }

    method SaveState(state: Applied, writeFails: bool) returns (ok: bool)
      modifies this
      ensures ok == (stateFile == "" || !writeFails)
      ensures file == if stateFile != "" && !writeFails then Holds(state) else old(file)
    {
      if stateFile == "" {
        return true;
      }
      if writeFails {
        return false;
      }
      file := Holds(state);
      return true;
    }

    method SetApplied(name: string, appliedAt: string, writeFails: bool) returns (ok: bool)
      modifies this
      ensures ok <==> old(Known()).Some? && (stateFile == "" || !writeFails)
      ensures ok && stateFile != "" ==> Known() == Some(old(Known()).value[name := appliedAt])
      ensures !ok || stateFile == "" ==> file == old(file)
    {
      var state := Load();
      if state.None? {
        return false;
      }
      ok := SaveState(state.value[name := appliedAt], writeFails);
    }
  }

  // ---------- the service ----------

  /** A name that can be marked: a single ".sql" path element that the directory has. */
  predicate CanMark(dir: seq<Entry>, name: string) {
    name != "" && HasSuffix(name, ".sql") && '/' !in name && InDir(dir, name)
  }

  class MigrationService {
    const dir: seq<Entry>
    const store: FileAppliedStore

    constructor (dir: seq<Entry>, store: FileAppliedStore)
      ensures this.dir == dir && this.store == store
    {
      this.dir, this.store := dir, store;
    }

    /** Filters the directory entries and sorts them by name. A directory that cannot be read fails the call,
        and so does a migration that cannot be hashed. */
    method List(dirFails: bool, unreadable: set<string>) returns (out: Option<seq<FileInfo>>)
      requires DistinctNames(dir)
      ensures out.None? <==> dirFails || HashFails(dir, unreadable)
      ensures out.Some? ==> IsListing(dir, out.value)
      ensures out.Some? ==>
        forall i, j :: 0 <= i < j < |out.value| ==> ComesBefore(out.value[i].name, out.value[j].name)
    {
      if dirFails {
        return None;
      }
      var found: seq<FileInfo> := [];
      for n := 0 to |dir|
        invariant forall i :: 0 <= i < n && IsMigration(dir[i]) ==> dir[i].name !in unreadable
        invariant forall f :: f in found <==>
          exists i :: 0 <= i < n && IsMigration(dir[i]) && f == FileInfo(dir[i].name, dir[i].checksum)
        invariant NamesApart(found)
      {
        var e := dir[n];
        if e.isDir || !HasSuffix(e.name, ".sql") {
          continue;
        }
        if e.name in unreadable {
          return None;
        }
        assert forall k :: 0 <= k < |found| ==> found[k] in found;
        found := found + [FileInfo(e.name, e.checksum)];
      }
      NamesOrdered();
      var sorted := Sort(NameNotAfter, found);
      SortedStrictly(found, sorted);
      forall i, j | 0 <= i < j < |sorted|
        ensures ComesBefore(sorted[i].name, sorted[j].name)
      {
        LessExact(sorted[i].name, sorted[j].name);
      }
      return Some(sorted);
    }

    /** The join: List's names in List's order, each with what the store says about it. */
    method Status(dirFails: bool, unreadable: set<string>) returns (out: Option<seq<Status>>)
      requires DistinctNames(dir)
      ensures out.Some? ==> store.Known().Some?
      ensures out.None? <==> store.Known().None? || dirFails || HashFails(dir, unreadable)
      ensures out.Some? ==> IsStatus(dir, store.Known().value, out.value)
      ensures out.Some? ==> forall i :: 0 <= i < |out.value| ==>
        && RowOfDir(out.value[i], dir)
        && (out.value[i].applied <==> out.value[i].name in store.Known().value)
        && out.value[i].appliedAt ==
             if out.value[i].name in store.Known().value then store.Known().value[out.value[i].name] else ""
    {
      var files := List(dirFails, unreadable);
      if files.None? {
        return None;
      }
      var applied := store.Load();
      if applied.None? {
        return None;
      }
      var rows: seq<Status> := [];
      for n := 0 to |files.value|
        invariant rows == Join(files.value[..n], applied.value)
      {
        var f := files.value[n];
        rows := rows + [Row(f, applied.value)];
        assert files.value[..n + 1] == files.value[..n] + [f];
      }
      assert files.value[..|files.value|] == files.value;
      assert Reports(files.value, applied.value, rows);
      forall i | 0 <= i < |rows|
        ensures RowOfDir(rows[i], dir)
      {
        RowExact(dir, applied.value, rows, i);
      }
      return Some(rows);
    }

    /** Records a migration as applied. Looking the file up may fail even though the directory has it. */
    method MarkApplied(name: string, appliedAt: string, statFails: bool, writeFails: bool) returns (ok: bool)
      modifies store
      ensures ok <==>
        && Trim(name) != "" && HasSuffix(Trim(name), ".sql") && '/' !in Trim(name)
        && (exists i :: 0 <= i < |dir| && dir[i].name == Trim(name)) && !statFails
        && old(store.Known()).Some? && (store.stateFile == "" || !writeFails)
      ensures ok && store.stateFile != "" ==>
        store.Known() == Some(old(store.Known()).value[Trim(name) := appliedAt])
      ensures !ok || store.stateFile == "" ==> store.file == old(store.file)
    {
      var trimmed := Trim(name);
      if trimmed == "" || !HasSuffix(trimmed, ".sql") || '/' in trimmed {
        return false;
      }
      if statFails || !InDir(dir, trimmed) {
        return false;
      }
      ok := store.SetApplied(trimmed, appliedAt, writeFails);
    }

    /** What the migrations page does: a report, a mark, and the report again. A mark that took hold shows in
        the entry of that name and nowhere else; any other mark does not show. */
    method StatusAroundMark(dirFails: bool, unreadable: set<string>, name: string, appliedAt: string,
                            statFails: bool, writeFails: bool)
      returns (before: Option<seq<Status>>, ok: bool, after: Option<seq<Status>>)
      requires DistinctNames(dir)
      modifies store
      ensures before.None? <==> old(store.Known()).None? || dirFails || HashFails(dir, unreadable)
      ensures before.Some? ==> after.Some? && IsStatus(dir, old(store.Known()).value, before.value)
      ensures before.Some? && ok && store.stateFile != "" ==>
        FlipsOnly(before.value, after.value, Trim(name), appliedAt)
      ensures before.Some? && (!ok || store.stateFile == "") ==> after == before
    {
      before := Status(dirFails, unreadable);
      ok := MarkApplied(name, appliedAt, statFails, writeFails);
      after := Status(dirFails, unreadable);
      if before.Some? {
        ghost var was := old(store.Known()).value;
        if ok && store.stateFile != "" {
          MarkFlipsOneEntry(dir, was, Trim(name), appliedAt, before.value, after.value);
        } else {
          StatusUnique(dir, was, before.value, after.value);
        }
      }
    }
  }

  // ---------- the Postgres store ----------

  /** One call of the Postgres store. */
  datatype Upsert = Upsert(name: string, appliedAt: string, fault: DbFault)

  function Upserted(t: Applied, us: seq<Upsert>): Applied {
    if us == [] then t
    else
      var before, u := Upserted(t, us[..|us| - 1]), us[|us| - 1];
      if u.fault.Down? then before else before[u.name := u.appliedAt]
  }

  /** migration_applied by its primary key; SetApplied is one upsert. */
  class PgAppliedStore {
    var table: Applied

    constructor ()
      ensures table == map[]
    {
      table := map[];
    }

    method Load(broken: bool) returns (state: Option<Applied>)
      ensures state == if broken then None else Some(table)
    {
      if broken {
        return None;
      }
      var out: Applied := map[];
      var pending := table.Keys;
      while pending != {}
        invariant pending <= table.Keys && out.Keys == table.Keys - pending
        invariant forall k :: k in out ==> out[k] == table[k]
        decreases pending
      {
        var name :| name in pending;
        out := out[name := table[name]];
        pending := pending - {name};
      }
      assert out == table;
      return Some(out);
    }

    /** A call whose answer is lost reports an error although the name is in. */
    method SetApplied(name: string, appliedAt: string, fault: DbFault) returns (ok: bool)
      modifies this
      ensures ok == fault.Fine?
      ensures table == if fault.Down? then old(table) else old(table)[name := appliedAt]
      ensures table == Upserted(old(table), [Upsert(name, appliedAt, fault)])
    {
      if fault.Down? {
        return false;
      }
      table := table[name := appliedAt];
      return fault.Fine?;
    }
  }

  /** Upserts are atomic, so any interleaving of calls is a sequence of them: the applied set only grows, and
      it grows by exactly the names of the calls that ran, answered or not. */
  lemma {:induction false} UpsertsOnlyAdd(t: Applied, us: seq<Upsert>, name: string)
    ensures name in Upserted(t, us) <==>
      name in t || exists i :: 0 <= i < |us| && us[i].name == name && !us[i].fault.Down?
  {
    if us == [] {
    } else {
      UpsertsOnlyAdd(t, us[..|us| - 1], name);
    }
  }

  // ---------- concurrent calls on the file store ----------

  /** The file store's SetApplied is a load and a later save, and no lock is held in between. */
  datatype Call = Call(loaded: Applied, name: string, appliedAt: string)

  datatype Shared = Shared(file: Applied, calls: map<nat, Call>)

  datatype Event = Read(call: nat, name: string, appliedAt: string) | Write(call: nat, fails: bool)

  predicate Enabled(s: Shared, e: Event) {
    if e.Read? then e.call !in s.calls else e.call in s.calls
  }

  function Next(s: Shared, e: Event): Shared
    requires Enabled(s, e)
  {
    match e
    case Read(c, name, at) => s.(calls := s.calls[c := Call(s.file, name, at)])
    case Write(c, fails) =>
      var k := s.calls[c];
      Shared(if fails then s.file else k.loaded[k.name := k.appliedAt], s.calls - {c})
  }

  ghost predicate StepAt(ss: seq<Shared>, es: seq<Event>, i: nat)
    requires |ss| == |es| + 1 && i < |es|
  {
    Enabled(ss[i], es[i]) && ss[i + 1] == Next(ss[i], es[i])
  }

  /** A run over any file, with no call under way at first. */
  ghost predicate IsRun(ss: seq<Shared>, es: seq<Event>) {
    |ss| == |es| + 1 && ss[0].calls == map[] && forall i :: 0 <= i < |es| ==> StepAt(ss, es, i)
  }

  /** The call that starts at step `i` is still under way when step `j` comes. */
  predicate UnderWay(es: seq<Event>, i: int, j: int) {
    0 <= i < j <= |es| && es[i].Read? && forall k :: i < k < j ==> !(es[k].Write? && es[k].call == es[i].call)
  }

  /** Step `j` is a write that goes through, and it ends the call that started at step `i`. */
  predicate Spans(es: seq<Event>, i: int, j: int) {
    UnderWay(es, i, j) && j < |es| && es[j] == Write(es[i].call, false)
  }

  /** A call under way holds what its own load found. */
  lemma {:induction false} HeldSince(ss: seq<Shared>, es: seq<Event>, i: nat, j: nat)
    requires IsRun(ss, es) && UnderWay(es, i, j)
    ensures es[i].call in ss[j].calls
    ensures ss[j].calls[es[i].call] == Call(ss[i].file, es[i].name, es[i].appliedAt)
    decreases j
  {
    assert StepAt(ss, es, j - 1);
    if j == i + 1 {
    } else {
      HeldSince(ss, es, i, j - 1);
    }
  }

  /** The load of a call under way. */
  lemma {:induction false} ReadBefore(ss: seq<Shared>, es: seq<Event>, j: nat, c: nat) returns (i: nat)
    requires IsRun(ss, es) && j <= |es| && c in ss[j].calls
    ensures UnderWay(es, i, j) && es[i].call == c
    decreases j
  {
    assert j > 0;
    assert StepAt(ss, es, j - 1);
    if es[j - 1].Read? && es[j - 1].call == c {
      i := j - 1;
    } else {
      i := ReadBefore(ss, es, j - 1, c);
    }
  }

  /** The names in the file never get fewer between two moments up to step `n`. */
  ghost predicate KeptUpTo(ss: seq<Shared>, n: nat)
    requires n < |ss|
  {
    forall i, j :: 0 <= i <= j <= n ==> ss[i].file.Keys <= ss[j].file.Keys
  }

  /** No write that goes through while the call of `Spans(es, i, j)` is under way brings in a name that is
      neither in the file when that call loads it nor the call's own. */
  ghost predicate Undisturbed(ss: seq<Shared>, es: seq<Event>, i: int, j: int)
    requires IsRun(ss, es) && Spans(es, i, j)
  {
    forall w, r :: i < w < j && Spans(es, r, w) ==> es[r].name in ss[i].file.Keys + {es[i].name}
  }

  /** As long as no name was lost, a name that is new in the file was written there by a call of that name. */
  lemma {:induction false} NewNameWritten(ss: seq<Shared>, es: seq<Event>, i: nat, j: nat, name: string)
    returns (r: nat, w: nat)
    requires IsRun(ss, es) && i <= j <= |es| && KeptUpTo(ss, j)
    requires name !in ss[i].file && name in ss[j].file
    ensures i <= w < j && Spans(es, r, w) && es[r].name == name
    decreases j
  {
    assert i < j;
    assert StepAt(ss, es, j - 1);
    if name in ss[j - 1].file {
      r, w := NewNameWritten(ss, es, i, j - 1, name);
    } else {
      w := j - 1;
      r := ReadBefore(ss, es, w, es[w].call);
      HeldSince(ss, es, r, w);
      assert ss[r].file.Keys <= ss[w].file.Keys;
    }
  }

  /** A write that ends an undisturbed call keeps every name. */
  lemma WriteKeepsNames(ss: seq<Shared>, es: seq<Event>, i: nat, j: nat)
    requires IsRun(ss, es) && Spans(es, i, j) && Undisturbed(ss, es, i, j) && KeptUpTo(ss, j)
    ensures ss[j].file.Keys <= ss[j + 1].file.Keys
  {
    HeldSince(ss, es, i, j);
    assert StepAt(ss, es, j);
    forall name | name in ss[j].file
      ensures name in ss[j + 1].file
    {
      if name !in ss[i].file {
        var r, w := NewNameWritten(ss, es, i, j, name);
        assert w != i;
      }
    }
  }

  lemma {:induction false} UndisturbedKeeps(ss: seq<Shared>, es: seq<Event>, n: nat)
    requires IsRun(ss, es) && n <= |es|
    requires forall i, j :: Spans(es, i, j) ==> Undisturbed(ss, es, i, j)
    ensures KeptUpTo(ss, n)
  {
    if n == 0 {
    } else {
      UndisturbedKeeps(ss, es, n - 1);
      var e := es[n - 1];
      assert StepAt(ss, es, n - 1);
      if e.Write? && !e.fails {
        var i := ReadBefore(ss, es, n - 1, e.call);
        WriteKeepsNames(ss, es, i, n - 1);
      }
      assert ss[n - 1].file.Keys <= ss[n].file.Keys;
    }
  }

  lemma KeepingIsUndisturbed(ss: seq<Shared>, es: seq<Event>, i: nat, j: nat)
    requires IsRun(ss, es) && Spans(es, i, j) && KeptUpTo(ss, |es|)
    ensures Undisturbed(ss, es, i, j)
  {
    HeldSince(ss, es, i, j);
    assert StepAt(ss, es, j);
    forall w, r | i < w < j && Spans(es, r, w)
      ensures es[r].name in ss[i].file.Keys + {es[i].name}
    {
      HeldSince(ss, es, r, w);
      assert StepAt(ss, es, w);
      assert ss[w + 1].file.Keys <= ss[j + 1].file.Keys;
    }
  }

  /** Which schedules lose names: between no two moments of a run do the file's names get fewer if and only if
      no call that writes was overlapped by a write of a name foreign to it. */
  lemma NamesKeptIff(ss: seq<Shared>, es: seq<Event>)
    requires IsRun(ss, es)
    ensures KeptUpTo(ss, |es|) <==> forall i, j :: Spans(es, i, j) ==> Undisturbed(ss, es, i, j)
  {
    if KeptUpTo(ss, |es|) {
      forall i, j | Spans(es, i, j)
        ensures Undisturbed(ss, es, i, j)
      {
        KeepingIsUndisturbed(ss, es, i, j);
      }
    }
    if forall i, j :: Spans(es, i, j) ==> Undisturbed(ss, es, i, j) {
      UndisturbedKeeps(ss, es, |es|);
    }
  }

  /** Two overlapping calls both succeed, and the first one's name is lost. */
  lemma OverlapLosesAName(file: Applied, n: string, m: string, at: string) returns (ss: seq<Shared>, es: seq<Event>)
    requires n !in file && n != m
    ensures es == [Read(1, n, at), Read(2, m, at), Write(1, false), Write(2, false)]
    ensures IsRun(ss, es) && ss[0].file == file
    ensures n in ss[3].file && n !in ss[4].file
  {
    es := [Read(1, n, at), Read(2, m, at), Write(1, false), Write(2, false)];
    var s0 := Shared(file, map[]);
    var s1 := Next(s0, es[0]);
    var s2 := Next(s1, es[1]);
    var s3 := Next(s2, es[2]);
    ss := [s0, s1, s2, s3, Next(s3, es[3])];
    assert StepAt(ss, es, 0) && StepAt(ss, es, 1) && StepAt(ss, es, 2) && StepAt(ss, es, 3);
  }

  /** Calls one at a time: a call starts only when none is under way. */
  ghost predicate Serial(ss: seq<Shared>, es: seq<Event>)
    requires IsRun(ss, es)
  {
    forall k :: 0 <= k < |es| && es[k].Read? ==> ss[k].calls == map[]
  }

  lemma SerialCallsDoNotOverlap(ss: seq<Shared>, es: seq<Event>, i: nat, j: nat, r: nat, w: nat)
    requires IsRun(ss, es) && Serial(ss, es) && Spans(es, i, j) && i < w < j
    ensures !Spans(es, r, w)
  {
    if Spans(es, r, w) {
      if r < i {
        HeldSince(ss, es, r, i);
      } else if i < r {
        HeldSince(ss, es, i, r);
      }
      assert false;
    }
  }

  /** Serial runs lose no name. */
  lemma SerialCallsOnlyAdd(ss: seq<Shared>, es: seq<Event>)
    requires IsRun(ss, es) && Serial(ss, es)
    ensures KeptUpTo(ss, |es|)
  {
    forall i, j | Spans(es, i, j)
      ensures Undisturbed(ss, es, i, j)
    {
      forall w, r: nat | i < w < j
        ensures !Spans(es, r, w)
      {
        SerialCallsDoNotOverlap(ss, es, i, j, r, w);
      }
    }
    NamesKeptIff(ss, es);
  }
}
