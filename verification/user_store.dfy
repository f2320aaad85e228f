/** The two durable user stores. */
module UserStore {
  import opened Faults
  import opened Listing
  import opened Options
  import opened SessionMachine
  import opened Text

  type Users = map<string, User>

  // ---------- the file store ----------

  /** A user as the JSON file holds it: the password hash is left out of the encoding. */
  datatype UserRecord = UserRecord(id: string, username: string, roles: seq<string>)

  /** The user file; one that cannot be read or decoded is garbled. */
  datatype UserFile = Missing | Empty | Garbled | Encoded(records: seq<UserRecord>)

  function Encode(u: User): UserRecord {
    UserRecord(u.id, u.username, u.roles)
  }

  function Decode(r: UserRecord): User {
    User(r.id, r.username, "", r.roles)
  }

  function EncodeAll(us: seq<User>): (rs: seq<UserRecord>)
    ensures |rs| == |us| && forall i :: 0 <= i < |us| ==> rs[i] == Encode(us[i])
  {
    seq(|us|, i requires 0 <= i < |us| => Encode(us[i]))
  }

  ghost predicate Keyed(users: Users) {
    forall k :: k in users ==> users[k].username == k
  }

  /** What loading a list of records adds up to: blank names are skipped and the last entry wins. */
  function LoadRecords(rs: seq<UserRecord>): Users {
    if rs == [] then map[]
    else
      var before, r := LoadRecords(rs[..|rs| - 1]), rs[|rs| - 1];
      if Trim(r.username) == "" then before else before[r.username := Decode(r)]
  }

  /** The last entry with this name. */
  predicate LastNamed(rs: seq<UserRecord>, i: nat, name: string) {
    i < |rs| && rs[i].username == name && forall j :: i < j < |rs| ==> rs[j].username != name
  }

  lemma LastOfOneMore(rs: seq<UserRecord>, i: nat, name: string)
    requires rs != []
    ensures LastNamed(rs, i, name) <==>
      if rs[|rs| - 1].username == name then i == |rs| - 1 else LastNamed(rs[..|rs| - 1], i, name)
  {
  }

  /** What a file says: a user for every name that is not blank, with the id and roles of the last entry of that
      name and no password hash. */
  lemma {:induction false} LoadRecordsExact(rs: seq<UserRecord>, name: string)
    ensures name in LoadRecords(rs) <==> Trim(name) != "" && exists i: nat :: LastNamed(rs, i, name)
    ensures forall i: nat :: LastNamed(rs, i, name) && Trim(name) != "" ==>
      name in LoadRecords(rs) && LoadRecords(rs)[name] == User(rs[i].id, name, "", rs[i].roles)
  {
    if rs == [] {
    } else {
      var n := |rs| - 1;
      LoadRecordsExact(rs[..n], name);
      forall i: nat
        ensures LastNamed(rs, i, name) <==>
          if rs[n].username == name then i == n else LastNamed(rs[..n], i, name)
      {
        LastOfOneMore(rs, i, name);
      }
      if rs[n].username == name {
        assert LastNamed(rs, n, name);
      } else if exists i: nat :: LastNamed(rs[..n], i, name) {
        var i: nat :| LastNamed(rs[..n], i, name);
        assert LastNamed(rs, i, name);
      }
    }
  }

  function FileUsers(f: UserFile): Users {
    if f.Encoded? then LoadRecords(f.records) else map[]
  }

  /** What a reload makes of the users with these names: blank names go, and so do the password hashes. */
  function FadedOn(users: Users, names: seq<string>): Users {
    map k | k in users && k in names && Trim(k) != "" :: users[k].(passwordHash := "")
  }

  function Faded(users: Users): Users {
    map k | k in users && Trim(k) != "" :: users[k].(passwordHash := "")
  }

  lemma FadedOneMore(users: Users, names: seq<string>, name: string)
    requires Keyed(users) && name in users
    ensures FadedOn(users, names + [name]) ==
      if Trim(name) == "" then FadedOn(users, names) else FadedOn(users, names)[name := Decode(Encode(users[name]))]
  {
  }

  lemma {:induction false} ReloadFadesOn(users: Users, names: seq<string>, rs: seq<UserRecord>)
    requires Keyed(users) && |names| == |rs|
    requires forall i :: 0 <= i < |names| ==> names[i] in users && rs[i] == Encode(users[names[i]])
    ensures LoadRecords(rs) == FadedOn(users, names)
  {
    if rs == [] {
    } else {
      var n := |rs| - 1;
      ReloadFadesOn(users, names[..n], rs[..n]);
      FadedOneMore(users, names[..n], names[n]);
      assert names == names[..n] + [names[n]];
    }
  }

  /** The lossy round trip: whatever order the map was written in, reloading the file gives the same users
      minus the blank names, and with every password hash erased. */
  lemma ReloadFades(users: Users, order: seq<string>)
    requires Keyed(users) && Enumerates(order, users.Keys)
    ensures LoadRecords(EncodeAll(Pick(users, order))) == Faded(users)
  {
    ReloadFadesOn(users, order, EncodeAll(Pick(users, order)));
    assert FadedOn(users, order) == Faded(users);
  }

  /** The file holds every user once, in some order. */
  ghost predicate Written(f: UserFile, users: Users) {
    exists order :: Enumerates(order, users.Keys) && f == Encoded(EncodeAll(Pick(users, order)))
  }

  /** No user that comes out of the file has a password hash. */
  lemma {:induction false} LoadedUsersHaveNoHash(rs: seq<UserRecord>)
    ensures Keyed(LoadRecords(rs))
    ensures forall k :: k in LoadRecords(rs) ==> LoadRecords(rs)[k].passwordHash == ""
  {
    if rs == [] {
    } else {
      LoadedUsersHaveNoHash(rs[..|rs| - 1]);
    }
  }

  class FileUserStore {
    var users: Users
    var file: UserFile

    ghost predicate Valid()
      reads this
    {
      Keyed(users)
    }

    /** A store over the given file content, not loaded yet. */
    constructor (content: UserFile)
      ensures Valid() && users == map[] && file == content
    {
      users, file := map[], content;
    }

    /** Reads the file. A file that is absent or empty is no error; one that does not decode is. */
    method Load() returns (ok: bool)
      requires Valid() && users == map[]
      modifies this`users
      ensures Valid() && ok == !file.Garbled? && users == FileUsers(file)
    {
      if file.Missing? || file.Empty? {
        return true;
      }
      if file.Garbled? {
        return false;
      }
      var decoded := file.records;
      for i := 0 to |decoded|
        invariant Valid() && users == LoadRecords(decoded[..i])
      {
        assert decoded[..i + 1][..i] == decoded[..i];
        if Trim(decoded[i].username) != "" {
          users := users[decoded[i].username := Decode(decoded[i])];
        }
      }
      assert decoded[..|decoded|] == decoded;
      return true;
    }

    method GetByUsername(username: string) returns (u: Option<User>)
      requires Valid()
      ensures u.Some? <==> username in users
      ensures u.Some? ==> u.value == users[username] && u.value.username == username
    {
      return if username in users then Some(users[username]) else None;
    }

    method PersistLocked(writeFails: bool) returns (ok: bool)
      requires Valid()
      modifies this`file
      ensures ok == !writeFails
      ensures writeFails ==> file == old(file)
      ensures !writeFails ==> Written(file, users) && FileUsers(file) == Faded(users)
    {
      ghost var order;
      var out: seq<User>;
      out, order := Values(users);
      if writeFails {
        return false;
      }
      file := Encoded(EncodeAll(out));
      ReloadFades(users, order);
      return true;
    }

    /** The map changes first and stays changed when the write fails. After a good write, a reload would
        bring back the faded users. */
    method Put(user: User, writeFails: bool) returns (ok: bool)
      requires Valid()
      modifies this
      ensures Valid() && ok == !writeFails
      ensures users == old(users)[user.username := user]
      ensures writeFails ==> file == old(file)
      ensures !writeFails ==> Written(file, users) && FileUsers(file) == Faded(users)
    {
      users := users[user.username := user];
      ok := PersistLocked(writeFails);
    }
  }

  /** Opens the store at a path and reads its file; a blank path is refused. */
  method OpenUserStore(path: string, content: UserFile) returns (s: FileUserStore?)
    ensures s == null <==> Trim(path) == "" || content.Garbled?
    ensures s != null ==> fresh(s) && s.Valid() && s.file == content && s.users == FileUsers(content)
  {
    if Trim(path) == "" {
      return null;
    }
    var store := new FileUserStore(content);
    var ok := store.Load();
    return if ok then store else null;
  }

  // ---------- the Postgres store ----------

  datatype UserRow = UserRow(username: string, passwordHash: string, roles: seq<string>)

  /** auth_users by its primary key; the username column is unique as well. */
  type UserTable = map<string, UserRow>

  ghost predicate UniqueNames(t: UserTable) {
    forall i, j :: i in t && j in t && i != j ==> t[i].username != t[j].username
  }

  function RowOf(u: User): UserRow {
    UserRow(u.username, u.passwordHash, u.roles)
  }

  ghost predicate Named(t: UserTable, name: string) {
    exists i :: i in t && t[i].username == name
  }

  /** The user a name stands for, by searching the rows. */
  ghost function Lookup(t: UserTable, name: string): Option<User> {
    if Named(t, name) then
      var i :| i in t && t[i].username == name;
      Some(User(i, name, t[i].passwordHash, t[i].roles))
    else None
  }

  lemma LookupExact(t: UserTable, i: string)
    requires UniqueNames(t) && i in t
    ensures Lookup(t, t[i].username) == Some(User(i, t[i].username, t[i].passwordHash, t[i].roles))
  {
  }

  /** The id is in use by somebody else: the row it belongs to has another name. */
  predicate IdTaken(t: UserTable, u: User) {
    u.id in t && t[u.id].username != u.username
  }

  /** The upsert: the row with this name, if any, gives way to the new row, id included. */
  function Upsert(t: UserTable, u: User): UserTable {
    (map i | i in t && t[i].username != u.username :: t[i])[u.id := RowOf(u)]
  }

  /** An upsert that may go through keeps both columns unique, makes the new user the answer for its name,
      and changes the answer for no other name. */
  lemma UpsertLookup(t: UserTable, u: User, name: string)
    requires UniqueNames(t) && !IdTaken(t, u)
    ensures UniqueNames(Upsert(t, u))
    ensures Lookup(Upsert(t, u), name) == if name == u.username then Some(u) else Lookup(t, name)
  {
    var t' := Upsert(t, u);
    if name == u.username {
      LookupExact(t', u.id);
    } else if Named(t, name) {
      var i :| i in t && t[i].username == name;
      LookupExact(t, i);
      LookupExact(t', i);
    }
  }

  /** What a query for one user comes back with. */
  datatype QueryReply = FoundUser(user: User) | NoSuchUser | QueryFailed

  class PostgresUserStore {
    var table: UserTable

    ghost predicate Valid()
      reads this
    {
      UniqueNames(table)
    }

    constructor ()
      ensures Valid() && table == map[]
    {
      table := map[];
    }

    /** A blank name has no user, whatever the database does; any other name needs the query to run. */
    method GetByUsername(username: string, fault: DbFault) returns (r: QueryReply)
      requires Valid()
      ensures r.QueryFailed? <==> Trim(username) != "" && !fault.Fine?
      ensures r.FoundUser? ==> Trim(username) != "" && Lookup(table, Trim(username)) == Some(r.user)
      ensures r.NoSuchUser? ==> Trim(username) == "" || !Named(table, Trim(username))
    {
      var name := Trim(username);
      if name == "" {
        return NoSuchUser;
      }
      if !fault.Fine? {
        return QueryFailed;
      }
      var pending := table.Keys;
      while pending != {}
        invariant pending <= table.Keys
        invariant forall i :: i in table && i !in pending ==> table[i].username != name
        decreases pending
      {
        var i :| i in pending;
        if table[i].username == name {
          LookupExact(table, i);
          return FoundUser(User(i, name, table[i].passwordHash, table[i].roles));
        }
        pending := pending - {i};
      }
      return NoSuchUser;
    }

    /** INSERT ... ON CONFLICT (username) DO UPDATE, id included. It goes through exactly when the fields are
        there and the id belongs to nobody else; otherwise the table is untouched. A lost answer hides a change. */
    method Put(user: User, fault: DbFault) returns (ok: bool)
      requires Valid()
      modifies this
      ensures Valid()
      ensures var u := user.(username := Trim(user.username));
              var good := u.id != "" && u.username != "" && u.passwordHash != "" && !IdTaken(old(table), u);
              && (ok <==> good && fault.Fine?)
              && table == if good && !fault.Down? then Upsert(old(table), u) else old(table)
    {
      var u := user.(username := Trim(user.username));
      if u.id == "" || u.username == "" || u.passwordHash == "" {
        return false;
      }
      if fault.Down? {
        return false;
      }
      if exists i :: i in table && table[i].username == u.username {
        // the arbiter index found the name: update that row
        var i :| i in table && table[i].username == u.username;
        if u.id != i && u.id in table {
          return false;
        }
        assert Upsert(table, u) == (table - {i})[u.id := RowOf(u)];
        UpsertLookup(table, u, "");
        table := (table - {i})[u.id := RowOf(u)];
      } else {
        if u.id in table {
          return false;
        }
        assert Upsert(table, u) == table[u.id := RowOf(u)];
        UpsertLookup(table, u, "");
        table := table[u.id := RowOf(u)];
      }
      return fault.Fine?;
    }
  }
}
