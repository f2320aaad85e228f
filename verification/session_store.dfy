/** The Postgres session store: a table with two unique columns, rewritten in one transaction per save. */
module SessionStore {
  import opened Options
  import opened SessionMachine

  /** One row of auth_sessions; the token, the primary key, is the key of the table. */
  datatype Row = Row(sessionId: string, userId: string, username: string, roles: seq<string>,
                     createdAt: int, expiresAt: int)

  type Table = map<string, Row>

  /** Where a save can break. A commit that breaks may have been applied by the server all the same. */
  datatype Fault = Healthy | AtBegin | AtClear | AtInsert(n: nat) | AtCommit(applied: bool)

  function ToRow(s: Session): Row {
    Row(s.id, s.userId, s.username, s.roles, s.createdAt, s.expiresAt)
  }

  function FromRow(token: string, r: Row): Session {
    Session(r.sessionId, token, r.userId, r.username, r.roles, r.createdAt, r.expiresAt)
  }

  /** The row has every field of the session but the token. */
  predicate Mirrors(r: Row, s: Session) {
    && r.sessionId == s.id && r.userId == s.userId && r.username == s.username && r.roles == s.roles
    && r.createdAt == s.createdAt && r.expiresAt == s.expiresAt
  }

  /** The table a map is saved as: the map key goes into the token column. */
  function Rows(m: SessionMap): Table {
    map t | t in m :: ToRow(m[t])
  }

  /** The map a table is loaded as: the token column is both the key and the session's token. */
  function Sessions(t: Table): SessionMap {
    map k | k in t :: FromRow(k, t[k])
  }

  /** What is saved has, session by session, every field in its own column. */
  lemma RowsMirror(m: SessionMap)
    ensures Rows(m).Keys == m.Keys
    ensures forall t :: t in m ==> Mirrors(Rows(m)[t], m[t])
  {
  }

  /** Loading what was saved gives the map back exactly when every key is its own session's token. */
  lemma LoadAfterSave(m: SessionMap)
    ensures Sessions(Rows(m)) == m <==> forall t :: t in m ==> m[t].token == t
  {
  }

  /** The other way round, with no condition: no table content is lost by loading it. */
  lemma SaveAfterLoad(t: Table)
    ensures Rows(Sessions(t)) == t
  {
  }

  /** The fate of a save of `n` sessions, as far as the connection goes. */
  function TxFate(fault: Fault, n: nat): SaveOutcome {
    match fault
    case Healthy => Saved
    case AtBegin => Kept
    case AtClear => Kept
    case AtInsert(k) => if k < n then Kept else Saved
    case AtCommit(applied) => if applied then Replaced else Kept
  }

  /** The fate of a save: a map with a repeated id is turned away, any other shares the connection's fate. */
  ghost function Outcome(fault: Fault, m: SessionMap): SaveOutcome {
    if DistinctIds(m) then TxFate(fault, |m|) else Kept
  }

  /** The unique constraint on session_id. */
  predicate Clashes(rows: Table, row: Row) {
    exists u :: u in rows && rows[u].sessionId == row.sessionId
  }

  lemma ClashMeansRepeat(m: SessionMap, rows: Table, token: string)
    requires rows.Keys <= m.Keys && token in m && token !in rows
    requires forall t :: t in rows ==> rows[t] == ToRow(m[t])
    requires Clashes(rows, ToRow(m[token]))
    ensures !DistinctIds(m)
  {
  }

  /** Some of the sessions are in the table, and no two of those have the same id. */
  ghost predicate Inserted(m: SessionMap, rows: Table) {
    && rows.Keys <= m.Keys
    && (forall t :: t in rows ==> rows[t] == ToRow(m[t]))
    && forall t, u :: t in rows && u in rows && t != u ==> rows[t].sessionId != rows[u].sessionId
  }

  lemma InsertedOneMore(m: SessionMap, rows: Table, token: string)
    requires Inserted(m, rows) && token in m && !Clashes(rows, ToRow(m[token]))
    ensures Inserted(m, rows[token := ToRow(m[token])])
  {
  }

  lemma InsertedThemAll(m: SessionMap, rows: Table)
    requires Inserted(m, rows) && rows.Keys == m.Keys
    ensures rows == Rows(m) && DistinctIds(m)
  {
    forall t, u | t in m && u in m && t != u
      ensures m[t].id != m[u].id
    {
      assert rows[t].sessionId != rows[u].sessionId;
    }
  }

  class PostgresSessionStore {
    var table: Table

    constructor ()
      ensures table == map[]
    {
      table := map[];
    }

    /** The INSERT loop, in whatever order the map is walked. The unique columns are what turns a map with a
        repeated id away. */
    static method InsertAll(sessions: SessionMap, fault: Fault) returns (work: Option<Table>)
      ensures work.Some? <==> DistinctIds(sessions) && !(fault.AtInsert? && fault.n < |sessions|)
      ensures work.Some? ==> work.value == Rows(sessions)
    {
      var rows: Table := map[];
      var pending, n := sessions.Keys, 0;
      while pending != {}
        invariant pending <= sessions.Keys && n == |sessions| - |pending|
        invariant Inserted(sessions, rows) && rows.Keys == sessions.Keys - pending
        invariant fault.AtInsert? ==> n <= fault.n
        decreases pending
      {
        var token :| token in pending;
        if fault == AtInsert(n) {
          return None;
        }
        var row := ToRow(sessions[token]);
        if token in rows || Clashes(rows, row) {
          ClashMeansRepeat(sessions, rows, token);
          return None;
        }
        InsertedOneMore(sessions, rows, token);
        rows := rows[token := row];
        pending, n := pending - {token}, n + 1;
      }
      InsertedThemAll(sessions, rows);
      return Some(rows);
    }

    /** All or nothing: DELETE and INSERT work on the transaction's view, and only a commit shows it. */
    method Save(sessions: SessionMap, fault: Fault) returns (ok: bool)
      modifies this
      ensures ok <==> Outcome(fault, sessions).Saved?
      ensures ok <==> DistinctIds(sessions) && (fault.Healthy? || (fault.AtInsert? && fault.n >= |sessions|))
      ensures table == if ok || (fault == AtCommit(true) && DistinctIds(sessions)) then Rows(sessions) else old(table)
      ensures table == if Outcome(fault, sessions).Kept? then old(table) else Rows(sessions)
    {
      if fault.AtBegin? || fault.AtClear? {
        return false;
      }
      var work := InsertAll(sessions, fault);
      if work.None? {
        return false;
      }
      if fault.AtCommit? {
        if fault.applied {
          table := work.value;
        }
        return false;
      }
      table := work.value;
      return true;
    }

    /** Reads the rows one by one; a broken query yields nothing. */
    method Load(broken: bool) returns (out: Option<SessionMap>)
      ensures out == if broken then None else Some(Sessions(table))
      ensures out.Some? ==> out.value.Keys == table.Keys
      ensures out.Some? ==> forall t :: t in table ==> Mirrors(table[t], out.value[t]) && out.value[t].token == t
    {
      if broken {
        return None;
      }
      var state: SessionMap := map[];
      var pending := table.Keys;
      while pending != {}
        invariant pending <= table.Keys && state.Keys == table.Keys - pending
        invariant forall t :: t in state ==> state[t] == FromRow(t, table[t])
        decreases pending
      {
        var token :| token in pending;
        var session := FromRow(token, table[token]);
        state := state[session.token := session];
        pending := pending - {token};
      }
      assert state == Sessions(table);
      return Some(state);
    }
  }
}
