/**
 The contents of the database as a value, and what each SQL statement of
 internal/store/store.go does to them. Every statement (or transaction) is one
 atomic step; programs in other modules are sequences of these.
 */
module Database {
  import opened Wrappers
  import opened Session

  datatype Row = Row(
    agent: string,
    nativeId: string,
    cwd: string,
    hostId: string,
    startedAt: int,
    lastEventAt: int,
    status: State,
    identity: Identity,
    title: string,
    lastPrompt: string)

  /** An event row; its id is its position in the log. */
  datatype LogEntry = LogEntry(sessionId: string, ts: int, kind: EventKind, payload: Payload)

  datatype Db = Db(rows: map<string, Row>, log: seq<LogEntry>)

  datatype Statement =
    | Select
    | SetStatus(id: string, status: State, ts: int)
    | SetIdentity(id: string, identity: Identity)
    | InsertRow(id: string, row: Row)
    | AppendLog(entry: LogEntry)

  /** The recency guard of UpdateStatus: the event is at least as recent as the last one applied. */
  predicate Recent(db: Db, id: string, ts: int) {
    id in db.rows && ts >= db.rows[id].lastEventAt
  }

  /** The row of an agent's own session id. */
  predicate Owns(db: Db, id: string, agent: string, nativeId: string) {
    id in db.rows && db.rows[id].agent == agent && db.rows[id].nativeId == nativeId
  }

  /** The primary key and the unique index on (agent, native_id) admit the row. */
  ghost predicate Insertable(db: Db, id: string, row: Row) {
    id !in db.rows && (row.nativeId == "" || forall other :: !Owns(db, other, row.agent, row.nativeId))
  }

  ghost function Exec(db: Db, st: Statement): Db {
    match st
    case Select => db
    case SetStatus(id, status, ts) =>
      if Recent(db, id, ts) then db.(rows := db.rows[id := db.rows[id].(status := status, lastEventAt := ts)]) else db
    case SetIdentity(id, identity) =>
      if id in db.rows then db.(rows := db.rows[id := db.rows[id].(identity := identity)]) else db
    case InsertRow(id, row) =>
      if Insertable(db, id, row) then db.(rows := db.rows[id := row]) else db
    case AppendLog(entry) =>
      var log := db.log + [entry];
      if entry.sessionId in db.rows
      then Db(db.rows[entry.sessionId := Annotated(db.rows[entry.sessionId], entry, log)], log)
      else Db(db.rows, log)
  }

  /** The row after an event was appended: the recomputed prompt cache and the title the event carries. */
  function Annotated(row: Row, entry: LogEntry, log: seq<LogEntry>): Row {
    var title := AsString(entry.payload, "title");
    row.(lastPrompt := if entry.kind == UserPrompt then LatestPrompt(log, entry.sessionId) else row.lastPrompt,
         title := if title != "" then title else row.title)
  }

  // ---- the denormalized prompt ----

  predicate IsPrompt(log: seq<LogEntry>, i: nat, id: string) {
    i < |log| && log[i].sessionId == id && log[i].kind == UserPrompt
  }

  /** The most recent user_prompt of a session: newest ts wins, event id breaks ties. */
  function LatestPromptIndex(log: seq<LogEntry>, id: string): (r: Option<nat>)
    ensures r.Some? ==> IsPrompt(log, r.value, id)
  {
    if log == [] then None
    else
      var n := |log| - 1;
      var best := LatestPromptIndex(log[..n], id);
      if IsPrompt(log, n, id) && (best.None? || log[n].ts >= log[best.value].ts) then Some(n) else best
  }

  /** json_extract(payload, '$.prompt'), "" when there is none. */
  function PromptText(p: Payload): string {
    if "prompt" !in p then "" else if p["prompt"].Text? then p["prompt"].text else p["prompt"].sqlText
  }

  function LatestPrompt(log: seq<LogEntry>, id: string): string {
    match LatestPromptIndex(log, id)
    case None => ""
    case Some(i) => PromptText(log[i].payload)
  }

  /** The query's answer is the maximum by (ts, event id), and it is empty only when there is no prompt. */
  lemma {:induction false} LatestPromptIsMaximal(log: seq<LogEntry>, id: string, j: nat)
    requires IsPrompt(log, j, id)
    ensures LatestPromptIndex(log, id).Some?
    ensures var i := LatestPromptIndex(log, id).value;
      log[j].ts < log[i].ts || (log[j].ts == log[i].ts && j <= i)
  {
    var n := |log| - 1;
    if j < n {
      LatestPromptIsMaximal(log[..n], id, j);
    }
  }

  /** What the query shows of the latest prompt: its text, or what the database makes of a value that is no text. */
  lemma PromptShown(log: seq<LogEntry>, id: string, j: nat)
    requires IsPrompt(log, j, id)
    requires forall i: nat :: IsPrompt(log, i, id) ==> log[i].ts < log[j].ts || (log[i].ts == log[j].ts && i <= j)
    ensures var p := log[j].payload;
      LatestPrompt(log, id) ==
        if "prompt" !in p then "" else match p["prompt"] { case Text(text) => text case NonText(sqlText) => sqlText }
  {
    LatestPromptIsMaximal(log, id, j);
    assert IsPrompt(log, LatestPromptIndex(log, id).value, id);
  }

  lemma LatestPromptAppend(log: seq<LogEntry>, entry: LogEntry, id: string)
    requires entry.sessionId != id || entry.kind != UserPrompt
    ensures LatestPrompt(log + [entry], id) == LatestPrompt(log, id)
  {
    assert (log + [entry])[..|log|] == log;
  }

  /** Each row's cached prompt is that of its session's most recent user_prompt event. */
  ghost predicate CacheHolds(db: Db) {
    forall id :: id in db.rows ==> db.rows[id].lastPrompt == LatestPrompt(db.log, id)
  }

  /** An id unused in rows and in events, as newID's 128 random bits are taken to be. */
  ghost predicate FreshId(db: Db, id: string) {
    id != "" && id !in db.rows && forall i :: 0 <= i < |db.log| ==> db.log[i].sessionId != id
  }

  lemma {:induction false} NoPromptOfFreshId(log: seq<LogEntry>, id: string)
    requires forall i :: 0 <= i < |log| ==> log[i].sessionId != id
    ensures LatestPromptIndex(log, id) == None
  {
    if log != [] {
      NoPromptOfFreshId(log[..|log| - 1], id);
    }
  }

  /** No statement breaks the prompt cache; a new row needs an id that no earlier prompt was recorded under. */
  lemma ExecKeepsCache(db: Db, st: Statement)
    requires CacheHolds(db)
    requires st.InsertRow? ==> st.row.lastPrompt == LatestPrompt(db.log, st.id)
    ensures CacheHolds(Exec(db, st))
  {
    var after := Exec(db, st);
    if st.AppendLog? {
      forall id | id in after.rows ensures after.rows[id].lastPrompt == LatestPrompt(after.log, id) {
        if st.entry.sessionId != id || st.entry.kind != UserPrompt {
          LatestPromptAppend(db.log, st.entry, id);
        }
      }
    }
  }

  // ---- identity ----

  ghost predicate UniqueNative(db: Db) {
    forall i, j :: i in db.rows && j in db.rows && i != j && db.rows[i].nativeId != "" ==>
      !Owns(db, j, db.rows[i].agent, db.rows[i].nativeId)
  }

  /** The session of (agent, native id), None when there is no mapping. */
  ghost function FindNative(db: Db, agent: string, nativeId: string): (r: Option<string>)
    ensures r.Some? ==> nativeId != "" && Owns(db, r.value, agent, nativeId)
    ensures r.None? && nativeId != "" ==> forall id :: !Owns(db, id, agent, nativeId)
  {
    if nativeId != "" && exists id :: Owns(db, id, agent, nativeId)
    then var id :| Owns(db, id, agent, nativeId); Some(id)
    else None
  }

  lemma FindNativeIsOwner(db: Db, id: string, agent: string, nativeId: string)
    requires UniqueNative(db) && nativeId != "" && Owns(db, id, agent, nativeId)
    ensures FindNative(db, agent, nativeId) == Some(id)
  {
  }

  /** The columns that are written once, when the row is created. */
  predicate SameOrigin(a: Row, b: Row) {
    a.agent == b.agent && a.nativeId == b.nativeId && a.cwd == b.cwd && a.hostId == b.hostId
    && a.startedAt == b.startedAt
  }

  /** From `before` to `after` no row disappears, changes its origin or goes back in time, and the log only grows. */
  ghost predicate Advances(before: Db, after: Db) {
    && before.log <= after.log
    && forall id :: id in before.rows ==>
      id in after.rows && SameOrigin(before.rows[id], after.rows[id])
      && before.rows[id].lastEventAt <= after.rows[id].lastEventAt
  }

  lemma InsertKeepsUnique(db: Db, id: string, row: Row)
    requires UniqueNative(db) && Insertable(db, id, row)
    ensures UniqueNative(db.(rows := db.rows[id := row]))
  {
    var after := db.(rows := db.rows[id := row]);
    forall i, j | i in after.rows && j in after.rows && i != j && after.rows[i].nativeId != ""
      ensures !Owns(after, j, after.rows[i].agent, after.rows[i].nativeId)
    {
      if i == id {
        assert !Owns(db, j, row.agent, row.nativeId);
      } else if j == id {
        assert row.nativeId != "" ==> !Owns(db, i, row.agent, row.nativeId);
      }
    }
  }

  lemma ExecKeepsRows(db: Db, st: Statement)
    ensures Advances(db, Exec(db, st))
    ensures !st.InsertRow? ==> Exec(db, st).rows.Keys == db.rows.Keys
  {
  }

  /** Every statement advances the database and respects the unique index. */
  lemma ExecAdvances(db: Db, st: Statement)
    ensures Advances(db, Exec(db, st))
    ensures UniqueNative(db) ==> UniqueNative(Exec(db, st))
  {
    hide UniqueNative, Insertable;
    ExecKeepsRows(db, st);
    if st.InsertRow? {
      if Insertable(db, st.id, st.row) && UniqueNative(db) {
        InsertKeepsUnique(db, st.id, st.row);
      }
    } else {
      hide Exec;
      UpdateKeepsUnique(db, Exec(db, st));
    }
  }

  lemma UpdateKeepsUnique(before: Db, after: Db)
    requires before.rows.Keys == after.rows.Keys
    requires forall id :: id in before.rows ==> SameOrigin(before.rows[id], after.rows[id])
    ensures UniqueNative(before) ==> UniqueNative(after)
  {
    if UniqueNative(before) {
      forall i, j | i in after.rows && j in after.rows && i != j && after.rows[i].nativeId != ""
        ensures !Owns(after, j, after.rows[i].agent, after.rows[i].nativeId)
      {
        assert !Owns(before, j, before.rows[i].agent, before.rows[i].nativeId);
      }
    }
  }

  function StatusOf(db: Db, id: string): Option<State> {
    if id in db.rows then Some(db.rows[id].status) else None
  }

  function IdsWithStatus(db: Db, status: State): set<string> {
    set id | id in db.rows && StatusOf(db, id) == Some(status)
  }

  /** SELECT COUNT(*) ... WHERE status = 'waiting' */
  function WaitingCount(db: Db): nat {
    |IdsWithStatus(db, Waiting)|
  }
}
