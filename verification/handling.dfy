/**
 What handling one bus event does to the database when nothing interferes
 (internal/daemon/daemon.go handle and resolveSession), statement by statement.
 */
module Handling {
  import opened Wrappers
  import opened Session
  import opened Database

  function Stamped(e: Event, now: int): Event {
    if e.timestamp.None? then e.(timestamp := Some(now)) else e
  }

  function Entry(id: string, e: Event): LogEntry
    requires e.timestamp.Some?
  {
    LogEntry(id, e.timestamp.value, e.kind, e.payload)
  }

  /** The row of a session at first contact; an event without an origin host is local. */
  function NewRow(e: Event, hostId: string): Row
    requires e.timestamp.Some?
  {
    Row(e.agent, e.nativeId, AsString(e.payload, "cwd"), if e.hostId != "" then e.hostId else hostId,
        e.timestamp.value, e.timestamp.value, Idle, e.identity, "", "")
  }

  /** The session the event belongs to: explicit id, then the (agent, native id) mapping, then a new id. */
  ghost function ResolvedId(db: Db, e: Event, newId: string): string {
    if e.sessionId != "" then e.sessionId
    else if FindNative(db, e.agent, e.nativeId).Some? then FindNative(db, e.agent, e.nativeId).value
    else newId
  }

  /** The one write that resolving an event may issue. */
  ghost function ResolveStatement(db: Db, e: Event, newId: string, hostId: string): Statement
    requires e.timestamp.Some?
  {
    if e.sessionId != "" then Select
    else if FindNative(db, e.agent, e.nativeId).Some? then
      if e.identity.pid != 0 then SetIdentity(FindNative(db, e.agent, e.nativeId).value, e.identity) else Select
    else InsertRow(newId, NewRow(e, hostId))
  }

  function TransitionStatement(id: string, next: Option<State>, e: Event): Statement
    requires e.timestamp.Some?
  {
    if next.Some? then SetStatus(id, next.value, e.timestamp.value) else Select
  }

  ghost function Recorded(db: Db, e: Event, newId: string, hostId: string): Db
    requires e.timestamp.Some?
  {
    Exec(Exec(db, ResolveStatement(db, e, newId, hostId)), AppendLog(Entry(ResolvedId(db, e, newId), e)))
  }

  /** The state change the event asks for; sinks fire exactly when there is one. */
  ghost function Requested(db: Db, e: Event, newId: string, hostId: string): Option<State>
    requires e.timestamp.Some?
  {
    Transition(StatusOf(Recorded(db, e, newId, hostId), ResolvedId(db, e, newId)), e)
  }

  ghost function HandleDb(db: Db, e: Event, newId: string, hostId: string): Db
    requires e.timestamp.Some?
  {
    Exec(Recorded(db, e, newId, hostId),
         TransitionStatement(ResolvedId(db, e, newId), Requested(db, e, newId, hostId), e))
  }

  /** The part of a row that follows from the order of events. */
  datatype View = View(status: State, lastEventAt: int, title: string)

  function ViewOfRow(row: Row): View {
    View(row.status, row.lastEventAt, row.title)
  }

  /** A row's view after one more event, recency guard included. */
  function Observe(v: View, e: Event): View
    requires e.timestamp.Some?
  {
    var ts := e.timestamp.value;
    var next := Transition(Some(v.status), e);
    var title := AsString(e.payload, "title");
    var named := if title != "" then v.(title := title) else v;
    if next.Some? && ts >= v.lastEventAt then named.(status := next.value, lastEventAt := ts) else named
  }

  /** The row an event finds, or makes. */
  ghost function BaseRow(db: Db, e: Event, newId: string, hostId: string): Row
    requires e.timestamp.Some?
  {
    var id := ResolvedId(db, e, newId);
    if id in db.rows then db.rows[id] else NewRow(e, hostId)
  }

  /** An event that names its session itself leaves the fingerprint alone. */
  function Refreshed(row: Row, e: Event): Row {
    if e.sessionId == "" && e.identity.pid != 0 then row.(identity := e.identity) else row
  }

  /** The oracle's id is unused if one is needed. */
  ghost predicate IdOffered(db: Db, e: Event, newId: string) {
    e.sessionId != "" || FindNative(db, e.agent, e.nativeId).Some? || FreshId(db, newId)
  }

  /** An event that ends up with a row: it names a known session, or none and is resolved by its key. */
  ghost predicate Resolvable(db: Db, e: Event, newId: string) {
    && e.timestamp.Some? && UniqueNative(db) && IdOffered(db, e, newId)
    && (e.sessionId != "" ==> e.sessionId in db.rows)
  }

  lemma ResolveEffect(db: Db, e: Event, newId: string, hostId: string)
    requires Resolvable(db, e, newId)
    ensures var id := ResolvedId(db, e, newId);
      Exec(db, ResolveStatement(db, e, newId, hostId))
        == db.(rows := db.rows[id := Refreshed(BaseRow(db, e, newId, hostId), e)])
  {
    var id := ResolvedId(db, e, newId);
    if e.sessionId != "" || (FindNative(db, e.agent, e.nativeId).Some? && e.identity.pid == 0) {
      assert db.rows == db.rows[id := db.rows[id]];
    }
  }

  lemma RecordedEffect(db: Db, e: Event, newId: string, hostId: string)
    requires Resolvable(db, e, newId)
    ensures var id, base := ResolvedId(db, e, newId), BaseRow(db, e, newId, hostId);
      var log := db.log + [Entry(id, e)];
      Recorded(db, e, newId, hostId) == Db(db.rows[id := Annotated(Refreshed(base, e), Entry(id, e), log)], log)
  {
    hide ResolvedId, ResolveStatement, BaseRow, Refreshed, Annotated;
    ResolveEffect(db, e, newId, hostId);
  }

  /** The transition at the end: the row's view is observed, the rest of the row stays. */
  lemma TransitionEffect(recorded: Db, id: string, e: Event, v: View)
    requires e.timestamp.Some? && id in recorded.rows
    requires var row, title := recorded.rows[id], AsString(e.payload, "title");
      row.status == v.status && row.lastEventAt == v.lastEventAt && row.title == if title != "" then title else v.title
    ensures var row := recorded.rows[id];
      var after := Exec(recorded, TransitionStatement(id, Transition(StatusOf(recorded, id), e), e));
      && after.log == recorded.log && id in after.rows && after.rows == recorded.rows[id := after.rows[id]]
      && ViewOfRow(after.rows[id]) == Observe(v, e)
      && after.rows[id] == row.(status := after.rows[id].status, lastEventAt := after.rows[id].lastEventAt)
  {
    hide Transition;
  }

  /** The whole effect of one event: which row it touches and what that row becomes. */
  lemma HandleEffect(db: Db, e: Event, newId: string, hostId: string)
    requires Resolvable(db, e, newId)
    ensures var id, after := ResolvedId(db, e, newId), HandleDb(db, e, newId, hostId);
      var base := BaseRow(db, e, newId, hostId);
      && after.log == db.log + [Entry(id, e)]
      && id in after.rows && after.rows == db.rows[id := after.rows[id]]
      && ViewOfRow(after.rows[id]) == Observe(ViewOfRow(base), e)
      && SameOrigin(after.rows[id], base)
      && after.rows[id].identity == Refreshed(base, e).identity
      && after.rows[id].lastPrompt == (if e.kind == UserPrompt then LatestPrompt(after.log, id) else base.lastPrompt)
  {
    hide Transition, Observe, ResolvedId, BaseRow, Recorded, Exec, FreshId, FindNative;
    RecordedEffect(db, e, newId, hostId);
    TransitionEffect(Recorded(db, e, newId, hostId), ResolvedId(db, e, newId), e,
      ViewOfRow(BaseRow(db, e, newId, hostId)));
  }

  /** The index stays unique, and the key of an event that names no session is mapped to its session afterwards. */
  lemma HandleKeepsMapping(db: Db, e: Event, newId: string, hostId: string)
    requires Resolvable(db, e, newId)
    ensures var id, after := ResolvedId(db, e, newId), HandleDb(db, e, newId, hostId);
      UniqueNative(after) && Advances(db, after) && (e.sessionId == "" ==> Owns(after, id, e.agent, e.nativeId))
  {
    var db1 := Exec(db, ResolveStatement(db, e, newId, hostId));
    var db2 := Recorded(db, e, newId, hostId);
    ExecAdvances(db, ResolveStatement(db, e, newId, hostId));
    ExecAdvances(db1, AppendLog(Entry(ResolvedId(db, e, newId), e)));
    ExecAdvances(db2, TransitionStatement(ResolvedId(db, e, newId), Requested(db, e, newId, hostId), e));
    HandleEffect(db, e, newId, hostId);
  }

  lemma HandleKeepsCache(db: Db, e: Event, newId: string, hostId: string)
    requires e.timestamp.Some? && IdOffered(db, e, newId) && CacheHolds(db)
    ensures CacheHolds(HandleDb(db, e, newId, hostId))
  {
    var resolve := ResolveStatement(db, e, newId, hostId);
    if resolve.InsertRow? {
      NoPromptOfFreshId(db.log, newId);
    }
    ExecKeepsCache(db, resolve);
    ExecKeepsCache(Exec(db, resolve), AppendLog(Entry(ResolvedId(db, e, newId), e)));
    ExecKeepsCache(Recorded(db, e, newId, hostId),
      TransitionStatement(ResolvedId(db, e, newId), Requested(db, e, newId, hostId), e));
  }

  /**
   What a session's row says after first contact: its key, where it runs and since
   when. An event from another host makes a session of that host, one without a
   host a session of the daemon's own.
   */
  lemma FirstContact(db: Db, e: Event, newId: string, hostId: string)
    requires Resolvable(db, e, newId) && e.sessionId == "" && FindNative(db, e.agent, e.nativeId) == None
    ensures var after := HandleDb(db, e, newId, hostId);
      && newId !in db.rows && newId in after.rows && after.rows.Keys == db.rows.Keys + {newId}
      && var row := after.rows[newId];
      && row.agent == e.agent && row.nativeId == e.nativeId
      && row.hostId == (if e.hostId == "" then hostId else e.hostId)
      && row.cwd == (if "cwd" in e.payload && e.payload["cwd"].Text? then e.payload["cwd"].text else "")
      && row.startedAt == e.timestamp.value && row.identity == e.identity
  {
    hide HandleDb, Observe;
    HandleEffect(db, e, newId, hostId);
  }

  /** Handling an event logs it, kind and payload as sent, with the daemon's time if it had none. */
  lemma EventIsLogged(db: Db, event: Event, now: int, newId: string, hostId: string)
    ensures var e := Stamped(event, now);
      && e.timestamp.Some?
      && var id := if event.sessionId != "" then event.sessionId else ResolvedId(db, event, newId);
      HandleDb(db, e, newId, hostId).log == db.log
        + [LogEntry(id, if event.timestamp.Some? then event.timestamp.value else now, event.kind, event.payload)]
  {
  }

  /** An event that names an unknown session itself is logged and nothing else. */
  lemma UnknownExplicitSession(db: Db, e: Event, newId: string, hostId: string)
    requires e.timestamp.Some? && e.sessionId != "" && e.sessionId !in db.rows
    ensures HandleDb(db, e, newId, hostId) == Db(db.rows, db.log + [Entry(e.sessionId, e)])
  {
  }
}
