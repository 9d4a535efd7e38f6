/**
 The store (internal/store/store.go): a mutable object whose methods are the
 SQL statements and the loops around them.
 */
module Stores {
  import opened Wrappers
  import opened Session
  import opened Liveness
  import opened Database
  import opened EventLog
  import opened Reaping

  /** The columns that later releases added. */
  datatype Column = PidColumn | PidStartColumn | BootIdColumn | TitleColumn | LastPromptColumn

  const ALTERS: seq<Column> := [PidColumn, PidStartColumn, BootIdColumn, TitleColumn]
  const ALL_COLUMNS: set<Column> := {PidColumn, PidStartColumn, BootIdColumn, TitleColumn, LastPromptColumn}

  /** ALTER TABLE ... ADD COLUMN ... NOT NULL DEFAULT, for a row in which the given columns are new. */
  function WithDefaults(row: Row, added: set<Column>): Row {
    row.(identity := Identity(
           if PidColumn in added then 0 else row.identity.pid,
           if PidStartColumn in added then 0 else row.identity.start,
           if BootIdColumn in added then "" else row.identity.bootId),
         title := if TitleColumn in added then "" else row.title,
         lastPrompt := if LastPromptColumn in added then "" else row.lastPrompt)
  }

  function AddedTo(rows: map<string, Row>, added: set<Column>): map<string, Row> {
    map id | id in rows :: WithDefaults(rows[id], added)
  }

  lemma AddedInSteps(rows: map<string, Row>, added: set<Column>, c: Column)
    ensures AddedTo(rows, {}) == rows
    ensures AddedTo(AddedTo(rows, added), {c}) == AddedTo(rows, added + {c})
  {
    assert forall id :: id in rows ==>
      WithDefaults(WithDefaults(rows[id], added), {c}) == WithDefaults(rows[id], added + {c});
  }

  function Backfilled(db: Db): Db {
    db.(rows := map id | id in db.rows :: db.rows[id].(lastPrompt := LatestPrompt(db.log, id)))
  }

  /** A database opened by this release, from one that has only some of the columns. */
  function Migrated(db: Db, columns: set<Column>): Db {
    var altered := db.(rows := AddedTo(db.rows, ALL_COLUMNS - columns));
    if LastPromptColumn in columns then altered else Backfilled(altered)
  }

  /**
   A migration that runs its backfill establishes the prompt cache from an
   arbitrary database; one that finds every column in place changes nothing;
   neither touches the data that was there. If the column exists the backfill is
   skipped, so after a crash between the two statements the cache holds only if
   there was nothing to fill in.
   */
  lemma MigrationFillsCache(db: Db, columns: set<Column>)
    ensures LastPromptColumn !in columns ==> CacheHolds(Migrated(db, columns))
    ensures LastPromptColumn in columns ==> (CacheHolds(Migrated(db, columns)) <==> CacheHolds(db))
    ensures ALL_COLUMNS <= columns ==> Migrated(db, columns) == db
    ensures Advances(db, Migrated(db, columns)) && Migrated(db, columns).log == db.log
    ensures forall id :: StatusOf(Migrated(db, columns), id) == StatusOf(db, id)
  {
    var after := Migrated(db, columns);
    assert forall id :: id in db.rows <==> id in after.rows;
    if ALL_COLUMNS <= columns {
      assert ALL_COLUMNS - columns == {};
      assert after.rows == db.rows;
    }
  }

  /**
   What an old row says in the columns it did not have: no process, no title and,
   until the backfill, no prompt. Without a pid no reaper of its own host will
   touch it; all else is as it was.
   */
  lemma OldRowsHaveNoProcess(db: Db, columns: set<Column>, id: string)
    requires id in db.rows
    ensures var row, after := db.rows[id], Migrated(db, columns);
      && id in after.rows
      && after.rows[id] == row.(
           identity := Identity(
             if PidColumn in columns then row.identity.pid else 0,
             if PidStartColumn in columns then row.identity.start else 0,
             if BootIdColumn in columns then row.identity.bootId else ""),
           title := if TitleColumn in columns then row.title else "",
           lastPrompt := if LastPromptColumn in columns then row.lastPrompt else LatestPrompt(db.log, id))
    ensures PidColumn !in columns ==> forall hostId, procs :: id !in DeadLocal(Migrated(db, columns), hostId, procs)
  {
    hide LatestPrompt;
  }

  class Store {
    var sessions: map<string, Row>
    var events: seq<LogEntry>
    var columns: set<Column>

    function Contents(): Db
      reads this
    {
      Db(sessions, events)
    }

    /** The unique index on (agent, native_id). */
    ghost predicate Valid()
      reads this
    {
      UniqueNative(Contents())
    }

    constructor (sessions: map<string, Row>, events: seq<LogEntry>, columns: set<Column>)
      ensures Contents() == Db(sessions, events) && this.columns == columns
    {
      this.sessions, this.events, this.columns := sessions, events, columns;
    }

    /** Adds the columns that are missing; one that exists is left alone. */
    method AddColumns(alters: seq<Column>)
      modifies this`sessions, this`columns
      ensures sessions == AddedTo(old(sessions), (set c | c in alters) - old(columns))
      ensures columns == old(columns) + set c | c in alters
    {
      AddedInSteps(sessions, {}, PidColumn);
      ghost var done: set<Column> := {};
      for i := 0 to |alters|
        invariant done == set c | c in alters[..i]
        invariant columns == old(columns) + done
        invariant sessions == AddedTo(old(sessions), done - old(columns))
      {
        var c := alters[i];
        assert alters[..i + 1] == alters[..i] + [c];
        if c !in columns {
          AddedInSteps(old(sessions), done - old(columns), c);
          columns := columns + {c};
          sessions := AddedTo(sessions, {c});
          assert done + {c} - old(columns) == done - old(columns) + {c};
        } else {
          assert done + {c} - old(columns) == done - old(columns);
        }
        done := done + {c};
      }
      assert alters[..|alters|] == alters;
    }

    method Migrate()
      modifies this
      ensures Contents() == Migrated(old(Contents()), old(columns))
      ensures columns == old(columns) + ALL_COLUMNS
    {
      hide LatestPrompt, WithDefaults;
      ghost var before := Contents();
      ghost var missing := ALL_COLUMNS - {LastPromptColumn} - columns;
      AddColumns(ALTERS);
      assert (set c | c in ALTERS) == ALL_COLUMNS - {LastPromptColumn};
      assert sessions == AddedTo(before.rows, missing);
      if LastPromptColumn in columns {
        assert ALL_COLUMNS - old(columns) == missing;
        return;
      }
      assert ALL_COLUMNS - old(columns) == missing + {LastPromptColumn};
      columns := columns + {LastPromptColumn};
      sessions := AddedTo(sessions, {LastPromptColumn});
      AddedInSteps(before.rows, missing, LastPromptColumn);
      assert sessions == AddedTo(before.rows, ALL_COLUMNS - old(columns));
      sessions := map id | id in sessions :: sessions[id].(lastPrompt := LatestPrompt(events, id));
    }

    method CreateSession(id: string, row: Row) returns (ok: bool)
      requires Valid()
      modifies this`sessions
      ensures Valid()
      ensures Contents() == Exec(old(Contents()), InsertRow(id, row))
      ensures ok <==> Insertable(old(Contents()), id, row)
    {
      ExecAdvances(Contents(), InsertRow(id, row));
      var owner := FindSessionByNative(row.agent, row.nativeId);
      ok := id !in sessions && owner == None;
      if ok {
        sessions := sessions[id := row];
      }
    }

    method FindSessionByNative(agent: string, nativeId: string) returns (r: Option<string>)
      requires Valid()
      ensures r == FindNative(Contents(), agent, nativeId)
    {
      if nativeId == "" {
        return None;
      }
      if id :| id in sessions && sessions[id].agent == agent && sessions[id].nativeId == nativeId {
        FindNativeIsOwner(Contents(), id, agent, nativeId);
        return Some(id);
      }
      return None;
    }

    method UpdateIdentity(id: string, identity: Identity)
      requires Valid()
      modifies this`sessions
      ensures Valid()
      ensures Contents() == Exec(old(Contents()), SetIdentity(id, identity))
    {
      ExecAdvances(Contents(), SetIdentity(id, identity));
      if id in sessions {
        sessions := sessions[id := sessions[id].(identity := identity)];
      }
    }

    /** Returns the number of rows changed. */
    method UpdateStatus(id: string, status: State, ts: int) returns (n: nat)
      requires Valid()
      modifies this`sessions
      ensures Valid()
      ensures Contents() == Exec(old(Contents()), SetStatus(id, status, ts))
      ensures n == if Recent(old(Contents()), id, ts) then 1 else 0
    {
      ExecAdvances(Contents(), SetStatus(id, status, ts));
      if id in sessions && ts >= sessions[id].lastEventAt {
        sessions := sessions[id := sessions[id].(status := status, lastEventAt := ts)];
        return 1;
      }
      return 0;
    }

    method CurrentStatus(id: string) returns (r: Option<State>)
      ensures r == StatusOf(Contents(), id)
    {
      return if id in sessions then Some(sessions[id].status) else None;
    }

    /** One transaction: the event, the recomputed prompt cache and the title. */
    method AppendEvent(entry: LogEntry)
      requires Valid()
      modifies this`sessions, this`events
      ensures Valid()
      ensures Contents() == Exec(old(Contents()), AppendLog(entry))
    {
      ghost var after := Exec(Contents(), AppendLog(entry));
      assert UniqueNative(after) by { ExecAdvances(Contents(), AppendLog(entry)); }
      var id := entry.sessionId;
      events := events + [entry];
      if entry.kind == UserPrompt && id in sessions {
        sessions := sessions[id := sessions[id].(lastPrompt := LatestPrompt(events, id))];
      }
      var title := AsString(entry.payload, "title");
      if title != "" && id in sessions {
        sessions := sessions[id := sessions[id].(title := title)];
      }
      assert Contents() == after;
    }

    method CountByStatus(status: State) returns (n: nat)
      ensures n == |IdsWithStatus(Contents(), status)|
    {
      var ids := set id | id in sessions && sessions[id].status == status;
      assert ids == IdsWithStatus(Contents(), status);
      n := |ids|;
    }

    /** Reads the selected rows, in whatever order the database returns them. */
    method ReadSnapshots(ids: set<string>) returns (stale: seq<Snapshot>)
      requires ids <= sessions.Keys
      ensures AreSnapshots(stale, Contents(), ids)
    {
      stale := [];
      var rest := ids;
      while rest != {}
        invariant rest <= ids
        invariant AreSnapshots(stale, Contents(), ids - rest)
      {
        var id :| id in rest;
        OneMoreSnapshot(stale, Contents(), ids - rest, id);
        assert ids - rest + {id} == ids - (rest - {id});
        stale := stale + [TakeSnapshot(Contents(), id)];
        rest := rest - {id};
      }
    }

    method ReapStale(hostId: string, procs: ProcTable) returns (reaped: seq<Snapshot>)
      requires Valid()
      modifies this`sessions
      ensures Valid()
      ensures Contents() == MarkDead(old(Contents()), DeadLocal(old(Contents()), hostId, procs))
      ensures forall id :: id in old(sessions) ==>
        id in sessions && sessions[id] == LocalFate(old(sessions)[id], hostId, procs)
      ensures AreSnapshots(reaped, old(Contents()), DeadLocal(old(Contents()), hostId, procs))
    {
      ghost var before := Contents();
      var stale := ReadSnapshots(LocalStale(Contents(), hostId));
      reaped := [];
      assert MarkDead(before, {}) == before;
      for i := 0 to |stale|
        invariant Valid()
        invariant Contents() == MarkDead(before, Ids(reaped))
        invariant AreSnapshots(reaped, before, DeadOf(stale[..i], procs))
      {
        var s := stale[i];
        DeadOfOneMore(stale, procs, i);
        if !IsProcessDead(procs, s.identity) {
          continue;
        }
        MarkDeadOneMore(before, Ids(reaped), s.id);
        var n := UpdateStatus(s.id, Dead, s.lastEventAt);
        if n == 0 {
          continue;
        }
        OneMoreSnapshot(reaped, before, Ids(reaped), s.id);
        reaped := reaped + [s];
      }
      assert stale[..|stale|] == stale;
      assert DeadOf(stale, procs) == DeadLocal(before, hostId, procs);
      LocalReapRowByRow(before, hostId, procs);
    }

    method ReapRemoteStale(localHostId: string, cutoff: int) returns (reaped: seq<Snapshot>)
      requires Valid()
      modifies this`sessions
      ensures Valid()
      ensures Contents() == MarkDead(old(Contents()), RemoteStale(old(Contents()), localHostId, cutoff))
      ensures forall id :: id in old(sessions) ==>
        id in sessions && sessions[id] == RemoteFate(old(sessions)[id], localHostId, cutoff)
      ensures AreSnapshots(reaped, old(Contents()), RemoteStale(old(Contents()), localHostId, cutoff))
    {
      hide RemoteStale, UniqueNative, Exec;
      ghost var before := Contents();
      StaleAreRows(before, localHostId, cutoff);
      var stale := ReadSnapshots(RemoteStale(Contents(), localHostId, cutoff));
      reaped := [];
      assert MarkDead(before, {}) == before;
      for i := 0 to |stale|
        invariant Valid()
        invariant Contents() == MarkDead(before, Ids(reaped))
        invariant reaped == stale[..i]
      {
        var s := stale[i];
        MarkDeadOneMore(before, Ids(reaped), s.id);
        var n := UpdateStatus(s.id, Dead, s.lastEventAt);
        if n == 0 {
          continue;
        }
        assert Ids(reaped + [s]) == Ids(reaped) + {s.id};
        reaped := reaped + [s];
      }
      assert reaped == stale;
      RemoteReapRowByRow(before, localHostId, cutoff);
    }

    /** The last `limit` events of a session, oldest first. */
    method RecentEvents(sessionId: string, limit: int) returns (result: seq<Numbered>)
      ensures result == Last(Chronological(events, sessionId), limit)
    {
      var rows := NewestFirst(events, sessionId, limit);
      var recent := new Numbered[|rows|](k requires 0 <= k < |rows| => rows[k]);
      var i, j := 0, recent.Length - 1;
      while i < j
        invariant 0 <= i && j == recent.Length - 1 - i && i <= j + 1
        invariant forall k :: 0 <= k < i || j < k < recent.Length ==> recent[k] == rows[recent.Length - 1 - k]
        invariant forall k :: i <= k <= j ==> recent[k] == rows[k]
      {
        recent[i], recent[j] := recent[j], recent[i];
        i, j := i + 1, j - 1;
      }
      result := recent[..];
      assert result == Reverse(rows);
      ReversedLimit(Chronological(events, sessionId), limit);
    }
  }
}
