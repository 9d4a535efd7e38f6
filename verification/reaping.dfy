/**
 What the two reapers change (internal/store/store.go ReapStale and
 ReapRemoteStale), as sets of rows, and the sweep made of both.
 */
module Reaping {
  import opened Session
  import opened Liveness
  import opened Database

  /** A row as a reaper's SELECT saw it. */
  datatype Snapshot = Snapshot(id: string, lastEventAt: int, identity: Identity)

  function TakeSnapshot(db: Db, id: string): Snapshot
    requires id in db.rows
  {
    Snapshot(id, db.rows[id].lastEventAt, db.rows[id].identity)
  }

  function LocalStale(db: Db, hostId: string): set<string> {
    set id | id in db.rows
      && db.rows[id].hostId == hostId && db.rows[id].identity.pid != 0 && !IsTerminal(db.rows[id].status)
  }

  function RemoteStale(db: Db, hostId: string, cutoff: int): set<string> {
    set id | id in db.rows
      && db.rows[id].hostId != hostId && db.rows[id].lastEventAt < cutoff && !IsTerminal(db.rows[id].status)
  }

  lemma StaleAreRows(db: Db, hostId: string, cutoff: int)
    ensures LocalStale(db, hostId) <= db.rows.Keys && RemoteStale(db, hostId, cutoff) <= db.rows.Keys
  {
  }

  function DeadLocal(db: Db, hostId: string, procs: ProcTable): set<string> {
    set id | id in LocalStale(db, hostId) && IsProcessDead(procs, db.rows[id].identity)
  }

  function Ids(snapshots: seq<Snapshot>): set<string> {
    set s | s in snapshots :: s.id
  }

  /** The snapshots are those of exactly the given rows, each taken once, in some order. */
  ghost predicate AreSnapshots(snapshots: seq<Snapshot>, db: Db, ids: set<string>) {
    && Ids(snapshots) == ids <= db.rows.Keys
    && (forall k :: 0 <= k < |snapshots| ==>
          snapshots[k].id in ids && snapshots[k] == TakeSnapshot(db, snapshots[k].id))
    && (forall j, k :: 0 <= j < k < |snapshots| ==> snapshots[j].id != snapshots[k].id)
  }

  lemma OneMoreSnapshot(snapshots: seq<Snapshot>, db: Db, ids: set<string>, id: string)
    requires AreSnapshots(snapshots, db, ids) && id in db.rows && id !in ids
    ensures AreSnapshots(snapshots + [TakeSnapshot(db, id)], db, ids + {id})
  {
    var s := TakeSnapshot(db, id);
    assert forall x :: x in snapshots + [s] <==> x in snapshots || x == s;
    assert s in snapshots + [s];
    assert Ids(snapshots + [s]) == Ids(snapshots) + {id};
  }

  /** The snapshots whose process a probe finds gone. */
  function DeadOf(snapshots: seq<Snapshot>, procs: ProcTable): set<string> {
    set s | s in snapshots && IsProcessDead(procs, s.identity) :: s.id
  }

  lemma DeadOfOneMore(snapshots: seq<Snapshot>, procs: ProcTable, i: nat)
    requires i < |snapshots|
    requires forall j, k :: 0 <= j < k < |snapshots| ==> snapshots[j].id != snapshots[k].id
    ensures var s := snapshots[i];
      && DeadOf(snapshots[..i + 1], procs)
        == DeadOf(snapshots[..i], procs) + (if IsProcessDead(procs, s.identity) then {s.id} else {})
      && s.id !in DeadOf(snapshots[..i], procs)
  {
    var s := snapshots[i];
    assert snapshots[..i + 1] == snapshots[..i] + [s];
    assert s in snapshots[..i + 1];
    assert forall x :: x in snapshots[..i + 1] <==> x in snapshots[..i] || x == s;
  }

  /** The rows of `ids` are dead; nothing else changed, last_event_at included. */
  function MarkDead(db: Db, ids: set<string>): Db {
    db.(rows := map id | id in db.rows :: if id in ids then db.rows[id].(status := Dead) else db.rows[id])
  }

  lemma MarkDeadOneMore(db: Db, ids: set<string>, id: string)
    requires id in db.rows
    ensures Exec(MarkDead(db, ids), SetStatus(id, Dead, db.rows[id].lastEventAt)) == MarkDead(db, ids + {id})
    ensures Recent(MarkDead(db, ids), id, db.rows[id].lastEventAt)
  {
  }

  /** An uninterrupted sweep: the local reaper, then the remote one on what it left. */
  function Sweep(db: Db, hostId: string, procs: ProcTable, cutoff: int): Db {
    var local := MarkDead(db, DeadLocal(db, hostId, procs));
    MarkDead(local, RemoteStale(local, hostId, cutoff))
  }

  lemma MarkDeadTwice(db: Db, a: set<string>, b: set<string>)
    ensures MarkDead(MarkDead(db, a), b) == MarkDead(db, a + b)
    ensures MarkDead(db, {}) == db
  {
  }

  /** Neither pass changes what the other looks at. */
  lemma PassesAreIndependent(db: Db, hostId: string, procs: ProcTable, cutoff: int)
    ensures DeadLocal(db, hostId, procs) !! RemoteStale(db, hostId, cutoff)
    ensures RemoteStale(MarkDead(db, DeadLocal(db, hostId, procs)), hostId, cutoff) == RemoteStale(db, hostId, cutoff)
    ensures LocalStale(MarkDead(db, RemoteStale(db, hostId, cutoff)), hostId) == LocalStale(db, hostId)
  {
    hide IsProcessDead;
  }

  lemma SameProbes(db: Db, ids: set<string>, hostId: string, procs: ProcTable)
    requires LocalStale(MarkDead(db, ids), hostId) == LocalStale(db, hostId)
    ensures DeadLocal(MarkDead(db, ids), hostId, procs) == DeadLocal(db, hostId, procs)
  {
    hide IsProcessDead, LocalStale;
  }

  /**
   The two passes look at disjoint rows, so they commute: the sweep kills
   exactly the local rows whose probed process is gone and the remote ones
   silent past the cutoff.
   */
  lemma SweepIsExact(db: Db, hostId: string, procs: ProcTable, cutoff: int)
    ensures DeadLocal(db, hostId, procs) !! RemoteStale(db, hostId, cutoff)
    ensures Sweep(db, hostId, procs, cutoff)
      == MarkDead(db, DeadLocal(db, hostId, procs) + RemoteStale(db, hostId, cutoff))
    ensures var remote := MarkDead(db, RemoteStale(db, hostId, cutoff));
      Sweep(db, hostId, procs, cutoff) == MarkDead(remote, DeadLocal(remote, hostId, procs))
    ensures RemoteStale(MarkDead(db, DeadLocal(db, hostId, procs)), hostId, cutoff) == RemoteStale(db, hostId, cutoff)
  {
    hide MarkDead, DeadLocal, RemoteStale, LocalStale;
    var dead, stale := DeadLocal(db, hostId, procs), RemoteStale(db, hostId, cutoff);
    PassesAreIndependent(db, hostId, procs, cutoff);
    SameProbes(db, stale, hostId, procs);
    MarkDeadTwice(db, dead, stale);
    MarkDeadTwice(db, stale, dead);
    assert dead + stale == stale + dead;
  }

  /**
   What becomes of a row under the local reaper: a session of this host that is
   neither finished nor dead dies exactly if it has a pid whose process is gone.
   */
  function LocalFate(row: Row, hostId: string, procs: ProcTable): Row {
    var over := row.status == Finished || row.status == Dead;
    if row.hostId == hostId && !over && row.identity.pid != 0 && !Alive(procs, row.identity)
    then row.(status := Dead) else row
  }

  /** And under the remote one: a session of another host dies exactly if it was silent past the cutoff. */
  function RemoteFate(row: Row, hostId: string, cutoff: int): Row {
    var over := row.status == Finished || row.status == Dead;
    if row.hostId != hostId && !over && row.lastEventAt < cutoff then row.(status := Dead) else row
  }

  lemma LocalReapRowByRow(db: Db, hostId: string, procs: ProcTable)
    ensures var after := MarkDead(db, DeadLocal(db, hostId, procs));
      && after.log == db.log && after.rows.Keys == db.rows.Keys
      && forall id :: id in db.rows ==> after.rows[id] == LocalFate(db.rows[id], hostId, procs)
  {
    hide Alive;
  }

  lemma RemoteReapRowByRow(db: Db, hostId: string, cutoff: int)
    ensures var after := MarkDead(db, RemoteStale(db, hostId, cutoff));
      && after.log == db.log && after.rows.Keys == db.rows.Keys
      && forall id :: id in db.rows ==> after.rows[id] == RemoteFate(db.rows[id], hostId, cutoff)
  {
  }

  /**
   A sweep changes nothing but statuses, row by row: by the first rule for the
   sessions of its own host, by the second for the others.
   */
  lemma SweepRowByRow(db: Db, hostId: string, procs: ProcTable, cutoff: int)
    ensures var after := Sweep(db, hostId, procs, cutoff);
      && after.log == db.log && after.rows.Keys == db.rows.Keys
      && forall id :: id in db.rows ==>
        after.rows[id] == if db.rows[id].hostId == hostId then LocalFate(db.rows[id], hostId, procs)
                          else RemoteFate(db.rows[id], hostId, cutoff)
  {
    hide Alive, DeadLocal, RemoteStale, MarkDead;
    LocalReapRowByRow(db, hostId, procs);
    RemoteReapRowByRow(MarkDead(db, DeadLocal(db, hostId, procs)), hostId, cutoff);
  }

  /** A row is changed exactly when it is one of those, and sweeping again changes nothing. */
  lemma SweepIsIdempotent(db: Db, hostId: string, procs: ProcTable, cutoff: int)
    ensures var after := Sweep(db, hostId, procs, cutoff);
      && Sweep(after, hostId, procs, cutoff) == after
      && (forall id :: id in db.rows ==>
            (after.rows[id] != db.rows[id] <==> id in DeadLocal(db, hostId, procs) + RemoteStale(db, hostId, cutoff)))
  {
    SweepIsExact(db, hostId, procs, cutoff);
    var after := Sweep(db, hostId, procs, cutoff);
    assert after == MarkDead(db, DeadLocal(db, hostId, procs) + RemoteStale(db, hostId, cutoff));
    assert DeadLocal(after, hostId, procs) == {};
    assert RemoteStale(after, hostId, cutoff) == {};
    assert MarkDead(after, {}) == after;
  }
}
