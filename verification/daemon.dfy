/**
 The daemon's event handler (internal/daemon/daemon.go) with its one sink, the
 waiting-count file (internal/alert/alert.go). Both methods hold the handler
 mutex, so each runs on the store without interference from the other.
 */
module Daemon {
  import opened Wrappers
  import opened Session
  import opened Liveness
  import opened Database
  import opened Handling
  import opened Delivery
  import opened Reaping
  import opened Stores

  const REMOTE_REAP_TTL: int := 24 * 60 * 60

  /** The database together with the waiting-count file derived from it. */
  datatype Derived = Derived(db: Db, countFile: Option<nat>)

  /** The file holds the number of waiting rows. */
  ghost predicate CountAgrees(d: Derived) {
    d.countFile == Some(WaitingCount(d.db))
  }

  /** Sinks fire for every requested state change, guarded out or not, and for every reaped row. */
  ghost predicate Fires(db: Db, step: Step, hostId: string) {
    match step
    case HandleStep(e, newId) => Requested(db, e, newId, hostId) != None
    case SweepStep(procs, cutoff) => DeadLocal(db, hostId, procs) + RemoteStale(db, hostId, cutoff) != {}
  }

  ghost function After(d: Derived, step: Step, hostId: string): Derived {
    var db := DbAfter(d.db, step, hostId);
    Derived(db, if Fires(d.db, step, hostId) then Some(WaitingCount(db)) else d.countFile)
  }

  ghost function Run(d: Derived, steps: seq<Step>, hostId: string): Derived {
    if steps == [] then d
    else After(Run(d, steps[..|steps| - 1], hostId), steps[|steps| - 1], hostId)
  }

  /** With the count file or without it, a run does the same to the database. */
  lemma {:induction false} RunDelivers(d: Derived, steps: seq<Step>, hostId: string)
    ensures Run(d, steps, hostId).db == Deliver(d.db, steps, hostId)
  {
    if steps != [] {
      RunDelivers(d, steps[..|steps| - 1], hostId);
    }
  }

  lemma SameStatusesSameCount(before: Db, after: Db)
    requires forall id :: StatusOf(before, id) == Some(Waiting) <==> StatusOf(after, id) == Some(Waiting)
    ensures WaitingCount(before) == WaitingCount(after)
  {
    forall id ensures id in IdsWithStatus(before, Waiting) <==> id in IdsWithStatus(after, Waiting) {
      assert id in IdsWithStatus(before, Waiting) <==> StatusOf(before, id) == Some(Waiting);
    }
    assert IdsWithStatus(before, Waiting) == IdsWithStatus(after, Waiting);
  }

  /** A step that fires no sink leaves the number of waiting rows alone, even when it creates a row. */
  lemma SilentStepKeepsCount(db: Db, step: Step, hostId: string)
    requires !Fires(db, step, hostId)
    ensures WaitingCount(DbAfter(db, step, hostId)) == WaitingCount(db)
  {
    if step.SweepStep? {
      SweepIsExact(db, hostId, step.procs, step.cutoff);
      assert MarkDead(db, {}) == db;
    } else {
      SameStatusesSameCount(db, DbAfter(db, step, hostId));
    }
  }

  lemma StepKeepsCount(d: Derived, step: Step, hostId: string)
    requires CountAgrees(d)
    ensures CountAgrees(After(d, step, hostId))
  {
    hide DbAfter, Fires;
    if !Fires(d.db, step, hostId) {
      SilentStepKeepsCount(d.db, step, hostId);
    }
  }

  /** While only the daemon writes, a file that agrees goes on agreeing after every handle and every sweep. */
  lemma {:induction false} CountAgreesThroughout(d: Derived, steps: seq<Step>, hostId: string)
    requires CountAgrees(d)
    ensures CountAgrees(Run(d, steps, hostId))
  {
    hide CountAgrees, After;
    if steps != [] {
      var n := |steps| - 1;
      CountAgreesThroughout(d, steps[..n], hostId);
      StepKeepsCount(Run(d, steps[..n], hostId), steps[n], hostId);
    }
  }

  lemma FiringAgrees(d: Derived, step: Step, hostId: string)
    requires Fires(d.db, step, hostId)
    ensures CountAgrees(After(d, step, hostId))
  {
    hide DbAfter, Fires;
  }

  /** However stale the file is, one sink firing restores it for good. */
  lemma {:induction false} SinkRestoresCount(d: Derived, steps: seq<Step>, hostId: string, k: nat)
    requires k < |steps| && Fires(Run(d, steps[..k], hostId).db, steps[k], hostId)
    ensures CountAgrees(Run(d, steps, hostId))
  {
    hide CountAgrees, After, Fires;
    var n := |steps| - 1;
    if k == n {
      FiringAgrees(Run(d, steps[..n], hostId), steps[n], hostId);
    } else {
      assert steps[..n][..k] == steps[..k];
      SinkRestoresCount(d, steps[..n], hostId, k);
      StepKeepsCount(Run(d, steps[..n], hostId), steps[n], hostId);
    }
  }

  class Handler {
    const store: Store
    const hostId: string
    var countFile: Option<nat>

    ghost function Derivation(): Derived
      reads this, store
    {
      Derived(store.Contents(), countFile)
    }

    constructor (store: Store, hostId: string, countFile: Option<nat>)
      ensures this.store == store && this.hostId == hostId && this.countFile == countFile
    {
      this.store, this.hostId, this.countFile := store, hostId, countFile;
    }

    /** The count-file sink: whatever changed, the file gets the freshly queried count. */
    method OnStateChange(id: string, state: State)
      requires store.Valid()
      modifies this`countFile
      ensures CountAgrees(Derivation())
    {
      var n := store.CountByStatus(Waiting);
      countFile := Some(n);
    }

    /** Fills in the event's session, creating the row at first contact. */
    method ResolveSession(e: Event, newId: string) returns (id: string)
      requires store.Valid() && e.timestamp.Some? && FreshId(store.Contents(), newId)
      modifies store
      ensures store.Valid()
      ensures id == ResolvedId(old(store.Contents()), e, newId)
      ensures store.Contents() == Exec(old(store.Contents()), ResolveStatement(old(store.Contents()), e, newId, hostId))
    {
      if e.sessionId != "" {
        return e.sessionId;
      }
      if e.nativeId != "" {
        var existing := store.FindSessionByNative(e.agent, e.nativeId);
        if existing.Some? {
          id := existing.value;
          if e.identity.pid != 0 {
            store.UpdateIdentity(id, e.identity);
          }
          return;
        }
      }
      id := newId;
      var _ := store.CreateSession(id, NewRow(e, hostId));
    }

    method Handle(event: Event, now: int, newId: string)
      requires store.Valid() && FreshId(store.Contents(), newId)
      modifies store, this`countFile
      ensures store.Valid()
      ensures Derivation() == After(old(Derivation()), HandleStep(Stamped(event, now), newId), hostId)
      ensures var log, before := store.Contents().log, old(store.Contents()).log;
        && |log| == |before| + 1 && log[..|before|] == before
        && log[|before|].kind == event.kind && log[|before|].payload == event.payload
        && log[|before|].ts == if event.timestamp.Some? then event.timestamp.value else now
    {
      var e := Stamped(event, now);
      EventIsLogged(store.Contents(), event, now, newId, hostId);
      ghost var before := store.Contents();
      var id := ResolveSession(e, newId);
      store.AppendEvent(Entry(id, e));
      assert store.Contents() == Recorded(before, e, newId, hostId);
      var cur := store.CurrentStatus(id);
      var next := Transition(cur, e);
      if next == None {
        return;
      }
      var _ := store.UpdateStatus(id, next.value, e.timestamp.value);
      OnStateChange(id, next.value);
    }

    method SweepStale(procs: ProcTable, now: int)
      requires store.Valid()
      modifies store, this`countFile
      ensures store.Valid()
      ensures Derivation() == After(old(Derivation()), SweepStep(procs, now - REMOTE_REAP_TTL), hostId)
      // a session of this host dies with its process, one of another host after a day of silence
      ensures forall id :: id in old(store.Contents()).rows ==>
        var row := old(store.Contents()).rows[id];
        id in store.Contents().rows && store.Contents().rows[id] ==
          if row.hostId == hostId then LocalFate(row, hostId, procs) else RemoteFate(row, hostId, now - 86400)
    {
      hide LocalFate, RemoteFate, MarkDead, DeadLocal, RemoteStale, UniqueNative, WaitingCount;
      ghost var before := store.Contents();
      var cutoff := now - REMOTE_REAP_TTL;
      SweepIsExact(before, hostId, procs, cutoff);
      SweepRowByRow(before, hostId, procs, cutoff);
      var reaped := store.ReapStale(hostId, procs);
      var remote := store.ReapRemoteStale(hostId, cutoff);
      assert (reaped + remote == []) == (Ids(reaped) + Ids(remote) == {}) by {
        assert reaped != [] ==> reaped[0] in reaped && reaped[0].id in Ids(reaped);
        assert remote != [] ==> remote[0] in remote && remote[0].id in Ids(remote);
      }
      reaped := reaped + remote;
      for i := 0 to |reaped|
        invariant store.Contents() == Sweep(before, hostId, procs, cutoff) && store.Valid()
        invariant countFile == if i > 0 then Some(WaitingCount(store.Contents())) else old(countFile)
      {
        OnStateChange(reaped[i].id, Dead);
      }
    }
  }
}
