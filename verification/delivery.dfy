/**
 Whole runs of the daemon: any finite sequence of events, of any number of
 sessions and however addressed, and of sweeps, one after the other. What a
 session's row ends up as is a function of that session's own events, and that
 function has a closed form.
 */
module Delivery {
  import opened Wrappers
  import opened Session
  import opened Liveness
  import opened Database
  import opened Handling
  import opened Reaping

  /** One call of the daemon's: an event with the id the oracle offers should its session be new, or a sweep. */
  datatype Step = HandleStep(e: StampedEvent, newId: string) | SweepStep(procs: ProcTable, cutoff: int)

  ghost function DbAfter(db: Db, step: Step, hostId: string): Db {
    match step
    case HandleStep(e, newId) => HandleDb(db, e, newId, hostId)
    case SweepStep(procs, cutoff) => Sweep(db, hostId, procs, cutoff)
  }

  ghost function Deliver(db: Db, steps: seq<Step>, hostId: string): Db {
    if steps == [] then db
    else DbAfter(Deliver(db, steps[..|steps| - 1], hostId), steps[|steps| - 1], hostId)
  }

  /** An id offered to an event that names no session is unused. */
  ghost predicate StepOk(db: Db, step: Step) {
    step.HandleStep? && step.e.sessionId == "" ==> FreshId(db, step.newId)
  }

  ghost predicate DaemonRun(db: Db, steps: seq<Step>, hostId: string) {
    if steps == [] then UniqueNative(db)
    else
      var n := |steps| - 1;
      DaemonRun(db, steps[..n], hostId) && StepOk(Deliver(db, steps[..n], hostId), steps[n])
  }

  /** The event names no session itself and comes with the given key. */
  predicate OfKey(e: Event, agent: string, nativeId: string) {
    e.sessionId == "" && e.agent == agent && e.nativeId == nativeId
  }

  /** The event is of the session of a key: it has the key, or names the session the key is mapped to. */
  ghost predicate Concerns(db: Db, e: Event, agent: string, nativeId: string) {
    if e.sessionId != "" then FindNative(db, agent, nativeId) == Some(e.sessionId) else OfKey(e, agent, nativeId)
  }

  /** The events of one session, in order of delivery. */
  ghost function Substream(db: Db, steps: seq<Step>, hostId: string, agent: string, nativeId: string)
    : seq<StampedEvent>
  {
    if steps == [] then []
    else
      var n := |steps| - 1;
      var earlier := Substream(db, steps[..n], hostId, agent, nativeId);
      if steps[n].HandleStep? && Concerns(Deliver(db, steps[..n], hostId), steps[n].e, agent, nativeId)
      then earlier + [steps[n].e] else earlier
  }

  // ---- identity mapping ----

  lemma SameMapping(before: Db, after: Db, agent: string, nativeId: string)
    requires UniqueNative(before) && before.rows.Keys == after.rows.Keys
    requires forall id :: id in before.rows ==> SameOrigin(before.rows[id], after.rows[id])
    ensures UniqueNative(after) && FindNative(after, agent, nativeId) == FindNative(before, agent, nativeId)
  {
    UpdateKeepsUnique(before, after);
    var owner := FindNative(before, agent, nativeId);
    if owner.Some? {
      assert Owns(after, owner.value, agent, nativeId);
      FindNativeIsOwner(after, owner.value, agent, nativeId);
    } else if nativeId != "" {
      forall id ensures !Owns(after, id, agent, nativeId) {
        assert !Owns(before, id, agent, nativeId);
      }
    }
  }

  /** A sweep changes statuses only. */
  lemma SweepKeepsRows(db: Db, hostId: string, procs: ProcTable, cutoff: int)
    ensures var after := Sweep(db, hostId, procs, cutoff);
      && after.log == db.log && after.rows.Keys == db.rows.Keys
      && forall id :: id in db.rows ==>
        && after.rows[id] == db.rows[id].(status := after.rows[id].status)
        && (id !in DeadLocal(db, hostId, procs) + RemoteStale(db, hostId, cutoff) ==> after.rows[id] == db.rows[id])
  {
    hide DeadLocal, RemoteStale, Sweep;
    SweepIsExact(db, hostId, procs, cutoff);
  }

  /** An event ends up with a row, or it names an unknown session and is only logged. */
  lemma ResolvableOrUnknown(db: Db, e: StampedEvent, newId: string, hostId: string)
    requires UniqueNative(db) && StepOk(db, HandleStep(e, newId))
    ensures Resolvable(db, e, newId) || (e.sessionId != "" && e.sessionId !in db.rows
              && HandleDb(db, e, newId, hostId) == Db(db.rows, db.log + [Entry(e.sessionId, e)]))
  {
    hide HandleDb, FreshId, UniqueNative;
    if e.sessionId != "" && e.sessionId !in db.rows {
      UnknownExplicitSession(db, e, newId, hostId);
    }
  }

  lemma StepAdvances(db: Db, step: Step, hostId: string)
    requires UniqueNative(db) && StepOk(db, step)
    ensures UniqueNative(DbAfter(db, step, hostId)) && Advances(db, DbAfter(db, step, hostId))
  {
    hide HandleDb, Sweep, UniqueNative, FreshId, FindNative, StepOk;
    match step
    case HandleStep(e, newId) =>
      ResolvableOrUnknown(db, e, newId, hostId);
      if Resolvable(db, e, newId) {
        HandleKeepsMapping(db, e, newId, hostId);
      } else {
        SameMapping(db, DbAfter(db, step, hostId), "", "");
      }
    case SweepStep(procs, cutoff) =>
      SweepKeepsRows(db, hostId, procs, cutoff);
      SameMapping(db, DbAfter(db, step, hostId), "", "");
  }

  lemma {:induction false} RunAdvances(db: Db, steps: seq<Step>, hostId: string)
    requires DaemonRun(db, steps, hostId)
    ensures UniqueNative(Deliver(db, steps, hostId)) && Advances(db, Deliver(db, steps, hostId))
  {
    hide DbAfter, UniqueNative, StepOk;
    if steps != [] {
      var n := |steps| - 1;
      RunAdvances(db, steps[..n], hostId);
      StepAdvances(Deliver(db, steps[..n], hostId), steps[n], hostId);
    }
  }

  /** One event maps its own key and leaves every other mapping as it was. */
  lemma MappingAfterEvent(db: Db, e: StampedEvent, newId: string, hostId: string, agent: string, nativeId: string)
    requires Resolvable(db, e, newId) && nativeId != ""
    ensures FindNative(HandleDb(db, e, newId, hostId), agent, nativeId)
      == if OfKey(e, agent, nativeId) then Some(ResolvedId(db, e, newId)) else FindNative(db, agent, nativeId)
  {
    hide HandleDb, FreshId, Observe;
    var after := HandleDb(db, e, newId, hostId);
    HandleKeepsMapping(db, e, newId, hostId);
    HandleEffect(db, e, newId, hostId);
    var owner := FindNative(db, agent, nativeId);
    if OfKey(e, agent, nativeId) {
      FindNativeIsOwner(after, ResolvedId(db, e, newId), agent, nativeId);
    } else if owner.Some? {
      assert Owns(after, owner.value, agent, nativeId);
      FindNativeIsOwner(after, owner.value, agent, nativeId);
    } else {
      forall id ensures !Owns(after, id, agent, nativeId) {
        assert !Owns(db, id, agent, nativeId);
      }
    }
  }

  /** A step maps at most the key of its event and leaves every other mapping as it was. */
  lemma MappingAfter(db: Db, step: Step, hostId: string, agent: string, nativeId: string)
    requires UniqueNative(db) && StepOk(db, step) && nativeId != ""
    ensures FindNative(DbAfter(db, step, hostId), agent, nativeId)
      == if step.HandleStep? && OfKey(step.e, agent, nativeId) then Some(ResolvedId(db, step.e, step.newId))
         else FindNative(db, agent, nativeId)
  {
    hide HandleDb, Sweep, UniqueNative, FreshId, FindNative, StepOk, ResolvedId;
    match step
    case HandleStep(e, newId) =>
      ResolvableOrUnknown(db, e, newId, hostId);
      if Resolvable(db, e, newId) {
        MappingAfterEvent(db, e, newId, hostId, agent, nativeId);
      } else {
        SameMapping(db, DbAfter(db, step, hostId), agent, nativeId);
      }
    case SweepStep(procs, cutoff) =>
      SweepKeepsRows(db, hostId, procs, cutoff);
      SameMapping(db, DbAfter(db, step, hostId), agent, nativeId);
  }

  /**
   Once mapped, an agent's session id stays mapped to the same session, whose
   origin never changes; two different keys never share a session.
   */
  lemma MappingIsPermanent(db: Db, steps: seq<Step>, hostId: string, agent: string, nativeId: string)
    requires DaemonRun(db, steps, hostId) && FindNative(db, agent, nativeId).Some?
    ensures var after, id := Deliver(db, steps, hostId), FindNative(db, agent, nativeId).value;
      && FindNative(after, agent, nativeId) == Some(id)
      && SameOrigin(db.rows[id], after.rows[id])
    ensures forall agent', nativeId' ::
      FindNative(Deliver(db, steps, hostId), agent', nativeId') == FindNative(db, agent, nativeId)
      ==> agent' == agent && nativeId' == nativeId
  {
    RunAdvances(db, steps, hostId);
    var after, id := Deliver(db, steps, hostId), FindNative(db, agent, nativeId).value;
    assert Owns(after, id, agent, nativeId);
    FindNativeIsOwner(after, id, agent, nativeId);
  }

  /**
   A session that no event names itself is told exactly the events with its key:
   then the substream can be read off the run without the database.
   */
  lemma {:induction false} SubstreamByKey(db: Db, steps: seq<Step>, hostId: string, agent: string, nativeId: string)
    requires DaemonRun(db, steps, hostId) && nativeId != ""
    requires forall a :: a in steps && a.HandleStep? && a.e.sessionId != "" ==>
      FindNative(Deliver(db, steps, hostId), agent, nativeId) != Some(a.e.sessionId)
    ensures Substream(db, steps, hostId, agent, nativeId) == ByKey(steps, agent, nativeId)
  {
    hide DbAfter, FindNative, StepOk;
    if steps != [] {
      var n := |steps| - 1;
      var before := Deliver(db, steps[..n], hostId);
      RunAdvances(db, steps[..n], hostId);
      MappingAfter(before, steps[n], hostId, agent, nativeId);
      KnownBefore(before, steps[n], agent, nativeId);
      assert forall a :: a in steps[..n] ==> a in steps;
      SubstreamByKey(db, steps[..n], hostId, agent, nativeId);
    }
  }

  lemma KnownBefore(db: Db, step: Step, agent: string, nativeId: string)
    ensures step.HandleStep? && OfKey(step.e, agent, nativeId) && FindNative(db, agent, nativeId).Some? ==>
      ResolvedId(db, step.e, step.newId) == FindNative(db, agent, nativeId).value
  {
  }

  function ByKey(steps: seq<Step>, agent: string, nativeId: string): seq<StampedEvent> {
    if steps == [] then []
    else
      var n := |steps| - 1;
      var earlier := ByKey(steps[..n], agent, nativeId);
      if steps[n].HandleStep? && OfKey(steps[n].e, agent, nativeId) then earlier + [steps[n].e] else earlier
  }

  // ---- rows ----

  /** The key of an event whose key was not mapped in the given database, if it has one. */
  ghost function NewKey(db: Db, step: Step): set<(string, string)> {
    if step.HandleStep? && step.e.sessionId == "" && step.e.nativeId != ""
       && FindNative(db, step.e.agent, step.e.nativeId) == None
    then {(step.e.agent, step.e.nativeId)} else {}
  }

  /** The non-empty keys a run meets that were not mapped before it. */
  ghost function NewKeys(db: Db, steps: seq<Step>): set<(string, string)> {
    if steps == [] then {} else NewKeys(db, steps[..|steps| - 1]) + NewKey(db, steps[|steps| - 1])
  }

  /** Events with neither a session nor a native id. */
  function Anonymous(steps: seq<Step>): nat {
    if steps == [] then 0
    else Anonymous(steps[..|steps| - 1]) + if IsAnonymous(steps[|steps| - 1]) then 1 else 0
  }

  predicate IsAnonymous(step: Step) {
    step.HandleStep? && step.e.sessionId == "" && step.e.nativeId == ""
  }

  lemma AnonymousIsUnmapped(db: Db, agent: string)
    ensures FindNative(db, agent, "") == None
  {
  }

  lemma {:induction false} MappedByRun(db: Db, steps: seq<Step>, hostId: string, agent: string, nativeId: string)
    requires DaemonRun(db, steps, hostId) && nativeId != ""
    ensures FindNative(Deliver(db, steps, hostId), agent, nativeId) == None
      <==> FindNative(db, agent, nativeId) == None && (agent, nativeId) !in NewKeys(db, steps)
  {
    hide DbAfter, FindNative, StepOk, ResolvedId;
    if steps != [] {
      var n := |steps| - 1;
      MappedByRun(db, steps[..n], hostId, agent, nativeId);
      RunAdvances(db, steps[..n], hostId);
      MappingAfter(Deliver(db, steps[..n], hostId), steps[n], hostId, agent, nativeId);
    }
  }

  /** A step makes a row exactly when its event names no session and has no mapping. */
  lemma RowsOfStep(db: Db, step: Step, hostId: string)
    requires UniqueNative(db) && StepOk(db, step)
    ensures var makes := step.HandleStep? && step.e.sessionId == "" &&
      FindNative(db, step.e.agent, step.e.nativeId) == None;
      |DbAfter(db, step, hostId).rows| == |db.rows| + if makes then 1 else 0
  {
    hide HandleDb, Sweep, Observe, UniqueNative;
    var after := DbAfter(db, step, hostId);
    assert |after.rows| == |after.rows.Keys| && |db.rows| == |db.rows.Keys|;
    match step
    case HandleStep(e, newId) =>
      ResolvableOrUnknown(db, e, newId, hostId);
      if Resolvable(db, e, newId) {
        HandleEffect(db, e, newId, hostId);
        assert after.rows.Keys == db.rows.Keys + {ResolvedId(db, e, newId)};
      }
    case SweepStep(procs, cutoff) => SweepKeepsRows(db, hostId, procs, cutoff);
  }

  /** One row per distinct new key, one per event with neither a session nor a native id, and no others. */
  lemma {:induction false} RowsOfRun(db: Db, steps: seq<Step>, hostId: string)
    requires DaemonRun(db, steps, hostId)
    ensures |Deliver(db, steps, hostId).rows| == |db.rows| + |NewKeys(db, steps)| + Anonymous(steps)
  {
    hide DbAfter, FindNative, StepOk;
    if steps != [] {
      var n := |steps| - 1;
      var step, before := steps[n], Deliver(db, steps[..n], hostId);
      RowsOfRun(db, steps[..n], hostId);
      RunAdvances(db, steps[..n], hostId);
      RowsOfStep(before, step, hostId);
      var earlier := NewKeys(db, steps[..n]);
      assert earlier + {} == earlier;
      if step.HandleStep? && step.e.sessionId == "" {
        if step.e.nativeId != "" {
          MappedByRun(db, steps[..n], hostId, step.e.agent, step.e.nativeId);
          var key := (step.e.agent, step.e.nativeId);
          assert |earlier + {key}| == |earlier| + if key in earlier then 0 else 1 by {
            assert key in earlier ==> earlier + {key} == earlier;
          }
        } else {
          AnonymousIsUnmapped(before, step.e.agent);
        }
      }
    }
  }

  // ---- a session's row is a fold over its own events ----

  ghost function ViewOf(db: Db, agent: string, nativeId: string): Option<View> {
    match FindNative(db, agent, nativeId)
    case None => None
    case Some(id) => Some(ViewOfRow(db.rows[id]))
  }

  /** First contact creates the row at the event's own time. */
  function Base(v: Option<View>, e: StampedEvent): View {
    if v.Some? then v.value else View(Idle, e.timestamp.value, "")
  }

  function Fold(v: Option<View>, es: seq<StampedEvent>): Option<View> {
    if es == [] then v
    else
      var n := |es| - 1;
      Some(Observe(Base(Fold(v, es[..n]), es[n]), es[n]))
  }

  /** A sweep does not reap the session. */
  ghost predicate Spares(db: Db, step: Step, hostId: string, agent: string, nativeId: string) {
    var owner := FindNative(db, agent, nativeId);
    step.SweepStep? && owner.Some? ==>
      owner.value !in DeadLocal(db, hostId, step.procs) + RemoteStale(db, hostId, step.cutoff)
  }

  /** No sweep of the run reaps the session. */
  ghost predicate Spared(db: Db, steps: seq<Step>, hostId: string, agent: string, nativeId: string) {
    steps == []
    || (Spared(db, steps[..|steps| - 1], hostId, agent, nativeId)
        && Spares(Deliver(db, steps[..|steps| - 1], hostId), steps[|steps| - 1], hostId, agent, nativeId))
  }

  lemma ViewAfterEvent(db: Db, e: StampedEvent, newId: string, hostId: string, agent: string, nativeId: string)
    requires Resolvable(db, e, newId) && nativeId != ""
    ensures ViewOf(HandleDb(db, e, newId, hostId), agent, nativeId)
      == if Concerns(db, e, agent, nativeId) then Some(Observe(Base(ViewOf(db, agent, nativeId), e), e))
         else ViewOf(db, agent, nativeId)
  {
    hide HandleDb, Observe, UniqueNative;
    var after, id := HandleDb(db, e, newId, hostId), ResolvedId(db, e, newId);
    HandleKeepsMapping(db, e, newId, hostId);
    HandleEffect(db, e, newId, hostId);
    MappingAfterEvent(db, e, newId, hostId, agent, nativeId);
    var owner := FindNative(after, agent, nativeId);
    if owner.Some? && !Concerns(db, e, agent, nativeId) {
      assert owner.value != id;
    }
  }

  lemma ViewAfter(db: Db, step: Step, hostId: string, agent: string, nativeId: string)
    requires UniqueNative(db) && StepOk(db, step) && Spares(db, step, hostId, agent, nativeId) && nativeId != ""
    ensures ViewOf(DbAfter(db, step, hostId), agent, nativeId)
      == if step.HandleStep? && Concerns(db, step.e, agent, nativeId)
         then Some(Observe(Base(ViewOf(db, agent, nativeId), step.e), step.e))
         else ViewOf(db, agent, nativeId)
  {
    hide HandleDb, Sweep, Observe, UniqueNative, FreshId, StepOk;
    match step
    case HandleStep(e, newId) =>
      ResolvableOrUnknown(db, e, newId, hostId);
      if Resolvable(db, e, newId) {
        ViewAfterEvent(db, e, newId, hostId, agent, nativeId);
      } else {
        SameMapping(db, DbAfter(db, step, hostId), agent, nativeId);
      }
    case SweepStep(procs, cutoff) =>
      SweepKeepsRows(db, hostId, procs, cutoff);
      SameMapping(db, DbAfter(db, step, hostId), agent, nativeId);
  }

  /** However sessions interleave, each one sees only its own events, and sweeps that spare it do nothing to it. */
  lemma {:induction false} SessionsAreIndependent(
    db: Db, steps: seq<Step>, hostId: string, agent: string, nativeId: string)
    requires DaemonRun(db, steps, hostId) && Spared(db, steps, hostId, agent, nativeId) && nativeId != ""
    ensures ViewOf(Deliver(db, steps, hostId), agent, nativeId)
      == Fold(ViewOf(db, agent, nativeId), Substream(db, steps, hostId, agent, nativeId))
  {
    hide DbAfter, ViewOf, Observe, Base, StepOk, Concerns, Spares, UniqueNative, Advances;
    if steps != [] {
      var n := |steps| - 1;
      var before := Deliver(db, steps[..n], hostId);
      SessionsAreIndependent(db, steps[..n], hostId, agent, nativeId);
      RunAdvances(db, steps[..n], hostId);
      ViewAfter(before, steps[n], hostId, agent, nativeId);
      if steps[n].HandleStep? {
        var earlier := Substream(db, steps[..n], hostId, agent, nativeId);
        assert (earlier + [steps[n].e])[..|earlier|] == earlier;
      }
    }
  }

  // ---- delivery order ----

  predicate OrderFree(es: seq<StampedEvent>) {
    forall i :: 0 <= i < |es| ==> !Resumes(es[i])
  }

  function Time(e: StampedEvent): int {
    e.timestamp.value
  }

  /** The time before which events leave the state alone: the row's, or that of first contact. */
  function Floor(v: Option<View>, es: seq<StampedEvent>): int
    requires v.Some? || es != []
  {
    if v.Some? then v.value.lastEventAt else Time(es[0])
  }

  predicate Candidate(es: seq<StampedEvent>, i: nat, floor: int) {
    i < |es| && !Resumes(es[i]) && Settles(es[i]).Some? && Time(es[i]) >= floor
  }

  /**
   The last-delivered event among the state-bearing ones with the greatest
   timestamp not below the floor.
   */
  ghost predicate Winner(es: seq<StampedEvent>, w: nat, floor: int) {
    && Candidate(es, w, floor)
    && forall j: nat :: Candidate(es, j, floor) ==> Time(es[j]) < Time(es[w]) || (Time(es[j]) == Time(es[w]) && j <= w)
  }

  /** The winner, found in one pass. */
  function Best(es: seq<StampedEvent>, floor: int): (w: Option<nat>)
    ensures w.Some? ==> Candidate(es, w.value, floor)
  {
    if es == [] then None
    else
      var n := |es| - 1;
      var best := Best(es[..n], floor);
      if Candidate(es, n, floor) && (best.None? || Time(es[n]) >= Time(es[best.value])) then Some(n) else best
  }

  lemma {:induction false} BestIsWinner(es: seq<StampedEvent>, floor: int)
    ensures match Best(es, floor)
      case Some(w) => Winner(es, w, floor)
      case None => forall j: nat :: !Candidate(es, j, floor)
  {
    if es != [] {
      var n := |es| - 1;
      BestIsWinner(es[..n], floor);
      assert forall j: nat ::
        Candidate(es, j, floor) <==> Candidate(es[..n], j, floor) || (j == n && Candidate(es, n, floor));
    }
  }

  /** The state of a row that no event has changed yet. */
  function StatusBefore(v: Option<View>): State {
    if v.Some? then v.value.status else Idle
  }

  /** An event that does not depend on the state sets state and time if it settles one and is recent enough. */
  lemma ObserveSettles(u: View, e: StampedEvent)
    requires !Resumes(e)
    ensures var applies := Settles(e).Some? && Time(e) >= u.lastEventAt;
      && Observe(u, e).status == (if applies then Settles(e).value else u.status)
      && Observe(u, e).lastEventAt == if applies then Time(e) else u.lastEventAt
  {
    TransitionFacts(Some(u.status), e, "");
  }

  lemma {:induction false} FoldFollowsBest(v: Option<View>, es: seq<StampedEvent>)
    requires (v.Some? || es != []) && OrderFree(es)
    ensures Fold(v, es).Some?
    ensures var u := Fold(v, es).value;
      match Best(es, Floor(v, es))
      case Some(w) => Some(u.status) == Settles(es[w]) && u.lastEventAt == Time(es[w])
      case None => u.status == StatusBefore(v) && u.lastEventAt == Floor(v, es)
    decreases |es|
  {
    hide Observe, Settles, Resumes;
    if es != [] {
      var n := |es| - 1;
      if n > 0 || v.Some? {
        FoldFollowsBest(v, es[..n]);
      } else {
        assert es[..0] == [];
      }
      var u := Base(Fold(v, es[..n]), es[n]);
      ObserveSettles(u, es[n]);
      assert Fold(v, es) == Some(Observe(u, es[n]));
    }
  }

  /**
   The closed form of any delivery order, ties included, for a row that exists or
   is made at first contact: the winner's state at the winner's time, else the
   state and time found.
   */
  lemma ClosedForm(v: Option<View>, es: seq<StampedEvent>)
    requires (v.Some? || es != []) && OrderFree(es)
    ensures Fold(v, es).Some?
    ensures var u, floor := Fold(v, es).value, Floor(v, es);
      && (forall w: nat :: Winner(es, w, floor) ==> Some(u.status) == Settles(es[w]) && u.lastEventAt == Time(es[w]))
      && ((forall w: nat :: !Winner(es, w, floor)) ==> u.status == StatusBefore(v) && u.lastEventAt == floor)
  {
    hide Fold, OrderFree;
    BestIsWinner(es, Floor(v, es));
    FoldFollowsBest(v, es);
    if Best(es, Floor(v, es)).Some? {
      assert Winner(es, Best(es, Floor(v, es)).value, Floor(v, es));
    }
  }

  // ---- a register that keeps the latest value ----

  datatype Timed<T> = Timed(ts: int, value: T)

  /** The recency rule: a write as recent as the value held replaces it. */
  function Latest<T>(held: Option<Timed<T>>, writes: seq<Timed<T>>): Option<Timed<T>> {
    if writes == [] then held
    else
      var w, before := writes[|writes| - 1], Latest(held, writes[..|writes| - 1]);
      if before.None? || w.ts >= before.value.ts then Some(w) else before
  }

  lemma {:induction false} LatestIsMaximal<T>(held: Option<Timed<T>>, writes: seq<Timed<T>>)
    ensures var r := Latest(held, writes);
      || (r == held && forall w :: w in writes ==> held.Some? && w.ts < held.value.ts)
      || (r.Some? && r.value in writes && (held.Some? ==> held.value.ts <= r.value.ts)
          && forall w :: w in writes ==> w.ts <= r.value.ts)
  {
    if writes != [] {
      var n := |writes| - 1;
      LatestIsMaximal(held, writes[..n]);
      assert forall w :: w in writes <==> w in writes[..n] || w == writes[n];
    }
  }

  /** Writes that differ in time end in the same value however they are reordered or repeated. */
  lemma LatestIsOrderFree<T>(held: Option<Timed<T>>, first: seq<Timed<T>>, second: seq<Timed<T>>)
    requires forall w :: w in first <==> w in second
    requires forall w, x :: w in first && x in first && w.ts == x.ts ==> w == x
    ensures Latest(held, first) == Latest(held, second)
  {
    LatestIsMaximal(held, first);
    LatestIsMaximal(held, second);
  }

  function StateHeld(v: Option<View>): Option<Timed<State>> {
    if v.Some? then Some(Timed(v.value.lastEventAt, v.value.status)) else None
  }

  function Settlement(e: StampedEvent): seq<Timed<State>> {
    if BearsState(e) then [Timed(Time(e), Settles(e).value)] else []
  }

  function Settlements(es: seq<StampedEvent>): seq<Timed<State>> {
    if es == [] then [] else Settlements(es[..|es| - 1]) + Settlement(es[|es| - 1])
  }

  lemma {:induction false} InSettlements(es: seq<StampedEvent>, w: Timed<State>)
    ensures w in Settlements(es) <==> exists e :: e in es && w in Settlement(e)
  {
    if es != [] {
      var n := |es| - 1;
      InSettlements(es[..n], w);
      assert forall x :: x in es <==> x in es[..n] || x == es[n];
    }
  }

  /** The first event of a new session must settle a state; with a row there already, any event may come first. */
  predicate Settling(v: Option<View>, es: seq<StampedEvent>) {
    OrderFree(es) && (v.None? ==> forall i :: 0 <= i < |es| ==> Settles(es[i]).Some?)
  }

  lemma {:induction false} LatestConcat<T>(held: Option<Timed<T>>, a: seq<Timed<T>>, b: seq<Timed<T>>)
    ensures Latest(held, a + b) == Latest(Latest(held, a), b)
  {
    if b == [] {
      assert a + b == a;
    } else {
      assert (a + b)[..|a + b| - 1] == a + b[..|b| - 1];
      LatestConcat(held, a, b[..|b| - 1]);
    }
  }

  lemma ObserveIsWrite(u: Option<View>, e: StampedEvent)
    requires !Resumes(e) && (u.None? ==> Settles(e).Some?)
    ensures StateHeld(Some(Observe(Base(u, e), e))) == Latest(StateHeld(u), Settlement(e))
  {
    TransitionFacts(Some(Base(u, e).status), e, "");
    if Settles(e).Some? {
      assert Settlement(e)[..0] == [];
    }
  }

  /** Status and time of a session are such a register. */
  lemma {:induction false} FoldIsLatest(v: Option<View>, es: seq<StampedEvent>)
    requires Settling(v, es)
    ensures StateHeld(Fold(v, es)) == Latest(StateHeld(v), Settlements(es))
  {
    hide Observe, Base, Settlement, Settles, Resumes, Latest;
    if es == [] {
      LatestOfNothing(StateHeld(v));
    } else {
      var n := |es| - 1;
      FoldIsLatest(v, es[..n]);
      ObserveIsWrite(Fold(v, es[..n]), es[n]);
      LatestConcat(StateHeld(v), Settlements(es[..n]), Settlement(es[n]));
    }
  }

  lemma LatestOfNothing<T>(held: Option<Timed<T>>)
    ensures Latest(held, []) == held
  {
  }

  /** The same events, reordered or repeated. */
  ghost predicate SameEvents(es: seq<StampedEvent>, fs: seq<StampedEvent>) {
    forall e :: e in es <==> e in fs
  }

  /** The event says what state the session is in. */
  predicate BearsState(e: StampedEvent) {
    !Resumes(e) && Settles(e).Some?
  }

  /** No two different state-bearing events share a second. */
  ghost predicate Distinct(es: seq<StampedEvent>) {
    forall e, f :: e in es && f in es && BearsState(e) && BearsState(f) && Time(e) == Time(f) ==> e == f
  }

  lemma StateIsOrderFree(v: Option<View>, es: seq<StampedEvent>, fs: seq<StampedEvent>)
    requires Settling(v, es) && Settling(v, fs) && SameEvents(es, fs) && Distinct(es)
    ensures StateHeld(Fold(v, es)) == StateHeld(Fold(v, fs))
  {
    hide Fold, Settlements, Settling, BearsState;
    FoldIsLatest(v, es);
    FoldIsLatest(v, fs);
    forall w: Timed<State> ensures w in Settlements(es) <==> exists e :: e in es && w in Settlement(e) {
      InSettlements(es, w);
    }
    forall w: Timed<State> ensures w in Settlements(fs) <==> exists e :: e in fs && w in Settlement(e) {
      InSettlements(fs, w);
    }
    forall w, x | w in Settlements(es) && x in Settlements(es) && w.ts == x.ts ensures w == x {
      var e :| e in es && w in Settlement(e);
      var f :| f in es && x in Settlement(f);
    }
    LatestIsOrderFree(StateHeld(v), Settlements(es), Settlements(fs));
  }

  // ---- the prompt cache over a run ----

  lemma {:induction false} RunKeepsCache(db: Db, steps: seq<Step>, hostId: string)
    requires DaemonRun(db, steps, hostId) && CacheHolds(db)
    ensures CacheHolds(Deliver(db, steps, hostId))
  {
    hide HandleDb, Sweep, FindNative, FreshId, LatestPrompt;
    if steps != [] {
      var n := |steps| - 1;
      var before := Deliver(db, steps[..n], hostId);
      RunKeepsCache(db, steps[..n], hostId);
      match steps[n]
      case HandleStep(e, newId) => HandleKeepsCache(before, e, newId, hostId);
      case SweepStep(procs, cutoff) => SweepKeepsRows(before, hostId, procs, cutoff);
    }
  }

  /** The log entries of one session, in order. */
  function OwnLog(log: seq<LogEntry>, id: string): seq<LogEntry> {
    if log == [] then []
    else
      var n := |log| - 1;
      OwnLog(log[..n], id) + if log[n].sessionId == id then [log[n]] else []
  }

  function Entries(id: string, es: seq<StampedEvent>): seq<LogEntry> {
    seq(|es|, i requires 0 <= i < |es| => Entry(id, es[i]))
  }

  lemma {:induction false} NoLogOfFreshId(log: seq<LogEntry>, id: string)
    requires forall i :: 0 <= i < |log| ==> log[i].sessionId != id
    ensures OwnLog(log, id) == []
  {
    if log != [] {
      NoLogOfFreshId(log[..|log| - 1], id);
    }
  }

  lemma OwnLogOneMore(log: seq<LogEntry>, x: LogEntry, id: string)
    ensures OwnLog(log + [x], id) == OwnLog(log, id) + if x.sessionId == id then [x] else []
  {
    assert (log + [x])[..|log|] == log;
  }

  /** What `db` had logged for a session, then `es`, is what `after` has logged for it. */
  ghost predicate LogIs(db: Db, after: Db, agent: string, nativeId: string, es: seq<StampedEvent>) {
    match FindNative(after, agent, nativeId)
    case None => es == []
    case Some(id) =>
      && OwnLog(after.log, id) == OwnLog(db.log, id) + Entries(id, es)
      && (FindNative(db, agent, nativeId) == None ==> OwnLog(db.log, id) == [])
  }

  lemma LogOfEvent(db: Db, before: Db, e: StampedEvent, newId: string, hostId: string, agent: string, nativeId: string,
                   es: seq<StampedEvent>)
    requires Resolvable(before, e, newId) && Advances(db, before) && nativeId != ""
    requires e.sessionId == "" ==> FreshId(before, newId)
    requires LogIs(db, before, agent, nativeId, es)
    ensures LogIs(db, HandleDb(before, e, newId, hostId), agent, nativeId,
                  if Concerns(before, e, agent, nativeId) then es + [e] else es)
  {
    hide HandleDb, OwnLog, FreshId, Observe, UniqueNative;
    var after, id := HandleDb(before, e, newId, hostId), ResolvedId(before, e, newId);
    MappingAfterEvent(before, e, newId, hostId, agent, nativeId);
    HandleKeepsMapping(before, e, newId, hostId);
    HandleEffect(before, e, newId, hostId);
    var owner := FindNative(after, agent, nativeId);
    if owner.Some? {
      OwnLogOneMore(before.log, Entry(id, e), owner.value);
      if !Concerns(before, e, agent, nativeId) {
        assert owner.value != id;
        assert OwnLog(before.log, owner.value) + [] == OwnLog(before.log, owner.value);
      } else {
        assert Entries(id, es + [e]) == Entries(id, es) + [Entry(id, e)];
        if FindNative(before, agent, nativeId) == None {
          NoLogOfNewId(db.log, before, id);
          assert es == [] && Entries(id, es) == [];
        }
      }
    }
  }

  lemma LogStep(db: Db, before: Db, step: Step, hostId: string, agent: string, nativeId: string, es: seq<StampedEvent>)
    requires UniqueNative(before) && StepOk(before, step) && Advances(db, before) && nativeId != ""
    requires LogIs(db, before, agent, nativeId, es)
    ensures LogIs(db, DbAfter(before, step, hostId), agent, nativeId,
                  if step.HandleStep? && Concerns(before, step.e, agent, nativeId) then es + [step.e] else es)
  {
    hide HandleDb, Sweep, OwnLog, FreshId, UniqueNative, Entries;
    match step
    case HandleStep(e, newId) =>
      ResolvableOrUnknown(before, e, newId, hostId);
      if Resolvable(before, e, newId) {
        LogOfEvent(db, before, e, newId, hostId, agent, nativeId, es);
      } else {
        SameMapping(before, DbAfter(before, step, hostId), agent, nativeId);
        var owner := FindNative(before, agent, nativeId);
        if owner.Some? {
          OwnLogOneMore(before.log, Entry(e.sessionId, e), owner.value);
          assert OwnLog(before.log, owner.value) + [] == OwnLog(before.log, owner.value);
        }
      }
    case SweepStep(procs, cutoff) =>
      SweepKeepsRows(before, hostId, procs, cutoff);
      SameMapping(before, DbAfter(before, step, hostId), agent, nativeId);
  }

  lemma NoLogOfNewId(earlier: seq<LogEntry>, db: Db, id: string)
    requires FreshId(db, id) && earlier <= db.log
    ensures OwnLog(earlier, id) == OwnLog(db.log, id) == []
  {
    NoLogOfFreshId(db.log, id);
    NoLogOfFreshId(earlier, id);
  }

  /** What a run adds to the log of a session is exactly that session's events, in order of delivery. */
  lemma {:induction false} LogOfSession(db: Db, steps: seq<Step>, hostId: string, agent: string, nativeId: string)
    requires DaemonRun(db, steps, hostId) && nativeId != ""
    ensures LogIs(db, Deliver(db, steps, hostId), agent, nativeId, Substream(db, steps, hostId, agent, nativeId))
  {
    hide LogIs, DbAfter, FindNative, OwnLog, Concerns, StepOk;
    if steps == [] {
      NothingLogged(db, agent, nativeId);
    } else {
      var n := |steps| - 1;
      LogOfSession(db, steps[..n], hostId, agent, nativeId);
      RunAdvances(db, steps[..n], hostId);
      LogStep(db, Deliver(db, steps[..n], hostId), steps[n], hostId, agent, nativeId,
              Substream(db, steps[..n], hostId, agent, nativeId));
    }
  }

  lemma NothingLogged(db: Db, agent: string, nativeId: string)
    ensures LogIs(db, db, agent, nativeId, [])
  {
    var owner := FindNative(db, agent, nativeId);
    if owner.Some? {
      assert OwnLog(db.log, owner.value) + Entries(owner.value, []) == OwnLog(db.log, owner.value);
    }
  }

  function PromptWrite(x: LogEntry): seq<Timed<string>> {
    if x.kind == UserPrompt then [Timed(x.ts, PromptText(x.payload))] else []
  }

  function PromptWrites(log: seq<LogEntry>): seq<Timed<string>> {
    if log == [] then [] else PromptWrites(log[..|log| - 1]) + PromptWrite(log[|log| - 1])
  }

  function PromptHeld(log: seq<LogEntry>, id: string): Option<Timed<string>> {
    match LatestPromptIndex(log, id)
    case None => None
    case Some(i) => Some(Timed(log[i].ts, PromptText(log[i].payload)))
  }

  lemma PromptOneMore(log: seq<LogEntry>, x: LogEntry, id: string)
    ensures PromptHeld(log + [x], id) == Latest(PromptHeld(log, id), if x.sessionId == id then PromptWrite(x) else [])
  {
    assert (log + [x])[..|log|] == log;
    assert [Timed(x.ts, PromptText(x.payload))][..0] == [];
  }

  lemma NoPromptHeld(id: string)
    ensures PromptHeld([], id) == None
  {
  }

  /** The cached prompt is the same kind of register, over the session's own entries. */
  lemma {:induction false} PromptIsLatest(log: seq<LogEntry>, id: string)
    ensures PromptHeld(log, id) == Latest(None, PromptWrites(OwnLog(log, id)))
  {
    hide PromptHeld, Latest, PromptWrite;
    if log == [] {
      NoPromptHeld(id);
      LatestOfNothing<string>(None);
    } else {
      var n := |log| - 1;
      var own, mine := OwnLog(log[..n], id), if log[n].sessionId == id then [log[n]] else [];
      PromptIsLatest(log[..n], id);
      assert log[..n] + [log[n]] == log;
      PromptOneMore(log[..n], log[n], id);
      PromptWritesConcat(own, mine);
      LatestConcat(None, PromptWrites(own), PromptWrites(mine));
      assert mine[..0] == [];
      assert PromptWrites(mine) == if mine == [] then [] else PromptWrite(log[n]);
    }
  }

  lemma {:induction false} PromptWritesConcat(a: seq<LogEntry>, b: seq<LogEntry>)
    ensures PromptWrites(a + b) == PromptWrites(a) + PromptWrites(b)
  {
    if b == [] {
      assert a + b == a;
    } else {
      assert (a + b)[..|a + b| - 1] == a + b[..|b| - 1];
      PromptWritesConcat(a, b[..|b| - 1]);
    }
  }

  lemma {:induction false} InPromptWrites(id: string, es: seq<StampedEvent>, w: Timed<string>)
    ensures w in PromptWrites(Entries(id, es))
      <==> exists e :: e in es && e.kind == UserPrompt && w == Timed(Time(e), PromptText(e.payload))
  {
    if es != [] {
      var n := |es| - 1;
      InPromptWrites(id, es[..n], w);
      assert Entries(id, es)[..n] == Entries(id, es[..n]);
      assert forall x :: x in es <==> x in es[..n] || x == es[n];
    }
  }

  /** Two logs that hold the same earlier entries and then the same events have the same latest prompt. */
  lemma PromptIsOrderFree(log1: seq<LogEntry>, id1: string, log2: seq<LogEntry>, id2: string,
                          own1: seq<LogEntry>, own2: seq<LogEntry>, es: seq<StampedEvent>, fs: seq<StampedEvent>)
    requires OwnLog(log1, id1) == own1 + Entries(id1, es) && OwnLog(log2, id2) == own2 + Entries(id2, fs)
    requires PromptWrites(own1) == PromptWrites(own2) && SameEvents(es, fs) && Distinct(es)
    ensures LatestPrompt(log1, id1) == LatestPrompt(log2, id2)
  {
    hide PromptWrites, OwnLog, Entries, Latest, LatestPromptIndex;
    PromptIsLatest(log1, id1);
    PromptIsLatest(log2, id2);
    var ws, xs := PromptWrites(Entries(id1, es)), PromptWrites(Entries(id2, fs));
    PromptWritesConcat(own1, Entries(id1, es));
    PromptWritesConcat(own2, Entries(id2, fs));
    LatestConcat(None, PromptWrites(own1), ws);
    LatestConcat(None, PromptWrites(own2), xs);
    forall w ensures w in ws
      <==> exists e :: e in es && e.kind == UserPrompt && w == Timed(Time(e), PromptText(e.payload))
    {
      InPromptWrites(id1, es, w);
    }
    forall w ensures w in xs
      <==> exists e :: e in fs && e.kind == UserPrompt && w == Timed(Time(e), PromptText(e.payload))
    {
      InPromptWrites(id2, fs, w);
    }
    forall w, x | w in ws && x in ws && w.ts == x.ts ensures w == x {
      var e :| e in es && w == Timed(Time(e), PromptText(e.payload));
      var f :| f in es && x == Timed(Time(f), PromptText(f.payload));
    }
    LatestIsOrderFree(Latest(None, PromptWrites(own1)), ws, xs);
  }

  /**
   Two runs that deliver the same events of a session in different orders, some
   of them more than once perhaps, each mixed with any traffic of other sessions,
   end with the same status, the same last_event_at and the same cached prompt.
   */
  lemma DeliveryOrderIsIrrelevant(
    db: Db, first: seq<Step>, second: seq<Step>, hostId: string, agent: string, nativeId: string)
    requires DaemonRun(db, first, hostId) && Spared(db, first, hostId, agent, nativeId)
    requires DaemonRun(db, second, hostId) && Spared(db, second, hostId, agent, nativeId)
    requires CacheHolds(db) && nativeId != ""
    requires Settling(ViewOf(db, agent, nativeId), Substream(db, first, hostId, agent, nativeId))
    requires SameEvents(Substream(db, first, hostId, agent, nativeId), Substream(db, second, hostId, agent, nativeId))
    requires Distinct(Substream(db, first, hostId, agent, nativeId))
    ensures var d1, d2 := Deliver(db, first, hostId), Deliver(db, second, hostId);
      match FindNative(d1, agent, nativeId)
      case None => FindNative(d2, agent, nativeId) == None
      case Some(id1) =>
        && FindNative(d2, agent, nativeId).Some?
        && var r1, r2 := d1.rows[id1], d2.rows[FindNative(d2, agent, nativeId).value];
        r1.status == r2.status && r1.lastEventAt == r2.lastEventAt && r1.lastPrompt == r2.lastPrompt
  {
    hide DaemonRun, Deliver, Fold, OwnLog, FindNative, Resumes, Settles;
    var es, fs := Substream(db, first, hostId, agent, nativeId), Substream(db, second, hostId, agent, nativeId);
    var d1, d2 := Deliver(db, first, hostId), Deliver(db, second, hostId);
    SessionsAreIndependent(db, first, hostId, agent, nativeId);
    SessionsAreIndependent(db, second, hostId, agent, nativeId);
    assert forall i :: 0 <= i < |fs| ==> fs[i] in es;
    StateIsOrderFree(ViewOf(db, agent, nativeId), es, fs);
    if ViewOf(d1, agent, nativeId).Some? {
      SamePrompt(db, first, second, hostId, agent, nativeId);
    }
  }

  lemma SamePrompt(db: Db, first: seq<Step>, second: seq<Step>, hostId: string, agent: string, nativeId: string)
    requires DaemonRun(db, first, hostId) && DaemonRun(db, second, hostId) && CacheHolds(db) && nativeId != ""
    requires SameEvents(Substream(db, first, hostId, agent, nativeId), Substream(db, second, hostId, agent, nativeId))
    requires Distinct(Substream(db, first, hostId, agent, nativeId))
    requires FindNative(Deliver(db, first, hostId), agent, nativeId).Some?
    requires FindNative(Deliver(db, second, hostId), agent, nativeId).Some?
    ensures var d1, d2 := Deliver(db, first, hostId), Deliver(db, second, hostId);
      d1.rows[FindNative(d1, agent, nativeId).value].lastPrompt
        == d2.rows[FindNative(d2, agent, nativeId).value].lastPrompt
  {
    hide DaemonRun, Deliver, OwnLog, PromptWrites;
    var d1, d2 := Deliver(db, first, hostId), Deliver(db, second, hostId);
    var id1, id2 := FindNative(d1, agent, nativeId).value, FindNative(d2, agent, nativeId).value;
    RunKeepsCache(db, first, hostId);
    RunKeepsCache(db, second, hostId);
    LogOfSession(db, first, hostId, agent, nativeId);
    LogOfSession(db, second, hostId, agent, nativeId);
    if FindNative(db, agent, nativeId).Some? {
      MappingIsPermanent(db, first, hostId, agent, nativeId);
      MappingIsPermanent(db, second, hostId, agent, nativeId);
    }
    PromptIsOrderFree(d1.log, id1, d2.log, id2, OwnLog(db.log, id1), OwnLog(db.log, id2),
                      Substream(db, first, hostId, agent, nativeId), Substream(db, second, hostId, agent, nativeId));
  }

  // ---- waiting, read backwards ----

  /** Times never go back, the row's own time included. */
  predicate InOrder(v: Option<View>, es: seq<StampedEvent>) {
    && (forall i, j :: 0 <= i < j < |es| ==> Time(es[i]) <= Time(es[j]))
    && (v.Some? && es != [] ==> v.value.lastEventAt <= Time(es[0]))
  }

  /** The last event that is not an idle ping, a title or of an unknown kind. */
  function LastTelling(es: seq<StampedEvent>): Option<StampedEvent> {
    if es == [] then None
    else if !Neutral(es[|es| - 1]) then Some(es[|es| - 1])
    else LastTelling(es[..|es| - 1])
  }

  /** The last telling event blocked, or there was none and the session was waiting before. */
  predicate LeftWaiting(v: Option<View>, es: seq<StampedEvent>) {
    match LastTelling(es)
    case Some(e) => Blocks(e)
    case None => StatusBefore(v) == Waiting
  }

  /** With events in order, a session is waiting exactly when the last telling one blocked. */
  lemma {:induction false} WaitingMeansBlocked(v: Option<View>, es: seq<StampedEvent>)
    requires (v.Some? || es != []) && InOrder(v, es)
    ensures Fold(v, es).Some?
    ensures es != [] ==> Fold(v, es).value.lastEventAt <= Time(es[|es| - 1])
    ensures Fold(v, es).value.status == Waiting <==> LeftWaiting(v, es)
    decreases |es|
  {
    if es != [] {
      var n := |es| - 1;
      if n == 0 {
        assert Fold(v, es[..0]) == v && LastTelling(es[..0]) == None;
        TransitionFacts(Some(StatusBefore(v)), es[n], "");
      } else {
        WaitingMeansBlocked(v, es[..n]);
        TransitionFacts(Some(Fold(v, es[..n]).value.status), es[n], "");
      }
    }
  }

  // ---- every state, read backwards ----

  /** The event tells the state by itself. */
  predicate Declares(e: Event) {
    || e.kind in {SessionStart, UserPrompt, ToolUse, Stop, SessionEnd, Fail, Note}
    || (e.kind == Notification && e.notify !in {IdlePrompt, ElicitationComplete, ElicitationResponse, AuthSuccess})
  }

  function LastDeclaring(es: seq<StampedEvent>): (r: Option<nat>)
    ensures match r
      case None => forall j :: 0 <= j < |es| ==> !Declares(es[j])
      case Some(w) => w < |es| && Declares(es[w]) && forall j :: w < j < |es| ==> !Declares(es[j])
  {
    if es == [] then None
    else if Declares(es[|es| - 1]) then Some(|es| - 1)
    else LastDeclaring(es[..|es| - 1])
  }

  predicate AnsweredFrom(es: seq<StampedEvent>, i: nat) {
    exists j :: i <= j < |es| && Resumes(es[j])
  }

  /**
   The state a session is in: that of its last event that declares one, where a
   block may have been answered since; without such an event the state before,
   idle for a new session.
   */
  predicate ReadsBack(state: State, v: Option<View>, es: seq<StampedEvent>) {
    match LastDeclaring(es)
    case Some(w) =>
      var kind, answered := es[w].kind, AnsweredFrom(es, w + 1);
      && (state == Finished <==> kind == SessionEnd)
      && (state == Failed <==> kind == Fail)
      && (state == Idle <==> kind in {SessionStart, Stop})
      && (state == Running <==> kind in {UserPrompt, ToolUse, Note} || (kind == Notification && answered))
      && (state == Waiting <==> kind == Notification && !answered)
      && state != Dead
    case None =>
      var before := if v.Some? then v.value.status else Idle;
      state == if before == Waiting && AnsweredFrom(es, 0) then Running else before
  }

  lemma AnsweredOneMore(es: seq<StampedEvent>, e: StampedEvent, i: nat)
    requires i <= |es|
    ensures AnsweredFrom(es + [e], i) <==> AnsweredFrom(es, i) || Resumes(e)
  {
    hide Resumes;
    var more := es + [e];
    assert more[|es|] == e;
    if j :| i <= j < |more| && Resumes(more[j]) {
      assert j < |es| ==> Resumes(es[j]);
    }
    if j :| i <= j < |es| && Resumes(es[j]) {
      assert Resumes(more[j]);
    }
  }

  lemma NothingAfter(es: seq<StampedEvent>)
    ensures !AnsweredFrom(es, |es|)
  {
  }

  lemma ReadsBackOneMore(state: State, v: Option<View>, es: seq<StampedEvent>, e: StampedEvent)
    requires ReadsBack(state, v, es)
    ensures var next := Transition(Some(state), e);
      ReadsBack(if next.Some? then next.value else state, v, es + [e])
  {
    hide Transition, AnsweredFrom;
    TransitionTable(Some(state), e);
    LastDeclaringOneMore(es, e);
    NothingAfter(es + [e]);
    AnsweredOneMore(es, e, if LastDeclaring(es).Some? then LastDeclaring(es).value + 1 else 0);
  }

  lemma LastDeclaringOneMore(es: seq<StampedEvent>, e: StampedEvent)
    ensures LastDeclaring(es + [e]) == if Declares(e) then Some(|es|) else LastDeclaring(es)
  {
    assert (es + [e])[..|es|] == es;
  }

  lemma ObserveInOrder(u: View, e: StampedEvent)
    requires u.lastEventAt <= Time(e)
    ensures var next := Transition(Some(u.status), e);
      Observe(u, e).status == (if next.Some? then next.value else u.status) && Observe(u, e).lastEventAt <= Time(e)
  {
    hide Transition;
  }

  lemma EarlierInOrder(v: Option<View>, es: seq<StampedEvent>)
    requires es != [] && InOrder(v, es)
    ensures var n := |es| - 1;
      && InOrder(v, es[..n])
      && (n > 0 ==> Time(es[n - 1]) <= Time(es[n]))
      && (n == 0 && v.Some? ==> v.value.lastEventAt <= Time(es[n]))
  {
  }

  lemma FoldStep(v: Option<View>, es: seq<StampedEvent>)
    ensures es == [] ==> Fold(v, es) == v
    ensures es != [] ==>
      var n := |es| - 1;
      var earlier := Fold(v, es[..n]);
      && Fold(v, es) == Some(Observe(Base(earlier, es[n]), es[n]))
      && (earlier.None? ==> Base(earlier, es[n]).status == Idle && Base(earlier, es[n]).lastEventAt == Time(es[n]))
      && (earlier.Some? ==> Base(earlier, es[n]) == earlier.value)
  {
    hide Observe;
  }

  /** With events in order, the state can be read off the stream backwards, without replaying it. */
  lemma {:induction false} StateReadsBack(v: Option<View>, es: seq<StampedEvent>)
    requires (v.Some? || es != []) && InOrder(v, es)
    ensures Fold(v, es).Some? && ReadsBack(Fold(v, es).value.status, v, es)
    ensures es != [] ==> Fold(v, es).value.lastEventAt <= Time(es[|es| - 1])
    ensures es == [] ==> Fold(v, es) == v
    decreases |es|
  {
    hide ReadsBack, Transition, Observe, InOrder, Fold, Base;
    FoldStep(v, es);
    NothingToRead(v);
    if es != [] {
      var n := |es| - 1;
      EarlierInOrder(v, es);
      if n > 0 || v.Some? {
        StateReadsBack(v, es[..n]);
      } else {
        assert es[..n] == [];
        FoldStep(v, es[..n]);
      }
      var u := Base(Fold(v, es[..n]), es[n]);
      assert es[..n] + [es[n]] == es;
      ReadsBackOneMore(u.status, v, es[..n], es[n]);
      ObserveInOrder(u, es[n]);
    }
  }

  lemma NothingToRead(v: Option<View>)
    ensures ReadsBack(if v.Some? then v.value.status else Idle, v, [])
  {
  }

  // ---- in the database ----

  /** The closed form for any session, with or without a row before, whatever else the run delivers. */
  lemma StatusAfterRun(db: Db, steps: seq<Step>, hostId: string, agent: string, nativeId: string)
    requires DaemonRun(db, steps, hostId) && Spared(db, steps, hostId, agent, nativeId) && nativeId != ""
    requires FindNative(db, agent, nativeId).Some? || Substream(db, steps, hostId, agent, nativeId) != []
    requires OrderFree(Substream(db, steps, hostId, agent, nativeId))
    ensures var es, v := Substream(db, steps, hostId, agent, nativeId), ViewOf(db, agent, nativeId);
      var u, floor := ViewOf(Deliver(db, steps, hostId), agent, nativeId), Floor(v, es);
      && u.Some?
      && (forall w: nat :: Winner(es, w, floor) ==>
           Some(u.value.status) == Settles(es[w]) && u.value.lastEventAt == Time(es[w]))
      && ((forall w: nat :: !Winner(es, w, floor)) ==>
           u.value.status == StatusBefore(v) && u.value.lastEventAt == floor)
  {
    hide DaemonRun, Deliver, Fold, OrderFree;
    SessionsAreIndependent(db, steps, hostId, agent, nativeId);
    ClosedForm(ViewOf(db, agent, nativeId), Substream(db, steps, hostId, agent, nativeId));
  }

  /** A session whose events come in order of time is in the state its events read back. */
  lemma StateReadsBackAfterRun(db: Db, steps: seq<Step>, hostId: string, agent: string, nativeId: string)
    requires DaemonRun(db, steps, hostId) && Spared(db, steps, hostId, agent, nativeId) && nativeId != ""
    requires FindNative(db, agent, nativeId).Some? || Substream(db, steps, hostId, agent, nativeId) != []
    requires InOrder(ViewOf(db, agent, nativeId), Substream(db, steps, hostId, agent, nativeId))
    ensures var u := ViewOf(Deliver(db, steps, hostId), agent, nativeId);
      u.Some? && ReadsBack(u.value.status, ViewOf(db, agent, nativeId), Substream(db, steps, hostId, agent, nativeId))
  {
    hide DaemonRun, Deliver, Fold, ReadsBack;
    SessionsAreIndependent(db, steps, hostId, agent, nativeId);
    StateReadsBack(ViewOf(db, agent, nativeId), Substream(db, steps, hostId, agent, nativeId));
  }

  /** A session whose events come in order of time is waiting exactly when the last telling one blocked. */
  lemma WaitingAfterRun(db: Db, steps: seq<Step>, hostId: string, agent: string, nativeId: string)
    requires DaemonRun(db, steps, hostId) && Spared(db, steps, hostId, agent, nativeId) && nativeId != ""
    requires FindNative(db, agent, nativeId).Some? || Substream(db, steps, hostId, agent, nativeId) != []
    requires InOrder(ViewOf(db, agent, nativeId), Substream(db, steps, hostId, agent, nativeId))
    ensures var u := ViewOf(Deliver(db, steps, hostId), agent, nativeId);
      u.Some? && (u.value.status == Waiting <==>
           LeftWaiting(ViewOf(db, agent, nativeId), Substream(db, steps, hostId, agent, nativeId)))
  {
    hide DaemonRun, Deliver, Fold;
    SessionsAreIndependent(db, steps, hostId, agent, nativeId);
    WaitingMeansBlocked(ViewOf(db, agent, nativeId), Substream(db, steps, hostId, agent, nativeId));
  }
}
