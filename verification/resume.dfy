/**
 What the recency guard buys over all interleavings: no reap overrides a newer
 write, and a resumed session is never marked dead while its process lives.
 */
module Resume {
  import opened Wrappers
  import opened Session
  import opened Liveness
  import opened Database
  import opened Handling
  import opened Reaping
  import opened Interleaving

  // ---- single steps ----

  lemma RefreshStep(s: Sys, e: StampedEvent, id: string, newId: string)
    requires DAEMON in s.actors && s.actors[DAEMON] == Refreshing(e, id)
    ensures Apply(s, Go(DAEMON, newId))
      == s.(db := Exec(s.db, SetIdentity(id, e.identity)), actors := s.actors[DAEMON := Appending(e, id)])
  {
    assert s.history + [] == s.history;
  }

  lemma AppendStep(s: Sys, e: StampedEvent, id: string, newId: string)
    requires DAEMON in s.actors && s.actors[DAEMON] == Appending(e, id)
    ensures Apply(s, Go(DAEMON, newId))
      == s.(db := Exec(s.db, AppendLog(Entry(id, e))), actors := s.actors[DAEMON := Reading(e, id)])
  {
    assert s.history + [] == s.history;
  }

  lemma ReadStep(s: Sys, e: StampedEvent, id: string, newId: string)
    requires DAEMON in s.actors && s.actors[DAEMON] == Reading(e, id)
    ensures var next := Transition(StatusOf(s.db, id), e);
      Apply(s, Go(DAEMON, newId))
        == s.(actors := if next.Some? then s.actors[DAEMON := Writing(e, id, next.value)] else s.actors - {DAEMON})
  {
    assert s.history + [] == s.history;
  }

  lemma WriteStep(s: Sys, e: StampedEvent, id: string, next: State, newId: string)
    requires DAEMON in s.actors && s.actors[DAEMON] == Writing(e, id, next)
    ensures var t := Apply(s, Go(DAEMON, newId));
      && t.db == Exec(s.db, SetStatus(id, next, e.timestamp.value)) && t.actors == s.actors - {DAEMON}
      && t.procs == s.procs && t.hostId == s.hostId
  {
  }

  lemma StartReapStep(s: Sys, a: nat, order: seq<Snapshot>)
    requires a !in s.actors && AreSnapshots(order, s.db, LocalStale(s.db, s.hostId))
    ensures Apply(s, StartReap(a, order)) == s.(actors := s.actors[a := Reaping(false, order, false, [], |s.history|)])
  {
    assert s.history + [] == s.history;
  }

  lemma StartRemoteStep(s: Sys, a: nat, order: seq<Snapshot>, cutoff: int)
    requires a in s.actors && s.actors[a].BetweenPasses?
      && AreSnapshots(order, s.db, RemoteStale(s.db, s.hostId, cutoff))
    ensures Apply(s, StartRemote(a, order, cutoff))
      == s.(actors := s.actors[a := Reaping(true, order, false, s.actors[a].reaped, s.actors[a].since)])
  {
    assert s.history + [] == s.history;
  }

  /** The next statement of a pass is a probe. */
  predicate AboutToProbe(p: Proc) {
    p.Reaping? && p.pending != [] && !p.remote && !p.condemned
  }

  lemma ProbeStep(s: Sys, a: nat)
    requires a in s.actors && AboutToProbe(s.actors[a])
    ensures var p := s.actors[a];
      Apply(s, Go(a, "")) == s.(actors := s.actors[a :=
        if IsProcessDead(s.procs, p.pending[0].identity) then p.(condemned := true) else p.(pending := p.pending[1..])])
  {
    assert s.history + [] == s.history;
  }

  /** The actor's next statement is the UPDATE that would kill its head snapshot's row. */
  predicate AboutToKill(p: Proc) {
    p.Reaping? && p.pending != [] && (p.remote || p.condemned)
  }

  lemma KillStep(s: Sys, a: nat)
    requires a in s.actors && AboutToKill(s.actors[a])
    ensures var p, t := s.actors[a], Apply(s, Go(a, ""));
      var snap := p.pending[0];
      && t.db == Exec(s.db, SetStatus(snap.id, Dead, snap.lastEventAt)) && t.procs == s.procs && t.hostId == s.hostId
      && t.actors == s.actors[a := p.(
           pending := p.pending[1..], condemned := false,
           reaped := if Recent(s.db, snap.id, snap.lastEventAt) then p.reaped + [snap] else p.reaped)]
  {
  }

  lemma EndOfPassStep(s: Sys, a: nat)
    requires a in s.actors && s.actors[a].Reaping? && s.actors[a].pending == []
    ensures var p := s.actors[a];
      Apply(s, Go(a, ""))
        == s.(actors := if p.remote then s.actors - {a} else s.actors[a := BetweenPasses(p.reaped, p.since)])
  {
    assert s.history + [] == s.history;
  }

  // ---- reaping ----

  /**
   The exact outcome of a reaper's UPDATE, in any reachable state: it takes
   effect if and only if the row's time is still the snapshot's. It then changes
   the status alone and is reported; otherwise nothing changes and nothing is
   reported.
   */
  lemma ReapOutcome(s: Sys, a: nat)
    requires Inv(s) && a in s.actors && AboutToKill(s.actors[a])
    ensures var p, t := s.actors[a], Apply(s, Go(a, ""));
      var snap := p.pending[0];
      && snap.id in s.db.rows && a in t.actors && t.actors[a].Reaping?
      && if s.db.rows[snap.id].lastEventAt == snap.lastEventAt
         then t.db == s.db.(rows := s.db.rows[snap.id := s.db.rows[snap.id].(status := Dead)])
              && t.actors[a].reaped == p.reaped + [snap]
         else snap.lastEventAt < s.db.rows[snap.id].lastEventAt && t.db == s.db && t.actors[a].reaped == p.reaped
  {
    hide Apply, CacheHolds, LegalHistory, RowsHoldLastWrite, UniqueNative;
    assert ActorOk(s, a, s.actors[a]);
    KillStep(s, a);
  }

  /** In any reachable state a dead row was last written by a reaper, which kept the time of the write it overrode. */
  lemma DeadMeansReaped(s: Sys, id: string)
    requires Inv(s) && id in s.db.rows && s.db.rows[id].status == Dead
    ensures LastWrite(s.history, id).Some? && LastWrite(s.history, id).value.writer == ByReap
  {
    LastWriteIsLogged(s.history, id);
  }

  lemma {:induction false} LastWriteIsLogged(history: seq<Write>, id: string)
    requires LastWrite(history, id).Some?
    ensures LastWrite(history, id).value in history && LastWrite(history, id).value.id == id
  {
    var n := |history| - 1;
    if history[n].id != id {
      LastWriteIsLogged(history[..n], id);
    }
  }

  // ---- resume wins ----

  /**
   A reap pass that cannot kill the session: its snapshot of it shows the live
   process or is no newer than `floor`.
   */
  ghost predicate Harmless(p: Proc, id: string, live: Identity, floor: int) {
    p.Reaping? ==>
      && (forall k :: 0 <= k < |p.pending| && p.pending[k].id == id ==>
            !p.remote && (p.pending[k].identity == live || p.pending[k].lastEventAt <= floor))
      && (p.condemned && p.pending != [] && p.pending[0].id == id ==> p.pending[0].lastEventAt <= floor)
  }

  /** The row is local, shows the live process and is at least as recent as `floor`. */
  ghost predicate Held(db: Db, hostId: string, id: string, live: Identity, floor: int) {
    && id in db.rows
    && db.rows[id].identity == live && db.rows[id].hostId == hostId
    && floor <= db.rows[id].lastEventAt
  }

  /** Besides, nothing in flight can kill it past `floor`. */
  ghost predicate Guarded(s: Sys, id: string, live: Identity, floor: int) {
    && Held(s.db, s.hostId, id, live, floor)
    && forall a :: a in s.actors ==> Harmless(s.actors[a], id, live, floor)
  }

  ghost predicate NotDeadPast(db: Db, id: string, floor: int) {
    id in db.rows && (floor < db.rows[id].lastEventAt ==> db.rows[id].status != Dead)
  }

  /** Besides, past `floor` it is not dead. */
  ghost predicate Protected(s: Sys, id: string, live: Identity, floor: int) {
    Guarded(s, id, live, floor) && NotDeadPast(s.db, id, floor)
  }

  /** The process is alive before and after the step, and the step stores no other fingerprint for the session. */
  ghost predicate Quiet(s: Sys, l: Label, id: string, live: Identity) {
    && Alive(s.procs, live) && Alive(Apply(s, l).procs, live)
    && (PlanOf(s, l).st.SetIdentity? && PlanOf(s, l).st.id == id ==> PlanOf(s, l).st.identity == live)
  }

  ghost predicate QuietRun(s: Sys, labels: seq<Label>, id: string, live: Identity)
    decreases |labels|
  {
    labels == [] || (Quiet(s, labels[0], id, live) && QuietRun(Apply(s, labels[0]), labels[1..], id, live))
  }

  lemma ReaperStaysHarmless(s: Sys, a: nat, p: Proc, id: string, live: Identity, floor: int)
    requires p.Reaping? && Harmless(p, id, live, floor) && Alive(s.procs, live)
    ensures var next := ReaperPlan(s, a, p).next;
      next.Some? ==> Harmless(next.value, id, live, floor)
  {
    if p.pending != [] {
      assert forall k :: 0 <= k < |p.pending[1..]| ==> p.pending[1..][k] == p.pending[k + 1];
    }
  }

  lemma StepStaysHarmless(s: Sys, l: Label, id: string, live: Identity, floor: int)
    requires Guarded(s, id, live, floor) && Alive(s.procs, live)
    ensures var next := PlanOf(s, l).next;
      next.Some? ==> Harmless(next.value, id, live, floor)
  {
    if l.Go? && l.actor in s.actors && s.actors[l.actor].Reaping? {
      ReaperStaysHarmless(s, l.actor, s.actors[l.actor], id, live, floor);
    }
  }

  /** Whoever kills is a reaper at its UPDATE. */
  lemma KillersAreReapers(s: Sys, l: Label)
    requires PlanOf(s, l).st.SetStatus? && PlanOf(s, l).writer == ByReap
    ensures l.Go? && l.actor in s.actors && s.actors[l.actor].Reaping?
      && PlanOf(s, l) == ReaperPlan(s, l.actor, s.actors[l.actor])
  {
    hide ReaperPlan;
  }

  /** A reaper's UPDATE cannot lift the row past the floor. */
  lemma KillStaysBelowFloor(s: Sys, l: Label, id: string, live: Identity, floor: int)
    requires Guarded(s, id, live, floor)
    requires PlanOf(s, l).st.SetStatus? && PlanOf(s, l).writer == ByReap && PlanOf(s, l).st.id == id
    ensures PlanOf(s, l).st.ts <= floor
  {
    hide PlanOf;
    KillersAreReapers(s, l);
    assert Harmless(s.actors[l.actor], id, live, floor);
  }

  lemma ExecKeepsRow(db: Db, st: Statement, hostId: string, id: string, live: Identity, floor: int)
    requires Held(db, hostId, id, live, floor)
    requires st.SetIdentity? && st.id == id ==> st.identity == live
    ensures Held(Exec(db, st), hostId, id, live, floor)
    ensures NotDeadPast(db, id, floor) && (st.SetStatus? && st.id == id && st.status == Dead ==> st.ts <= floor) ==>
      NotDeadPast(Exec(db, st), id, floor)
  {
    hide LatestPrompt;
  }

  /** No step of any process lets anything dangerous in. */
  lemma GuardSurvives(s: Sys, l: Label, id: string, live: Identity, floor: int)
    requires Guarded(s, id, live, floor) && Quiet(s, l, id, live)
    ensures Guarded(Apply(s, l), id, live, floor)
  {
    hide PlanOf, Held, Exec, Harmless, Effect, NotDeadPast;
    var p, t := PlanOf(s, l), Apply(s, l);
    StepStaysHarmless(s, l, id, live, floor);
    ExecKeepsRow(s.db, p.st, s.hostId, id, live, floor);
    forall a | a in t.actors ensures Harmless(t.actors[a], id, live, floor) {
      assert a != p.actor ==> a in s.actors && t.actors[a] == s.actors[a];
    }
  }

  lemma ProtectionSurvives(s: Sys, l: Label, id: string, live: Identity, floor: int)
    requires Inv(s) && Protected(s, id, live, floor) && Quiet(s, l, id, live)
    ensures Protected(Apply(s, l), id, live, floor)
  {
    hide PlanOf, Inv, Held, Exec, Harmless, Effect, NotDeadPast;
    var p := PlanOf(s, l);
    PlanFacts(s, l);
    GuardSurvives(s, l, id, live, floor);
    if p.st.SetStatus? && p.writer == ByReap && p.st.id == id {
      KillStaysBelowFloor(s, l, id, live, floor);
    }
    ExecKeepsRow(s.db, p.st, s.hostId, id, live, floor);
  }

  lemma {:induction false} GuardHolds(s: Sys, labels: seq<Label>, id: string, live: Identity, floor: int)
    requires Guarded(s, id, live, floor) && QuietRun(s, labels, id, live)
    ensures Guarded(Run(s, labels), id, live, floor)
    decreases |labels|
  {
    hide Apply, Guarded, Quiet;
    if labels != [] {
      GuardSurvives(s, labels[0], id, live, floor);
      GuardHolds(Apply(s, labels[0]), labels[1..], id, live, floor);
    }
  }

  lemma {:induction false} ProtectionHolds(s: Sys, labels: seq<Label>, id: string, live: Identity, floor: int)
    requires Inv(s) && Protected(s, id, live, floor) && QuietRun(s, labels, id, live)
    ensures Inv(Run(s, labels)) && Protected(Run(s, labels), id, live, floor)
    ensures s.db.rows[id].lastEventAt <= Run(s, labels).db.rows[id].lastEventAt
    decreases |labels|
  {
    if labels != [] {
      ProtectionSurvives(s, labels[0], id, live, floor);
      StepKeepsInv(s, labels[0]);
      StepKeepsDatabase(s, labels[0]);
      ProtectionHolds(Apply(s, labels[0]), labels[1..], id, live, floor);
    }
  }

  /**
   Resume wins every race. The daemon is about to store the fingerprint of an
   event e for a local session, e being strictly newer than the row. Then any
   steps happen, the daemon's status write for e happens, and any more steps
   happen, any number of reapers included. As long as the process lives and no
   other fingerprint is stored, the session is not dead at any point from the
   status write on, and its time is at least e's.
   */
  lemma ResumeWinsEveryRace(s: Sys, e: StampedEvent, id: string, next: State, before: seq<Label>, after: seq<Label>)
    requires Inv(s) && DAEMON in s.actors && s.actors[DAEMON] == Refreshing(e, id)
    requires id in s.db.rows && s.db.rows[id].hostId == s.hostId
    requires s.db.rows[id].lastEventAt < e.timestamp.value
    requires Alive(s.procs, e.identity)
    requires var refreshed := Apply(s, Go(DAEMON, ""));
      var ready := Run(refreshed, before);
      && QuietRun(refreshed, before, id, e.identity)
      && DAEMON in ready.actors && ready.actors[DAEMON] == Writing(e, id, next)
      && QuietRun(ready, [Go(DAEMON, "")] + after, id, e.identity)
    ensures var end := Run(Apply(Run(Apply(s, Go(DAEMON, "")), before), Go(DAEMON, "")), after);
      && id in end.db.rows
      && end.db.rows[id].status != Dead
      && e.timestamp.value <= end.db.rows[id].lastEventAt
  {
    var floor := s.db.rows[id].lastEventAt;
    var refreshed := Apply(s, Go(DAEMON, ""));
    StepKeepsInv(s, Go(DAEMON, ""));
    RefreshProtects(s, e, id);
    ProtectionHolds(refreshed, before, id, e.identity, floor);
    StatusWriteWins(Run(refreshed, before), e, id, next, floor, after);
  }

  /**
   Such runs exist from every such state: left alone, the handler of an event
   that settles the state goes on to its status write, and disturbs nobody.
   */
  lemma HandlerReachesWrite(s: Sys, e: StampedEvent, id: string, next: State)
    requires DAEMON in s.actors && s.actors[DAEMON] == Refreshing(e, id) && Alive(s.procs, e.identity)
    requires !Resumes(e) && Settles(e) == Some(next)
    ensures var refreshed, steps := Apply(s, Go(DAEMON, "")), [Go(DAEMON, ""), Go(DAEMON, "")];
      var ready := Run(refreshed, steps);
      && QuietRun(refreshed, steps, id, e.identity)
      && ready.actors == s.actors[DAEMON := Writing(e, id, next)] && ready.procs == s.procs
      && ready.db == Exec(Exec(s.db, SetIdentity(id, e.identity)), AppendLog(Entry(id, e)))
      && QuietRun(ready, [Go(DAEMON, "")], id, e.identity)
  {
    hide Apply, Exec;
    var go := Go(DAEMON, "");
    var refreshed := Apply(s, go);
    RefreshStep(s, e, id, "");
    var appended := Apply(refreshed, go);
    AppendStep(refreshed, e, id, "");
    var ready := Apply(appended, go);
    ReadStep(appended, e, id, "");
    TransitionFacts(StatusOf(appended.db, id), e, "");
    var written := Apply(ready, go);
    WriteStep(ready, e, id, next, "");
    QuietRunOfOne(ready, go, id, e.identity);
    QuietRunOfOne(appended, go, id, e.identity);
    assert [go, go][1..] == [go];
    assert Run(refreshed, [go, go]) == Run(appended, [go]) == Run(ready, []) by {
      assert [go][1..] == [];
    }
  }

  lemma QuietRunOfOne(s: Sys, l: Label, id: string, live: Identity)
    requires Quiet(s, l, id, live)
    ensures QuietRun(s, [l], id, live)
  {
  }

  /** The second half of the race: the status write of an event newer than the floor settles it. */
  lemma StatusWriteWins(s: Sys, e: StampedEvent, id: string, next: State, floor: int, after: seq<Label>)
    requires Inv(s) && Protected(s, id, e.identity, floor) && floor < e.timestamp.value
    requires DAEMON in s.actors && s.actors[DAEMON] == Writing(e, id, next)
    requires QuietRun(s, [Go(DAEMON, "")] + after, id, e.identity)
    ensures var end := Run(Apply(s, Go(DAEMON, "")), after);
      && id in end.db.rows
      && end.db.rows[id].status != Dead
      && e.timestamp.value <= end.db.rows[id].lastEventAt
  {
    hide Apply, Inv, PlanOf;
    var written := Apply(s, Go(DAEMON, ""));
    WriteStep(s, e, id, next, "");
    assert ([Go(DAEMON, "")] + after)[1..] == after;
    StepKeepsInv(s, Go(DAEMON, ""));
    ProtectionSurvives(s, Go(DAEMON, ""), id, e.identity, floor);
    assert e.timestamp.value <= written.db.rows[id].lastEventAt;
    ProtectionHolds(written, after, id, e.identity, floor);
  }

  /** Storing the fingerprint protects the session: every snapshot in flight is no newer than the row. */
  lemma RefreshProtects(s: Sys, e: StampedEvent, id: string)
    requires Inv(s) && DAEMON in s.actors && s.actors[DAEMON] == Refreshing(e, id)
    requires id in s.db.rows && s.db.rows[id].hostId == s.hostId
    ensures Protected(Apply(s, Go(DAEMON, "")), id, e.identity, s.db.rows[id].lastEventAt)
  {
    hide Apply, CacheHolds, LegalHistory, RowsHoldLastWrite, UniqueNative, ReportIsExact, OnlyDaemonHandles;
    RefreshStep(s, e, id, "");
    forall a | a in s.actors ensures Harmless(s.actors[a], id, e.identity, s.db.rows[id].lastEventAt) {
      assert ActorOk(s, a, s.actors[a]);
    }
  }

  /** A session created for a live local process is never marked dead while that process lives. */
  lemma NewSessionIsSafe(s: Sys, e: StampedEvent, newId: string, after: seq<Label>)
    requires Inv(s) && DAEMON in s.actors && s.actors[DAEMON] == Creating(e)
    requires FreshId(s.db, newId) && e.hostId in {"", s.hostId}
    requires QuietRun(Apply(s, Go(DAEMON, newId)), after, newId, e.identity)
    ensures var end := Run(Apply(s, Go(DAEMON, newId)), after);
      newId in end.db.rows && end.db.rows[newId].status != Dead
  {
    var created := Apply(s, Go(DAEMON, newId));
    PlanFacts(s, Go(DAEMON, newId));
    StepKeepsInv(s, Go(DAEMON, newId));
    forall a | a in created.actors ensures Harmless(created.actors[a], newId, e.identity, e.timestamp.value - 1) {
      if a != DAEMON {
        assert ActorOk(s, a, s.actors[a]);
      }
    }
    ProtectionHolds(created, after, newId, e.identity, e.timestamp.value - 1);
  }

  /**
   A reaper that probed the old process before the fingerprint was stored, from a
   snapshot that still has the row's time, kills the session if the event is not
   newer than the row.
   */
  lemma SameSecondLosesRace(s: Sys, e: StampedEvent, id: string, next: State, a: nat)
    requires DAEMON in s.actors && s.actors[DAEMON] == Writing(e, id, next) && id in s.db.rows
    requires a in s.actors && AboutToKill(s.actors[a]) && s.actors[a].pending[0].id == id
    requires e.timestamp.value <= s.actors[a].pending[0].lastEventAt == s.db.rows[id].lastEventAt
    ensures var end := Apply(Apply(s, Go(DAEMON, "")), Go(a, ""));
      && id in end.db.rows && end.db.rows[id].status == Dead && end.db.rows[id].identity == s.db.rows[id].identity
      && end.procs == s.procs
  {
    hide Apply;
    WriteStep(s, e, id, next, "");
    KillStep(Apply(s, Go(DAEMON, "")), a);
  }

  // ---- exactly when a resumed session can lose ----

  /**
   A race that is lost: the daemon stores the fingerprint and later writes the
   status, the process living all along, and in the end the row is dead although
   it shows the live process.
   */
  ghost predicate LosesRace(s: Sys, e: StampedEvent, id: string, next: State, before: seq<Label>, after: seq<Label>) {
    var refreshed := Apply(s, Go(DAEMON, ""));
    var ready := Run(refreshed, before);
    && QuietRun(refreshed, before, id, e.identity)
    && DAEMON in ready.actors && ready.actors[DAEMON] == Writing(e, id, next)
    && QuietRun(ready, [Go(DAEMON, "")] + after, id, e.identity)
    && var end := Run(Apply(ready, Go(DAEMON, "")), after);
    id in end.db.rows && end.db.rows[id].status == Dead && end.db.rows[id].identity == e.identity
  }

  ghost predicate MayLose(s: Sys, e: StampedEvent, id: string, next: State) {
    exists before, after :: LosesRace(s, e, id, next, before, after)
  }

  /** A pass in flight with a snapshot of the session at time t, condemned already or of another process. */
  ghost predicate Dangerous(p: Proc, id: string, live: Identity, t: int) {
    p.Reaping? && !p.remote && exists k :: 0 <= k < |p.pending| && ThreatAt(p, k, id, live, t)
  }

  ghost predicate ThreatAt(p: Proc, k: int, id: string, live: Identity, t: int)
    requires p.Reaping? && 0 <= k < |p.pending|
  {
    p.pending[k].id == id && p.pending[k].lastEventAt == t && (p.pending[k].identity != live || (k == 0 && p.condemned))
  }

  ghost predicate Threatened(s: Sys, id: string, live: Identity, t: int) {
    exists a :: a in s.actors && Dangerous(s.actors[a], id, live, t)
  }

  lemma NoThreatIsHarmless(db: Db, hostId: string, p: Proc, id: string, live: Identity)
    requires id in db.rows && db.rows[id].hostId == hostId && SnapshotsAreOld(db, hostId, p)
    requires !Dangerous(p, id, live, db.rows[id].lastEventAt)
    ensures Harmless(p, id, live, db.rows[id].lastEventAt - 1)
  {
    if p.Reaping? {
      forall k | 0 <= k < |p.pending| && p.pending[k].id == id
        ensures !p.remote && (p.pending[k].identity == live || p.pending[k].lastEventAt < db.rows[id].lastEventAt)
        ensures k == 0 && p.condemned ==> p.pending[k].lastEventAt < db.rows[id].lastEventAt
      {
        assert !ThreatAt(p, k, id, live, db.rows[id].lastEventAt);
      }
    }
  }

  /** Without a threat the guard is tighter: it holds from just below the row's own time. */
  lemma RefreshGuards(s: Sys, e: StampedEvent, id: string)
    requires Inv(s) && DAEMON in s.actors && s.actors[DAEMON] == Refreshing(e, id)
    requires id in s.db.rows && s.db.rows[id].hostId == s.hostId
    requires !Threatened(s, id, e.identity, s.db.rows[id].lastEventAt)
    ensures Guarded(Apply(s, Go(DAEMON, "")), id, e.identity, s.db.rows[id].lastEventAt - 1)
    ensures StatusOf(Apply(s, Go(DAEMON, "")).db, id) == Some(s.db.rows[id].status)
  {
    hide Apply, Harmless, Dangerous, SnapshotsAreOld, CacheHolds, LegalHistory, RowsHoldLastWrite, UniqueNative;
    hide ReportIsExact, OnlyDaemonHandles;
    RefreshStep(s, e, id, "");
    forall a | a in s.actors ensures Harmless(s.actors[a], id, e.identity, s.db.rows[id].lastEventAt - 1) {
      assert ActorOk(s, a, s.actors[a]);
      NoThreatIsHarmless(s.db, s.hostId, s.actors[a], id, e.identity);
    }
    Appends(e, id, s.db.rows[id].lastEventAt - 1);
  }

  lemma Appends(e: StampedEvent, id: string, floor: int)
    ensures Harmless(Appending(e, id), id, e.identity, floor)
  {
  }

  /** Unthreatened, a row that is not dead stays so, whatever the event's time. */
  lemma AliveRowsNeverLose(s: Sys, e: StampedEvent, id: string, next: State, before: seq<Label>, after: seq<Label>)
    requires Inv(s) && DAEMON in s.actors && s.actors[DAEMON] == Refreshing(e, id)
    requires id in s.db.rows && s.db.rows[id].hostId == s.hostId && s.db.rows[id].status != Dead
    requires !Threatened(s, id, e.identity, s.db.rows[id].lastEventAt)
    ensures !LosesRace(s, e, id, next, before, after)
  {
    hide Apply, Inv, QuietRun, Threatened;
    if LosesRace(s, e, id, next, before, after) {
      var go, refreshed := Go(DAEMON, ""), Apply(s, Go(DAEMON, ""));
      var floor := s.db.rows[id].lastEventAt - 1;
      StepKeepsInv(s, go);
      StepKeepsDatabase(s, go);
      RefreshGuards(s, e, id);
      ProtectionHolds(refreshed, before, id, e.identity, floor);
      assert ([go] + after)[1..] == after;
      ProtectionHolds(Run(refreshed, before), [go] + after, id, e.identity, floor);
    }
  }

  /** Unthreatened, even a dead row is revived for good by an event of its own second. */
  lemma SameSecondRevives(s: Sys, e: StampedEvent, id: string, next: State, before: seq<Label>, after: seq<Label>)
    requires Inv(s) && DAEMON in s.actors && s.actors[DAEMON] == Refreshing(e, id)
    requires id in s.db.rows && s.db.rows[id].hostId == s.hostId && s.db.rows[id].lastEventAt == e.timestamp.value
    requires !Threatened(s, id, e.identity, s.db.rows[id].lastEventAt)
    ensures !LosesRace(s, e, id, next, before, after)
  {
    hide Apply, Inv, QuietRun, Threatened;
    if LosesRace(s, e, id, next, before, after) {
      var go, refreshed := Go(DAEMON, ""), Apply(s, Go(DAEMON, ""));
      var t := s.db.rows[id].lastEventAt;
      StepKeepsInv(s, go);
      RefreshGuards(s, e, id);
      RefreshProtects(s, e, id);
      GuardHolds(refreshed, before, id, e.identity, t - 1);
      ProtectionHolds(refreshed, before, id, e.identity, t);
      WriteRevives(Run(refreshed, before), e, id, next, after);
    }
  }

  lemma WriteRevives(s: Sys, e: StampedEvent, id: string, next: State, after: seq<Label>)
    requires Inv(s) && DAEMON in s.actors && s.actors[DAEMON] == Writing(e, id, next)
    requires Guarded(s, id, e.identity, e.timestamp.value - 1) && Protected(s, id, e.identity, e.timestamp.value)
    requires QuietRun(s, [Go(DAEMON, "")] + after, id, e.identity)
    ensures var end := Run(Apply(s, Go(DAEMON, "")), after);
      id in end.db.rows && end.db.rows[id].status != Dead
  {
    hide Apply, Harmless, CacheHolds, LegalHistory, RowsHoldLastWrite, UniqueNative;
    var go, written := Go(DAEMON, ""), Apply(s, Go(DAEMON, ""));
    assert ([go] + after)[1..] == after;
    assert ActorOk(s, DAEMON, s.actors[DAEMON]);
    StepKeepsInv(s, go);
    GuardSurvives(s, go, id, e.identity, e.timestamp.value - 1);
    WriteStep(s, e, id, next, "");
    assert written.db.rows[id].status != Dead;
    ProtectionHolds(written, after, id, e.identity, e.timestamp.value - 1);
  }

  /** A process table in which only one process lives. */
  function OnlyAlive(procs: ProcTable, live: Identity): ProcTable
    requires Alive(procs, live)
  {
    ProcTable(procs.bootId, map[live.pid := procs.stat[live.pid]], map[])
  }

  lemma OthersAreDead(procs: ProcTable, live: Identity, other: Identity)
    requires Alive(procs, live)
    ensures Alive(OnlyAlive(procs, live), other) <==> other == live
  {
    assert StartTime(OnlyAlive(procs, live), live.pid) == StartTime(procs, live.pid);
  }

  lemma ProcessesStep(s: Sys, procs: ProcTable)
    ensures Apply(s, Processes(procs)) == s.(procs := procs)
  {
    assert s.history + [] == s.history;
  }

  /** A pass that runs out while only the live process lives kills the row it threatens, or finds it dead. */
  lemma {:induction false} ThreatComesTrue(s: Sys, a: nat, id: string, live: Identity) returns (labels: seq<Label>)
    requires a in s.actors && s.actors[a].Reaping? && !s.actors[a].remote
    requires Alive(s.procs, live) && forall other :: Alive(s.procs, other) ==> other == live
    requires id in s.db.rows && s.db.rows[id].identity == live
    requires forall k :: 0 <= k < |s.actors[a].pending| && s.actors[a].pending[k].id == id ==>
      s.actors[a].pending[k].lastEventAt <= s.db.rows[id].lastEventAt
    requires s.db.rows[id].status == Dead || Dangerous(s.actors[a], id, live, s.db.rows[id].lastEventAt)
    ensures QuietRun(s, labels, id, live)
    ensures var end := Run(s, labels);
      id in end.db.rows && end.db.rows[id].status == Dead && end.db.rows[id].identity == live
    decreases |s.actors[a].pending|, if s.actors[a].condemned then 0 else 1
  {
    hide Apply, Alive, QuietRun, Run;
    labels := [];
    RunUnfolds(s, [], id, live);
    var p, t := s.actors[a], s.db.rows[id].lastEventAt;
    if p.pending != [] {
      var s1 := Apply(s, Go(a, ""));
      if p.condemned {
        KillStep(s, a);
        assert s1.actors[a] == Reaping(false, p.pending[1..], false, s1.actors[a].reaped, p.since);
      } else {
        ProbeStep(s, a);
      }
      if s.db.rows[id].status != Dead {
        ThreatStays(p, id, live, t, s.procs);
      }
      assert forall k :: 0 <= k < |p.pending[1..]| ==> p.pending[1..][k] == p.pending[k + 1];
      var rest := ThreatComesTrue(s1, a, id, live);
      labels := [Go(a, "")] + rest;
      RunUnfolds(s, labels, id, live);
      assert labels[1..] == rest;
      ReaperIsQuiet(s, a, id, live);
    }
  }

  lemma RunUnfolds(s: Sys, labels: seq<Label>, id: string, live: Identity)
    ensures Run(s, labels) == if labels == [] then s else Run(Apply(s, labels[0]), labels[1..])
    ensures QuietRun(s, labels, id, live)
      <==> labels == [] || (Quiet(s, labels[0], id, live) && QuietRun(Apply(s, labels[0]), labels[1..], id, live))
  {
    hide Apply, Quiet;
  }

  lemma ReaperIsQuiet(s: Sys, a: nat, id: string, live: Identity)
    requires a in s.actors && s.actors[a].Reaping? && Alive(s.procs, live)
    ensures Quiet(s, Go(a, ""), id, live)
  {
    hide Alive;
  }

  /** One statement of the pass leaves the threat in place, unless it is the threatened kill itself. */
  lemma ThreatStays(p: Proc, id: string, live: Identity, t: int, procs: ProcTable)
    requires p.Reaping? && !p.remote && p.pending != [] && Dangerous(p, id, live, t)
    requires Alive(procs, live) && forall other :: Alive(procs, other) ==> other == live
    ensures var rest := p.(pending := p.pending[1..]);
      if p.condemned then
        (p.pending[0].id == id && p.pending[0].lastEventAt == t)
        || forall reaped :: Dangerous(Reaping(false, p.pending[1..], false, reaped, p.since), id, live, t)
      else if IsProcessDead(procs, p.pending[0].identity) then Dangerous(p.(condemned := true), id, live, t)
      else Dangerous(rest, id, live, t)
  {
    hide Alive;
    var k :| 0 <= k < |p.pending| && ThreatAt(p, k, id, live, t);
    if !p.condemned && !Alive(procs, p.pending[0].identity) {
      assert ThreatAt(p.(condemned := true), k, id, live, t);
    } else if k > 0 {
      var rest := p.pending[1..];
      assert rest[k - 1] == p.pending[k];
      assert ThreatAt(p.(pending := rest), k - 1, id, live, t);
      forall reaped ensures Dangerous(Reaping(false, rest, false, reaped, p.since), id, live, t) {
        assert ThreatAt(Reaping(false, rest, false, reaped, p.since), k - 1, id, live, t);
      }
    }
  }

  /** The event is recorded and the fingerprint stored; status and time stay. */
  lemma RecordedRow(db: Db, e: StampedEvent, id: string)
    requires id in db.rows
    ensures var after := Exec(Exec(db, SetIdentity(id, e.identity)), AppendLog(Entry(id, e)));
      && id in after.rows && after.rows[id].identity == e.identity
      && after.rows[id].status == db.rows[id].status && after.rows[id].lastEventAt == db.rows[id].lastEventAt
  {
    hide LatestPrompt;
  }

  /** A dead row stays dead if the event is older than it. */
  lemma OlderEventsReviveNothing(s: Sys, e: StampedEvent, id: string, next: State)
    requires DAEMON in s.actors && s.actors[DAEMON] == Refreshing(e, id) && Alive(s.procs, e.identity)
    requires !Resumes(e) && Settles(e) == Some(next)
    requires id in s.db.rows && s.db.rows[id].status == Dead && e.timestamp.value < s.db.rows[id].lastEventAt
    ensures MayLose(s, e, id, next)
  {
    hide Apply, Alive, Transition, QuietRun;
    var go := Go(DAEMON, "");
    HandlerReachesWrite(s, e, id, next);
    RecordedRow(s.db, e, id);
    var ready := Run(Apply(s, go), [go, go]);
    WriteStep(ready, e, id, next, "");
    assert [go] + [] == [go];
    RunUnfolds(Apply(ready, go), [], id, e.identity);
    assert LosesRace(s, e, id, next, [go, go], []);
  }

  /** The race lost: the handler runs to its end, the old process goes, and the threatening pass runs out. */
  lemma ThreatsKill(s: Sys, e: StampedEvent, id: string, next: State, a: nat)
    requires Inv(s) && DAEMON in s.actors && s.actors[DAEMON] == Refreshing(e, id) && Alive(s.procs, e.identity)
    requires !Resumes(e) && Settles(e) == Some(next)
    requires id in s.db.rows && e.timestamp.value <= s.db.rows[id].lastEventAt
    requires a in s.actors && Dangerous(s.actors[a], id, e.identity, s.db.rows[id].lastEventAt)
    ensures MayLose(s, e, id, next)
  {
    hide Apply, Alive, Transition, Settles, Resumes, QuietRun, Run, OnlyAlive, Dangerous;
    hide CacheHolds, LegalHistory, RowsHoldLastWrite, UniqueNative;
    var go, live := Go(DAEMON, ""), e.identity;
    assert ActorOk(s, a, s.actors[a]) && a != DAEMON && s.actors[a].Reaping? by { ThreatsAreLocal(s, a, id, live); }
    HandlerReachesWrite(s, e, id, next);
    RecordedRow(s.db, e, id);
    var ready := Run(Apply(s, go), [go, go]);
    var written := Apply(ready, go);
    WriteStep(ready, e, id, next, "");
    assert written.actors[a] == s.actors[a];
    var alone := OnlyAlive(s.procs, live);
    forall other ensures Alive(alone, other) <==> other == live { OthersAreDead(s.procs, live, other); }
    ProcessesStep(written, alone);
    ThreatsAreLocal(s, a, id, live);
    var kills := ThreatComesTrue(Apply(written, Processes(alone)), a, id, live);
    var after := [Processes(alone)] + kills;
    assert after[1..] == kills && ([go] + after)[1..] == after && ([go] + after)[0] == go;
    RunUnfolds(written, after, id, live);
    RunUnfolds(ready, [go] + after, id, live);
    RunUnfolds(ready, [go], id, live);
    ProcessesAreQuiet(written, alone, id, live);
    assert LosesRace(s, e, id, next, [go, go], after);
  }

  lemma ThreatsAreLocal(s: Sys, a: nat, id: string, live: Identity)
    requires Inv(s) && id in s.db.rows && a in s.actors && Dangerous(s.actors[a], id, live, s.db.rows[id].lastEventAt)
    ensures ActorOk(s, a, s.actors[a]) && s.actors[a].Reaping? && !s.actors[a].remote
    ensures forall k :: 0 <= k < |s.actors[a].pending| && s.actors[a].pending[k].id == id ==>
      s.actors[a].pending[k].lastEventAt <= s.db.rows[id].lastEventAt
  {
    assert ActorOk(s, a, s.actors[a]);
  }

  lemma ProcessesAreQuiet(s: Sys, procs: ProcTable, id: string, live: Identity)
    requires Alive(s.procs, live) && Alive(procs, live)
    ensures Quiet(s, Processes(procs), id, live)
  {
    hide Alive;
  }

  /**
   The exact condition, for any local row, finished and dead ones included. The
   daemon is about to store the fingerprint of a resumed session. Some
   continuation loses the session if and only if the event is not strictly newer
   than the row and a pass in flight threatens the row at its very time, or the
   row is dead and the event is older than that.
   */
  lemma ResumeLosesExactly(s: Sys, e: StampedEvent, id: string, next: State)
    requires Inv(s) && DAEMON in s.actors && s.actors[DAEMON] == Refreshing(e, id) && Alive(s.procs, e.identity)
    requires !Resumes(e) && Settles(e) == Some(next)
    requires id in s.db.rows && s.db.rows[id].hostId == s.hostId
    ensures var row := s.db.rows[id];
      MayLose(s, e, id, next) <==>
        || (e.timestamp.value <= row.lastEventAt && Threatened(s, id, e.identity, row.lastEventAt))
        || (e.timestamp.value < row.lastEventAt && row.status == Dead)
  {
    hide LosesRace, Inv, Settles, Resumes, Dangerous;
    var row := s.db.rows[id];
    if e.timestamp.value <= row.lastEventAt && Threatened(s, id, e.identity, row.lastEventAt) {
      var a :| a in s.actors && Dangerous(s.actors[a], id, e.identity, row.lastEventAt);
      ThreatsKill(s, e, id, next, a);
    } else if e.timestamp.value < row.lastEventAt && row.status == Dead {
      OlderEventsReviveNothing(s, e, id, next);
    } else {
      forall before, after ensures !LosesRace(s, e, id, next, before, after) {
        if row.lastEventAt < e.timestamp.value {
          NewerEventsNeverLose(s, e, id, next, before, after);
        } else if row.status != Dead {
          AliveRowsNeverLose(s, e, id, next, before, after);
        } else {
          SameSecondRevives(s, e, id, next, before, after);
        }
      }
    }
  }

  lemma NewerEventsNeverLose(s: Sys, e: StampedEvent, id: string, next: State, before: seq<Label>, after: seq<Label>)
    requires Inv(s) && DAEMON in s.actors && s.actors[DAEMON] == Refreshing(e, id) && Alive(s.procs, e.identity)
    requires id in s.db.rows && s.db.rows[id].hostId == s.hostId
    requires s.db.rows[id].lastEventAt < e.timestamp.value
    ensures !LosesRace(s, e, id, next, before, after)
  {
    hide Apply, Inv, QuietRun, Run;
    if LosesRace(s, e, id, next, before, after) {
      ResumeWinsEveryRace(s, e, id, next, before, after);
    }
  }

  // ---- a row that still looks stale ----

  lemma {:induction false} HostIsFixed(s: Sys, labels: seq<Label>)
    ensures Run(s, labels).hostId == s.hostId
    decreases |labels|
  {
    hide PlanOf, Exec;
    if labels != [] {
      HostIsFixed(Apply(s, labels[0]), labels[1..]);
    }
  }

  lemma {:induction false} Above(actors: set<nat>) returns (b: nat)
    ensures forall a :: a in actors ==> a < b
  {
    b := 0;
    if actors != {} {
      var a :| a in actors;
      var c := Above(actors - {a});
      b := if a < c then c else a + 1;
      assert forall x :: x in actors ==> x in actors - {a} || x == a;
    }
  }

  /** A SELECT may return any of its rows first. */
  lemma {:induction false} OrderFrom(db: Db, ids: set<string>, id: string) returns (order: seq<Snapshot>)
    requires id in ids && ids <= db.rows.Keys
    ensures AreSnapshots(order, db, ids) && order != [] && order[0] == TakeSnapshot(db, id)
    decreases |ids|
  {
    if ids == {id} {
      OneMoreSnapshot([], db, {}, id);
      order := [] + [TakeSnapshot(db, id)];
      assert {} + {id} == ids;
    } else {
      var x :| x in ids && x != id;
      assert ids - {x} + {x} == ids;
      var earlier := OrderFrom(db, ids - {x}, id);
      OneMoreSnapshot(earlier, db, ids - {x}, x);
      order := earlier + [TakeSnapshot(db, x)];
    }
  }

  /** Steps that leave the database as it is and lead to a state from which the race may be lost. */
  ghost predicate LosesAfter(s: Sys, e: StampedEvent, id: string, next: State, pre: seq<Label>) {
    var t := Run(s, pre);
    && t.db == s.db && DAEMON in t.actors && t.actors[DAEMON] == Refreshing(e, id) && Alive(t.procs, e.identity)
    && MayLose(t, e, id, next)
  }

  /**
   A non-terminal row that shows another process may be snapshot at any moment, so
   for it the threat can always be arranged: what remains of the condition is that
   the event is not strictly newer.
   */
  lemma StaleRowLosesExactly(s: Sys, e: StampedEvent, id: string, next: State)
    requires Inv(s) && DAEMON in s.actors && s.actors[DAEMON] == Refreshing(e, id) && Alive(s.procs, e.identity)
    requires !Resumes(e) && Settles(e) == Some(next)
    requires id in LocalStale(s.db, s.hostId) && s.db.rows[id].identity != e.identity
    ensures (exists pre :: LosesAfter(s, e, id, next, pre)) <==> e.timestamp.value <= s.db.rows[id].lastEventAt
  {
    hide Inv, AreSnapshots, Settles, Resumes, Apply, MayLose, Dangerous;
    var t := s.db.rows[id].lastEventAt;
    if e.timestamp.value <= t {
      var a := Above(s.actors.Keys);
      var order := OrderFrom(s.db, LocalStale(s.db, s.hostId), id);
      var l := StartReap(a, order);
      StartReapStep(s, a, order);
      StepKeepsInv(s, l);
      var started := Apply(s, l);
      FirstIsThreat(started.actors[a], id, e.identity, t);
      assert Threatened(started, id, e.identity, t);
      ResumeLosesExactly(started, e, id, next);
      RunUnfolds(s, [l], id, e.identity);
      RunUnfolds(started, [l][1..], id, e.identity);
      assert LosesAfter(s, e, id, next, [l]);
    } else {
      forall pre ensures !LosesAfter(s, e, id, next, pre) {
        if LosesAfter(s, e, id, next, pre) {
          RunKeepsInv(s, pre);
          HostIsFixed(s, pre);
          ResumeLosesExactly(Run(s, pre), e, id, next);
        }
      }
    }
  }

  lemma FirstIsThreat(p: Proc, id: string, live: Identity, t: int)
    requires p.Reaping? && !p.remote && p.pending != []
    requires p.pending[0].id == id && p.pending[0].lastEventAt == t && p.pending[0].identity != live
    ensures Dangerous(p, id, live, t)
  {
    assert ThreatAt(p, 0, id, live, t);
  }

  // ---- without interference ----

  /** n statements of one actor in a row. */
  ghost function GoTimes(s: Sys, a: nat, newId: string, n: nat): Sys
    decreases n
  {
    if n == 0 then s else GoTimes(Apply(s, Go(a, newId)), a, newId, n - 1)
  }

  lemma GoOnce(s: Sys, a: nat, newId: string, n: nat)
    requires n > 0
    ensures GoTimes(s, a, newId, n) == GoTimes(Apply(s, Go(a, newId)), a, newId, n - 1)
    ensures GoTimes(s, a, newId, 0) == s
  {
    hide Apply;
  }

  lemma {:induction false} GoMore(s: Sys, a: nat, newId: string, n: nat, m: nat)
    ensures GoTimes(s, a, newId, n + m) == GoTimes(GoTimes(s, a, newId, n), a, newId, m)
    decreases n
  {
    hide Apply;
    if n > 0 {
      GoMore(Apply(s, Go(a, newId)), a, newId, n - 1, m);
    }
  }

  /** From its append on, the handler left alone records the event and makes the transition. */
  lemma AppendAlone(s: Sys, e: StampedEvent, id: string, newId: string) returns (n: nat)
    requires DAEMON in s.actors && s.actors[DAEMON] == Appending(e, id)
    ensures var recorded := Exec(s.db, AppendLog(Entry(id, e)));
      var t := GoTimes(s, DAEMON, newId, n);
      && n <= 3 && t.db == Exec(recorded, TransitionStatement(id, Transition(StatusOf(recorded, id), e), e))
      && DAEMON !in t.actors
  {
    hide Apply, GoTimes, Transition, StatusOf;
    var s1 := Apply(s, Go(DAEMON, newId));
    AppendStep(s, e, id, newId);
    GoOnce(s, DAEMON, newId, 3);
    GoOnce(s, DAEMON, newId, 2);
    var s2 := Apply(s1, Go(DAEMON, newId));
    ReadStep(s1, e, id, newId);
    GoOnce(s1, DAEMON, newId, 2);
    GoOnce(s1, DAEMON, newId, 1);
    GoOnce(s2, DAEMON, newId, 1);
    var next := Transition(StatusOf(s1.db, id), e);
    if next.None? {
      n := 2;
    } else {
      n := 3;
      WriteStep(s2, e, id, next.value, newId);
      GoOnce(Apply(s2, Go(DAEMON, newId)), DAEMON, newId, 1);
    }
  }

  /** Deciding what an event's session is takes one read. */
  lemma LookupAlone(s: Sys, e: StampedEvent, newId: string)
    requires DAEMON in s.actors && s.actors[DAEMON] == Resolving(e)
    ensures var existing := FindNative(s.db, e.agent, e.nativeId);
      Apply(s, Go(DAEMON, newId)) == s.(actors := s.actors[DAEMON :=
        if existing.None? then Creating(e)
        else if e.identity.pid != 0 then Refreshing(e, existing.value)
        else Appending(e, existing.value)])
  {
    assert s.history + [] == s.history;
  }

  lemma CreateStep(s: Sys, e: StampedEvent, newId: string)
    requires DAEMON in s.actors && s.actors[DAEMON] == Creating(e)
    requires FreshId(s.db, newId) && Insertable(s.db, newId, NewRow(e, s.hostId))
    ensures var t := Apply(s, Go(DAEMON, newId));
      && t.db == Exec(s.db, InsertRow(newId, NewRow(e, s.hostId))) && t.hostId == s.hostId && t.procs == s.procs
      && t.actors == s.actors[DAEMON := Appending(e, newId)]
  {
  }

  /** The handler's first one or two statements resolve an event that names no session. */
  lemma ResolveAlone(s: Sys, e: StampedEvent, newId: string) returns (k: nat)
    requires DAEMON in s.actors && s.actors[DAEMON] == Resolving(e) && FreshId(s.db, newId) && e.sessionId == ""
    ensures var t := GoTimes(s, DAEMON, newId, k);
      && k <= 2 && t.db == Exec(s.db, ResolveStatement(s.db, e, newId, s.hostId))
      && DAEMON in t.actors && t.actors[DAEMON] == Appending(e, ResolvedId(s.db, e, newId))
  {
    hide Apply, FreshId, GoTimes;
    var t := Apply(s, Go(DAEMON, newId));
    LookupAlone(s, e, newId);
    GoOnce(s, DAEMON, newId, 1);
    GoOnce(t, DAEMON, newId, 1);
    k := 1;
    if t.actors[DAEMON].Creating? {
      NewIdIsUnused(s.db, newId);
      CreateStep(t, e, newId);
      k := 2;
    } else if t.actors[DAEMON].Refreshing? {
      RefreshStep(t, e, t.actors[DAEMON].id, newId);
      k := 2;
    }
    if k == 2 {
      GoOnce(s, DAEMON, newId, 2);
      GoOnce(Apply(t, Go(DAEMON, newId)), DAEMON, newId, 1);
    }
  }

  lemma NewIdIsUnused(db: Db, id: string)
    requires FreshId(db, id)
    ensures id !in db.rows
  {
  }

  lemma ReceiveStep(s: Sys, e: StampedEvent)
    requires DAEMON !in s.actors
    ensures Apply(s, Receive(e))
      == s.(actors := s.actors[DAEMON := if e.sessionId != "" then Appending(e, e.sessionId) else Resolving(e)])
  {
    assert s.history + [] == s.history;
  }

  /** Left alone, the daemon's statements for an event amount to one call of handle. */
  lemma HandleAlone(s: Sys, e: StampedEvent, newId: string) returns (n: nat)
    requires DAEMON !in s.actors && FreshId(s.db, newId)
    ensures var t := GoTimes(Apply(s, Receive(e)), DAEMON, newId, n);
      n <= 5 && t.db == HandleDb(s.db, e, newId, s.hostId) && DAEMON !in t.actors
  {
    hide Apply, Exec, FreshId, GoTimes, FindNative, HandleDb;
    var received := Apply(s, Receive(e));
    ReceiveStep(s, e);
    var k: nat := 0;
    if e.sessionId == "" {
      k := ResolveAlone(received, e, newId);
    } else {
      GoOnce(received, DAEMON, newId, 1);
      SelectIsSilent(s.db);
    }
    var m := AppendAlone(GoTimes(received, DAEMON, newId, k), e, ResolvedId(s.db, e, newId), newId);
    GoMore(received, DAEMON, newId, k, m);
    n := k + m;
    HandleDbUnfolds(s.db, e, newId, s.hostId);
  }

  lemma SelectIsSilent(db: Db)
    ensures Exec(db, Select) == db
  {
  }

  lemma HandleDbUnfolds(db: Db, e: StampedEvent, newId: string, hostId: string)
    ensures var id := ResolvedId(db, e, newId);
      var recorded := Exec(Exec(db, ResolveStatement(db, e, newId, hostId)), AppendLog(Entry(id, e)));
      HandleDb(db, e, newId, hostId)
        == Exec(recorded, TransitionStatement(id, Transition(StatusOf(recorded, id), e), e))
  {
  }

  // ---- sm mark ----

  lemma MarkStep(s: Sys, a: nat, id: string, arg: string, now: int)
    requires a in s.actors && s.actors[a] == Marking(id, arg, now) && id in s.db.rows
    ensures var t, state := Apply(s, Go(a, "")), ParseState(arg);
      if state.Some? && s.db.rows[id].lastEventAt <= now
      then t.db == Exec(s.db, SetStatus(id, state.value, now)) && t.actors == s.actors[a := Noting(id, arg, now)]
      else t.db == s.db && t.actors == s.actors - {a}
  {
    hide ParseState;
  }

  lemma NoteStep(s: Sys, a: nat, id: string, arg: string, now: int)
    requires a in s.actors && s.actors[a] == Noting(id, arg, now)
    ensures var t := Apply(s, Go(a, ""));
      && t.db == Exec(s.db, AppendLog(LogEntry(id, now, Note, map["manual_state" := Text(arg)])))
      && t.actors == s.actors - {a}
  {
  }

  /**
   What a mark does when nothing interferes: if its argument is the word of a state
   other than dead and the row is not newer, the row gets that state and the time
   of the mark, and a note of it is logged; else nothing happens at all.
   */
  lemma MarkAlone(s: Sys, a: nat, id: string, arg: string, now: int) returns (n: nat)
    requires a != DAEMON && a !in s.actors && id in s.db.rows
    ensures var t, row := GoTimes(Apply(s, StartMark(a, id, arg, now)), a, "", n), s.db.rows[id];
      && t.actors == s.actors
      && (forall state :: state != Dead && arg == Spelling(state) && row.lastEventAt <= now ==>
            && t.db.log == s.db.log + [LogEntry(id, now, Note, map["manual_state" := Text(arg)])]
            && t.db.rows == s.db.rows[id := row.(status := state, lastEventAt := now)])
      && ((row.lastEventAt > now || forall state :: state != Dead ==> arg != Spelling(state)) ==> t.db == s.db)
  {
    hide Apply, GoTimes, ParseState, Spelling, LatestPrompt;
    var marking := Apply(s, StartMark(a, id, arg, now));
    StartMarkStep(s, a, id, arg, now);
    MarkStep(marking, a, id, arg, now);
    forall state ensures ParseState(arg) == Some(state) <==> state != Dead && arg == Spelling(state) {
      ParseStateSpelling(arg, state);
    }
    var marked := Apply(marking, Go(a, ""));
    GoOnce(marking, a, "", 1);
    GoOnce(marked, a, "", 1);
    n := 1;
    if a in marked.actors {
      NoteStep(marked, a, id, arg, now);
      GoOnce(marking, a, "", 2);
      GoOnce(Apply(marked, Go(a, "")), a, "", 1);
      n := 2;
    }
  }

  lemma StartMarkStep(s: Sys, a: nat, id: string, arg: string, now: int)
    requires a != DAEMON && a !in s.actors && id in s.db.rows
    ensures Apply(s, StartMark(a, id, arg, now)) == s.(actors := s.actors[a := Marking(id, arg, now)])
  {
    assert s.history + [] == s.history;
  }

  // ---- one thing at a time ----

  /**
   An actor that is busy starts nothing else: the daemon's mutex holds up events
   and sweeps, and a process runs one command. An unknown session is not marked. A
   process that is killed leaves the database as its last statement left it.
   */
  lemma BusyActorsStartNothing(s: Sys, a: nat, e: StampedEvent, order: seq<Snapshot>, id: string, arg: string, now: int)
    requires a in s.actors
    ensures DAEMON in s.actors ==> Apply(s, Receive(e)) == s
    ensures Apply(s, StartReap(a, order)) == s && Apply(s, StartMark(a, id, arg, now)) == s
    ensures !s.actors[a].BetweenPasses? ==> Apply(s, StartRemote(a, order, now)) == s
    ensures id !in s.db.rows ==> forall b :: Apply(s, StartMark(b, id, arg, now)) == s
    ensures Apply(s, Kill(a)) == s.(actors := s.actors - {a})
  {
    hide AreSnapshots;
    assert s.history + [] == s.history;
    assert s.actors[a := s.actors[a]] == s.actors;
    assert DAEMON in s.actors ==> s.actors[DAEMON := s.actors[DAEMON]] == s.actors;
    forall b | id !in s.db.rows ensures Apply(s, StartMark(b, id, arg, now)) == s {
      assert if b in s.actors then s.actors[b := s.actors[b]] == s.actors else s.actors - {b} == s.actors;
    }
  }

  // ---- failing statements ----

  /**
   A failed statement changes nothing in the database. The handler gives up if it
   cannot resolve the event or write the status; it goes on without the log entry
   if it cannot append, and takes the state for unknown if it cannot read it. Of a
   failed local pass a CLI process goes on to the remote one with what it has
   reaped; the daemon gives up the sweep.
   */
  lemma FailedStatement(s: Sys, a: nat)
    requires a in s.actors
    ensures var p, t := s.actors[a], Apply(s, FailStatement(a));
      && t.db == s.db && t.history == s.history && t.actors - {a} == s.actors - {a}
      && (p.Resolving? || p.Refreshing? || p.Creating? || p.Writing? ==> a !in t.actors)
      && (p.Appending? ==> a in t.actors && t.actors[a] == Reading(p.e, p.id))
      && (p.Reading? && (Resumes(p.e) || Neutral(p.e)) ==> a !in t.actors)
      && (p.Reading? && !Resumes(p.e) && !Neutral(p.e) ==>
            a in t.actors && t.actors[a] == Writing(p.e, p.id, Settles(p.e).value))
      && (p.Reaping? && (p.remote || a == DAEMON) ==> a !in t.actors)
      && (p.Reaping? && !p.remote && a != DAEMON ==> a in t.actors && t.actors[a] == BetweenPasses(p.reaped, p.since))
      && (p.Marking? || p.Noting? ==> a !in t.actors)
  {
    assert s.history + [] == s.history;
    if s.actors[a].Reading? {
      TransitionFacts(None, s.actors[a].e, "");
    }
  }

  /** So an event that cannot be logged still has its effect on the status. */
  lemma UnloggedEventStillCounts(s: Sys, e: StampedEvent, id: string, newId: string) returns (n: nat)
    requires DAEMON in s.actors && s.actors[DAEMON] == Appending(e, id)
    ensures var t := GoTimes(Apply(s, FailStatement(DAEMON)), DAEMON, newId, n);
      && n <= 2 && DAEMON !in t.actors
      && t.db == Exec(s.db, TransitionStatement(id, Transition(StatusOf(s.db, id), e), e))
  {
    hide Apply, GoTimes, Transition, StatusOf;
    var reading := Apply(s, FailStatement(DAEMON));
    SkippedAppend(s, e, id);
    ReadStep(reading, e, id, newId);
    var read := Apply(reading, Go(DAEMON, newId));
    GoOnce(reading, DAEMON, newId, 1);
    GoOnce(read, DAEMON, newId, 1);
    n := 1;
    var next := Transition(StatusOf(s.db, id), e);
    if next.Some? {
      n := 2;
      WriteStep(read, e, id, next.value, newId);
      GoOnce(reading, DAEMON, newId, 2);
      GoOnce(Apply(read, Go(DAEMON, newId)), DAEMON, newId, 1);
    }
  }

  lemma SkippedAppend(s: Sys, e: StampedEvent, id: string)
    requires DAEMON in s.actors && s.actors[DAEMON] == Appending(e, id)
    ensures Apply(s, FailStatement(DAEMON)) == s.(actors := s.actors[DAEMON := Reading(e, id)])
  {
    assert s.history + [] == s.history;
  }

  // ---- a pass without interference ----

  /** The snapshots a pass will kill: all of a remote pass, those whose process is gone of a local one. */
  function Doomed(remote: bool, procs: ProcTable, pending: seq<Snapshot>): seq<Snapshot> {
    if pending == [] then []
    else
      var first := if remote || IsProcessDead(procs, pending[0].identity) then [pending[0]] else [];
      first + Doomed(remote, procs, pending[1..])
  }

  lemma {:induction false} DoomedIds(remote: bool, procs: ProcTable, pending: seq<Snapshot>)
    ensures Ids(Doomed(remote, procs, pending)) == if remote then Ids(pending) else DeadOf(pending, procs)
    ensures remote ==> Doomed(remote, procs, pending) == pending
  {
    hide IsProcessDead;
    if pending != [] {
      var head, rest := pending[0], pending[1..];
      DoomedIds(remote, procs, rest);
      assert pending == [head] + rest;
      assert forall x :: x in pending <==> x == head || x in rest;
      var first := if remote || IsProcessDead(procs, head.identity) then [head] else [];
      assert Doomed(remote, procs, pending) == first + Doomed(remote, procs, rest);
      IdsConcat(first, Doomed(remote, procs, rest));
      assert Ids(first) == if first == [] then {} else {head.id};
    }
  }

  lemma IdsConcat(a: seq<Snapshot>, b: seq<Snapshot>)
    ensures Ids(a + b) == Ids(a) + Ids(b)
  {
    assert forall x :: x in a + b <==> x in a || x in b;
  }

  lemma RestOfSnapshots(db: Db, pending: seq<Snapshot>, ids: set<string>, killed: set<string>)
    requires pending != [] && AreSnapshots(pending, db, ids) && killed <= {pending[0].id}
    ensures AreSnapshots(pending[1..], MarkDead(db, killed), ids - {pending[0].id})
  {
    var head, rest := pending[0], pending[1..];
    assert pending == [head] + rest;
    assert forall k :: 0 <= k < |rest| ==> rest[k] == pending[k + 1];
    assert forall x :: x in pending <==> x == head || x in rest;
    forall id ensures id in Ids(rest) <==> id in ids && id != head.id {
      assert id in ids <==> exists x :: x in pending && x.id == id;
    }
  }

  /** A row as its snapshot shows it accepts the snapshot's kill. */
  lemma KillOfSnapshot(db: Db, pending: seq<Snapshot>, ids: set<string>)
    requires pending != [] && AreSnapshots(pending, db, ids)
    ensures var head := pending[0];
      Recent(db, head.id, head.lastEventAt)
      && Exec(db, SetStatus(head.id, Dead, head.lastEventAt)) == MarkDead(db, {head.id})
  {
    var head := pending[0];
    MarkDeadOneMore(db, {}, head.id);
    MarkDeadTwice(db, {}, {});
    assert {} + {head.id} == {head.id};
  }

  /** What one snapshot costs: a probe, an UPDATE, or both. */
  lemma HeadAlone(s: Sys, a: nat, ids: set<string>) returns (k: nat, first: seq<Snapshot>)
    requires a in s.actors && s.actors[a].Reaping? && !s.actors[a].condemned && s.actors[a].pending != []
    requires AreSnapshots(s.actors[a].pending, s.db, ids)
    ensures var p, t := s.actors[a], GoTimes(s, a, "", k);
      var doomed := p.remote || IsProcessDead(s.procs, p.pending[0].identity);
      && first == (if doomed then [p.pending[0]] else [])
      && t.db == MarkDead(s.db, Ids(first)) && t.procs == s.procs && t.hostId == s.hostId
      && t.actors == s.actors[a := p.(pending := p.pending[1..], reaped := p.reaped + first)]
  {
    hide Apply, AreSnapshots, MarkDead, IsProcessDead, GoTimes;
    var p := s.actors[a];
    var s1 := Apply(s, Go(a, ""));
    GoOnce(s, a, "", 1);
    GoOnce(s1, a, "", 1);
    KillOfSnapshot(s.db, p.pending, ids);
    MarkDeadTwice(s.db, {}, {});
    assert Ids([p.pending[0]]) == {p.pending[0].id} && Ids([]) == {};
    assert p.reaped + [] == p.reaped;
    if p.remote {
      KillStep(s, a);
      k, first := 1, [p.pending[0]];
    } else {
      ProbeStep(s, a);
      if IsProcessDead(s.procs, p.pending[0].identity) {
        KillStep(s1, a);
        GoOnce(s, a, "", 2);
        GoOnce(Apply(s1, Go(a, "")), a, "", 1);
        k, first := 2, [p.pending[0]];
      } else {
        k, first := 1, [];
      }
    }
  }

  /** Left alone, a pass kills and will report exactly its doomed snapshots, in order. */
  lemma {:induction false} PassAlone(s: Sys, a: nat, ids: set<string>) returns (n: nat)
    requires a in s.actors && s.actors[a].Reaping? && !s.actors[a].condemned
    requires AreSnapshots(s.actors[a].pending, s.db, ids)
    ensures var p, t := s.actors[a], GoTimes(s, a, "", n);
      var doomed := Doomed(p.remote, s.procs, p.pending);
      && t.db == MarkDead(s.db, Ids(doomed)) && t.procs == s.procs && t.hostId == s.hostId
      && t.actors == s.actors[a := p.(pending := [], reaped := p.reaped + doomed)]
    decreases |s.actors[a].pending|
  {
    hide Apply, AreSnapshots, MarkDead, IsProcessDead, Ids, GoTimes;
    var p := s.actors[a];
    if p.pending == [] {
      n := 0;
      GoOnce(s, a, "", 1);
      NoIds();
      MarkDeadTwice(s.db, {}, {});
      assert p.reaped + [] == p.reaped;
    } else {
      var rest := p.pending[1..];
      var k, first := HeadAlone(s, a, ids);
      var t := GoTimes(s, a, "", k);
      FewIds(first, p.pending[0]);
      RestOfSnapshots(s.db, p.pending, ids, Ids(first));
      var m := PassAlone(t, a, ids - {p.pending[0].id});
      n := k + m;
      GoMore(s, a, "", k, m);
      var later := Doomed(p.remote, s.procs, rest);
      IdsConcat(first, later);
      MarkDeadTwice(s.db, Ids(first), Ids(later));
      assert p.reaped + first + later == p.reaped + (first + later);
    }
  }

  lemma NoIds()
    ensures Ids([]) == {}
  {
  }

  lemma FewIds(first: seq<Snapshot>, head: Snapshot)
    requires first == [] || first == [head]
    ensures Ids(first) <= {head.id}
  {
  }

  /**
   Left alone, a local pass kills and reports exactly the rows of its snapshot
   whose process is gone when it probes them.
   */
  lemma LocalPassAlone(s: Sys, a: nat, order: seq<Snapshot>) returns (n: nat)
    requires a !in s.actors && AreSnapshots(order, s.db, LocalStale(s.db, s.hostId))
    ensures var t := GoTimes(Apply(s, StartReap(a, order)), a, "", n);
      && t.db == MarkDead(s.db, DeadLocal(s.db, s.hostId, s.procs)) && t.procs == s.procs && t.hostId == s.hostId
      && t.actors == s.actors[a := BetweenPasses(Doomed(false, s.procs, order), |s.history|)]
  {
    hide Apply, AreSnapshots, MarkDead, IsProcessDead, Ids, GoTimes, LocalStale;
    var started := Apply(s, StartReap(a, order));
    StartReapStep(s, a, order);
    var m := PassAlone(started, a, LocalStale(s.db, s.hostId));
    var passed := GoTimes(started, a, "", m);
    EndOfPassStep(passed, a);
    GoMore(started, a, "", m, 1);
    GoOnce(passed, a, "", 1);
    GoOnce(Apply(passed, Go(a, "")), a, "", 1);
    n := m + 1;
    DoomedIds(false, s.procs, order);
    DeadOfStale(s.db, s.hostId, s.procs, order);
    assert [] + Doomed(false, s.procs, order) == Doomed(false, s.procs, order);
  }

  lemma DeadOfStale(db: Db, hostId: string, procs: ProcTable, order: seq<Snapshot>)
    requires AreSnapshots(order, db, LocalStale(db, hostId))
    ensures DeadOf(order, procs) == DeadLocal(db, hostId, procs)
  {
    hide IsProcessDead, LocalStale;
    forall id ensures id in DeadOf(order, procs) <==> id in DeadLocal(db, hostId, procs) {
      assert id in Ids(order) <==> exists x :: x in order && x.id == id;
    }
  }

  /** Left alone, a remote pass kills and reports exactly the rows silent past the cutoff. */
  lemma RemotePassAlone(s: Sys, a: nat, order: seq<Snapshot>, cutoff: int) returns (n: nat)
    requires a in s.actors && s.actors[a].BetweenPasses?
    requires AreSnapshots(order, s.db, RemoteStale(s.db, s.hostId, cutoff))
    ensures var t := GoTimes(Apply(s, StartRemote(a, order, cutoff)), a, "", n);
      && t.db == MarkDead(s.db, RemoteStale(s.db, s.hostId, cutoff)) && t.procs == s.procs && t.hostId == s.hostId
      && t.actors == s.actors[a := Reaping(true, [], false, s.actors[a].reaped + order, s.actors[a].since)]
  {
    hide Apply, AreSnapshots, MarkDead, IsProcessDead, Ids, GoTimes, RemoteStale;
    StartRemoteStep(s, a, order, cutoff);
    n := PassAlone(Apply(s, StartRemote(a, order, cutoff)), a, RemoteStale(s.db, s.hostId, cutoff));
    DoomedIds(true, s.procs, order);
    IdsOf(order, s.db, RemoteStale(s.db, s.hostId, cutoff));
  }

  lemma IdsOf(order: seq<Snapshot>, db: Db, ids: set<string>)
    requires AreSnapshots(order, db, ids)
    ensures Ids(order) == ids
  {
  }

  /**
   Left alone, the two passes of any actor amount to one call of sweep: the
   database is the specified one, what will be reported is the dead local
   snapshots and then the remote ones, and one more statement ends the actor.
   */
  lemma SweepAlone(s: Sys, a: nat, local: seq<Snapshot>, remote: seq<Snapshot>, cutoff: int) returns (n: nat, m: nat)
    requires a !in s.actors && AreSnapshots(local, s.db, LocalStale(s.db, s.hostId))
    requires var between := MarkDead(s.db, DeadLocal(s.db, s.hostId, s.procs));
      AreSnapshots(remote, between, RemoteStale(between, s.hostId, cutoff))
    ensures var t := GoTimes(Apply(s, StartReap(a, local)), a, "", n);
      a in t.actors && t.actors[a].BetweenPasses?
    ensures var t := GoTimes(Apply(s, StartReap(a, local)), a, "", n);
      var u := GoTimes(Apply(t, StartRemote(a, remote, cutoff)), a, "", m);
      && u.db == Sweep(s.db, s.hostId, s.procs, cutoff)
      && u.actors == s.actors[a := Reaping(true, [], false, Doomed(false, s.procs, local) + remote, |s.history|)]
      && Apply(u, Go(a, "")) == u.(actors := s.actors)
  {
    hide Apply, AreSnapshots, MarkDead, IsProcessDead, Ids, GoTimes, LocalStale, RemoteStale, DeadLocal;
    n := LocalPassAlone(s, a, local);
    var t := GoTimes(Apply(s, StartReap(a, local)), a, "", n);
    m := RemotePassAlone(t, a, remote, cutoff);
    var u := GoTimes(Apply(t, StartRemote(a, remote, cutoff)), a, "", m);
    EndOfPassStep(u, a);
    assert u.actors - {a} == s.actors;
  }
}
