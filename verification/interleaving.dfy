/**
 Every process that writes the database, interleaved statement by statement.

 The daemon is actor 0: its mutex lets it run one handle or one sweep at a time
 (internal/daemon/daemon.go). Every other actor is a CLI process: `sm ls` and
 `sm status` reap, `sm mark` sets a state by hand (internal/cli/cli.go). Between
 any two statements of one actor, any other may run; a statement may fail, a
 process may be killed, and processes come and go under the reapers' probes.

 A step is a function of its label, so a run is a sequence of labels. The
 history records every write to a row's status that took effect.
 */
module Interleaving {
  import opened Wrappers
  import opened Session
  import opened Liveness
  import opened Database
  import opened Handling
  import opened Reaping

  datatype Proc =
    // handle, before the statement each is named after
    | Resolving(e: StampedEvent)
    | Refreshing(e: StampedEvent, id: string)
    | Creating(e: StampedEvent)
    | Appending(e: StampedEvent, id: string)
    | Reading(e: StampedEvent, id: string)
    | Writing(e: StampedEvent, id: string, next: State)
    // a reap pass over a snapshot; `condemned` once the head was probed and found dead
    | Reaping(remote: bool, pending: seq<Snapshot>, condemned: bool, reaped: seq<Snapshot>, since: nat)
    | BetweenPasses(reaped: seq<Snapshot>, since: nat)
    // sm mark, before its UPDATE and before its note
    | Marking(id: string, arg: string, now: int)
    | Noting(id: string, arg: string, now: int)

  datatype Writer = ByEvent | ByMark | ByReap

  datatype Write = Write(actor: nat, writer: Writer, id: string, status: State, ts: int)

  datatype Sys = Sys(db: Db, history: seq<Write>, actors: map<nat, Proc>, procs: ProcTable, hostId: string)

  datatype Label =
    | Receive(e: StampedEvent)
    | StartReap(actor: nat, order: seq<Snapshot>)
    | StartRemote(actor: nat, order: seq<Snapshot>, cutoff: int)
    | StartMark(actor: nat, id: string, arg: string, now: int)
    | Go(actor: nat, newId: string)
    | FailStatement(actor: nat)
    | Kill(actor: nat)
    | Processes(procs: ProcTable)

  const DAEMON: nat := 0

  /** What a step does: one statement, and what its actor does next. */
  datatype Plan = Plan(st: Statement, writer: Writer, actor: nat, next: Option<Proc>)

  function Current(s: Sys, a: nat): Option<Proc> {
    if a in s.actors then Some(s.actors[a]) else None
  }

  function Stay(s: Sys, a: nat): Plan {
    Plan(Select, ByEvent, a, Current(s, a))
  }

  ghost function HandlerPlan(s: Sys, a: nat, p: Proc, newId: string): Plan
    requires p.Resolving? || p.Refreshing? || p.Creating? || p.Appending? || p.Reading? || p.Writing?
  {
    match p
    case Resolving(e) =>
      var existing := FindNative(s.db, e.agent, e.nativeId);
      Plan(Select, ByEvent, a, Some(
        if existing.None? then Creating(e)
        else if e.identity.pid != 0 then Refreshing(e, existing.value)
        else Appending(e, existing.value)))
    case Refreshing(e, id) => Plan(SetIdentity(id, e.identity), ByEvent, a, Some(Appending(e, id)))
    case Creating(e) =>
      if !FreshId(s.db, newId) then Stay(s, a)
      else
        var row := NewRow(e, s.hostId);
        Plan(InsertRow(newId, row), ByEvent, a,
             if Insertable(s.db, newId, row) then Some(Appending(e, newId)) else None)
    case Appending(e, id) => Plan(AppendLog(Entry(id, e)), ByEvent, a, Some(Reading(e, id)))
    case Reading(e, id) => Plan(Select, ByEvent, a, Decide(e, id, StatusOf(s.db, id)))
    case Writing(e, id, next) => Plan(SetStatus(id, next, e.timestamp.value), ByEvent, a, None)
  }

  function Decide(e: StampedEvent, id: string, cur: Option<State>): Option<Proc> {
    var next := Transition(cur, e);
    if next.Some? then Some(Writing(e, id, next.value)) else None
  }

  function ReaperPlan(s: Sys, a: nat, p: Proc): Plan
    requires p.Reaping?
  {
    if p.pending == [] then Plan(Select, ByReap, a, if p.remote then None else Some(BetweenPasses(p.reaped, p.since)))
    else
      var head, rest := p.pending[0], p.pending[1..];
      if !p.remote && !p.condemned then
        Plan(Select, ByReap, a, Some(
          if IsProcessDead(s.procs, head.identity) then p.(condemned := true) else p.(pending := rest)))
      else
        Plan(SetStatus(head.id, Dead, head.lastEventAt), ByReap, a, Some(
          p.(pending := rest, condemned := false,
             reaped := if Recent(s.db, head.id, head.lastEventAt) then p.reaped + [head] else p.reaped)))
  }

  ghost function GoPlan(s: Sys, a: nat, newId: string): Plan {
    if a !in s.actors then Stay(s, a)
    else match s.actors[a]
      case Reaping(_, _, _, _, _) => ReaperPlan(s, a, s.actors[a])
      case BetweenPasses(_, _) => Stay(s, a)
      case Marking(id, arg, now) =>
        if ParseState(arg).None? then Plan(Select, ByMark, a, None)
        else Plan(SetStatus(id, ParseState(arg).value, now), ByMark, a,
                  if Recent(s.db, id, now) then Some(Noting(id, arg, now)) else None)
      case Noting(id, arg, now) =>
        Plan(AppendLog(LogEntry(id, now, Note, map["manual_state" := Text(arg)])), ByMark, a, None)
      case _ => HandlerPlan(s, a, s.actors[a], newId)
  }

  /**
   An error: handle carries on after a failed append or read, the CLI after a
   failed local pass; anything else gives up.
   */
  function FailPlan(s: Sys, a: nat): Plan {
    if a !in s.actors then Stay(s, a)
    else match s.actors[a]
      case Appending(e, id) => Plan(Select, ByEvent, a, Some(Reading(e, id)))
      case Reading(e, id) => Plan(Select, ByEvent, a, Decide(e, id, None))
      case Reaping(remote, _, _, reaped, since) =>
        Plan(Select, ByReap, a, if !remote && a != DAEMON then Some(BetweenPasses(reaped, since)) else None)
      case _ => Plan(Select, ByEvent, a, None)
  }

  ghost function PlanOf(s: Sys, l: Label): Plan {
    match l
    case Receive(e) =>
      if DAEMON in s.actors then Stay(s, DAEMON)
      else Plan(Select, ByEvent, DAEMON, Some(if e.sessionId != "" then Appending(e, e.sessionId) else Resolving(e)))
    case StartReap(a, order) =>
      if a in s.actors || !AreSnapshots(order, s.db, LocalStale(s.db, s.hostId)) then Stay(s, a)
      else Plan(Select, ByReap, a, Some(Reaping(false, order, false, [], |s.history|)))
    case StartRemote(a, order, cutoff) =>
      if a !in s.actors || !s.actors[a].BetweenPasses?
         || !AreSnapshots(order, s.db, RemoteStale(s.db, s.hostId, cutoff)) then Stay(s, a)
      else Plan(Select, ByReap, a, Some(Reaping(true, order, false, s.actors[a].reaped, s.actors[a].since)))
    case StartMark(a, id, arg, now) =>
      if a == DAEMON || a in s.actors || id !in s.db.rows then Stay(s, a)
      else Plan(Select, ByMark, a, Some(Marking(id, arg, now)))
    case Go(a, newId) => GoPlan(s, a, newId)
    case FailStatement(a) => FailPlan(s, a)
    case Kill(a) => Plan(Select, ByEvent, a, None)
    case Processes(_) => Stay(s, DAEMON)
  }

  /** The status write a statement makes, if it takes effect. */
  ghost function Effect(db: Db, p: Plan): seq<Write> {
    match p.st
    case SetStatus(id, status, ts) => if Recent(db, id, ts) then [Write(p.actor, p.writer, id, status, ts)] else []
    case InsertRow(id, row) =>
      if Insertable(db, id, row) then [Write(p.actor, p.writer, id, row.status, row.lastEventAt)] else []
    case _ => []
  }

  ghost function Apply(s: Sys, l: Label): Sys {
    var p := PlanOf(s, l);
    Sys(
      Exec(s.db, p.st),
      s.history + Effect(s.db, p),
      if p.next.Some? then s.actors[p.actor := p.next.value] else s.actors - {p.actor},
      if l.Processes? then l.procs else s.procs,
      s.hostId)
  }

  ghost function Run(s: Sys, labels: seq<Label>): Sys
    decreases |labels|
  {
    if labels == [] then s else Run(Apply(s, labels[0]), labels[1..])
  }

  /** No process has the database open yet. */
  function Init(db: Db, history: seq<Write>, procs: ProcTable, hostId: string): Sys {
    Sys(db, history, map[], procs, hostId)
  }

  // ---- what every reachable state satisfies ----

  /** The last accepted write to a row's status. */
  function LastWrite(history: seq<Write>, id: string): Option<Write> {
    if history == [] then None
    else if history[|history| - 1].id == id then Some(history[|history| - 1])
    else LastWrite(history[..|history| - 1], id)
  }

  /** Each row holds its last accepted write. */
  ghost predicate RowsHoldLastWrite(db: Db, history: seq<Write>) {
    forall id :: if id in db.rows
      then LastWrite(history, id).Some?
        && LastWrite(history, id).value.status == db.rows[id].status
        && LastWrite(history, id).value.ts == db.rows[id].lastEventAt
      else LastWrite(history, id) == None
  }

  /** Accepted writes to one row never go back in time. */
  ghost predicate TimesNeverDecrease(history: seq<Write>) {
    forall i, j :: 0 <= i < j < |history| && history[i].id == history[j].id ==> history[i].ts <= history[j].ts
  }

  /** Only reapers write `dead`, and they write nothing else. */
  ghost predicate OnlyReapersKill(history: seq<Write>) {
    forall w :: w in history ==> (w.status == Dead <==> w.writer == ByReap)
  }

  /** An accepted reap keeps the time of the write it overrides. */
  ghost predicate ReapsKeepTime(history: seq<Write>) {
    forall i :: 0 <= i < |history| && history[i].writer == ByReap ==>
      LastWrite(history[..i], history[i].id).Some? && LastWrite(history[..i], history[i].id).value.ts == history[i].ts
  }

  /** No snapshot is newer than its row, and each pass holds rows of the right hosts only. */
  ghost predicate SnapshotsAreOld(db: Db, hostId: string, p: Proc) {
    p.Reaping? ==> forall k :: 0 <= k < |p.pending| ==>
      && p.pending[k].id in db.rows
      && p.pending[k].lastEventAt <= db.rows[p.pending[k].id].lastEventAt
      && (p.remote <==> db.rows[p.pending[k].id].hostId != hostId)
  }

  /** The ids an actor's reap writes changed, in order. */
  function ReapWrites(history: seq<Write>, actor: nat): seq<string> {
    if history == [] then []
    else
      var w := history[|history| - 1];
      var earlier := ReapWrites(history[..|history| - 1], actor);
      if w.actor == actor && w.writer == ByReap then earlier + [w.id] else earlier
  }

  function IdList(snapshots: seq<Snapshot>): seq<string> {
    if snapshots == [] then [] else IdList(snapshots[..|snapshots| - 1]) + [snapshots[|snapshots| - 1].id]
  }

  /** What a reaper will report is exactly the list of rows its own updates changed. */
  ghost predicate ReportIsExact(history: seq<Write>, a: nat, p: Proc) {
    p.Reaping? || p.BetweenPasses? ==> p.since <= |history| && ReapWrites(history[p.since..], a) == IdList(p.reaped)
  }

  predicate IsHandler(p: Proc) {
    p.Resolving? || p.Refreshing? || p.Creating? || p.Appending? || p.Reading? || p.Writing?
  }

  /** Only the daemon handles events, and when it is about to create a session no row has the event's key. */
  ghost predicate OnlyDaemonHandles(db: Db, a: nat, p: Proc) {
    IsHandler(p) ==>
      && a == DAEMON
      && (p.Writing? ==> p.next != Dead)
      && (p.Creating? && p.e.nativeId != "" ==> forall id :: !Owns(db, id, p.e.agent, p.e.nativeId))
  }

  ghost predicate ActorOk(s: Sys, a: nat, p: Proc) {
    SnapshotsAreOld(s.db, s.hostId, p) && ReportIsExact(s.history, a, p) && OnlyDaemonHandles(s.db, a, p)
  }

  ghost predicate LegalHistory(history: seq<Write>) {
    TimesNeverDecrease(history) && OnlyReapersKill(history) && ReapsKeepTime(history)
  }

  ghost predicate Inv(s: Sys) {
    && UniqueNative(s.db)
    && CacheHolds(s.db)
    && RowsHoldLastWrite(s.db, s.history)
    && LegalHistory(s.history)
    && forall a :: a in s.actors ==> ActorOk(s, a, s.actors[a])
  }

  // ---- one step ----

  lemma ReaperPlanFacts(s: Sys, a: nat, p: Proc)
    requires p.Reaping? && SnapshotsAreOld(s.db, s.hostId, p)
    ensures var plan := ReaperPlan(s, a, p);
      && !plan.st.InsertRow? && plan.writer == ByReap
      && (plan.st.SetStatus? ==>
            plan.st.status == Dead && plan.st.id in s.db.rows && plan.st.ts <= s.db.rows[plan.st.id].lastEventAt)
  {
    hide Recent, IsProcessDead;
  }

  lemma HandlerPlanFacts(s: Sys, a: nat, p: Proc, newId: string)
    requires IsHandler(p) && OnlyDaemonHandles(s.db, a, p)
    ensures var plan := HandlerPlan(s, a, p, newId);
      && plan.actor == DAEMON && plan.writer == ByEvent
      && (plan.st.SetStatus? ==> plan.st.status != Dead)
      && (plan.st.InsertRow? ==> FreshId(s.db, plan.st.id) && plan.st.row.status == Idle && plan.st.row.lastPrompt == ""
                                 && Insertable(s.db, plan.st.id, plan.st.row))
  {
  }

  /** Facts about any step's statement that the invariants rest on. */
  lemma PlanFacts(s: Sys, l: Label)
    requires Inv(s)
    ensures var p := PlanOf(s, l);
      && (p.st.SetStatus? ==> (p.st.status == Dead <==> p.writer == ByReap))
      && (p.st.SetStatus? && p.writer == ByReap ==>
            p.st.id in s.db.rows && p.st.ts <= s.db.rows[p.st.id].lastEventAt)
      && (p.st.InsertRow? ==> p.actor == DAEMON && p.writer == ByEvent && FreshId(s.db, p.st.id))
      && (p.st.InsertRow? ==>
            p.st.row.status == Idle && p.st.row.lastPrompt == "" && Insertable(s.db, p.st.id, p.st.row))
  {
    hide ReaperPlan, HandlerPlan, ParseState, RowsHoldLastWrite, LegalHistory, CacheHolds, UniqueNative, ReportIsExact;
    if l.Go? && l.actor in s.actors {
      var q := s.actors[l.actor];
      assert ActorOk(s, l.actor, q);
      if q.Marking? {
        TransitionFacts(None, Event("", "", "", Note, None, map[], NoNotify, NO_IDENTITY, ""), q.arg);
      } else if q.Reaping? {
        ReaperPlanFacts(s, l.actor, q);
      } else if IsHandler(q) {
        HandlerPlanFacts(s, l.actor, q, l.newId);
      }
    }
  }

  lemma StepKeepsDatabase(s: Sys, l: Label)
    requires Inv(s)
    ensures var t := Apply(s, l);
      UniqueNative(t.db) && CacheHolds(t.db) && Advances(s.db, t.db)
  {
    var p := PlanOf(s, l);
    PlanFacts(s, l);
    ExecAdvances(s.db, p.st);
    if p.st.InsertRow? {
      NoPromptOfFreshId(s.db.log, p.st.id);
    }
    ExecKeepsCache(s.db, p.st);
  }

  lemma LastWriteAppend(history: seq<Write>, w: Write, id: string)
    ensures LastWrite(history + [w], id) == if w.id == id then Some(w) else LastWrite(history, id)
  {
    assert (history + [w])[..|history|] == history;
  }

  lemma {:induction false} LastWriteIsLatest(history: seq<Write>, i: nat)
    requires TimesNeverDecrease(history) && i < |history|
    ensures LastWrite(history, history[i].id).Some?
    ensures history[i].ts <= LastWrite(history, history[i].id).value.ts
  {
    var n := |history| - 1;
    if history[n].id != history[i].id {
      LastWriteIsLatest(history[..n], i);
    }
  }

  lemma OneMoreWrite(history: seq<Write>, w: Write)
    requires LegalHistory(history)
    requires LastWrite(history, w.id).Some? ==> LastWrite(history, w.id).value.ts <= w.ts
    requires w.status == Dead <==> w.writer == ByReap
    requires w.writer == ByReap ==> LastWrite(history, w.id).Some? && LastWrite(history, w.id).value.ts == w.ts
    ensures LegalHistory(history + [w])
  {
    var after := history + [w];
    forall i, j | 0 <= i < j < |after| && after[i].id == after[j].id ensures after[i].ts <= after[j].ts {
      if j == |history| {
        LastWriteIsLatest(history, i);
      }
    }
    forall i | 0 <= i < |after| && after[i].writer == ByReap
      ensures LastWrite(after[..i], after[i].id).Some? && LastWrite(after[..i], after[i].id).value.ts == after[i].ts
    {
      assert after[..i] == history[..i];
      assert history[..|history|] == history;
    }
  }

  /** A statement changes statuses and times exactly as the write it is recorded as says. */
  lemma EffectIsExact(db: Db, p: Plan)
    ensures Effect(db, p) == [] ==> forall id ::
      && (id in Exec(db, p.st).rows <==> id in db.rows)
      && (id in db.rows ==> Exec(db, p.st).rows[id].status == db.rows[id].status
                            && Exec(db, p.st).rows[id].lastEventAt == db.rows[id].lastEventAt)
    ensures Effect(db, p) != [] ==> |Effect(db, p)| == 1 && var w := Effect(db, p)[0];
      && w.id in Exec(db, p.st).rows
      && Exec(db, p.st).rows[w.id].status == w.status && Exec(db, p.st).rows[w.id].lastEventAt == w.ts
      && Exec(db, p.st).rows == db.rows[w.id := Exec(db, p.st).rows[w.id]]
  {
    hide Insertable;
  }

  lemma StepKeepsRows(s: Sys, l: Label)
    requires RowsHoldLastWrite(s.db, s.history)
    ensures RowsHoldLastWrite(Apply(s, l).db, Apply(s, l).history)
  {
    hide PlanOf, Exec, Effect;
    var p := PlanOf(s, l);
    var t := Apply(s, l);
    var effect := Effect(s.db, p);
    EffectIsExact(s.db, p);
    if effect == [] {
      assert s.history + effect == s.history;
    } else {
      var w := effect[0];
      assert effect == [w];
      forall id ensures LastWrite(t.history, id) == if w.id == id then Some(w) else LastWrite(s.history, id) {
        LastWriteAppend(s.history, w, id);
      }
    }
  }

  lemma StepKeepsHistory(s: Sys, l: Label)
    requires Inv(s)
    ensures LegalHistory(Apply(s, l).history)
  {
    var effect := Effect(s.db, PlanOf(s, l));
    PlanFacts(s, l);
    if effect == [] {
      assert s.history + effect == s.history;
    } else {
      OneMoreWrite(s.history, effect[0]);
    }
  }

  lemma ReaperKeepsSnapshots(s: Sys, a: nat, p: Proc)
    requires p.Reaping? && SnapshotsAreOld(s.db, s.hostId, p)
    ensures var next := ReaperPlan(s, a, p).next;
      next.Some? ==> SnapshotsAreOld(s.db, s.hostId, next.value)
  {
    if p.pending != [] {
      assert forall k :: 0 <= k < |p.pending[1..]| ==> p.pending[1..][k] == p.pending[k + 1];
    }
  }

  lemma PlanKeepsSnapshots(s: Sys, l: Label)
    requires forall a :: a in s.actors ==> SnapshotsAreOld(s.db, s.hostId, s.actors[a])
    ensures var next := PlanOf(s, l).next;
      next.Some? ==> SnapshotsAreOld(s.db, s.hostId, next.value)
  {
    var p := PlanOf(s, l);
    if l.Go? && l.actor in s.actors && s.actors[l.actor].Reaping? {
      ReaperKeepsSnapshots(s, l.actor, s.actors[l.actor]);
    }
  }

  lemma ReapWritesAppend(history: seq<Write>, w: Write, a: nat)
    ensures ReapWrites(history + [w], a)
      == ReapWrites(history, a) + if w.actor == a && w.writer == ByReap then [w.id] else []
  {
    assert (history + [w])[..|history|] == history;
  }

  /** A write by someone else, or not by a reaper, leaves a report exact. */
  lemma ReportSurvives(history: seq<Write>, w: Write, a: nat, q: Proc)
    requires ReportIsExact(history, a, q) && (w.actor != a || w.writer != ByReap)
    ensures ReportIsExact(history + [w], a, q)
  {
    if q.Reaping? || q.BetweenPasses? {
      assert (history + [w])[q.since..] == history[q.since..] + [w];
      ReapWritesAppend(history[q.since..], w, a);
    }
  }

  lemma ReaperReports(s: Sys, a: nat)
    requires a in s.actors && s.actors[a].Reaping? && ReportIsExact(s.history, a, s.actors[a])
    ensures var p := ReaperPlan(s, a, s.actors[a]);
      p.next.Some? ==> ReportIsExact(s.history + Effect(s.db, p), a, p.next.value)
  {
    var q := s.actors[a];
    var p := ReaperPlan(s, a, q);
    var effect := Effect(s.db, p);
    if effect == [] {
      assert s.history + effect == s.history;
    } else {
      assert (s.history + effect)[q.since..] == s.history[q.since..] + [effect[0]];
      ReapWritesAppend(s.history[q.since..], effect[0], a);
      assert (q.reaped + [q.pending[0]])[..|q.reaped|] == q.reaped;
    }
  }

  lemma PlanKeepsReport(s: Sys, l: Label)
    requires forall a :: a in s.actors ==> ReportIsExact(s.history, a, s.actors[a])
    ensures var p := PlanOf(s, l);
      p.next.Some? ==> ReportIsExact(s.history + Effect(s.db, p), p.actor, p.next.value)
  {
    var p := PlanOf(s, l);
    if l.Go? && l.actor in s.actors && s.actors[l.actor].Reaping? {
      ReaperReports(s, l.actor);
    }
    if p.st.Select? {
      assert s.history + [] == s.history;
    }
  }

  lemma HandlerStaysHandler(s: Sys, a: nat, p: Proc, newId: string)
    requires IsHandler(p) && OnlyDaemonHandles(s.db, a, p)
    ensures var plan := HandlerPlan(s, a, p, newId);
      plan.next.Some? && a in s.actors && s.actors[a] == p ==>
        OnlyDaemonHandles(Exec(s.db, plan.st), a, plan.next.value)
  {
    if p.Reading? {
      TransitionFacts(StatusOf(s.db, p.id), p.e, "");
    }
  }

  lemma PlanKeepsHandler(s: Sys, l: Label)
    requires forall a :: a in s.actors ==> OnlyDaemonHandles(s.db, a, s.actors[a])
    ensures var p := PlanOf(s, l);
      p.next.Some? ==> OnlyDaemonHandles(Exec(s.db, p.st), p.actor, p.next.value)
  {
    var a := PlanOf(s, l).actor;
    if a in s.actors {
      var q := s.actors[a];
      if l.Go? && IsHandler(q) {
        HandlerStaysHandler(s, a, q, l.newId);
      } else if l.FailStatement? && q.Reading? {
        TransitionFacts(None, q.e, "");
      }
    }
  }

  lemma SnapshotsStayOld(before: Db, after: Db, hostId: string, q: Proc)
    requires SnapshotsAreOld(before, hostId, q) && Advances(before, after)
    ensures SnapshotsAreOld(after, hostId, q)
  {
  }

  lemma KeyStaysFree(before: Db, after: Db, a: nat, q: Proc)
    requires OnlyDaemonHandles(before, a, q) && Advances(before, after)
    requires q.Creating? ==> after.rows.Keys == before.rows.Keys
    ensures OnlyDaemonHandles(after, a, q)
  {
    if q.Creating? && q.e.nativeId != "" {
      forall id ensures !Owns(after, id, q.e.agent, q.e.nativeId) {
        assert !Owns(before, id, q.e.agent, q.e.nativeId);
      }
    }
  }

  lemma OthersReportStays(history: seq<Write>, db: Db, p: Plan, a: nat, q: Proc)
    requires ReportIsExact(history, a, q) && p.actor != a
    ensures ReportIsExact(history + Effect(db, p), a, q)
  {
    var effect := Effect(db, p);
    if effect == [] {
      assert history + effect == history;
    } else {
      assert effect == [effect[0]];
      ReportSurvives(history, effect[0], a, q);
    }
  }

  /** What holds of one actor survives every step of another. */
  lemma OtherActorsStayOk(s: Sys, l: Label, a: nat)
    requires Inv(s) && a in s.actors && a != PlanOf(s, l).actor
    ensures ActorOk(Apply(s, l), a, s.actors[a])
  {
    hide PlanOf, Exec, Effect, SnapshotsAreOld, ReportIsExact;
    hide CacheHolds, UniqueNative, RowsHoldLastWrite, LegalHistory, FreshId, Insertable, Advances;
    var p := PlanOf(s, l);
    var q := s.actors[a];
    assert ActorOk(s, a, q);
    PlanFacts(s, l);
    ExecAdvances(s.db, p.st);
    ExecKeepsRows(s.db, p.st);
    SnapshotsStayOld(s.db, Exec(s.db, p.st), s.hostId, q);
    KeyStaysFree(s.db, Exec(s.db, p.st), a, q);
    OthersReportStays(s.history, s.db, p, a, q);
  }

  /** Every step of every actor keeps the invariant. */
  lemma StepKeepsInv(s: Sys, l: Label)
    requires Inv(s)
    ensures Inv(Apply(s, l))
  {
    var p, t := PlanOf(s, l), Apply(s, l);
    StepKeepsDatabase(s, l);
    StepKeepsRows(s, l);
    StepKeepsHistory(s, l);
    assert forall a :: a in s.actors ==> ActorOk(s, a, s.actors[a]);
    PlanKeepsSnapshots(s, l);
    PlanKeepsReport(s, l);
    PlanKeepsHandler(s, l);
    forall a | a in t.actors ensures ActorOk(t, a, t.actors[a]) {
      if a != p.actor {
        OtherActorsStayOk(s, l, a);
      }
    }
  }

  lemma {:induction false} RunKeepsInv(s: Sys, labels: seq<Label>)
    requires Inv(s)
    ensures Inv(Run(s, labels)) && Advances(s.db, Run(s, labels).db)
    decreases |labels|
  {
    if labels != [] {
      StepKeepsInv(s, labels[0]);
      StepKeepsDatabase(s, labels[0]);
      RunKeepsInv(Apply(s, labels[0]), labels[1..]);
    }
  }

  /** The rows of a database, some of them only. */
  function Restricted(db: Db, ids: set<string>): Db {
    db.(rows := map id | id in db.rows && id in ids :: db.rows[id])
  }

  /** Any rows can be the outcome of some legal history. */
  lemma {:induction false} HistoryFor(db: Db, ids: set<string>) returns (history: seq<Write>)
    requires ids <= db.rows.Keys
    ensures RowsHoldLastWrite(Restricted(db, ids), history) && LegalHistory(history)
  {
    history := [];
    if ids != {} {
      var id :| id in ids;
      var row := db.rows[id];
      var earlier := HistoryFor(db, ids - {id});
      var first := Write(DAEMON, ByEvent, id, if row.status == Dead then Idle else row.status, row.lastEventAt);
      OneMoreWrite(earlier, first);
      history := earlier + [first];
      forall i ensures LastWrite(history, i) == if i == id then Some(first) else LastWrite(earlier, i) {
        LastWriteAppend(earlier, first, i);
      }
      if row.status == Dead {
        var before, reap := history, Write(DAEMON, ByReap, id, Dead, row.lastEventAt);
        OneMoreWrite(before, reap);
        history := before + [reap];
        forall i ensures LastWrite(history, i) == if i == id then Some(reap) else LastWrite(before, i) {
          LastWriteAppend(before, reap, i);
        }
      }
    }
  }

  /**
   Whatever is started, interleaved, failed or killed, from any database that
   respects the unique index and the prompt cache, as one just opened does.
   */
  lemma EveryReachableState(db: Db, procs: ProcTable, hostId: string) returns (history: seq<Write>)
    requires UniqueNative(db) && CacheHolds(db)
    ensures forall labels :: Inv(Run(Init(db, history, procs, hostId), labels))
  {
    history := HistoryFor(db, db.rows.Keys);
    assert Restricted(db, db.rows.Keys) == db;
    forall labels ensures Inv(Run(Init(db, history, procs, hostId), labels)) {
      RunKeepsInv(Init(db, history, procs, hostId), labels);
    }
  }
}
