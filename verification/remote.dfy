/**
 Sessions of other hosts, over all interleavings: no process of this host probes
 them, and a pass that goes by silence spares whoever was heard of in time.
 */
module Remote {
  import opened Wrappers
  import opened Session
  import opened Liveness
  import opened Database
  import opened Handling
  import opened Reaping
  import opened Interleaving
  import opened Resume

  predicate InPass(p: Proc, remote: bool) {
    p.Reaping? && p.remote == remote
  }

  /** In any reachable state a local pass holds snapshots of this host's sessions, a remote pass of the others'. */
  lemma SnapshotsOfTheRightHosts(s: Sys, a: nat, id: string)
    requires Inv(s) && a in s.actors && s.actors[a].Reaping? && id in s.db.rows
    requires s.actors[a].remote != (s.db.rows[id].hostId != s.hostId)
    ensures forall k :: 0 <= k < |s.actors[a].pending| ==> s.actors[a].pending[k].id != id
  {
    assert ActorOk(s, a, s.actors[a]);
  }

  /** A statement of a reap pass leaves every row alone that is not in its snapshots. */
  lemma OthersAreUntouched(s: Sys, a: nat, id: string, newId: string)
    requires a in s.actors && s.actors[a].Reaping? && id in s.db.rows
    requires forall k :: 0 <= k < |s.actors[a].pending| ==> s.actors[a].pending[k].id != id
    ensures var t := Apply(s, Go(a, newId));
      id in t.db.rows && t.db.rows[id] == s.db.rows[id]
  {
    hide IsProcessDead;
  }

  /**
   A session whose first event comes from another host is of that host for good:
   at no later point of any run does a local pass hold a snapshot of it, and no
   statement of a local pass changes its row.
   */
  lemma RemoteSessionIsNeverProbed(s: Sys, e: StampedEvent, newId: string, labels: seq<Label>, a: nat, any: string)
    requires Inv(s) && DAEMON in s.actors && s.actors[DAEMON] == Creating(e) && FreshId(s.db, newId)
    requires e.hostId != "" && e.hostId != s.hostId
    ensures var t := Run(Apply(s, Go(DAEMON, newId)), labels);
      && newId in t.db.rows && t.db.rows[newId].hostId == e.hostId
      && (a in t.actors && InPass(t.actors[a], false) ==>
            && (forall k :: 0 <= k < |t.actors[a].pending| ==> t.actors[a].pending[k].id != newId)
            && var u := Apply(t, Go(a, any));
            newId in u.db.rows && u.db.rows[newId] == t.db.rows[newId])
  {
    hide Apply, Inv, Run, FreshId;
    var created := Apply(s, Go(DAEMON, newId));
    FirstRow(s, e, newId);
    StepKeepsInv(s, Go(DAEMON, newId));
    RunKeepsInv(created, labels);
    HostIsFixed(created, labels);
    var t := Run(created, labels);
    if a in t.actors && InPass(t.actors[a], false) {
      SnapshotsOfTheRightHosts(t, a, newId);
      OthersAreUntouched(t, a, newId, any);
    }
  }

  lemma FirstRow(s: Sys, e: StampedEvent, newId: string)
    requires Inv(s) && DAEMON in s.actors && s.actors[DAEMON] == Creating(e) && FreshId(s.db, newId)
    ensures var t := Apply(s, Go(DAEMON, newId));
      && t.hostId == s.hostId && newId in t.db.rows
      && t.db.rows[newId].hostId == if e.hostId != "" then e.hostId else s.hostId
  {
    hide FreshId;
    PlanFacts(s, Go(DAEMON, newId));
  }

  // ---- silence ----

  /** The snapshots of the actor's remote pass, if it is in one, are older than the cutoff. */
  ghost predicate GoesBySilence(s: Sys, a: nat, cutoff: int) {
    a in s.actors && InPass(s.actors[a], true) ==>
      forall k :: 0 <= k < |s.actors[a].pending| ==> s.actors[a].pending[k].lastEventAt < cutoff
  }

  predicate WithCutoff(l: Label, a: nat, cutoff: int) {
    l.StartRemote? && l.actor == a ==> l.cutoff <= cutoff
  }

  lemma ReaperKeepsSilence(s: Sys, a: nat, p: Proc, cutoff: int)
    requires InPass(p, true) && forall k :: 0 <= k < |p.pending| ==> p.pending[k].lastEventAt < cutoff
    ensures var next := ReaperPlan(s, a, p).next;
      next.Some? && InPass(next.value, true) ==>
        forall k :: 0 <= k < |next.value.pending| ==> next.value.pending[k].lastEventAt < cutoff
  {
    if p.pending != [] {
      assert forall k :: 0 <= k < |p.pending[1..]| ==> p.pending[1..][k] == p.pending[k + 1];
    }
  }

  lemma StepKeepsSilence(s: Sys, l: Label, a: nat, cutoff: int)
    requires GoesBySilence(s, a, cutoff) && WithCutoff(l, a, cutoff)
    ensures GoesBySilence(Apply(s, l), a, cutoff)
  {
    hide Exec, Effect, HandlerPlan, ReaperPlan, IsProcessDead;
    if l.Go? {
      GoesOn(s, l.actor, l.newId);
    }
    if l.Go? && l.actor == a && a in s.actors && s.actors[a].Reaping? {
      if s.actors[a].remote {
        ReaperKeepsSilence(s, a, s.actors[a], cutoff);
      } else {
        LocalStaysLocal(s, a, s.actors[a]);
      }
    } else if l.StartRemote? && l.actor == a {
      StaleAreSilent(s, l.order, l.cutoff);
    } else if l.Go? && l.actor == a && a in s.actors && IsHandler(s.actors[a]) {
      HandlersAreNoReapers(s, a, s.actors[a], l.newId);
    }
  }

  lemma GoesOn(s: Sys, a: nat, newId: string)
    ensures PlanOf(s, Go(a, newId)).actor == a
  {
    hide FindNative, FreshId, Insertable, Recent, IsProcessDead, Decide;
  }

  lemma LocalStaysLocal(s: Sys, a: nat, p: Proc)
    requires InPass(p, false)
    ensures ReaperPlan(s, a, p).next.Some? ==> !InPass(ReaperPlan(s, a, p).next.value, true)
    ensures ReaperPlan(s, a, p).actor == a
  {
  }

  lemma HandlersAreNoReapers(s: Sys, a: nat, p: Proc, newId: string)
    requires IsHandler(p)
    ensures var plan := HandlerPlan(s, a, p, newId);
      plan.actor == a && (plan.next.Some? && plan.next.value.Reaping? ==> Current(s, a) == plan.next)
  {
  }

  lemma StaleAreSilent(s: Sys, order: seq<Snapshot>, cutoff: int)
    ensures AreSnapshots(order, s.db, RemoteStale(s.db, s.hostId, cutoff)) ==>
      forall k :: 0 <= k < |order| ==> order[k].lastEventAt < cutoff
  {
  }

  lemma {:induction false} RunKeepsSilence(s: Sys, labels: seq<Label>, a: nat, cutoff: int)
    requires GoesBySilence(s, a, cutoff) && forall l :: l in labels ==> WithCutoff(l, a, cutoff)
    ensures GoesBySilence(Run(s, labels), a, cutoff)
    decreases |labels|
  {
    hide Apply, GoesBySilence, WithCutoff;
    if labels != [] {
      StepKeepsSilence(s, labels[0], a, cutoff);
      RunKeepsSilence(Apply(s, labels[0]), labels[1..], a, cutoff);
    }
  }

  /**
   However long a remote pass takes and whatever happens meanwhile, the update
   it makes next does not touch a session that was heard of at or after the cutoff,
   be it since the snapshot was taken.
   */
  lemma HeardInTimeIsSpared(
    s: Sys, a: nat, order: seq<Snapshot>, cutoff: int, labels: seq<Label>, id: string, any: string)
    requires Inv(s) && a in s.actors && s.actors[a].BetweenPasses?
    requires forall l :: l in labels ==> WithCutoff(l, a, cutoff)
    ensures var t := Run(Apply(s, StartRemote(a, order, cutoff)), labels);
      a in t.actors && InPass(t.actors[a], true) && id in t.db.rows && cutoff <= t.db.rows[id].lastEventAt ==>
        var u := Apply(t, Go(a, any));
        id in u.db.rows && u.db.rows[id] == t.db.rows[id]
  {
    hide Apply, Inv, Run, WithCutoff;
    var l := StartRemote(a, order, cutoff);
    assert WithCutoff(l, a, cutoff) by { OwnCutoff(a, order, cutoff); }
    StepKeepsSilence(s, l, a, cutoff);
    RunKeepsSilence(Apply(s, l), labels, a, cutoff);
    var t := Run(Apply(s, l), labels);
    if a in t.actors && InPass(t.actors[a], true) && id in t.db.rows && cutoff <= t.db.rows[id].lastEventAt {
      OldKillsMiss(t, a, id, any);
    }
  }

  lemma OwnCutoff(a: nat, order: seq<Snapshot>, cutoff: int)
    ensures WithCutoff(StartRemote(a, order, cutoff), a, cutoff)
  {
  }

  /** The recency guard: a kill from a snapshot older than the row does nothing to it. */
  lemma OldKillsMiss(s: Sys, a: nat, id: string, any: string)
    requires a in s.actors && s.actors[a].Reaping? && id in s.db.rows
    requires forall k :: 0 <= k < |s.actors[a].pending| ==>
      s.actors[a].pending[k].lastEventAt < s.db.rows[id].lastEventAt
    ensures var u := Apply(s, Go(a, any));
      id in u.db.rows && u.db.rows[id] == s.db.rows[id]
  {
    hide IsProcessDead;
  }
}
