/**
 From the agent's callback to the session's row: what users see in `sm ls` after
 their agent called its hook.
 */
module EndToEnd {
  import opened Wrappers
  import opened Session
  import opened Database
  import opened Handling
  import opened Reaping
  import opened Delivery
  import opened Transcript
  import opened Hook
  import opened Stores

  // ---- one Claude hook ----

  /** The row of an agent's session before an event no older than it. */
  ghost predicate InTime(db: Db, agent: string, nativeId: string, now: int) {
    var v := ViewOf(db, agent, nativeId);
    v.Some? ==> v.value.lastEventAt <= now
  }

  ghost function Before(db: Db, agent: string, nativeId: string): View {
    var v := ViewOf(db, agent, nativeId);
    if v.Some? then v.value else View(Idle, 0, "")
  }

  lemma HandledView(db: Db, e: StampedEvent, newId: string, hostId: string)
    requires Resolvable(db, e, newId) && e.sessionId == "" && e.nativeId != ""
    requires InTime(db, e.agent, e.nativeId, e.timestamp.value)
    ensures var before := Before(db, e.agent, e.nativeId);
      var u, next := ViewOf(HandleDb(db, e, newId, hostId), e.agent, e.nativeId), Transition(Some(before.status), e);
      var title := AsString(e.payload, "title");
      && u.Some? && u.value.status == (if next.Some? then next.value else before.status)
      && u.value.title == if title != "" then title else before.title
  {
    hide HandleDb, Transition, FreshId, UniqueNative;
    ViewAfterEvent(db, e, newId, hostId, e.agent, e.nativeId);
  }

  /** The notification says the agent is blocked, by its type or, without one, by its message. */
  ghost predicate AsksUser(input: ClaudeInput) {
    if input.notificationType != ""
    then input.notificationType !in ["idle_prompt", "auth_success", "elicitation_complete", "elicitation_response"]
    else HasSubstring(input.message, "needs your permission") || !HasSubstring(input.message, "waiting for your input")
  }

  /** The notification says a block is over. */
  predicate EndsBlock(input: ClaudeInput) {
    input.notificationType in ["auth_success", "elicitation_complete", "elicitation_response"]
  }

  /**
   What a Claude hook does to its session's row, named by Claude's own words: a
   start or a finished turn leaves it idle, a prompt or a tool running, the end
   finished, and a notification that asks the user something waiting. One that says
   a block is over sets a waiting session running; an idle reminder does nothing.
   */
  lemma ClaudeHookToRow(db: Db, input: ClaudeInput, stamp: Stamp, newId: string, hostId: string)
    requires ClaudeSent(input, stamp).Some? && input.sessionId != "" && UniqueNative(db)
    requires IdOffered(db, ClaudeSent(input, stamp).value, newId) && InTime(db, "claude", input.sessionId, stamp.now)
    ensures var u := ViewOf(HandleDb(db, ClaudeSent(input, stamp).value, newId, hostId), "claude", input.sessionId);
      var before, name := Before(db, "claude", input.sessionId).status, input.hookEventName;
      && name in ["SessionStart", "UserPromptSubmit", "PreToolUse", "Notification", "Stop", "SessionEnd"]
      && u.Some? && u.value.status ==
         if name in ["SessionStart", "Stop"] then Idle
         else if name in ["UserPromptSubmit", "PreToolUse"] then Running
         else if name == "SessionEnd" then Finished
         else if AsksUser(input) then Waiting
         else if before == Waiting && EndsBlock(input) then Running
         else before
  {
    hide HandleDb, FreshId, UniqueNative, ClaudePayload, Transition, HasSubstring;
    var e := ClaudeSent(input, stamp).value;
    HandledView(db, e, newId, hostId);
    TransitionTable(Some(Before(db, "claude", input.sessionId).status), e);
    if input.hookEventName == "Notification" {
      Notified(input);
    }
  }

  lemma Notified(input: ClaudeInput)
    ensures var notify := ClaudeNotify(input.notificationType, input.message);
      && (notify !in {IdlePrompt, ElicitationComplete, ElicitationResponse, AuthSuccess} <==> AsksUser(input))
      && (notify in {ElicitationComplete, ElicitationResponse, AuthSuccess} <==>
            EndsBlock(input))
  {
    hide HasSubstring;
  }

  /** And to its title: Claude's own, else at a turn's end, a block or the end the transcript's, else the one before. */
  lemma ClaudeHookToTitle(db: Db, input: ClaudeInput, stamp: Stamp, newId: string, hostId: string)
    requires ClaudeSent(input, stamp).Some? && input.sessionId != "" && UniqueNative(db)
    requires IdOffered(db, ClaudeSent(input, stamp).value, newId) && InTime(db, "claude", input.sessionId, stamp.now)
    ensures var u := ViewOf(HandleDb(db, ClaudeSent(input, stamp).value, newId, hostId), "claude", input.sessionId);
      var before, name := Before(db, "claude", input.sessionId).title, input.hookEventName;
      var title := if input.sessionTitle != "" then input.sessionTitle
        else if name in ["Stop", "SessionEnd", "Notification"] then TextOf(TranscriptTitle(input.transcript)) else "";
      u.Some? && u.value.title == if title != "" then title else before
  {
    hide HandleDb, FreshId, UniqueNative, ClaudePayload, Transition, HasSubstring, TranscriptTitle, TextOf;
    var e := ClaudeSent(input, stamp).value;
    HandledView(db, e, newId, hostId);
    ClaudePayloadFields(input, e.kind, "title");
  }

  // ---- one opencode event ----

  /** What an opencode event does to its session's row, by opencode's own words. */
  lemma OpencodeHookToRow(db: Db, m: Message, stamp: Stamp, newId: string, hostId: string)
    requires OpencodeEvent(m, stamp).Some? && UniqueNative(db)
    requires IdOffered(db, OpencodeEvent(m, stamp).value, newId)
    requires InTime(db, "opencode", FieldText(m.sessionId), stamp.now)
    ensures m.sessionId.Str? && m.sessionId.s != ""
    ensures var u := ViewOf(HandleDb(db, OpencodeEvent(m, stamp).value, newId, hostId), "opencode", m.sessionId.s);
      var before := Before(db, "opencode", m.sessionId.s);
      var title := if m.info.Info? && m.info.title.Str? then m.info.title.s else "";
      && u.Some? && u.value.title == (if title != "" then title else before.title)
      && m.kind in ["session.created", "session.updated", "session.title",
                    "permission.asked", "session.idle", "session.error"]
      && u.value.status ==
         if m.kind in ["session.created", "session.updated", "session.idle"] then Idle
         else if m.kind == "permission.asked" then Waiting
         else if m.kind == "session.error" then Failed
         else before.status
  {
    hide HandleDb, FreshId, UniqueNative, Transition;
    var e := OpencodeEvent(m, stamp).value;
    HandledView(db, e, newId, hostId);
    OpencodeTitle(m, stamp);
    TransitionTable(Some(Before(db, "opencode", m.sessionId.s).status), e);
  }

  // ---- the prompt ----

  predicate IsSubmit(c: Call) {
    c.input.hookEventName == "UserPromptSubmit"
  }

  /** The prompt hook of the greatest time, the last delivered among equals. */
  ghost predicate LatestSubmit(calls: seq<Call>, k: nat) {
    && k < |calls| && IsSubmit(calls[k])
    && forall j :: 0 <= j < |calls| && IsSubmit(calls[j]) ==>
      calls[j].stamp.now < calls[k].stamp.now || (calls[j].stamp.now == calls[k].stamp.now && j <= k)
  }

  /** The prompt shown is the one of that hook, "" if there was none. */
  ghost predicate ShowsLatestPrompt(prompt: string, calls: seq<Call>) {
    && (forall k: nat :: LatestSubmit(calls, k) ==> prompt == calls[k].input.prompt)
    && ((forall c :: c in calls ==> !IsSubmit(c)) ==> prompt == "")
  }

  function SubmitWrite(c: Call): seq<Timed<string>> {
    if IsSubmit(c) then [Timed(c.stamp.now, c.input.prompt)] else []
  }

  function SubmitWrites(calls: seq<Call>): seq<Timed<string>> {
    if calls == [] then [] else SubmitWrites(calls[..|calls| - 1]) + SubmitWrite(calls[|calls| - 1])
  }

  function BestSubmit(calls: seq<Call>): (r: Option<nat>)
    ensures r.Some? ==> r.value < |calls| && IsSubmit(calls[r.value])
  {
    if calls == [] then None
    else
      var n := |calls| - 1;
      var best := BestSubmit(calls[..n]);
      if IsSubmit(calls[n]) && (best.None? || calls[n].stamp.now >= calls[best.value].stamp.now) then Some(n) else best
  }

  lemma {:induction false} BestIsLatest(calls: seq<Call>)
    ensures match BestSubmit(calls)
      case None => forall c :: c in calls ==> !IsSubmit(c)
      case Some(k) => LatestSubmit(calls, k)
  {
    if calls != [] {
      var n := |calls| - 1;
      BestIsLatest(calls[..n]);
      assert forall c :: c in calls <==> c in calls[..n] || c == calls[n];
      assert forall j :: 0 <= j < n ==> calls[..n][j] == calls[j] && calls[j] in calls[..n];
    }
  }

  lemma {:induction false} SubmitHeld(calls: seq<Call>)
    ensures Latest(None, SubmitWrites(calls)) == match BestSubmit(calls)
      case None => None
      case Some(k) => Some(Timed(calls[k].stamp.now, calls[k].input.prompt))
  {
    hide IsSubmit;
    if calls == [] {
      LatestOfNothing<string>(None);
    } else {
      var n := |calls| - 1;
      SubmitHeld(calls[..n]);
      LatestConcat(None, SubmitWrites(calls[..n]), SubmitWrite(calls[n]));
      if IsSubmit(calls[n]) {
        assert SubmitWrite(calls[n])[..0] == [];
      }
    }
  }

  /** A prompt hook's event is a prompt with that text; no other hook's is a prompt. */
  lemma ClaudePromptWrite(id: string, c: Call)
    ensures var sent := ClaudeSent(c.input, c.stamp);
      SubmitWrite(c) == if sent.Some? then PromptWrite(Entry(id, sent.value)) else []
  {
    hide ClaudePayload;
    var sent := ClaudeSent(c.input, c.stamp);
    if sent.Some? {
      ClaudePayloadFields(c.input, sent.value.kind, "prompt");
    }
  }

  lemma {:induction false} PromptWritesOfCalls(id: string, calls: seq<Call>)
    ensures PromptWrites(Entries(id, ClaudeEvents(calls))) == SubmitWrites(calls)
  {
    hide PromptWrite, SubmitWrite, ClaudeSent;
    if calls != [] {
      var n := |calls| - 1;
      var sent := ClaudeSent(calls[n].input, calls[n].stamp);
      var last := if sent.Some? then [sent.value] else [];
      PromptWritesOfCalls(id, calls[..n]);
      ClaudePromptWrite(id, calls[n]);
      assert Entries(id, ClaudeEvents(calls)) == Entries(id, ClaudeEvents(calls[..n])) + Entries(id, last);
      PromptWritesConcat(Entries(id, ClaudeEvents(calls[..n])), Entries(id, last));
      assert Entries(id, last)[..0] == [];
      assert PromptWrites(Entries(id, last)) == if last == [] then [] else PromptWrite(Entry(id, sent.value));
    }
  }

  lemma PromptOfCalls(log: seq<LogEntry>, id: string, calls: seq<Call>)
    requires OwnLog(log, id) == Entries(id, ClaudeEvents(calls))
    ensures ShowsLatestPrompt(LatestPrompt(log, id), calls)
  {
    hide PromptWrites, SubmitWrites, ClaudeEvents, OwnLog, Entries, Latest, LatestPromptIndex;
    PromptIsLatest(log, id);
    PromptWritesOfCalls(id, calls);
    SubmitHeld(calls);
    BestIsLatest(calls);
    forall k: nat | LatestSubmit(calls, k) ensures BestSubmit(calls) == Some(k) {
      assert calls[k] in calls;
    }
  }

  /**
   From hook to row: a session that a run meets for the first time, told by Claude's
   hooks and nobody else, shows the prompt of the latest prompt hook, whatever else
   the daemon handles and sweeps.
   */
  lemma ClaudePromptAfterRun(db: Db, steps: seq<Step>, hostId: string, nativeId: string, calls: seq<Call>)
    requires DaemonRun(db, steps, hostId) && CacheHolds(db)
    requires nativeId != "" && FindNative(db, "claude", nativeId) == None
    requires Substream(db, steps, hostId, "claude", nativeId) == ClaudeEvents(calls) && ClaudeEvents(calls) != []
    ensures var after := Deliver(db, steps, hostId);
      && FindNative(after, "claude", nativeId).Some?
      && ShowsLatestPrompt(after.rows[FindNative(after, "claude", nativeId).value].lastPrompt, calls)
  {
    hide DaemonRun, Deliver, Substream, ClaudeEvents, OwnLog, ShowsLatestPrompt, LatestPrompt;
    var after := Deliver(db, steps, hostId);
    LogOfSession(db, steps, hostId, "claude", nativeId);
    RunKeepsCache(db, steps, hostId);
    var id := FindNative(after, "claude", nativeId).value;
    assert OwnLog(after.log, id) == [] + Entries(id, ClaudeEvents(calls)) == Entries(id, ClaudeEvents(calls));
    PromptOfCalls(after.log, id, calls);
  }

  /** And so it does after a migration from a release that did not keep the prompt on the row. */
  lemma ClaudePromptAfterMigration(db: Db, columns: set<Column>, id: string, calls: seq<Call>)
    requires LastPromptColumn !in columns && id in db.rows
    requires OwnLog(db.log, id) == Entries(id, ClaudeEvents(calls))
    ensures id in Migrated(db, columns).rows && ShowsLatestPrompt(Migrated(db, columns).rows[id].lastPrompt, calls)
  {
    hide OwnLog, ClaudeEvents, ShowsLatestPrompt, LatestPrompt, Migrated;
    OldRowsHaveNoProcess(db, columns, id);
    PromptOfCalls(db.log, id, calls);
  }
}
