/**
 The hooks that turn agent callbacks into events (internal/hook/hook.go). The
 JSON on stdin is taken as decoded; a field of the wrong JSON type is a decode
 error.
 */
module Hook {
  import opened Wrappers
  import opened Session
  import opened Json
  import opened Transcript

  // ---- Claude ----

  datatype ClaudeInput = ClaudeInput(
    sessionId: string,
    hookEventName: string,
    cwd: string,
    source: string,
    reason: string,
    prompt: string,
    message: string,
    notificationType: string,
    sessionTitle: string,
    transcript: Option<seq<byte>>)

  function ClaudeKind(name: string): Option<EventKind> {
    if name == "SessionStart" then Some(SessionStart)
    else if name == "UserPromptSubmit" then Some(UserPrompt)
    else if name == "PreToolUse" then Some(ToolUse)
    else if name == "Notification" then Some(Notification)
    else if name == "Stop" then Some(Stop)
    else if name == "SessionEnd" then Some(SessionEnd)
    else None
  }

  function NotifyTypeOf(name: string): NotifyType {
    if name == "" then NoNotify
    else if name == "permission_prompt" then PermissionPrompt
    else if name == "idle_prompt" then IdlePrompt
    else if name == "auth_success" then AuthSuccess
    else if name == "elicitation_dialog" then ElicitationDialog
    else if name == "elicitation_complete" then ElicitationComplete
    else if name == "elicitation_response" then ElicitationResponse
    else OtherNotify(name)
  }

  predicate HasSubstring(s: string, part: string) {
    exists i {:trigger s[i..]} :: 0 <= i <= |s| && part <= s[i..]
  }

  lemma SubstringAnywhere(s: string, part: string)
    ensures HasSubstring(s, part) <==> exists before, after :: s == before + part + after
  {
    if HasSubstring(s, part) {
      var i :| 0 <= i <= |s| && part <= s[i..];
      assert s == s[..i] + part + s[i..][|part|..];
    }
    if before, after :| s == before + part + after {
      assert s[|before|..] == part + after;
    }
  }

  function ClaudeNotify(typ: string, msg: string): NotifyType {
    if typ != "" then NotifyTypeOf(typ)
    else if HasSubstring(msg, "needs your permission") then PermissionPrompt
    else if HasSubstring(msg, "waiting for your input") then IdlePrompt
    else NoNotify
  }

  /** A byte string as a Go string. */
  function TextOf(bytes: seq<byte>): (text: string)
    ensures |text| == |bytes| && forall i :: 0 <= i < |bytes| ==> text[i] as int == bytes[i]
  {
    seq(|bytes|, i requires 0 <= i < |bytes| => bytes[i] as char)
  }

  function ClaudeTitle(input: ClaudeInput, kind: EventKind): string {
    if input.sessionTitle != "" then input.sessionTitle
    else if kind.Stop? || kind.SessionEnd? || kind.Notification? then TextOf(TranscriptTitle(input.transcript))
    else ""
  }

  /** Only non-empty fields enter a payload. */
  function With(p: Payload, key: string, text: string): Payload {
    if text != "" then p[key := Text(text)] else p
  }

  function ClaudePayload(input: ClaudeInput, kind: EventKind): Payload {
    With(With(With(With(With(map[], "cwd", input.cwd), "reason", input.reason), "prompt", input.prompt),
              "message", input.message), "title", ClaudeTitle(input, kind))
  }

  lemma WithField(p: Payload, key: string, text: string, other: string)
    ensures other != key ==>
      (other in With(p, key, text) <==> other in p) && (other in p ==> With(p, key, text)[other] == p[other])
    ensures key !in p ==>
      (key in With(p, key, text) <==> text != "") && (text != "" ==> With(p, key, text)[key] == Text(text))
  {
  }

  lemma PayloadField(input: ClaudeInput, kind: EventKind, key: string)
    ensures var p := ClaudePayload(input, kind);
      var text := if key == "cwd" then input.cwd
        else if key == "prompt" then input.prompt
        else if key == "reason" then input.reason
        else if key == "message" then input.message
        else if key == "title" then ClaudeTitle(input, kind) else "";
      (key in p <==> text != "") && (key in p ==> p[key] == Text(text))
  {
    hide With, ClaudeTitle;
    var p0: Payload := map[];
    var p1 := With(p0, "cwd", input.cwd);
    var p2 := With(p1, "reason", input.reason);
    var p3 := With(p2, "prompt", input.prompt);
    var p4 := With(p3, "message", input.message);
    WithField(p0, "cwd", input.cwd, key);
    WithField(p1, "reason", input.reason, key);
    WithField(p2, "prompt", input.prompt, key);
    WithField(p3, "message", input.message, key);
    WithField(p4, "title", ClaudeTitle(input, kind), key);
  }

  /**
   The payload holds the non-empty ones of cwd, reason, prompt, message and title,
   each under its own name, and nothing else. The title is Claude's own or, at the
   end of a turn, at a block and at the end, what the transcript says.
   */
  lemma ClaudePayloadFields(input: ClaudeInput, kind: EventKind, key: string)
    ensures var p := ClaudePayload(input, kind);
      var title := if input.sessionTitle != "" then input.sessionTitle
        else if kind in {Stop, SessionEnd, Notification} then TextOf(TranscriptTitle(input.transcript)) else "";
      var fields := map["cwd" := input.cwd, "reason" := input.reason, "prompt" := input.prompt,
        "message" := input.message, "title" := title];
      && (key in p <==> key in fields && fields[key] != "")
      && (key in p ==> p[key] == Text(fields[key]))
  {
    hide ClaudePayload, TranscriptTitle, TextOf;
    PayloadField(input, kind, key);
  }

  /** The context restarts Claude fires in the middle of a session. */
  predicate IsCompaction(input: ClaudeInput) {
    input.hookEventName == "SessionStart" && input.source == "compact"
  }

  /** The event a Claude hook yields: none for unknown hooks and for compaction. */
  function ClaudeEvent(input: ClaudeInput, now: int): Option<StampedEvent> {
    var kind := ClaudeKind(input.hookEventName);
    if kind.None? || IsCompaction(input) then None
    else
      Some(Event("", input.sessionId, "claude", kind.value, Some(now), ClaudePayload(input, kind.value),
                 ClaudeNotify(input.notificationType, input.message), NO_IDENTITY, ""))
  }

  method ParseClaude(input: ClaudeInput, now: int) returns (r: Option<StampedEvent>)
    ensures r == ClaudeEvent(input, now)
  {
    var kind := ClaudeKind(input.hookEventName);
    if kind.None? {
      return None;
    }
    if kind.value == SessionStart && input.source == "compact" {
      return None;
    }
    var payload: Payload := map[];
    if input.cwd != "" {
      payload := payload["cwd" := Text(input.cwd)];
    }
    ghost var p1 := With(map[], "cwd", input.cwd);
    assert payload == p1;
    if input.reason != "" {
      payload := payload["reason" := Text(input.reason)];
    }
    ghost var p2 := With(p1, "reason", input.reason);
    assert payload == p2;
    if input.prompt != "" {
      payload := payload["prompt" := Text(input.prompt)];
    }
    ghost var p3 := With(p2, "prompt", input.prompt);
    assert payload == p3;
    if input.message != "" {
      payload := payload["message" := Text(input.message)];
    }
    ghost var p4 := With(p3, "message", input.message);
    assert payload == p4;
    var title := ClaudeTitle(input, kind.value);
    if title != "" {
      payload := payload["title" := Text(title)];
    }
    assert payload == With(p4, "title", title);
    return Some(Event("", input.sessionId, "claude", kind.value, Some(now), payload,
                      ClaudeNotify(input.notificationType, input.message), NO_IDENTITY, ""));
  }

  /** Who ran the hook and when. */
  datatype Stamp = Stamp(now: int, identity: Identity, hostId: string)

  /** The event as it is published: with the agent's fingerprint and the host's name attached. */
  function ClaudeSent(input: ClaudeInput, stamp: Stamp): Option<StampedEvent> {
    match ClaudeEvent(input, stamp.now)
    case None => None
    case Some(e) => Some(e.(identity := stamp.identity, hostId := stamp.hostId))
  }

  datatype Call = Call(input: ClaudeInput, stamp: Stamp)

  function ClaudeEvents(calls: seq<Call>): seq<StampedEvent> {
    if calls == [] then []
    else
      var c := calls[|calls| - 1];
      var e := ClaudeSent(c.input, c.stamp);
      ClaudeEvents(calls[..|calls| - 1]) + if e.Some? then [e.value] else []
  }

  function WithoutCompactions(calls: seq<Call>): seq<Call> {
    if calls == [] then []
    else
      var c := calls[|calls| - 1];
      WithoutCompactions(calls[..|calls| - 1]) + if IsCompaction(c.input) then [] else [c]
  }

  /** Compactions scattered anywhere in a hook stream leave the events sent, hence the whole store, as they were. */
  lemma {:induction false} CompactionsAreInvisible(calls: seq<Call>)
    ensures ClaudeEvents(calls) == ClaudeEvents(WithoutCompactions(calls))
  {
    if calls != [] {
      var c := calls[|calls| - 1];
      var kept := WithoutCompactions(calls[..|calls| - 1]);
      CompactionsAreInvisible(calls[..|calls| - 1]);
      assert (kept + [c])[..|kept|] == kept && kept + [] == kept;
    }
  }

  /** Which Claude hooks reach the daemon: the six known ones, but no start that a compaction fired. */
  lemma ClaudeHeard(input: ClaudeInput, stamp: Stamp)
    ensures ClaudeSent(input, stamp).Some? <==>
      && input.hookEventName in ["SessionStart", "UserPromptSubmit", "PreToolUse", "Notification", "Stop", "SessionEnd"]
      && !(input.hookEventName == "SessionStart" && input.source == "compact")
    ensures ClaudeSent(input, stamp).Some? ==>
      var e := ClaudeSent(input, stamp).value;
      && e.agent == "claude" && e.nativeId == input.sessionId && e.sessionId == ""
      && e.timestamp == Some(stamp.now) && e.identity == stamp.identity && e.hostId == stamp.hostId
  {
    hide ClaudePayload, ClaudeNotify;
  }

  /** The notification types that do not mean the agent is blocked. */
  const UNBLOCKED: set<string> := {"idle_prompt", "auth_success", "elicitation_complete", "elicitation_response"}

  lemma TypedNotify(typ: string)
    requires typ != ""
    ensures NotifyTypeOf(typ) in {IdlePrompt, AuthSuccess, ElicitationComplete, ElicitationResponse}
      <==> typ in UNBLOCKED
  {
  }

  lemma OnlyNotificationsNotify(name: string)
    ensures ClaudeKind(name) == Some(Notification) <==> name == "Notification"
  {
  }

  /**
   Which Claude hooks say the agent is blocked: a notification whose type, or
   message when it has no type, is neither an idle reminder nor the end of a
   block. A message asking for permission counts even if it also says it waits.
   */
  lemma ClaudeBlocks(input: ClaudeInput, now: int, asks: bool, reminds: bool)
    requires ClaudeEvent(input, now).Some?
    requires asks == HasSubstring(input.message, "needs your permission")
    requires reminds == HasSubstring(input.message, "waiting for your input")
    ensures Blocks(ClaudeEvent(input, now).value) <==>
      input.hookEventName == "Notification"
      && (if input.notificationType != "" then input.notificationType !in UNBLOCKED else asks || !reminds)
  {
    var e := ClaudeEvent(input, now).value;
    OnlyNotificationsNotify(input.hookEventName);
    assert Blocks(e)
      <==> e.kind == Notification && e.notify !in {IdlePrompt, AuthSuccess, ElicitationComplete, ElicitationResponse};
    if input.notificationType != "" {
      TypedNotify(input.notificationType);
    }
  }

  // ---- opencode ----

  /** A JSON field read into a Go string: absent and null leave it "". */
  datatype Field = Absent | Str(s: string) | WrongType

  datatype Info = NoInfo | Info(directory: Field, title: Field)

  /** An opencode plugin event. */
  datatype Message = Message(kind: string, sessionId: Field, info: Info)

  function FieldText(f: Field): string {
    if f.Str? then f.s else ""
  }

  function TitleText(info: Info): string {
    if info.Info? then FieldText(info.title) else ""
  }

  predicate Decodes(m: Message) {
    !m.sessionId.WrongType? && (m.info.Info? ==> !m.info.directory.WrongType? && !m.info.title.WrongType?)
  }

  function OpencodeKind(name: string): Option<EventKind> {
    if name == "session.created" || name == "session.updated" then Some(SessionStart)
    else if name == "session.title" then Some(Title)
    else if name == "permission.asked" then Some(Notification)
    else if name == "session.idle" then Some(Stop)
    else if name == "session.error" then Some(Fail)
    else None
  }

  function OpencodePayload(info: Info): Payload {
    if info.NoInfo? then map[]
    else With(With(map[], "cwd", FieldText(info.directory)), "title", FieldText(info.title))
  }

  function OpencodeEvent(m: Message, stamp: Stamp): Option<StampedEvent> {
    var kind := OpencodeKind(m.kind);
    if !Decodes(m) || kind.None? || FieldText(m.sessionId) == "" then None
    else Some(Event("", FieldText(m.sessionId), "opencode", kind.value, Some(stamp.now), OpencodePayload(m.info),
                    NoNotify, stamp.identity, stamp.hostId))
  }

  method ParseOpencode(m: Message, stamp: Stamp) returns (r: Option<StampedEvent>)
    ensures r == OpencodeEvent(m, stamp)
  {
    if !Decodes(m) {
      return None;
    }
    var kind := OpencodeKind(m.kind);
    if kind.None? {
      return None;
    }
    if FieldText(m.sessionId) == "" {
      return None;
    }
    var payload: Payload := map[];
    if m.info.Info? {
      if FieldText(m.info.directory) != "" {
        payload := payload["cwd" := Text(FieldText(m.info.directory))];
      }
      if FieldText(m.info.title) != "" {
        payload := payload["title" := Text(FieldText(m.info.title))];
      }
    }
    return Some(Event("", FieldText(m.sessionId), "opencode", kind.value, Some(stamp.now), payload,
                      NoNotify, stamp.identity, stamp.hostId));
  }

  /**
   Which opencode events reach the daemon: those of the six known kinds with a
   session id and no wrongly typed field.
   */
  lemma OpencodeHeard(m: Message, stamp: Stamp)
    ensures OpencodeEvent(m, stamp).Some? <==>
      && m.kind in ["session.created", "session.updated", "session.title",
                    "permission.asked", "session.idle", "session.error"]
      && m.sessionId.Str? && m.sessionId.s != ""
      && (m.info.Info? ==> !m.info.directory.WrongType? && !m.info.title.WrongType?)
    ensures OpencodeEvent(m, stamp).Some? ==>
      var e := OpencodeEvent(m, stamp).value;
      && e.agent == "opencode" && e.nativeId == m.sessionId.s && e.sessionId == ""
      && e.timestamp == Some(stamp.now) && e.identity == stamp.identity && e.hostId == stamp.hostId
  {
    hide OpencodePayload;
  }

  lemma OpencodeTitle(m: Message, stamp: Stamp)
    requires OpencodeEvent(m, stamp).Some?
    ensures AsString(OpencodeEvent(m, stamp).value.payload, "title") == TitleText(m.info)
    ensures AsString(OpencodeEvent(m, stamp).value.payload, "cwd") ==
      if m.info.Info? && m.info.directory.Str? then m.info.directory.s else ""
  {
  }
}
