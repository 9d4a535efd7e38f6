/**
 The domain types (internal/session/session.go): states, events and the pure
 state machine that says what an event means for a session.

 Times are whole Unix seconds, as the store keeps them. A Go `""` state ("no
 change", "unknown session") is None here.
 */
module Session {
  import opened Wrappers

  datatype State = Running | Waiting | Idle | Finished | Failed | Dead

  datatype EventKind =
    | SessionStart | UserPrompt | ToolUse | Notification | Stop | SessionEnd | Fail | Note | Title
    | OtherKind(name: string)

  datatype NotifyType =
    | NoNotify
    | PermissionPrompt | IdlePrompt | AuthSuccess | ElicitationDialog | ElicitationComplete | ElicitationResponse
    | OtherNotify(name: string)

  /** A process fingerprint; pid 0 means "not captured". */
  datatype Identity = Identity(pid: int, start: nat, bootId: string)

  const NO_IDENTITY := Identity(0, 0, "")

  /** A payload value. A non-string one is kept only as the text SQLite extracts for it ("" for null). */
  datatype Value = Text(text: string) | NonText(sqlText: string)

  type Payload = map<string, Value>

  /** An event on the bus. A missing timestamp is the Go zero time. */
  datatype Event = Event(
    sessionId: string,
    nativeId: string,
    agent: string,
    kind: EventKind,
    timestamp: Option<int>,
    payload: Payload,
    notify: NotifyType,
    identity: Identity,
    hostId: string)

  /** An event as the daemon handles it: with a timestamp. */
  type StampedEvent = e: Event | e.timestamp.Some?
    witness Event("", "", "", Note, Some(0), map[], NoNotify, NO_IDENTITY, "")

  /** The payload entry if it is a string, else "" (Go's comma-ok type assertion). */
  function AsString(p: Payload, key: string): string {
    if key in p && p[key].Text? then p[key].text else ""
  }

  const TERMINAL_STATES: set<State> := {Finished, Dead}

  predicate IsTerminal(s: State) {
    s in TERMINAL_STATES
  }

  function NextState(k: EventKind): Option<State> {
    match k
    case UserPrompt | ToolUse | Note => Some(Running)
    case SessionStart | Stop => Some(Idle)
    case SessionEnd => Some(Finished)
    case Fail => Some(Failed)
    case _ => None
  }

  function Transition(cur: Option<State>, e: Event): Option<State> {
    if e.kind != Notification then NextState(e.kind)
    else match e.notify
      case ElicitationComplete | ElicitationResponse | AuthSuccess =>
        if cur == Some(Waiting) then Some(Running) else None
      case PermissionPrompt | ElicitationDialog => Some(Waiting)
      case IdlePrompt => None
      case _ => Some(Waiting)
  }

  function ParseState(s: string): Option<State> {
    if s == "running" then Some(Running)
    else if s == "waiting" then Some(Waiting)
    else if s == "idle" then Some(Idle)
    else if s == "finished" then Some(Finished)
    else if s == "failed" then Some(Failed)
    else None
  }

  /** An answered question or a completed login: the only events whose meaning depends on the current state. */
  predicate Resumes(e: Event) {
    e.kind == Notification && e.notify in {ElicitationComplete, ElicitationResponse, AuthSuccess}
  }

  /** The state an event always leads to, whatever the current one; None when it never changes the state. */
  function Settles(e: Event): Option<State>
    requires !Resumes(e)
  {
    Transition(None, e)
  }

  /** The agent is blocked on the user. */
  predicate Blocks(e: Event) {
    e.kind == Notification && !Resumes(e) && e.notify != IdlePrompt
  }

  /** Idle pings, titles and unknown kinds: they never change a state. */
  predicate Neutral(e: Event) {
    !Resumes(e) && Settles(e) == None
  }

  /**
   Neither an event nor a user can put a session in Dead, the current state
   matters to resuming notifications only, and neutral events are exactly idle
   pings, titles and unknown kinds.
   */
  lemma TransitionFacts(cur: Option<State>, e: Event, s: string)
    ensures Transition(cur, e) != Some(Dead) && ParseState(s) != Some(Dead)
    ensures !Resumes(e) ==> Transition(cur, e) == Settles(e)
    ensures Resumes(e) ==> Transition(cur, e) in {None, Some(Running)}
    ensures Neutral(e) <==> e.kind in {Title} || e.kind.OtherKind? || (e.kind == Notification && e.notify == IdlePrompt)
    ensures Transition(cur, e) == Some(Waiting) <==> Blocks(e)
  {
  }

  /** Which events ask for which state, event by event. */
  lemma TransitionTable(cur: Option<State>, e: Event)
    ensures var next := Transition(cur, e);
      && (next == Some(Finished) <==> e.kind == SessionEnd)
      && (next == Some(Failed) <==> e.kind == Fail)
      && (next == Some(Idle) <==> e.kind in {SessionStart, Stop})
      && (next == Some(Waiting) <==>
            e.kind == Notification && e.notify !in {IdlePrompt, ElicitationComplete, ElicitationResponse, AuthSuccess})
      && (next == Some(Running) <==>
            || e.kind in {UserPrompt, ToolUse, Note}
            || (cur == Some(Waiting) && e.kind == Notification
                && e.notify in {ElicitationComplete, ElicitationResponse, AuthSuccess}))
      && next != Some(Dead)
  {
  }

  /** The word a state is known by, in the database and on the command line. */
  function Spelling(s: State): string {
    match s
    case Running => "running"
    case Waiting => "waiting"
    case Idle => "idle"
    case Finished => "finished"
    case Failed => "failed"
    case Dead => "dead"
  }

  /** A user can ask for every state but dead, each by its own word and by no other. */
  lemma ParseStateSpelling(text: string, s: State)
    ensures ParseState(text) == Some(s) <==> s != Dead && text == Spelling(s)
  {
  }
}
