# Verified model of the session manager

This project models how the session manager turns agent callbacks into session
rows, and proves what its comments and documents promise about those rows: over
every interleaving of the daemon with CLI processes, over every delivery order,
across a transcript cut in the middle of a line, and through start-up and
shutdown. `dafny verify dfyconfig.toml` checks it.

| file | models |
|---|---|
| `session.dfy` | states, events and the transition function |
| `database.dfy` | the database as a value, each SQL statement as one atomic step |
| `eventlog.dfy`, `reaping.dfy` | the event order shown to the user; what the two reapers change |
| `store.dfy` | the `Store` object: statements, reaper loops, migration, in-place reversal |
| `handling.dfy`, `daemon.dfy` | one event handled without interference; the `Handler` object and the waiting-count file |
| `delivery.dfy` | whole runs of the daemon, events and sweeps: identity mapping, delivery order, look-back reading of `waiting` |
| `interleaving.dfy`, `resume.dfy`, `remote.dfy` | daemon, reapers and `sm mark` interleaved statement by statement; resume races; sessions of other hosts |
| `decimal.dfy`, `liveness.dfy` | the `/proc` stat parser, the ancestor walk, the liveness probe |
| `json.dfy`, `printing.dfy` | JSON texts as bytes; that the recogniser accepts exactly the spellings of JSON values |
| `transcript.dfy`, `records.dfy` | the title scan over a transcript's tail; titles by how their lines are spelled |
| `hook.dfy`, `plugin.dfy` | Claude and opencode hooks; the opencode plugin composed with the hook and the daemon |
| `endtoend.dfy` | from an agent's callback to the session's row |
| `lifecycle.dfy` | the start-up and shutdown protocol |
| `prefix.dfy` | resolving a session by id prefix |

Times are whole Unix seconds and unbounded integers. What comes from outside is
a parameter: the clock, the id offered for a new session (taken to be unused in
rows and events, as 128 random bits are), the contents of `/proc`, the order in
which a SELECT returns rows, and the contents of a transcript.

A step of the interleaved system is a function of its label, so a run is any
sequence of labels: receiving an event, starting a reap or a mark, the next
statement of an actor, a failed statement, a killed process, or a change of the
process table. Every theorem about runs holds for all of them.

Where the code and its documentation disagree, the model follows the code:

- `README.md:237` offers `sm mark <id> dead`; `ParseState` rejects `dead`, so only reapers ever write it.
- `docs/state-model-design.md:38-45` has the mapping of an earlier version; the model has the one in `session.go`.
- Terminal states are not absorbing: an event of a resumed session revives a dead or finished one.
- A prefix in `sm show` or `sm mark` is a LIKE pattern, so `_` and `%` in it are wildcards and letters match in either case.

Six promises hold only under a condition, which is stated and proved exactly:

- A resumed session is never lost to a reaper if its event is strictly newer than the row (`ResumeWinsEveryRace`). Otherwise it can be lost exactly when a reap pass in flight already holds a threatening snapshot at the row's very time, or when the row is dead and the event older (`ResumeLosesExactly`); on a non-terminal row that shows another process such a pass can always come first (`StaleRowLosesExactly`). In general a reap takes effect exactly when the row's time is still the snapshot's (`ReapOutcome`).
- The stored opencode title is the last one reported unless that report was dropped as a repeat although the title last told is another (`TitleIsPreserved`; `SomeRepeatIsMasked` gives the input).
- The plugin's dropping of repeated starts leaves a session's status alone unless the daemon first hears of it in a title: its first report does not decode, and a later one with another title does, before any forwarded event (`StatusIsPreserved`; `WrongTypedTitleLosesStart` gives the input).
- The store is safe at shutdown if Drain returned without timing out. After a timeout, or a failed start, which never drains, it is safe exactly when nothing was left to drain (`ClosingIsSafeUnlessPending`; `SomeTimeoutTouches` and `SomeFailedStartTouches` give the runs).
- A session resolves by id prefix as promised exactly for prefixes that are spelled as ids are, contain a character no id has, or are too long for any match (`ResolvesExactly`; `UnderscoreIsAWildcard` gives inputs that fail).
- A readable token means a subscribed bus only when there was no token file at start (`OldTokenPromisesNothing`).

## Model
| member | source | states |
|---|---|---|
| Session.TransitionFacts | internal/session/session.go:108-180 | neither events nor `sm mark` can produce `dead`; only resuming notifications look at the current state, and they lead to running or nowhere; an event asks for waiting exactly when it says the agent is blocked |
| Session.TransitionTable | internal/session/session.go:108-180 | which events lead to which state, for every state, event and notification type |
| Session.ParseStateSpelling | internal/session/session.go:136-144 | `sm mark` accepts the word of every state but dead, and no other word |
| Decimal.ParseUintFormat | internal/liveness/liveness.go:143-152 | every start time up to 2^64-1 is read back from its decimal text, and nothing larger is read as something else |
| Decimal.AtoiItoa | internal/liveness/liveness.go:132-141 | every 64-bit pid is read back from its decimal text, negative ones included |
| Liveness.StatRoundTrip | internal/liveness/liveness.go:113-128 | for every pid and every command name, with spaces and parentheses, the fields after the name are recovered exactly |
| Liveness.StatValues | internal/liveness/liveness.go:130-152 | parent pid and start time are fields 4 and 22 of the printed line, for every value in range |
| Liveness.ReusedPidIsDead | internal/liveness/liveness.go:71-93 | within a boot a fingerprint is alive exactly while its pid shows its own start time, so a reused pid is a dead process |
| Liveness.UncapturedIsDead | internal/liveness/liveness.go:74-93 | a fingerprint that was not captured, or in another boot, is dead on every table |
| Liveness.ClimbFinds | internal/liveness/liveness.go:52-68 | an ancestor the walk returns is the first one that is not a shell, within the cap |
| Liveness.ClimbReaches | internal/liveness/liveness.go:52-68 | the first non-shell ancestor within the cap is the one the walk returns |
| Liveness.ShellNames | internal/liveness/liveness.go:27-30 | exactly nine command names, as the kernel prints them, are taken for shells |
| Liveness.NamelessIsNoShell | internal/liveness/liveness.go:105-111 | a process whose name cannot be read is taken for the agent |
| Liveness.DefaultCap | internal/liveness/liveness.go:32-36 | the default walk finds the first non-shell ancestor exactly up to the sixteenth |
| Liveness.Capture | internal/liveness/liveness.go:43-69 | the loop ends on any process table, cyclic ones included, with the specified answer |
| Liveness.CaptureIsFirstAgent | internal/liveness/liveness.go:43-86 | capture succeeds exactly when the first non-shell ancestor is near enough and readable; what it captures is alive on the same table unless the boot id is blank |
| Database.LatestPromptIsMaximal | internal/store/store.go:116-125 | the latest prompt is the maximum by (ts, event id) among the session's prompts |
| Database.PromptShown | internal/store/store.go:120-125 | what the query shows of the latest prompt event: its `prompt` entry, "" if it has none |
| Database.ExecKeepsCache | internal/store/store.go:229-266 | `last_prompt` agrees with the event log after every statement, though only user_prompt appends recompute it |
| Database.FindNativeIsOwner | internal/store/store.go:174-188 | under the unique index the lookup returns the one row of an agent's session id |
| Database.ExecAdvances | internal/store/store.go:164-215 | no statement removes a row, changes its origin, moves `last_event_at` back, shortens the log or breaks the unique index |
| EventLog.ChronologicalIsSorted | internal/store/store.go:521-524 | the event list is strictly ascending by (ts, id) and holds exactly the session's events |
| EventLog.ReversedLimit | internal/store/store.go:522-553 | newest first, limited and reversed is the last `limit` of oldest first, for every limit |
| Reaping.SweepIsExact | internal/store/store.go:309-435 | the two reap passes touch disjoint rows and commute; together they kill exactly the local rows whose process is gone and the remote rows silent past the cutoff |
| Reaping.SweepRowByRow | internal/store/store.go:309-435 | row by row: a session of this host that is neither finished nor dead dies exactly if it has a pid whose process is gone, one of another host exactly if silent past the cutoff, and nothing else changes |
| Reaping.SweepIsIdempotent | internal/daemon/daemon.go:205-234 | a row changes exactly when it is one of those, and a second sweep changes nothing |
| Stores.MigrationFillsCache | internal/store/store.go:127-160 | a migration with its backfill establishes the prompt cache from any old database; with all columns present it is the identity; if the column exists without backfill, the cache holds only if it held already |
| Stores.OldRowsHaveNoProcess | internal/store/store.go:127-160 | what an old row says in the columns it did not have; without a pid it is not probed |
| Stores.Store.AddColumns | internal/store/store.go:131-144 | only missing columns are added, with their defaults, whatever the order |
| Stores.Store.Migrate | internal/store/store.go:127-160 | the statements amount to the migration the lemma is about |
| Stores.Store.CreateSession | internal/store/store.go:164-172 | inserts the row, or fails and changes nothing if the id or the (agent, native id) pair is taken |
| Stores.Store.FindSessionByNative | internal/store/store.go:174-188 | returns the mapped session, none for an empty native id |
| Stores.Store.UpdateIdentity | internal/store/store.go:190-199 | changes one row's fingerprint and nothing else |
| Stores.Store.UpdateStatus | internal/store/store.go:201-215 | changes status and time only if the event is at least as recent, and reports whether it did |
| Stores.Store.AppendEvent | internal/store/store.go:229-266 | event, recomputed prompt and carried title become visible together |
| Stores.Store.ReadSnapshots | internal/store/store.go:328-344 | each selected row is snapshot once, as it was |
| Stores.Store.ReapStale | internal/store/store.go:309-365 | kills exactly the probed-dead local rows, keeps their times, and reports exactly those, each once |
| Stores.Store.ReapRemoteStale | internal/store/store.go:373-421 | kills exactly the stale remote rows, keeps their times, and reports exactly those, each once |
| Stores.Store.RecentEvents | internal/store/store.go:521-555 | the in-place reversal yields exactly the last `limit` events, oldest first |
| Handling.ResolveEffect | internal/daemon/daemon.go:236-275 | resolving an event finds or creates its row and refreshes the fingerprint if it carries one |
| Handling.HandleEffect | internal/daemon/daemon.go:151-186 | one event appends one log entry and changes one row, to its observed view, fingerprint and prompt |
| Handling.EventIsLogged | internal/daemon/daemon.go:158-166 | every event is logged with its kind and payload, and with the daemon's time if it had none |
| Handling.FirstContact | internal/daemon/daemon.go:256-274 | after first contact the row has the key, host, directory, time and fingerprint of the event, and the daemon's host only if the event names none |
| Handling.HandleKeepsMapping | internal/daemon/daemon.go:236-275 | afterwards the event's key is mapped to its session and the index is still unique |
| Handling.HandleKeepsCache | internal/daemon/daemon.go:151-186 | handling an event keeps the prompt cache |
| Handling.UnknownExplicitSession | internal/daemon/daemon.go:238-241 | an event naming an unknown session is logged without a row |
| Daemon.SilentStepKeepsCount | internal/daemon/daemon.go:171-185 | a handle or sweep that fires no sink leaves the number of waiting rows alone |
| Daemon.SameStatusesSameCount | internal/store/store.go:302-307 | the count depends only on which sessions are waiting, not on anything else in their rows |
| Daemon.CountAgreesThroughout | internal/alert/alert.go:28-37 | in a daemon-only run a count file that agrees goes on agreeing after every step, guarded-out updates included |
| Daemon.SinkRestoresCount | internal/alert/alert.go:28-37 | however stale the file, one sink firing restores it for the rest of the run |
| Daemon.RunDelivers | internal/daemon/daemon.go:141-234 | a run with the count file does to the database what the runs of `delivery.dfy` do |
| Daemon.Handler.OnStateChange | internal/alert/alert.go:28-37 | the file gets the freshly queried count |
| Daemon.Handler.ResolveSession | internal/daemon/daemon.go:236-275 | explicit id, then (agent, native id), then a new row, with the one write each needs |
| Daemon.Handler.Handle | internal/daemon/daemon.go:151-186 | database and count file after handle are those of the specified step |
| Daemon.Handler.SweepStale | internal/daemon/daemon.go:205-234 | database and count file after sweep are those of the specified step |
| Delivery.RunAdvances | internal/daemon/daemon.go:236-275 | over any run rows stay, origins stay, times never go back, the index stays unique |
| Delivery.MappingAfter | internal/daemon/daemon.go:236-275 | a step of the daemon maps at most the key of its own event and leaves every other mapping alone |
| Delivery.MappingIsPermanent | internal/daemon/daemon.go:236-275 | a mapped key keeps its session forever, and two keys never share one |
| Delivery.RowsOfRun | internal/daemon/daemon.go:236-275 | a run adds one row per distinct new key plus one per event with neither a session nor a native id; sweeps and events that name a session add none |
| Delivery.SessionsAreIndependent | internal/daemon/daemon.go:141-186 | a session's row is a fold over its own events, those that name it included, however sessions interleave and whatever sweeps spare it |
| Delivery.SubstreamByKey | internal/daemon/daemon.go:236-275 | a session that no event names itself is told exactly the events with its key |
| Delivery.BestIsWinner | internal/store/store.go:201-215 | the event found in one pass is the last-delivered among the newest state-bearing ones not older than the row, or than first contact |
| Delivery.FoldFollowsBest | internal/store/store.go:201-215 | folding a stream through the recency guard, onto an existing row or from first contact, ends in that event's state and time |
| Delivery.ClosedForm | internal/store/store.go:201-215 | final status and time of any delivery order, ties included, for existing and new sessions, without replaying it |
| Delivery.StatusAfterRun | internal/daemon/daemon.go:151-186 | the same in the database, for a session with or without a row before the run, among any other events the daemon handles and sweeps that spare it |
| Delivery.LatestIsOrderFree | internal/store/store.go:201-206 | under the recency rule writes of different seconds end in the same value however they are reordered or repeated |
| Delivery.FoldIsLatest | internal/store/store.go:201-215 | status and time of a session are a register under that rule |
| Delivery.DeliveryOrderIsIrrelevant | internal/store/store.go:201-248 | two runs delivering the same events of a session, new or known, in different orders and any of them repeatedly, no two state-bearing ones in one second, agree on status, time and prompt |
| Delivery.RunKeepsCache | internal/store/store.go:244-254 | the prompt cache holds after every run |
| Delivery.LogOfSession | internal/store/store.go:234-243 | a run adds to a session's log exactly that session's events, in order of delivery |
| Delivery.PromptIsLatest | internal/store/store.go:116-125 | the prompt query over the whole log is the recency rule over the session's own prompts |
| Delivery.WaitingMeansBlocked | internal/session/session.go:146-180 | events in order: waiting exactly when the last one that is not an idle ping, title or unknown kind blocked, or when there was none and the session was waiting before |
| Delivery.WaitingAfterRun | internal/daemon/daemon.go:171-179 | the same in the database, for a session with or without a row before the run, among any other events the daemon handles and sweeps that spare it |
| Delivery.StateReadsBack | internal/session/session.go:108-180 | events in order: each of the six states is characterised by the last event that declares one and, after a block, by whether it was answered since |
| Delivery.StateReadsBackAfterRun | internal/daemon/daemon.go:171-179 | the same in the database, for a session with or without a row before the run, among any other events the daemon handles and sweeps that spare it |
| Interleaving.PlanFacts | internal/cli/cli.go:21-31 | in reachable states only reapers write `dead`, never from a snapshot newer than the row, and the daemon's INSERT always succeeds |
| Interleaving.StepKeepsDatabase | internal/store/store.go:194-266 | every step of every process keeps prompt cache, unique index, row origins and time order |
| Interleaving.StepKeepsRows | internal/store/store.go:207-215 | after every step each row holds its last accepted write |
| Interleaving.StepKeepsHistory | internal/store/store.go:346-364 | accepted writes to a row never go back in time; an accepted reap keeps the time it found |
| Interleaving.PlanKeepsSnapshots | internal/store/store.go:317-344 | a reaper's snapshots are never newer than their rows, and each pass holds rows of the right hosts |
| Interleaving.PlanKeepsReport | internal/store/store.go:351-363 | what a reaper will report is exactly what its own updates changed, whoever else writes |
| Interleaving.PlanKeepsHandler | internal/daemon/daemon.go:141-149 | under the mutex only the daemon handles, and no row appears for a key it is about to create |
| Interleaving.StepKeepsInv | internal/daemon/daemon.go:151-234 | all of the above survive any step: statement, failure, kill, or process change |
| Interleaving.RunKeepsInv | internal/cli/cli.go:21-31 | over every run each row's `last_event_at` never decreases and all invariants hold |
| Interleaving.EveryReachableState | internal/daemon/daemon.go:151-234 | every state reachable from any database just opened satisfies them |
| Resume.ReapOutcome | internal/store/store.go:351-363 | a reaper's UPDATE takes effect exactly when the row's time is still the snapshot's; it then changes the status alone and is reported, else nothing happens |
| Resume.DeadMeansReaped | internal/session/session.go:136-144 | a dead row was last written by a reaper |
| Resume.RefreshProtects | internal/daemon/daemon.go:248-252 | once the fingerprint is stored, every snapshot in flight is too old to kill past the row's time |
| Resume.ProtectionSurvives | internal/store/store.go:317-365 | no step of any process undoes that while the process lives |
| Resume.ResumeWinsEveryRace | internal/store/store.go:190-215 | a strictly newer event of a live local session leaves it not dead at every later point, against any number of reapers in any interleaving |
| Resume.HandlerReachesWrite | internal/daemon/daemon.go:162-179 | such runs exist from every such state: left alone, the handler of an event that settles the state gets to its status write |
| Resume.StatusWriteWins | internal/daemon/daemon.go:162-179 | the status write decides the race for good |
| Resume.NewSessionIsSafe | internal/daemon/daemon.go:257-274 | a session created for a live local process is never marked dead while that lives |
| Resume.SameSecondLosesRace | internal/store/store.go:351-354 | an event no newer than the row does lose to a reaper that probed the old process and whose snapshot still has the row's time |
| Resume.ResumeLosesExactly | internal/store/store.go:346-364 | any local row, finished or dead ones included: some continuation loses the resumed session if and only if the event is not strictly newer than the row and a reap pass in flight holds a snapshot of it at its very time, condemned or of another process, or the row is dead and the event older |
| Resume.StaleRowLosesExactly | internal/store/store.go:317-364 | for a non-terminal row that shows another process such a pass can always come first, so it can be lost if and only if the event is not strictly newer |
| Resume.HandleAlone | internal/daemon/daemon.go:151-186 | without interference the daemon's statements amount to one call of handle |
| Resume.MarkAlone | internal/cli/cli.go:130-173 | without interference a mark sets state and time and logs a note, or does nothing if its word is no state or the row is newer |
| Resume.FailedStatement | internal/daemon/daemon.go:158-221 | a failed statement changes nothing; where the handler, the sweep and the CLI go on and where they give up |
| Resume.UnloggedEventStillCounts | internal/daemon/daemon.go:164-179 | an event that cannot be logged still has its effect on the status |
| Resume.BusyActorsStartNothing | internal/daemon/daemon.go:141-156 | an actor that is busy starts nothing else, an unknown session is not marked, and a killed process leaves the database as its last statement left it |
| Resume.LocalPassAlone | internal/store/store.go:346-364 | without interference a local pass kills exactly the local rows whose process is gone, and will report exactly those, in snapshot order |
| Resume.RemotePassAlone | internal/store/store.go:395-421 | without interference a remote pass kills and will report exactly the rows silent past the cutoff |
| Resume.SweepAlone | internal/daemon/daemon.go:205-234 | without interference both passes of any actor amount to one call of sweep, with the local reaps and then the remote ones to report |
| Remote.RemoteSessionIsNeverProbed | internal/daemon/daemon.go:256-274 | over every run, a session whose first event names another host is in no local pass's snapshots, and no statement of a local pass changes its row |
| Remote.HeardInTimeIsSpared | internal/store/store.go:373-421 | over every run, a remote pass never changes a session heard of at or after its cutoff, be it since the snapshot |
| Json.ValuePasses | internal/hook/hook.go:196-200 | a JSON value leaves the string-and-nesting scanner where it found it |
| Json.InsideIsDeep | internal/hook/hook.go:163-166 | between its braces an object text is at least one level deep |
| Json.NoProperSuffix | internal/hook/hook.go:163-166 | no proper suffix of an object text is an object text, so a cut line does not parse as a record |
| Printing.ReadsDoc | internal/hook/hook.go:196-202 | every spelled value is read to its end |
| Printing.DocOf | internal/hook/hook.go:196-202 | whatever is read as a value is the spelling of one |
| Printing.ObjectTexts | internal/hook/hook.go:196-202 | the recogniser accepts exactly the spellings of JSON objects, white space, escapes, numbers and nesting included |
| Transcript.FilterIsSafe | internal/hook/hook.go:191-195 | skipping lines without the quoted type before parsing loses no record |
| Transcript.LinesAtNewlines | internal/hook/hook.go:188-191 | lines end at newlines and lose one carriage return |
| Transcript.TitleFromTranscript | internal/hook/hook.go:167-206 | the loop returns the title of the last record line in the window, "" if the file cannot be read |
| Transcript.FragmentIsNoRecord | internal/hook/hook.go:163-166 | a transcript line cut after its first byte is no record |
| Transcript.FragmentIsSkipped | internal/hook/hook.go:180-205 | from any offset the scan finds what the lines starting there or later hold, if the one line cut is an object text |
| Transcript.ScanIsExact | internal/hook/hook.go:133-138 | the scan returns the last ai-title starting inside the final 64 KiB, whatever the other lines are, if the line the window cuts is an object text |
| Transcript.WindowIsEnough | internal/hook/hook.go:133-138 | if some ai-title line starts in the window, the scan agrees with reading the whole file |
| Transcript.NoTitleInWindow | internal/hook/hook.go:136-138 | if none does, no title is reported |
| Records.ReadsRecord | internal/hook/hook.go:196-202 | the members read from an object are those it spells, in order |
| Records.StringFieldFails | internal/hook/hook.go:196-202 | a string field is an error exactly if some value given for it, other than null, is no string |
| Records.StringFieldIsLastGiven | internal/hook/hook.go:196-202 | else it is the last value given, empty if there is none |
| Records.TitleOfRecordLine | internal/hook/hook.go:155-204 | a line spelled as Claude spells its records has the title in it if its type is ai-title, and else none |
| Records.ScanFindsSpelledTitle | internal/hook/hook.go:133-206 | if the last record line that starts within the last 65536 bytes spells a title, the scan returns it |
| Hook.ClaudePayloadFields | internal/hook/hook.go:89-131 | the payload holds exactly the non-empty ones of cwd, reason, prompt, message and title, each under its own name; where the title comes from |
| Hook.SubstringAnywhere | internal/hook/hook.go:219-223 | a phrase counts wherever in the message it stands |
| Hook.ClaudeHeard | internal/hook/hook.go:78-131 | which Claude hooks reach the daemon, and with what key, time, fingerprint and host |
| Hook.CompactionsAreInvisible | internal/hook/hook.go:100-106 | hook streams that differ in compactions only, scattered anywhere, send the same events |
| Hook.ClaudeBlocks | internal/hook/hook.go:208-225 | which Claude notifications count as blocking, by type and by message |
| Hook.OpencodeTitle | internal/hook/hook.go:283-317 | title and directory reach the payload unchanged |
| Hook.OpencodeHeard | internal/hook/hook.go:270-317 | which opencode events reach the daemon, and with what key, time, fingerprint and host |
| EndToEnd.ClaudeHookToRow | internal/hook/hook.go:78-131 | what each Claude hook does to the status of its session, from hook name and notification to the row |
| EndToEnd.ClaudeHookToTitle | internal/hook/hook.go:140-161 | and to its title |
| EndToEnd.OpencodeHookToRow | internal/hook/hook.go:270-340 | what each opencode event does to the status and title of its session |
| EndToEnd.ClaudePromptAfterRun | internal/store/store.go:229-266 | a session told by Claude's hooks shows the prompt of the latest prompt hook, the last delivered among equals, whatever else the daemon handles |
| EndToEnd.ClaudePromptAfterMigration | internal/store/store.go:146-160 | and so it does after a migration from a release without the column |
| Plugin.SmTracker.OnEvent | contrib/opencode-plugin/sm.ts:27-51 | what is announced and what is sent for one plugin event |
| Plugin.TrackerIsLatestTitle | contrib/opencode-plugin/sm.ts:28-45 | the plugin's map holds each session's latest reported title |
| Plugin.SentMeaning | contrib/opencode-plugin/sm.ts:35-50 | the first report and the forwarded kinds pass unchanged; a later report becomes a title event or nothing; what does not decode is lost either way |
| Plugin.StartArrives | contrib/opencode-plugin/sm.ts:36-45 | the daemon is told that a session starts if and only if the first created or updated event decodes |
| Plugin.StatusIsPreserved | contrib/opencode-plugin/sm.ts:36-45 | at every point status and time are those of the raw stream with every start after the first erased, exactly when the session had a row or the first event through is not the changed report of a session whose first report got lost |
| Plugin.HeardFirst | contrib/opencode-plugin/sm.ts:36-50 | that condition on the raw events says exactly that the first event the daemon hears is a title |
| Plugin.ErasedIsUntitled | contrib/opencode-plugin/sm.ts:36-45 | erasing repeated starts before the hook is the same as dropping title events after it |
| Plugin.FirstReportComesFirst | contrib/opencode-plugin/sm.ts:36-45 | it takes a first report that does not decode |
| Plugin.DaemonStatusIsPreserved | contrib/opencode-plugin/sm.ts:36-45 | so in the daemon's database a session ends in the state of the erased stream under that condition, among any other events the daemon handles and sweeps that spare it |
| Plugin.WrongTypedTitleLosesStart | contrib/opencode-plugin/sm.ts:41-45 | the input that fails: created with a wrongly typed title, then updated with a string; the row is made by a title and the start never arrives |
| Plugin.OneStartPerSession | contrib/opencode-plugin/sm.ts:36-40 | at most one start per session reaches the daemon |
| Plugin.ToldWhileAnnounced | contrib/opencode-plugin/sm.ts:41-50 | for well-typed events, while a title is announced the one told is the last forwarded since, or else the announced one |
| Plugin.MaskedByForwarded | contrib/opencode-plugin/sm.ts:41-50 | with titles as opencode declares them, only another title on a forwarded event can mask a repeat |
| Plugin.TitleIsPreserved | contrib/opencode-plugin/sm.ts:36-45 | for every stream, for new and known sessions, the stored title is the last non-empty one of the raw stream exactly when that last report is not a dropped repeat of a title other than the one last told |
| Plugin.DaemonTitleIsPreserved | internal/store/store.go:256-265 | the same in the daemon's database, among any other events the daemon handles and sweeps that spare it |
| Plugin.SomeRepeatIsMasked | contrib/opencode-plugin/sm.ts:41-50 | a masked stream, and the stale title it leaves |
| Plugin.NeverMasked | internal/hook/hook.go:259-262 | with well-typed titles on created and updated events only, nothing is masked and the last title is stored |
| Lifecycle.ShutdownIsSafe | internal/daemon/daemon.go:128-138 | handle and sweep never overlap; if Drain returned without timing out, nobody touches the closed store and every delivered message was handled, in order |
| Lifecycle.ServesUntilSignalled | internal/daemon/daemon.go:95-138 | without a signal the daemon never begins to shut down |
| Lifecycle.SomeDrainReturns | internal/daemon/daemon.go:128-138 | a run from start to a finished drain, with the delivered message handled |
| Lifecycle.ClosingIsSafeUnlessPending | internal/daemon/daemon.go:108-138 | the exact condition on every path that closes the bus, a failed start included: someone may yet use the closed store if and only if the subscription is still routed to or a message of it is unhandled |
| Lifecycle.NothingAfterClosing | internal/daemon/daemon.go:128-138 | once the bus is closed no message is delivered any more and none that was is taken up |
| Lifecycle.NoServerNoMessage | internal/bus/bus.go:181-190 | what is published while no server runs is neither delivered nor counted as lost |
| Lifecycle.ReadyWhenTokenReadable | internal/daemon/daemon.go:108-123 | on a fresh start a readable token means events are routed, and no client that read it loses one before shutdown |
| Lifecycle.TimeoutIsUnsafe | internal/bus/bus.go:163-179 | from any reachable drain a timeout can end in a use of the closed store if and only if there was something left to wait for |
| Lifecycle.SomeTimeoutTouches | internal/bus/bus.go:163-179 | a run from start to a timed-out drain under a running handler, which uses the closed store |
| Lifecycle.SomeFailedStartTouches | internal/daemon/daemon.go:108-123 | a run without any drain that uses the closed store: a failed start returns while a handler runs |
| Lifecycle.OldTokenPromisesNothing | internal/daemon/daemon.go:53-67 | with a token left over from an earlier run an early event is dropped |
| Prefix.ResolveByPrefix | internal/store/store.go:468-496 | two rows are enough to tell none, one and several matches apart |
| Prefix.LikeIsPrefix | internal/store/store.go:469-471 | without % the pattern is compared position by position, `_` fitting anything and letters either case |
| Prefix.ResolvesUniquePrefix | internal/store/store.go:437-466 | for every prefix that meets the condition below, a session resolves exactly when it is the only one whose id starts so |
| Prefix.ResolvesExactly | internal/store/store.go:437-496 | for ids of any one length, all sets of sessions are resolved as by true prefixes if and only if the prefix is spelled as ids are, contains a character no id has in either case, or is too long for any match |
| Prefix.UnderscoreIsAWildcard | internal/store/store.go:469-471 | the three ways to fail: an underscore, a percent sign and an upper-case letter resolve to sessions whose ids do not start so |

## Left out
- The NATS server, authentication and URL parsing: of the bus only routing, in-order delivery and the stated effects of Flush and Drain are modelled.
- SQLite itself: each statement or transaction is atomic; WAL, busy timeout, pragmas, file modes and context timeouts are not modelled.
- Errors inside the `Handler` and `Store` objects: their methods succeed; failing statements and killed processes are steps of the interleaved system instead, where the count file is not modelled.
- JSON decoding into Go structs beyond the grammar: keys are compared as spelled, string escapes are not undone, and malformed UTF-8 in strings is accepted.
- A transcript that grows while it is read.
- The order of `ListSessions`, and the focus command, printing, path helpers and logging: small lookups with no state of their own.
- The daemon's handling of a payload's bytes in SQLite: a non-string payload value is represented by the text SQLite extracts from it.
- The opencode plugin's own JSON serialisation: messages reach the hook as sent.
