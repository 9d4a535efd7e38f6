/**
 The opencode plugin (contrib/opencode-plugin/sm.ts) composed with the hook and
 the daemon. opencode reports the same session over and over; the plugin
 announces it once and afterwards forwards only changed titles, as title events.
 What the daemon ends up with must be what the raw stream meant.
 */
module Plugin {
  import opened Wrappers
  import opened Session
  import opened Database
  import opened Handling
  import opened Delivery
  import opened Hook

  const FORWARD: set<string> := {"permission.asked", "session.idle", "session.error"}

  predicate IsStart(m: Message) {
    m.kind == "session.created" || m.kind == "session.updated"
  }

  /** A session id the plugin accepts. */
  predicate HasSession(m: Message) {
    m.sessionId.Str? && m.sessionId.s != ""
  }

  /** What one plugin event sends, given the title last announced for its session. */
  function Sent(announced: Option<string>, m: Message): Option<Message> {
    if !HasSession(m) then None
    else if IsStart(m) then
      if announced == Some(TitleText(m.info)) then None
      else Some(m.(kind := if announced.Some? then "session.title" else "session.updated"))
    else if m.kind in FORWARD then Some(m)
    else None
  }

  function Lookup(announced: map<string, string>, id: string): Option<string> {
    if id in announced then Some(announced[id]) else None
  }

  function Tracked(announced: map<string, string>, m: Message): map<string, string> {
    if HasSession(m) && IsStart(m) then announced[m.sessionId.s := TitleText(m.info)] else announced
  }

  class SmTracker {
    var announced: map<string, string>

    constructor ()
      ensures announced == map[]
    {
      announced := map[];
    }

    method OnEvent(m: Message) returns (sent: Option<Message>)
      modifies this
      ensures announced == Tracked(old(announced), m)
      ensures sent == Sent(Lookup(old(announced), FieldText(m.sessionId)), m)
    {
      if !m.sessionId.Str? || m.sessionId.s == "" {
        return None;
      }
      var sid := m.sessionId.s;
      if m.kind == "session.created" || m.kind == "session.updated" {
        var title := TitleText(m.info);
        var seen := sid in announced;
        if seen && announced[sid] == title {
          assert announced[sid := title] == announced;
          return None;
        }
        announced := announced[sid := title];
        return Some(m.(kind := if seen then "session.title" else "session.updated"));
      }
      if m.kind in FORWARD {
        return Some(m);
      }
      return None;
    }
  }

  // ---- streams ----

  /** A raw opencode event, with the circumstances of the hook call it would lead to. */
  datatype Raw = Raw(m: Message, stamp: Stamp)

  predicate Of(m: Message, id: string) {
    m.sessionId == Str(id)
  }

  /** The title last announced for a session: that of its latest created or updated event. */
  function Announced(raw: seq<Raw>, id: string): Option<string> {
    if raw == [] then None
    else
      var m := raw[|raw| - 1].m;
      if Of(m, id) && IsStart(m) then Some(TitleText(m.info)) else Announced(raw[..|raw| - 1], id)
  }

  function AllTracked(raw: seq<Raw>): map<string, string> {
    if raw == [] then map[] else Tracked(AllTracked(raw[..|raw| - 1]), raw[|raw| - 1].m)
  }

  /** The plugin's map holds exactly the latest reported title of each session seen. */
  lemma {:induction false} TrackerIsLatestTitle(raw: seq<Raw>, id: string)
    requires id != ""
    ensures Lookup(AllTracked(raw), id) == Announced(raw, id)
  {
    if raw != [] {
      TrackerIsLatestTitle(raw[..|raw| - 1], id);
    }
  }

  function Parsed(m: Option<Message>, stamp: Stamp): seq<StampedEvent> {
    if m.None? then []
    else var e := OpencodeEvent(m.value, stamp); if e.None? then [] else [e.value]
  }

  /** The events of one session that reach the daemon through the plugin. */
  function Piped(raw: seq<Raw>, id: string): seq<StampedEvent> {
    if raw == [] then []
    else
      var earlier, last := raw[..|raw| - 1], raw[|raw| - 1];
      Piped(earlier, id) + if Of(last.m, id) then PipedOne(Announced(earlier, id), last) else []
  }

  /**
   The same events sent straight to the hook, with every created or updated event
   after the first erased, and whatever has the kind the plugin makes up.
   */
  function Erased(raw: seq<Raw>, id: string): seq<StampedEvent> {
    if raw == [] then []
    else
      var earlier, last := raw[..|raw| - 1], raw[|raw| - 1];
      Erased(earlier, id) + if Of(last.m, id) then ErasedOne(Announced(earlier, id), last) else []
  }

  /** What the daemon receives for one raw event of a session, given what was announced before. */
  function PipedOne(announced: Option<string>, last: Raw): seq<StampedEvent> {
    Parsed(Sent(announced, last.m), last.stamp)
  }

  function ErasedOne(announced: Option<string>, last: Raw): seq<StampedEvent> {
    if last.m.kind == "session.title" || (IsStart(last.m) && announced.Some?) then []
    else Parsed(Some(last.m), last.stamp)
  }

  /**
   The plugin passes the first report and the forwarded kinds on unchanged, and
   turns a later report into a title event or nothing; what does not decode is
   lost on either way.
   */
  lemma SentMeaning(announced: Option<string>, last: Raw, id: string)
    requires id != "" && Of(last.m, id)
    ensures var p, q := PipedOne(announced, last), ErasedOne(announced, last);
      if IsStart(last.m) && announced.Some?
      then q == [] && (p == [] || (|p| == 1 && p[0].kind == Title))
      else p == q && (if Decodes(last.m) && (IsStart(last.m) || last.m.kind in FORWARD)
                      then |p| == 1
                        && p[0].kind == (if IsStart(last.m) then SessionStart else OpencodeKind(last.m.kind).value)
                        && p[0].kind != Title
                      else p == [])
  {
  }

  // ---- status ----

  /** The first created or updated event of a session. */
  function FirstReport(raw: seq<Raw>, id: string): Option<Message> {
    if raw == [] then None
    else
      var earlier, m := FirstReport(raw[..|raw| - 1], id), raw[|raw| - 1].m;
      if earlier.Some? then earlier else if Of(m, id) && IsStart(m) then Some(m) else None
  }

  predicate HasStart(es: seq<StampedEvent>) {
    exists i :: 0 <= i < |es| && es[i].kind == SessionStart
  }

  /**
   The daemon is told that a session starts exactly when its first report decodes;
   later ones do not make up for it.
   */
  lemma {:induction false} StartArrives(raw: seq<Raw>, id: string)
    requires id != ""
    ensures HasStart(Piped(raw, id)) <==> FirstReport(raw, id).Some? && Decodes(FirstReport(raw, id).value)
    ensures FirstReport(raw, id).Some? <==> Announced(raw, id).Some?
  {
    hide OpencodeEvent, Sent, Parsed;
    if raw != [] {
      var earlier, last := raw[..|raw| - 1], raw[|raw| - 1];
      StartArrives(earlier, id);
      var p := Piped(earlier, id);
      if Of(last.m, id) {
        var announced := Announced(earlier, id);
        SentMeaning(announced, last, id);
        StartOf(p, PipedOne(announced, last));
      } else {
        assert p + [] == p;
      }
    }
  }

  lemma StartOf(p: seq<StampedEvent>, q: seq<StampedEvent>)
    ensures HasStart(p + q) <==> HasStart(p) || HasStart(q)
  {
    forall i | 0 <= i < |p| ensures (p + q)[i] == p[i] {
    }
    forall i | 0 <= i < |q| ensures (p + q)[|p| + i] == q[i] {
    }
  }

  function Untitled(es: seq<StampedEvent>): seq<StampedEvent> {
    if es == [] then []
    else Untitled(es[..|es| - 1]) + if es[|es| - 1].kind == Title then [] else [es[|es| - 1]]
  }

  lemma UntitledOneMore(es: seq<StampedEvent>, more: seq<StampedEvent>)
    requires |more| <= 1
    ensures Untitled(es + more) == Untitled(es) + if more == [] || more[0].kind == Title then [] else more
  {
    if more == [] {
      assert es + more == es;
    } else {
      assert (es + more)[..|es|] == es;
    }
  }

  /** Erasing repeated starts from the raw stream is the same as erasing titles from what arrives. */
  lemma {:induction false} ErasedIsUntitled(raw: seq<Raw>, id: string)
    requires id != ""
    ensures Erased(raw, id) == Untitled(Piped(raw, id))
  {
    hide OpencodeEvent, Sent, Parsed, Untitled;
    if raw == [] {
      UntitledOfNothing();
    } else {
      var earlier, last := raw[..|raw| - 1], raw[|raw| - 1];
      ErasedIsUntitled(earlier, id);
      if Of(last.m, id) {
        SentMeaning(Announced(earlier, id), last, id);
        UntitledOneMore(Piped(earlier, id), PipedOne(Announced(earlier, id), last));
      } else {
        UntitledOneMore(Piped(earlier, id), []);
      }
    }
  }

  lemma UntitledOfNothing()
    ensures Untitled([]) == []
  {
  }

  predicate SameState(a: Option<View>, b: Option<View>) {
    (a.None? <==> b.None?)
    && (a.Some? ==> a.value.status == b.value.status && a.value.lastEventAt == b.value.lastEventAt)
  }

  lemma {:induction false} FoldConcat(v: Option<View>, a: seq<StampedEvent>, b: seq<StampedEvent>)
    ensures Fold(v, a + b) == Fold(Fold(v, a), b)
  {
    if b == [] {
      assert a + b == a;
    } else {
      assert (a + b)[..|a + b| - 1] == a + b[..|b| - 1];
      FoldConcat(v, a, b[..|b| - 1]);
    }
  }

  lemma FoldOne(v: Option<View>, e: StampedEvent)
    ensures Fold(v, []) == v
    ensures Fold(v, [e]) == Some(Observe(Base(v, e), e))
  {
    assert [e][..0] == [];
  }

  /** The plugin drops the event: it repeats the announced title. */
  predicate Repeats(before: seq<Raw>, m: Message, id: string) {
    Of(m, id) && IsStart(m) && Announced(before, id) == Some(TitleText(m.info))
  }

  /** The event gets through plugin and hook to the daemon. */
  predicate Reaches(before: seq<Raw>, m: Message, id: string) {
    Of(m, id) && Decodes(m) && (m.kind in FORWARD || (IsStart(m) && !Repeats(before, m, id)))
  }

  /** The first event of a session that gets through. */
  function FirstThrough(raw: seq<Raw>, id: string): (r: Option<nat>)
    ensures r.Some? ==> r.value < |raw| && Reaches(raw[..r.value], raw[r.value].m, id)
  {
    if raw == [] then None
    else
      var n := |raw| - 1;
      var earlier := FirstThrough(raw[..n], id);
      if earlier.Some? then (assert raw[..n][..earlier.value] == raw[..earlier.value]; earlier)
      else if Reaches(raw[..n], raw[n].m, id) then Some(n) else None
  }

  /**
   The first event that gets through is a report of a session that was reported
   before: its first report did not decode, and a later one with another title
   does, before any forwarded event.
   */
  predicate TitleFirst(raw: seq<Raw>, id: string) {
    var i := FirstThrough(raw, id);
    i.Some? && IsStart(raw[i.value].m) && Announced(raw[..i.value], id).Some?
  }

  predicate StartsWithTitle(es: seq<StampedEvent>) {
    es != [] && es[0].kind == Title
  }

  lemma ReachingOne(before: seq<Raw>, last: Raw, id: string)
    requires id != "" && Of(last.m, id)
    ensures var p := PipedOne(Announced(before, id), last);
      && (p != [] <==> Reaches(before, last.m, id))
      && (StartsWithTitle(p) <==>
          Reaches(before, last.m, id) && IsStart(last.m) && Announced(before, id).Some?)
  {
    hide Announced;
  }

  /** What the daemon hears first is what the first event through becomes. */
  lemma {:induction false} HeardFirst(raw: seq<Raw>, id: string)
    requires id != ""
    ensures Piped(raw, id) != [] <==> FirstThrough(raw, id).Some?
    ensures StartsWithTitle(Piped(raw, id)) <==> TitleFirst(raw, id)
  {
    hide PipedOne, Reaches, Announced;
    if raw != [] {
      var n := |raw| - 1;
      HeardFirst(raw[..n], id);
      if FirstThrough(raw[..n], id).Some? {
        var i := FirstThrough(raw[..n], id).value;
        assert raw[..n][..i] == raw[..i];
      }
      if Of(raw[n].m, id) {
        ReachingOne(raw[..n], raw[n], id);
      } else {
        NotOwnNeverReaches(raw[..n], raw[n].m, id);
      }
    }
  }

  lemma NotOwnNeverReaches(before: seq<Raw>, m: Message, id: string)
    requires !Of(m, id)
    ensures !Reaches(before, m, id)
  {
  }

  lemma TitleIsSilent(u: View, e: StampedEvent)
    requires e.kind == Title
    ensures Observe(u, e).status == u.status && Observe(u, e).lastEventAt == u.lastEventAt
  {
  }

  lemma SameObservation(a: Option<View>, b: Option<View>, e: StampedEvent)
    requires SameState(a, b)
    ensures SameState(Some(Observe(Base(a, e), e)), Some(Observe(Base(b, e), e)))
  {
  }

  /** Titles change neither status nor time, unless one of them makes the row. */
  lemma {:induction false} TitlesAreSilent(v: Option<View>, es: seq<StampedEvent>)
    requires v.Some? || es == [] || es[0].kind != Title
    ensures SameState(Fold(v, es), Fold(v, Untitled(es)))
    ensures v.Some? || es != [] ==> Fold(v, es).Some?
  {
    hide Observe, Fold;
    FoldUnfolds(v, es);
    if es != [] {
      var n := |es| - 1;
      var u := Untitled(es[..n]);
      TitlesAreSilent(v, es[..n]);
      if es[n].kind != Title {
        FoldUnfolds(v, u + [es[n]]);
        assert (u + [es[n]])[..|u|] == u;
        SameObservation(Fold(v, es[..n]), Fold(v, u), es[n]);
      } else {
        assert u + [] == u;
        TitleIsSilent(Fold(v, es[..n]).value, es[n]);
      }
    }
  }

  lemma FoldUnfolds(v: Option<View>, es: seq<StampedEvent>)
    ensures Fold(v, es) == if es == [] then v
                           else Some(Observe(Base(Fold(v, es[..|es| - 1]), es[|es| - 1]), es[|es| - 1]))
  {
  }

  /** If a title makes the row, it does so at some prefix that the erased stream makes nothing of. */
  lemma {:induction false} TitleMakesRow(raw: seq<Raw>, id: string) returns (k: nat)
    requires id != "" && StartsWithTitle(Piped(raw, id))
    ensures k <= |raw| && Piped(raw[..k], id) == [Piped(raw, id)[0]]
  {
    var n := |raw| - 1;
    var earlier := Piped(raw[..n], id);
    assert raw[..n + 1] == raw;
    if earlier == [] {
      k := n + 1;
      SentMeaning(Announced(raw[..n], id), raw[n], id);
    } else {
      k := TitleMakesRow(raw[..n], id);
      assert raw[..n][..k] == raw[..k];
    }
  }

  /** After each raw event, the session is in the state that the erased stream would have put it in. */
  ghost predicate StatusAgrees(raw: seq<Raw>, id: string, v: Option<View>) {
    forall k: nat :: k <= |raw| ==> SameState(Fold(v, Piped(raw[..k], id)), Fold(v, Erased(raw[..k], id)))
  }

  lemma {:induction false} PipedPrefix(raw: seq<Raw>, k: nat, id: string)
    requires k <= |raw|
    ensures Piped(raw[..k], id) <= Piped(raw, id)
  {
    if k < |raw| {
      var n := |raw| - 1;
      assert raw[..n][..k] == raw[..k];
      PipedPrefix(raw[..n], k, id);
    } else {
      assert raw[..k] == raw;
    }
  }

  /**
   At every point the daemon gives a session the state of the erased stream,
   exactly when the session had a row before or is not first heard of in a title.
   */
  lemma StatusIsPreserved(raw: seq<Raw>, id: string, v: Option<View>)
    requires id != ""
    ensures StatusAgrees(raw, id, v) <==> v.Some? || !TitleFirst(raw, id)
  {
    hide Piped, Erased, Untitled, Observe, Fold, TitleFirst;
    HeardFirst(raw, id);
    if v.Some? || !TitleFirst(raw, id) {
      forall k: nat | k <= |raw| ensures SameState(Fold(v, Piped(raw[..k], id)), Fold(v, Erased(raw[..k], id))) {
        PipedPrefix(raw, k, id);
        ErasedIsUntitled(raw[..k], id);
        TitlesAreSilent(v, Piped(raw[..k], id));
      }
    } else {
      var k := TitleMakesRow(raw, id);
      var e := Piped(raw, id)[0];
      ErasedIsUntitled(raw[..k], id);
      UntitledOneMore([], [e]);
      UntitledOfNothing();
      assert [] + [e] == [e];
      FoldOne(v, e);
      assert !SameState(Fold(v, Piped(raw[..k], id)), Fold(v, Erased(raw[..k], id)));
    }
  }

  /** A title can come first only after a report that did not decode. */
  lemma FirstReportComesFirst(raw: seq<Raw>, id: string)
    requires id != "" && TitleFirst(raw, id)
    ensures FirstReport(raw, id).Some? && !Decodes(FirstReport(raw, id).value)
  {
    hide Reaches, Announced, Decodes, FirstReport;
    var i := FirstThrough(raw, id).value;
    ReportedBefore(raw, i, id);
  }

  lemma {:induction false} ReportedBefore(raw: seq<Raw>, i: nat, id: string)
    requires id != "" && FirstThrough(raw, id) == Some(i) && Announced(raw[..i], id).Some?
    ensures FirstReport(raw, id).Some? && !Decodes(FirstReport(raw, id).value)
  {
    hide Reaches, Decodes, PipedOne;
    NothingThroughYet(raw, i, id);
    HeardFirst(raw[..i], id);
    StartArrives(raw[..i], id);
    FirstReportStays(raw, i, id);
  }

  lemma {:induction false} NothingThroughYet(raw: seq<Raw>, i: nat, id: string)
    requires FirstThrough(raw, id) == Some(i)
    ensures FirstThrough(raw[..i], id) == None
  {
    hide Reaches;
    var n := |raw| - 1;
    if i < n {
      NothingThroughYet(raw[..n], i, id);
      assert raw[..n][..i] == raw[..i];
    }
  }

  lemma {:induction false} FirstReportStays(raw: seq<Raw>, i: nat, id: string)
    requires i <= |raw| && FirstReport(raw[..i], id).Some?
    ensures FirstReport(raw, id) == FirstReport(raw[..i], id)
  {
    if i < |raw| {
      assert raw[..|raw| - 1][..i] == raw[..i];
      FirstReportStays(raw[..|raw| - 1], i, id);
    } else {
      assert raw[..i] == raw;
    }
  }

  /**
   In the daemon: let a session be told the piped events in one run and the erased
   ones in another, each among any other events and sweeps that spare it, and its
   status is the same.
   */
  lemma DaemonStatusIsPreserved(
    db: Db, piped: seq<Step>, erased: seq<Step>, hostId: string, raw: seq<Raw>, id: string)
    requires DaemonRun(db, piped, hostId) && Spared(db, piped, hostId, "opencode", id) && id != ""
    requires DaemonRun(db, erased, hostId) && Spared(db, erased, hostId, "opencode", id)
    requires Substream(db, piped, hostId, "opencode", id) == Piped(raw, id)
    requires Substream(db, erased, hostId, "opencode", id) == Erased(raw, id)
    requires FindNative(db, "opencode", id).Some? || !TitleFirst(raw, id)
    ensures SameState(ViewOf(Deliver(db, piped, hostId), "opencode", id),
                      ViewOf(Deliver(db, erased, hostId), "opencode", id))
  {
    hide DaemonRun, Deliver, Piped, Erased, Spared, Substream;
    SessionsAreIndependent(db, piped, hostId, "opencode", id);
    SessionsAreIndependent(db, erased, hostId, "opencode", id);
    StatusIsPreserved(raw, id, ViewOf(db, "opencode", id));
    assert raw[..|raw|] == raw;
  }

  lemma OneMore(earlier: seq<Raw>, last: Raw, id: string)
    requires Of(last.m, id)
    ensures Piped(earlier + [last], id) == Piped(earlier, id) + PipedOne(Announced(earlier, id), last)
    ensures Erased(earlier + [last], id) == Erased(earlier, id) + ErasedOne(Announced(earlier, id), last)
    ensures IsStart(last.m) ==> Announced(earlier + [last], id) == Some(TitleText(last.m.info))
  {
    hide PipedOne, ErasedOne;
    assert (earlier + [last])[..|earlier|] == earlier;
  }

  lemma BadReport(first: Raw, id: string)
    requires id != "" && Of(first.m, id) && IsStart(first.m) && !Decodes(first.m)
    ensures Piped([first], id) == [] && Erased([first], id) == []
    ensures Announced([first], id) == Some(TitleText(first.m.info))
  {
    hide Sent, Parsed, OpencodeEvent, Decodes, PipedOne, ErasedOne;
    assert [] + [first] == [first];
    OneMore([], first, id);
    SentMeaning(None, first, id);
  }

  lemma GoodRepeat(earlier: seq<Raw>, last: Raw, id: string)
    requires id != "" && Of(last.m, id) && IsStart(last.m) && Decodes(last.m)
    requires Announced(earlier, id).Some? && Announced(earlier, id) != Some(TitleText(last.m.info))
    ensures var p := PipedOne(Announced(earlier, id), last);
      |p| == 1 && p[0].kind == Title && ErasedOne(Announced(earlier, id), last) == []
  {
    hide Sent, Parsed, OpencodeEvent, Decodes, Announced;
    SentMeaning(Announced(earlier, id), last, id);
    ReachingOne(earlier, last, id);
  }

  /**
   The input that fails: the plugin takes a report with a title of the wrong JSON
   type as the announcement, the hook cannot decode it, and the next report makes
   the row from a title event.
   */
  lemma WrongTypedTitleLosesStart(id: string, stamp: Stamp, title: string)
    requires id != "" && title != ""
    ensures var first := Raw(Message("session.created", Str(id), Info(Absent, WrongType)), stamp);
      var again := Raw(Message("session.updated", Str(id), Info(Absent, Str(title))), stamp);
      var raw := [first, again];
      && TitleFirst(raw, id) && |Piped(raw, id)| == 1 && Erased(raw, id) == []
      && !SameState(Fold(None, Piped(raw, id)), Fold(None, Erased(raw, id)))
  {
    hide Piped, Erased, PipedOne, ErasedOne, Announced, FirstThrough, TitleFirst, Reaches, Observe;
    var first := Raw(Message("session.created", Str(id), Info(Absent, WrongType)), stamp);
    var again := Raw(Message("session.updated", Str(id), Info(Absent, Str(title))), stamp);
    BadReport(first, id);
    GoodRepeat([first], again, id);
    OneMore([first], again, id);
    assert [first] + [again] == [first, again];
    HeardFirst([first, again], id);
    FoldOne(None, Piped([first, again], id)[0]);
  }

  lemma OnlyFirstReportStarts(announced: Option<string>, last: Raw, id: string)
    requires id != "" && Of(last.m, id)
    ensures |PipedOne(announced, last)| <= 1
    ensures PipedOne(announced, last) != [] && PipedOne(announced, last)[0].kind == SessionStart ==> announced == None
  {
    hide OpencodeEvent, Sent, Parsed, PipedOne;
    SentMeaning(announced, last, id);
  }

  /** However often a session is reported, the daemon sees at most one start of it. */
  lemma {:induction false} OneStartPerSession(raw: seq<Raw>, id: string, i: nat, j: nat)
    requires id != "" && i < j < |Piped(raw, id)|
    ensures !(Piped(raw, id)[i].kind == SessionStart && Piped(raw, id)[j].kind == SessionStart)
  {
    hide OpencodeEvent, Sent, Parsed, PipedOne;
    var earlier, last := raw[..|raw| - 1], raw[|raw| - 1];
    if Of(last.m, id) {
      OnlyFirstReportStarts(Announced(earlier, id), last, id);
    }
    if j < |Piped(earlier, id)| {
      OneStartPerSession(earlier, id, i, j);
    } else if Piped(raw, id)[j].kind == SessionStart && Piped(earlier, id)[i].kind == SessionStart {
      StartsAreAnnounced(earlier, id, i);
    }
  }

  lemma StartsAreAnnounced(raw: seq<Raw>, id: string, i: nat)
    requires id != "" && i < |Piped(raw, id)| && Piped(raw, id)[i].kind == SessionStart
    ensures Announced(raw, id).Some?
  {
    hide Piped, Announced;
    StartArrives(raw, id);
  }

  // ---- titles ----

  /** The event reports a non-empty title of a session in a form some hook understands. */
  predicate Titled(m: Message, id: string) {
    Of(m, id) && Decodes(m) && (IsStart(m) || m.kind in FORWARD) && TitleText(m.info) != ""
  }

  /** The last raw event that reports a title. */
  function LastTitled(raw: seq<Raw>, id: string): (r: Option<nat>)
    ensures r.Some? ==> r.value < |raw| && Titled(raw[r.value].m, id)
  {
    if raw == [] then None
    else if Titled(raw[|raw| - 1].m, id) then Some(|raw| - 1)
    else LastTitled(raw[..|raw| - 1], id)
  }

  /** A view's title, "" before first contact. */
  function TitleIn(v: Option<View>): string {
    if v.None? then "" else v.value.title
  }

  /** The last title of the raw stream, or the one there was before it. */
  function RawTitle(raw: seq<Raw>, id: string, v: Option<View>): string {
    match LastTitled(raw, id)
    case None => TitleIn(v)
    case Some(i) => TitleText(raw[i].m.info)
  }

  /** The title the daemon has stored for a session after the stream. */
  function StoredTitle(raw: seq<Raw>, id: string, v: Option<View>): string {
    TitleIn(Fold(v, Piped(raw, id)))
  }

  /** The last title reported in an event that the plugin did not drop, or the one there was before the stream. */
  function ToldTitle(raw: seq<Raw>, id: string, v: Option<View>): string {
    if raw == [] then TitleIn(v)
    else
      var earlier, m := raw[..|raw| - 1], raw[|raw| - 1].m;
      if Titled(m, id) && Sent(Announced(earlier, id), m).Some? then TitleText(m.info) else ToldTitle(earlier, id, v)
  }

  /** The last reported title is a dropped repeat, and the daemon was told another one last. */
  predicate Masked(raw: seq<Raw>, id: string, v: Option<View>) {
    var last := LastTitled(raw, id);
    last.Some?
    && Repeats(raw[..last.value], raw[last.value].m, id)
    && ToldTitle(raw[..last.value], id, v) != TitleText(raw[last.value].m.info)
  }

  lemma SentTitle(announced: Option<string>, last: Raw, id: string, v: Option<View>)
    requires id != "" && Of(last.m, id)
    ensures TitleIn(Fold(v, PipedOne(announced, last)))
      == if Titled(last.m, id) && Sent(announced, last.m).Some? then TitleText(last.m.info) else TitleIn(v)
  {
    var sent := Sent(announced, last.m);
    if sent.Some? && Decodes(last.m) {
      OpencodeTitle(sent.value, last.stamp);
      FoldOne(v, OpencodeEvent(sent.value, last.stamp).value);
    }
  }

  /** What is stored is what was last told. */
  lemma {:induction false} StoredIsTold(raw: seq<Raw>, id: string, v: Option<View>)
    requires id != ""
    ensures StoredTitle(raw, id, v) == ToldTitle(raw, id, v)
  {
    hide OpencodeEvent, Sent, Parsed, Titled;
    if raw != [] {
      var earlier, last := raw[..|raw| - 1], raw[|raw| - 1];
      var p := Piped(earlier, id);
      StoredIsTold(earlier, id, v);
      if Of(last.m, id) {
        SentTitle(Announced(earlier, id), last, id, Fold(v, p));
        FoldConcat(v, p, PipedOne(Announced(earlier, id), last));
      } else {
        assert p + [] == p;
        OnlyOwnTitles(last.m, id);
      }
    }
  }

  lemma OnlyOwnTitles(m: Message, id: string)
    requires !Of(m, id)
    ensures !Titled(m, id)
  {
  }

  /** Events without a title leave the title told alone. */
  lemma {:induction false} ToldSinceLastTitled(raw: seq<Raw>, id: string, v: Option<View>)
    ensures match LastTitled(raw, id)
      case None => ToldTitle(raw, id, v) == TitleIn(v)
      case Some(i) => ToldTitle(raw, id, v) == ToldTitle(raw[..i + 1], id, v)
  {
    hide Sent, Titled;
    if raw != [] {
      var n := |raw| - 1;
      if Titled(raw[n].m, id) {
        assert raw[..n + 1] == raw;
      } else {
        ToldSinceLastTitled(raw[..n], id, v);
        if LastTitled(raw, id).Some? {
          assert raw[..n][..LastTitled(raw, id).value + 1] == raw[..LastTitled(raw, id).value + 1];
        }
      }
    }
  }

  /** What was last told, right after a titled event. */
  lemma ToldAtTitled(before: seq<Raw>, last: Raw, id: string, v: Option<View>)
    requires id != "" && Titled(last.m, id)
    ensures ToldTitle(before + [last], id, v)
      == if Repeats(before, last.m, id) then ToldTitle(before, id, v) else TitleText(last.m.info)
  {
    assert (before + [last])[..|before|] == before;
  }

  /**
   For every stream, the stored title is the last non-empty one of the raw stream,
   although repeats are dropped and empty titles forwarded, exactly when that last
   report is not a dropped repeat of a title other than the one last told.
   */
  lemma TitleIsPreserved(raw: seq<Raw>, id: string, v: Option<View>)
    requires id != ""
    ensures StoredTitle(raw, id, v) == RawTitle(raw, id, v) <==> !Masked(raw, id, v)
  {
    hide StoredTitle, ToldTitle, Repeats;
    StoredIsTold(raw, id, v);
    ToldSinceLastTitled(raw, id, v);
    if LastTitled(raw, id).Some? {
      var i := LastTitled(raw, id).value;
      assert raw[..i + 1] == raw[..i] + [raw[i]];
      ToldAtTitled(raw[..i], raw[i], id, v);
    }
  }

  /** The same in the daemon's database, among any other events and sweeps that spare the session. */
  lemma DaemonTitleIsPreserved(db: Db, steps: seq<Step>, hostId: string, raw: seq<Raw>, id: string)
    requires DaemonRun(db, steps, hostId) && Spared(db, steps, hostId, "opencode", id) && id != ""
    requires Substream(db, steps, hostId, "opencode", id) == Piped(raw, id)
    ensures var v, u := ViewOf(db, "opencode", id), ViewOf(Deliver(db, steps, hostId), "opencode", id);
      TitleIn(u) == RawTitle(raw, id, v) <==> !Masked(raw, id, v)
  {
    hide DaemonRun, Deliver, Piped, Masked, RawTitle, Spared, Substream;
    SessionsAreIndependent(db, steps, hostId, "opencode", id);
    TitleIsPreserved(raw, id, ViewOf(db, "opencode", id));
  }

  // ---- titles as opencode declares them ----

  /** Titles and directories in a session's events are strings or absent. */
  ghost predicate WellTyped(raw: seq<Raw>, id: string) {
    forall i :: 0 <= i < |raw| && Of(raw[i].m, id) ==> Decodes(raw[i].m)
  }

  /** The last title a forwarded event carried since the announced title last changed, "" if none did. */
  function ForwardedTitle(raw: seq<Raw>, id: string): string {
    if raw == [] then ""
    else
      var earlier, m := raw[..|raw| - 1], raw[|raw| - 1].m;
      if Of(m, id) && IsStart(m) && !Repeats(earlier, m, id) then ""
      else if Titled(m, id) && !IsStart(m) then TitleText(m.info)
      else ForwardedTitle(earlier, id)
  }

  /** While a non-empty title is announced, the one told is the last forwarded since, or else the announced one. */
  lemma {:induction false} ToldWhileAnnounced(raw: seq<Raw>, id: string, v: Option<View>)
    requires id != "" && WellTyped(raw, id)
    requires Announced(raw, id).Some? && Announced(raw, id).value != ""
    ensures ToldTitle(raw, id, v)
      == if ForwardedTitle(raw, id) != "" then ForwardedTitle(raw, id) else Announced(raw, id).value
  {
    var earlier, m := raw[..|raw| - 1], raw[|raw| - 1].m;
    if !(Of(m, id) && IsStart(m)) || Repeats(earlier, m, id) {
      ToldWhileAnnounced(earlier, id, v);
    }
  }

  /** Then a repeat can be masked only by another title on an event the plugin forwards as it is. */
  lemma MaskedByForwarded(raw: seq<Raw>, id: string, v: Option<View>)
    requires id != "" && WellTyped(raw, id)
    ensures Masked(raw, id, v) <==>
      var last := LastTitled(raw, id);
      last.Some? && Repeats(raw[..last.value], raw[last.value].m, id)
      && ForwardedTitle(raw[..last.value], id) !in {"", TitleText(raw[last.value].m.info)}
  {
    hide ForwardedTitle, ToldTitle, Announced, LastTitled;
    var last := LastTitled(raw, id);
    if last.Some? && last.value < |raw| && Repeats(raw[..last.value], raw[last.value].m, id) {
      LastTitledIsTitled(raw, id);
      ToldWhileAnnounced(raw[..last.value], id, v);
    }
  }

  lemma LastTitledIsTitled(raw: seq<Raw>, id: string)
    requires LastTitled(raw, id).Some?
    ensures LastTitled(raw, id).value < |raw| && Titled(raw[LastTitled(raw, id).value].m, id)
  {
  }

  /** Such streams exist: a title, another one on a forwarded event, and the first again, which the plugin drops. */
  lemma SomeRepeatIsMasked(id: string, stamp: Stamp, title: string, other: string, v: Option<View>)
    requires id != "" && title != "" && other != "" && title != other
    ensures var raw := [
        Raw(Message("session.created", Str(id), Info(Absent, Str(title))), stamp),
        Raw(Message("session.idle", Str(id), Info(Absent, Str(other))), stamp),
        Raw(Message("session.updated", Str(id), Info(Absent, Str(title))), stamp)];
      && WellTyped(raw, id) && Masked(raw, id, v)
      && StoredTitle(raw, id, v) == other && RawTitle(raw, id, v) == title
  {
    var created := Raw(Message("session.created", Str(id), Info(Absent, Str(title))), stamp);
    var idle := Raw(Message("session.idle", Str(id), Info(Absent, Str(other))), stamp);
    var updated := Raw(Message("session.updated", Str(id), Info(Absent, Str(title))), stamp);
    var raw := [created, idle, updated];
    assert raw[..2] == [created, idle];
    assert [created, idle][..1] == [created];
    assert [created][..0] == [];
    assert Announced([created, idle], id) == Announced([created], id) == Some(title);
    assert [created] + [idle] == [created, idle] && [created, idle] + [updated] == raw;
    ToldAtTitled([created], idle, id, v);
    ToldAtTitled([created, idle], updated, id, v);
    StoredIsTold(raw, id, v);
  }

  /** When only created and updated events carry titles, as opencode emits them, nothing is ever masked. */
  lemma NeverMasked(raw: seq<Raw>, id: string, v: Option<View>)
    requires id != "" && WellTyped(raw, id)
    requires forall i :: 0 <= i < |raw| && Of(raw[i].m, id) && raw[i].m.kind in FORWARD ==>
      TitleText(raw[i].m.info) == ""
    ensures !Masked(raw, id, v) && StoredTitle(raw, id, v) == RawTitle(raw, id, v)
  {
    hide Masked, StoredTitle, RawTitle;
    MaskedByForwarded(raw, id, v);
    TitleIsPreserved(raw, id, v);
    if LastTitled(raw, id).Some? {
      NothingForwarded(raw[..LastTitled(raw, id).value], id);
    }
  }

  lemma {:induction false} NothingForwarded(raw: seq<Raw>, id: string)
    requires forall i :: 0 <= i < |raw| && Of(raw[i].m, id) && raw[i].m.kind in FORWARD ==>
      TitleText(raw[i].m.info) == ""
    ensures ForwardedTitle(raw, id) == ""
  {
    if raw != [] {
      NothingForwarded(raw[..|raw| - 1], id);
    }
  }
}
