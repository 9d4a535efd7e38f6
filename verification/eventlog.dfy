/** The order in which a session's events are shown: ascending (ts, event id). */
module EventLog {
  import opened Session
  import opened Database

  /** An event with its id. */
  datatype Numbered = Numbered(id: nat, entry: LogEntry)

  predicate Before(a: Numbered, b: Numbered) {
    a.entry.ts < b.entry.ts || (a.entry.ts == b.entry.ts && a.id < b.id)
  }

  /** Puts a newer event into an ordered list of older ones: after every event that is not later. */
  function Insert(order: seq<Numbered>, e: Numbered): seq<Numbered> {
    if order == [] || order[|order| - 1].entry.ts <= e.entry.ts then order + [e]
    else Insert(order[..|order| - 1], e) + [order[|order| - 1]]
  }

  /** The events of a session, oldest first. */
  function Chronological(log: seq<LogEntry>, sessionId: string): seq<Numbered> {
    if log == [] then []
    else
      var n := |log| - 1;
      var order := Chronological(log[..n], sessionId);
      if log[n].sessionId == sessionId then Insert(order, Numbered(n, log[n])) else order
  }

  ghost predicate Ordered(order: seq<Numbered>) {
    forall a, b :: 0 <= a < b < |order| ==> Before(order[a], order[b])
  }

  lemma {:induction false} InsertFacts(order: seq<Numbered>, e: Numbered)
    requires Ordered(order) && forall x :: x in order ==> x.id < e.id
    ensures Ordered(Insert(order, e))
    ensures forall x :: x in Insert(order, e) <==> x in order || x == e
  {
    if order != [] {
      var init, last := order[..|order| - 1], order[|order| - 1];
      assert order == init + [last];
      if last.entry.ts > e.entry.ts {
        InsertFacts(init, e);
        forall x | x in init ensures Before(x, last) {
          var a :| 0 <= a < |init| && init[a] == x;
          assert order[a] == x;
        }
        assert forall a :: 0 <= a < |Insert(init, e)| ==> Insert(init, e)[a] in Insert(init, e);
      } else {
        forall a | 0 <= a < |order| ensures Before(order[a], e) {
          assert order[a] in order;
          assert a < |order| - 1 ==> Before(order[a], last);
        }
      }
    }
  }

  /**
   The list is strictly ascending by (ts, event id) and holds exactly the
   session's events, so each of them once.
   */
  lemma {:induction false} ChronologicalIsSorted(log: seq<LogEntry>, sessionId: string)
    ensures Ordered(Chronological(log, sessionId))
    ensures forall x :: x in Chronological(log, sessionId) <==>
      x.id < |log| && log[x.id] == x.entry && x.entry.sessionId == sessionId
  {
    if log != [] {
      var n := |log| - 1;
      ChronologicalIsSorted(log[..n], sessionId);
      if log[n].sessionId == sessionId {
        InsertFacts(Chronological(log[..n], sessionId), Numbered(n, log[n]));
      }
    }
  }

  function Reverse<T>(s: seq<T>): seq<T> {
    seq(|s|, i requires 0 <= i < |s| => s[|s| - 1 - i])
  }

  /** LIMIT: a negative limit means no limit. */
  function Limit<T>(s: seq<T>, limit: int): seq<T> {
    if 0 <= limit < |s| then s[..limit] else s
  }

  /** SELECT ... WHERE session_id = ? ORDER BY ts DESC, id DESC LIMIT ? */
  function NewestFirst(log: seq<LogEntry>, sessionId: string, limit: int): seq<Numbered> {
    Limit(Reverse(Chronological(log, sessionId)), limit)
  }

  /** The last `limit` elements, all of them when there are fewer or the limit is negative. */
  function Last<T>(s: seq<T>, limit: int): seq<T> {
    if 0 <= limit < |s| then s[|s| - limit..] else s
  }

  lemma ReversedLimit<T>(s: seq<T>, limit: int)
    ensures Reverse(Limit(Reverse(s), limit)) == Last(s, limit)
  {
  }
}
