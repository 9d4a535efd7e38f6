/**
 Process fingerprints (internal/liveness/liveness.go): the /proc/<pid>/stat
 parser, the ancestor walk that captures an agent's fingerprint and the probe
 that tells whether it is still running.
 */
module Liveness {
  import opened Wrappers
  import opened Decimal
  import opened Session

  /**
   What one reading of /proc says: the boot id and the contents of each
   process's stat and comm files. A missing entry is a read error.
   */
  datatype ProcTable = ProcTable(bootId: Option<string>, stat: map<int, string>, comm: map<int, string>)

  const MAX_SHELL_WALK: nat := 16
  const STAT_IDX_PPID: nat := 1
  const STAT_IDX_START: nat := 19
  const SHELLS: set<string> := {"sh", "bash", "zsh", "dash", "fish", "ksh", "ash", "csh", "tcsh"}

  /** unicode.IsSpace */
  predicate IsSpace(c: char) {
    '\t' <= c <= '\r' || c == ' ' || c == '\U{85}' || c == '\U{A0}' || c == '\U{1680}'
    || '\U{2000}' <= c <= '\U{200A}' || c == '\U{2028}' || c == '\U{2029}' || c == '\U{202F}' || c == '\U{205F}'
    || c == '\U{3000}'
  }

  function WordLength(s: string): (n: nat)
    ensures n <= |s|
  {
    if s == "" || IsSpace(s[0]) then 0 else 1 + WordLength(s[1..])
  }

  /** strings.Fields: the maximal runs of non-space characters, in order. */
  function Fields(s: string): seq<string> {
    if s == "" then []
    else if IsSpace(s[0]) then Fields(s[1..])
    else var n := WordLength(s); [s[..n]] + Fields(s[n..])
  }

  /** strings.TrimSpace */
  function TrimSpace(s: string): string {
    if s == "" then ""
    else if IsSpace(s[0]) then TrimSpace(s[1..])
    else if IsSpace(s[|s| - 1]) then TrimSpace(s[..|s| - 1])
    else s
  }

  /** What follows the last ')' of s, or None when there is no ')'. */
  function AfterLastParen(s: string): Option<string> {
    if s == "" then None
    else match AfterLastParen(s[1..])
      case Some(rest) => Some(rest)
      case None => if s[0] == ')' then Some(s[1..]) else None
  }

  function StatFields(t: ProcTable, pid: int): Option<seq<string>> {
    if pid !in t.stat then None
    else match AfterLastParen(t.stat[pid])
      case None => None
      case Some(rest) => Some(Fields(rest))
  }

  function ParentPID(t: ProcTable, pid: int): Option<int> {
    match StatFields(t, pid)
    case None => None
    case Some(f) => if |f| <= STAT_IDX_PPID then None else Atoi(f[STAT_IDX_PPID])
  }

  function StartTime(t: ProcTable, pid: int): Option<nat> {
    match StatFields(t, pid)
    case None => None
    case Some(f) => if |f| <= STAT_IDX_START then None else ParseUint(f[STAT_IDX_START])
  }

  function Comm(t: ProcTable, pid: int): string {
    if pid in t.comm then TrimSpace(t.comm[pid]) else ""
  }

  predicate Alive(t: ProcTable, id: Identity) {
    id.pid > 0 && id.bootId != "" && t.bootId == Some(id.bootId) && StartTime(t, id.pid) == Some(id.start)
  }

  predicate IsProcessDead(t: ProcTable, id: Identity) {
    !Alive(t, id)
  }

  // ---- the stat line, as the kernel prints it ----

  function PrintTokens(tokens: seq<string>): string {
    if tokens == [] then "\n" else " " + tokens[0] + PrintTokens(tokens[1..])
  }

  function PrintStat(pid: int, comm: string, tokens: seq<string>): string {
    Itoa(pid) + " (" + comm + ")" + PrintTokens(tokens)
  }

  /** A stat field after comm: not empty, no white space, no ')'. */
  predicate IsToken(w: string) {
    w != "" && forall c :: c in w ==> !IsSpace(c) && c != ')'
  }

  lemma {:induction false} WordLengthOfToken(w: string, rest: string)
    requires forall c :: c in w ==> !IsSpace(c)
    requires rest != "" && IsSpace(rest[0])
    ensures WordLength(w + rest) == |w|
  {
    if w == "" {
      assert w + rest == rest;
    } else {
      assert (w + rest)[1..] == w[1..] + rest;
      WordLengthOfToken(w[1..], rest);
    }
  }

  lemma {:induction false} PrintTokensShape(tokens: seq<string>)
    requires forall w :: w in tokens ==> IsToken(w)
    ensures PrintTokens(tokens) != "" && IsSpace(PrintTokens(tokens)[0])
    ensures forall c :: c in PrintTokens(tokens) ==> c != ')'
  {
    if tokens != [] {
      PrintTokensShape(tokens[1..]);
      assert IsToken(tokens[0]);
    }
  }

  lemma {:induction false} FieldsOfTokens(tokens: seq<string>)
    requires forall w :: w in tokens ==> IsToken(w)
    ensures Fields(PrintTokens(tokens)) == tokens
  {
    if tokens == [] {
      assert Fields("\n") == Fields("");
    } else {
      var w, rest := tokens[0], PrintTokens(tokens[1..]);
      assert IsToken(w);
      PrintTokensShape(tokens[1..]);
      FieldsOfTokens(tokens[1..]);
      WordLengthOfToken(w, rest);
      var line := PrintTokens(tokens);
      assert line[1..] == w + rest;
      assert (w + rest)[0] == w[0] && w[0] in w;
      assert (w + rest)[..|w|] == w && (w + rest)[|w|..] == rest;
      assert tokens == [w] + tokens[1..];
    }
  }

  lemma {:induction false} NoParen(s: string)
    requires ')' !in s
    ensures AfterLastParen(s) == None
  {
    if s != "" {
      NoParen(s[1..]);
    }
  }

  lemma {:induction false} AfterLastParenOf(before: string, after: string)
    requires ')' !in after
    ensures AfterLastParen(before + ")" + after) == Some(after)
  {
    var s := before + ")" + after;
    if before == "" {
      assert s[1..] == after;
      NoParen(after);
    } else {
      assert s[1..] == before[1..] + ")" + after;
      AfterLastParenOf(before[1..], after);
    }
  }

  /** Whatever the command is called, spaces and parentheses included, the fields after it are recovered exactly. */
  lemma StatRoundTrip(t: ProcTable, pid: int, comm: string, tokens: seq<string>)
    requires forall w :: w in tokens ==> IsToken(w)
    requires pid in t.stat && t.stat[pid] == PrintStat(pid, comm, tokens)
    ensures StatFields(t, pid) == Some(tokens)
  {
    PrintTokensShape(tokens);
    AfterLastParenOf(Itoa(pid) + " (" + comm, PrintTokens(tokens));
    FieldsOfTokens(tokens);
  }

  /**
   Fields 4 and 22 of the line, the second and the twentieth after the name, are
   read back for every parent pid and every 64-bit start time.
   */
  lemma StatValues(t: ProcTable, pid: int, comm: string, tokens: seq<string>, ppid: int, start: nat)
    requires forall w :: w in tokens ==> IsToken(w)
    requires |tokens| >= 20
    requires tokens[1] == Itoa(ppid) && tokens[19] == FormatNat(start)
    requires pid in t.stat && t.stat[pid] == PrintStat(pid, comm, tokens)
    ensures ParentPID(t, pid)
      == if -0x8000_0000_0000_0000 <= ppid < 0x8000_0000_0000_0000 then Some(ppid) else None
    ensures StartTime(t, pid) == if start < 0x1_0000_0000_0000_0000 then Some(start) else None
  {
    StatRoundTrip(t, pid, comm, tokens);
    AtoiItoa(ppid);
    ParseUintFormat(start);
  }

  /** A fingerprint is alive exactly while its pid still shows its own start time: a reused pid is a dead process. */
  lemma ReusedPidIsDead(t: ProcTable, id: Identity, comm: string, tokens: seq<string>, start: nat)
    requires id.pid > 0 && id.bootId != "" && t.bootId == Some(id.bootId)
    requires forall w :: w in tokens ==> IsToken(w)
    requires |tokens| >= 20 && tokens[19] == FormatNat(start) && start < 0x1_0000_0000_0000_0000
    requires id.pid in t.stat && t.stat[id.pid] == PrintStat(id.pid, comm, tokens)
    ensures Alive(t, id) <==> start == id.start
  {
    StatRoundTrip(t, id.pid, comm, tokens);
    ParseUintFormat(start);
  }

  /** A fingerprint that was not captured, or in another boot, is dead on every table. */
  lemma UncapturedIsDead(t: ProcTable, id: Identity)
    requires id.pid <= 0 || id.bootId == "" || t.bootId != Some(id.bootId) || id.pid !in t.stat
    ensures IsProcessDead(t, id) && !Alive(t, id)
  {
  }

  // ---- the ancestor walk ----

  predicate IsShell(t: ProcTable, pid: int) {
    Comm(t, pid) in SHELLS
  }

  lemma {:induction false} TrimmedName(name: string)
    requires name != "" && !IsSpace(name[0]) && !IsSpace(name[|name| - 1])
    ensures TrimSpace(name + "\n") == name
  {
    assert (name + "\n")[..|name|] == name;
    assert TrimSpace(name) == name;
  }

  /** These and no other command names, as the kernel prints them, are taken for shells. */
  lemma ShellNames(t: ProcTable, pid: int, name: string)
    requires name != "" && !IsSpace(name[0]) && !IsSpace(name[|name| - 1])
    requires pid in t.comm && t.comm[pid] == name + "\n"
    ensures IsShell(t, pid) <==> name in ["sh", "bash", "zsh", "dash", "fish", "ksh", "ash", "csh", "tcsh"]
  {
    TrimmedName(name);
  }

  /** A process whose name cannot be read is taken for the agent. */
  lemma NamelessIsNoShell(t: ProcTable, pid: int)
    requires pid !in t.comm
    ensures !IsShell(t, pid)
  {
  }

  /** The parent of pid, if it can be read and is above pid 1. */
  function Parent(t: ProcTable, pid: int): Option<int> {
    var p := ParentPID(t, pid);
    if p.Some? && p.value > 1 then p else None
  }

  /** The k-th ancestor of pid, if every step up to it can be taken. */
  function Ancestor(t: ProcTable, pid: int, k: nat): Option<int>
    decreases k
  {
    if k == 0 then Some(pid)
    else if Parent(t, pid).None? then None
    else Ancestor(t, Parent(t, pid).value, k - 1)
  }

  /** The k-th ancestor can be reached and is the first one that is not a shell. */
  ghost predicate FirstNonShell(t: ProcTable, self: int, k: nat) {
    && 1 <= k
    && Ancestor(t, self, k).Some?
    && !IsShell(t, Ancestor(t, self, k).value)
    && forall j {:trigger Ancestor(t, self, j)} :: 1 <= j < k ==>
      Ancestor(t, self, j).Some? && IsShell(t, Ancestor(t, self, j).value)
  }

  /** The first non-shell found by climbing at most `steps` parents. */
  function Climb(t: ProcTable, pid: int, steps: nat): Option<int>
    decreases steps
  {
    if steps == 0 || Parent(t, pid).None? then None
    else
      var p := Parent(t, pid).value;
      if IsShell(t, p) then Climb(t, p, steps - 1) else Some(p)
  }

  lemma {:induction false} ClimbFinds(t: ProcTable, pid: int, steps: nat) returns (k: nat)
    requires Climb(t, pid, steps).Some?
    ensures 1 <= k <= steps && FirstNonShell(t, pid, k) && Ancestor(t, pid, k) == Climb(t, pid, steps)
    decreases steps
  {
    var p := Parent(t, pid).value;
    assert Ancestor(t, pid, 1) == Ancestor(t, p, 0);
    if IsShell(t, p) {
      var k' := ClimbFinds(t, p, steps - 1);
      k := k' + 1;
      forall j {:trigger Ancestor(t, pid, j)} | 1 <= j < k
        ensures Ancestor(t, pid, j).Some? && IsShell(t, Ancestor(t, pid, j).value)
      {
        assert Ancestor(t, pid, j) == Ancestor(t, p, j - 1);
      }
    } else {
      k := 1;
    }
  }

  lemma {:induction false} ClimbReaches(t: ProcTable, pid: int, steps: nat, k: nat)
    requires FirstNonShell(t, pid, k) && k <= steps
    ensures Climb(t, pid, steps) == Ancestor(t, pid, k)
    decreases k
  {
    var p := Parent(t, pid).value;
    assert Ancestor(t, pid, 1) == Ancestor(t, p, 0);
    if k > 1 {
      forall j {:trigger Ancestor(t, p, j)} | 1 <= j < k - 1
        ensures Ancestor(t, p, j).Some? && IsShell(t, Ancestor(t, p, j).value)
      {
        assert Ancestor(t, pid, j + 1) == Ancestor(t, p, j);
      }
      ClimbReaches(t, p, steps - 1, k - 1);
    }
  }

  /** The walk takes at most sixteen steps unless told otherwise. */
  lemma DefaultCap(t: ProcTable, self: int, k: nat)
    requires FirstNonShell(t, self, k)
    ensures Climb(t, self, MAX_SHELL_WALK).Some? <==> k <= 16
  {
    if k <= MAX_SHELL_WALK {
      ClimbReaches(t, self, MAX_SHELL_WALK, k);
    } else if Climb(t, self, MAX_SHELL_WALK).Some? {
      var j := ClimbFinds(t, self, MAX_SHELL_WALK);
    }
  }

  /** What Capture returns on a process table, for the process `self` and a cap on the climb. */
  function Captured(t: ProcTable, self: int, maxWalk: nat): Option<Identity> {
    var agent := Climb(t, self, maxWalk);
    if t.bootId.None? || agent.None? || StartTime(t, agent.value).None? then None
    else Some(Identity(agent.value, StartTime(t, agent.value).value, t.bootId.value))
  }

  /** Climbs at most `maxWalk` (16) parents, on any table, cyclic ones included. */
  method Capture(t: ProcTable, self: int, maxWalk: nat := MAX_SHELL_WALK) returns (r: Option<Identity>)
    ensures r == Captured(t, self, maxWalk)
  {
    if t.bootId.None? {
      return None;
    }
    var pid := self;
    for i := 0 to maxWalk
      invariant Climb(t, self, maxWalk) == Climb(t, pid, maxWalk - i)
    {
      var ppid := ParentPID(t, pid);
      if ppid.None? || ppid.value <= 1 {
        return None;
      }
      if IsShell(t, ppid.value) {
        pid := ppid.value;
        continue;
      }
      var start := StartTime(t, ppid.value);
      if start.None? {
        return None;
      }
      return Some(Identity(ppid.value, start.value, t.bootId.value));
    }
    return None;
  }

  ghost predicate Capturable(t: ProcTable, self: int, maxWalk: nat, k: nat) {
    t.bootId.Some? && k <= maxWalk && FirstNonShell(t, self, k) && StartTime(t, Ancestor(t, self, k).value).Some?
  }

  /**
   The walk succeeds exactly when the first non-shell ancestor lies within the
   cap with no pid <= 1 and no read error on the way; it returns that
   ancestor's fingerprint, which is alive on the same table unless the boot id
   is blank.
   */
  lemma CaptureIsFirstAgent(t: ProcTable, self: int, maxWalk: nat)
    ensures Captured(t, self, maxWalk).Some? <==> exists k :: Capturable(t, self, maxWalk, k)
    ensures forall k :: Capturable(t, self, maxWalk, k) ==>
      var pid := Ancestor(t, self, k).value;
      Captured(t, self, maxWalk) == Some(Identity(pid, StartTime(t, pid).value, t.bootId.value))
    ensures Captured(t, self, maxWalk).Some? ==> (Alive(t, Captured(t, self, maxWalk).value) <==> t.bootId.value != "")
  {
    if Captured(t, self, maxWalk).Some? {
      var k := ClimbFinds(t, self, maxWalk);
      assert Capturable(t, self, maxWalk, k);
      ReachedAboveInit(t, self, k);
    }
    forall k | Capturable(t, self, maxWalk, k) ensures Climb(t, self, maxWalk) == Ancestor(t, self, k) {
      ClimbReaches(t, self, maxWalk, k);
    }
  }

  lemma {:induction false} ReachedAboveInit(t: ProcTable, pid: int, k: nat)
    requires k >= 1 && Ancestor(t, pid, k).Some?
    ensures Ancestor(t, pid, k).value > 1
    decreases k
  {
    var p := Parent(t, pid).value;
    assert Ancestor(t, pid, k) == Ancestor(t, p, k - 1);
    if k > 1 {
      ReachedAboveInit(t, p, k - 1);
    }
  }
}
