/**
 The title scan over a transcript's tail (internal/hook/hook.go
 titleFromTranscript). The window may start in the middle of a line; the scan
 relies on such a fragment not parsing as a record.

 A record's string fields are kept as spelled: escapes in them are not undone.
 */
module Transcript {
  import opened Wrappers
  import opened Json

  const TITLE_TAIL_BYTES: nat := 64 * 1024
  const NEWLINE: byte := 10
  const CARRIAGE_RETURN: byte := 13

  const TYPE: seq<byte> := [116, 121, 112, 101]                                 // type
  const AI_TITLE_KEY: seq<byte> := [97, 105, 84, 105, 116, 108, 101]            // aiTitle
  const AI_TITLE: seq<byte> := [97, 105, 45, 116, 105, 116, 108, 101]           // ai-title
  const NEEDLE: seq<byte> := [QUOTE] + AI_TITLE + [QUOTE]

  // ---- records ----

  /** A top-level member: the text between its key's quotes, and its value's text. */
  datatype Member = Member(key: seq<byte>, value: seq<byte>)

  /** Where the value of the first member starts and ends. */
  function MemberSpan(s: seq<byte>, i: nat): (r: (nat, nat))
    requires i <= |s| && MembersEnd(s, i).Some?
    ensures i < r.0 <= r.1 <= |s| && MemberValue(s, i) == Some(r.0) && ValueEnd(s, r.0) == Some(r.1)
    ensures var j := SkipSpace(s, r.1); j < |s| && (s[j] == COMMA ==> MembersEnd(s, SkipSpace(s, j + 1)).Some?)
  {
    var v := MemberValue(s, i).value;
    (v, ValueEnd(s, v).value)
  }

  /** The members of an object from the key at i on. */
  function Members(s: seq<byte>, i: nat): seq<Member>
    requires i <= |s| && MembersEnd(s, i).Some?
    decreases |s| - i
  {
    var (v, k) := MemberSpan(s, i);
    var j := SkipSpace(s, k);
    var member := Member(s[i + 1..StringEnd(s, i + 1).value - 1], s[v..k]);
    if s[j] == COMMA then [member] + Members(s, SkipSpace(s, j + 1)) else [member]
  }

  function RecordMembers(s: seq<byte>): seq<Member>
    requires IsObjectText(s)
  {
    var i := SkipSpace(s, 0) + 1;
    var j := SkipSpace(s, i);
    if j < |s| && s[j] == RBRACE then [] else Members(s, j)
  }

  predicate IsQuoted(value: seq<byte>) {
    |value| >= 2 && value[0] == QUOTE && value[|value| - 1] == QUOTE
  }

  /** The string field `key` of a record: the last one wins, null is skipped, any other value is an error. */
  function StringField(members: seq<Member>, key: seq<byte>): Option<seq<byte>> {
    if members == [] then Some([])
    else
      var m := members[|members| - 1];
      var earlier := StringField(members[..|members| - 1], key);
      if m.key != key || m.value == NULL || earlier.None? then earlier
      else if IsQuoted(m.value) then Some(m.value[1..|m.value| - 1])
      else None
  }

  predicate Contains(s: seq<byte>, text: seq<byte>) {
    exists i {:trigger At(s, i, text)} :: 0 <= i <= |s| && At(s, i, text)
  }

  /** The title a line records, if it is an ai-title record. */
  function TitleOf(line: seq<byte>): Option<seq<byte>> {
    if !IsObjectText(line) then None
    else
      var members := RecordMembers(line);
      if StringField(members, TYPE) != Some(AI_TITLE) then None else StringField(members, AI_TITLE_KEY)
  }

  lemma KeyHasEnd(s: seq<byte>, i: nat)
    requires i <= |s| && MemberValue(s, i).Some?
    ensures i < |s| && StringEnd(s, i + 1).Some? && i + 1 < StringEnd(s, i + 1).value <= |s|
  {
  }

  lemma MembersStep(s: seq<byte>, i: nat) returns (first: Member, v: nat, k: nat, j: nat)
    requires i <= |s| && MembersEnd(s, i).Some?
    ensures i < v <= k <= j < |s| && first.value == s[v..k]
    ensures MemberValue(s, i) == Some(v) && ValueEnd(s, v) == Some(k) && j == SkipSpace(s, k)
    ensures StringEnd(s, i + 1).Some? && i + 1 < StringEnd(s, i + 1).value <= |s|
    ensures first.key == s[i + 1..StringEnd(s, i + 1).value - 1]
    ensures s[j] == COMMA ==>
      MembersEnd(s, SkipSpace(s, j + 1)).Some? && Members(s, i) == [first] + Members(s, SkipSpace(s, j + 1))
    ensures s[j] != COMMA ==> Members(s, i) == [first]
  {
    hide MembersEnd, ValueEnd, StringEnd, SkipSpace, MemberValue;
    v, k, j := MembersUnfold(s, i);
    KeyHasEnd(s, i);
    first := Members(s, i)[0];
  }

  lemma {:induction false} ValueIsSlice(s: seq<byte>, i: nat, m: Member) returns (v: nat)
    requires i <= |s| && MembersEnd(s, i).Some? && m in Members(s, i)
    ensures At(s, v, m.value)
    decreases |s| - i
  {
    hide MembersEnd, Members;
    var first, start, k, j := MembersStep(s, i);
    v := start;
    if m != first {
      v := ValueIsSlice(s, SkipSpace(s, j + 1), m);
    }
  }

  lemma {:induction false} FieldIsSomeValue(members: seq<Member>, key: seq<byte>) returns (m: Member)
    requires StringField(members, key).Some? && StringField(members, key) != Some([])
    ensures m in members && IsQuoted(m.value) && StringField(members, key).value == m.value[1..|m.value| - 1]
  {
    var n := |members| - 1;
    m := members[n];
    if StringField(members, key) == StringField(members[..n], key) {
      m := FieldIsSomeValue(members[..n], key);
    }
  }

  /** Only a line that spells "ai-title" can be a record, so skipping the others before parsing loses nothing. */
  lemma FilterIsSafe(line: seq<byte>)
    requires TitleOf(line).Some?
    ensures Contains(line, NEEDLE)
  {
    var m := FieldIsSomeValue(RecordMembers(line), TYPE);
    assert m.value == [m.value[0]] + m.value[1..|m.value| - 1] + [m.value[|m.value| - 1]];
    assert m.value == NEEDLE;
    var v := ValueIsSlice(line, SkipSpace(line, SkipSpace(line, 0) + 1), m);
  }

  // ---- lines ----

  /** The position of the first newline, or the length when there is none. */
  function LineEnd(f: seq<byte>): (n: nat)
    ensures n <= |f| && (n < |f| ==> f[n] == NEWLINE) && forall k :: 0 <= k < n ==> f[k] != NEWLINE
  {
    if f == [] || f[0] == NEWLINE then 0 else 1 + LineEnd(f[1..])
  }

  function DropCR(line: seq<byte>): seq<byte> {
    if line != [] && line[|line| - 1] == CARRIAGE_RETURN then line[..|line| - 1] else line
  }

  /** bufio.ScanLines: the last line counts even without a newline, if it is not empty. */
  function Lines(f: seq<byte>): seq<seq<byte>>
    decreases |f|
  {
    if f == [] then []
    else
      var n := LineEnd(f);
      [DropCR(f[..n])] + if n < |f| then Lines(f[n + 1..]) else []
  }

  /** Lines end at newlines, and a carriage return before one is not part of the line; so too at the end of the file. */
  lemma LinesAtNewlines(line: seq<byte>, rest: seq<byte>)
    requires 10 !in line
    ensures var bare := if line != [] && line[|line| - 1] == 13 then line[..|line| - 1] else line;
      && Lines(line + [10] + rest) == [bare] + Lines(rest)
      && (line != [] ==> Lines(line) == [bare])
  {
    hide LineEnd;
    var f := line + [10] + rest;
    LineEndOf(line, [10] + rest);
    LineEndOf(line, []);
    assert line + ([10] + rest) == f && line + [] == line;
    assert f[..|line|] == line && f[|line| + 1..] == rest;
    assert line != [] ==> line[..|line|] == line;
  }

  lemma {:induction false} LineEndOf(line: seq<byte>, rest: seq<byte>)
    requires 10 !in line && (rest == [] || rest[0] == 10)
    ensures LineEnd(line + rest) == |line|
  {
    var f := line + rest;
    var n := LineEnd(f);
    assert forall k :: 0 <= k < |line| ==> f[k] == line[k] && line[k] in line;
    assert rest != [] ==> f[|line|] == 10;
  }

  /** The lines that start at offset `off` or later. */
  function LinesFrom(f: seq<byte>, off: nat): seq<seq<byte>>
    decreases |f|
  {
    if off == 0 then Lines(f)
    else if f == [] || LineEnd(f) == |f| then []
    else
      var n := LineEnd(f);
      LinesFrom(f[n + 1..], if off > n then off - (n + 1) else 0)
  }

  function LastSome(titles: seq<Option<seq<byte>>>): seq<byte> {
    if titles == [] then []
    else if titles[|titles| - 1].Some? then titles[|titles| - 1].value
    else LastSome(titles[..|titles| - 1])
  }

  function Titles(lines: seq<seq<byte>>): seq<Option<seq<byte>>> {
    seq(|lines|, i requires 0 <= i < |lines| => TitleOf(lines[i]))
  }

  /** The title of the last line that records one, "" if none does. */
  function LastTitle(lines: seq<seq<byte>>): seq<byte> {
    LastSome(Titles(lines))
  }

  function Window(f: seq<byte>): seq<byte> {
    if |f| > TITLE_TAIL_BYTES then f[|f| - TITLE_TAIL_BYTES..] else f
  }

  /** What the scan of a transcript returns; a file that cannot be read has no title. */
  function TranscriptTitle(file: Option<seq<byte>>): seq<byte> {
    if file.None? then [] else LastTitle(Lines(Window(file.value)))
  }

  lemma LastTitleOneMore(lines: seq<seq<byte>>, i: nat)
    requires i < |lines|
    ensures LastTitle(lines[..i + 1])
      == if TitleOf(lines[i]).Some? then TitleOf(lines[i]).value else LastTitle(lines[..i])
  {
    hide TitleOf;
    assert Titles(lines[..i + 1])[..i] == Titles(lines[..i]);
  }

  lemma TitleOfNone(lines: seq<seq<byte>>)
    ensures LastTitle(lines[..0]) == []
  {
  }

  method TitleFromTranscript(file: Option<seq<byte>>) returns (title: seq<byte>)
    ensures title == TranscriptTitle(file)
  {
    title := [];
    if file.None? {
      return;
    }
    hide TitleOf, Contains, Lines, LastTitle;
    var lines := Lines(Window(file.value));
    TitleOfNone(lines);
    for i := 0 to |lines|
      invariant title == LastTitle(lines[..i])
    {
      var line := lines[i];
      LastTitleOneMore(lines, i);
      if !Contains(line, NEEDLE) {
        if TitleOf(line).Some? { FilterIsSafe(line); }
        continue;
      }
      var record := TitleOf(line);
      if record.None? {
        continue;
      }
      title := record.value;
    }
    assert lines[..|lines|] == lines;
  }

  // ---- what the window shows ----

  /** The line that a cut at `off` splits, None if the cut falls between lines. */
  function CutLine(f: seq<byte>, off: nat): Option<seq<byte>>
    decreases |f|
  {
    if f == [] || off == 0 then None
    else
      var n := LineEnd(f);
      if off < n then Some(DropCR(f[..n]))
      else if off <= n + 1 || n == |f| then None
      else CutLine(f[n + 1..], off - (n + 1))
  }

  /** If a cut at `off` splits a line, that line is an object text from its first byte on, as JSONL lines are. */
  ghost predicate CleanCut(f: seq<byte>, off: nat) {
    var line := CutLine(f, off);
    line.Some? ==> line.value != [] && line.value[0] == LBRACE && IsObjectText(line.value)
  }

  lemma {:induction false} LastSomeAppend(a: seq<Option<seq<byte>>>, b: seq<Option<seq<byte>>>)
    ensures LastSome(a + b) == if exists t :: t in b && t.Some? then LastSome(b) else LastSome(a)
  {
    if b == [] {
      assert a + b == a;
    } else {
      var n := |b| - 1;
      assert (a + b)[..|a| + n] == a + b[..n];
      LastSomeAppend(a, b[..n]);
      assert forall t :: t in b <==> t in b[..n] || t == b[n];
    }
  }

  /** Some of the lines is an ai-title record. */
  ghost predicate HasTitle(lines: seq<seq<byte>>) {
    exists t :: t in Titles(lines) && t.Some?
  }

  /** A later title hides every earlier one; without one the earlier lines decide. */
  lemma LastTitleAppend(a: seq<seq<byte>>, b: seq<seq<byte>>)
    ensures LastTitle(a + b) == if HasTitle(b) then LastTitle(b) else LastTitle(a)
  {
    hide TitleOf;
    assert Titles(a + b) == Titles(a) + Titles(b);
    LastSomeAppend(Titles(a), Titles(b));
  }

  lemma NoTitles(lines: seq<seq<byte>>)
    requires !HasTitle(lines)
    ensures LastTitle(lines) == []
  {
    LastSomeAppend([], Titles(lines));
    assert [] + Titles(lines) == Titles(lines);
  }

  lemma LastTitleCons(line: seq<byte>, lines: seq<seq<byte>>)
    requires TitleOf(line) == None
    ensures LastTitle([line] + lines) == LastTitle(lines)
  {
    LastTitleAppend([line], lines);
    assert Titles([line]) == [None];
    NoTitles([line]);
    if !HasTitle(lines) {
      NoTitles(lines);
    }
  }

  /** Cut after its first byte, a transcript line is no record. */
  lemma FragmentIsNoRecord(raw: seq<byte>, off: nat)
    requires 0 < off <= |raw|
    requires off < |raw| ==> var line := DropCR(raw); line != [] && line[0] == LBRACE && IsObjectText(line)
    ensures TitleOf(DropCR(raw[off..])) == None
  {
    var line, fragment := DropCR(raw), DropCR(raw[off..]);
    if off < |raw| && off <= |line| {
      assert fragment == line[off..];
      NoProperSuffix(line, off);
    } else {
      assert fragment == [];
    }
  }

  /** What follows the newline at position n. */
  function After(f: seq<byte>, n: nat): seq<byte> {
    if n < |f| then f[n + 1..] else []
  }

  /** The part of f after its first line. */
  function AfterLine(f: seq<byte>): seq<byte> {
    After(f, LineEnd(f))
  }

  lemma LinesUnfold(f: seq<byte>)
    requires f != []
    ensures Lines(f) == [DropCR(f[..LineEnd(f)])] + Lines(AfterLine(f))
  {
  }

  /** A cut inside the first line leaves a fragment and then the same lines. */
  lemma CutInFirstLine(f: seq<byte>, off: nat)
    requires 0 < off <= LineEnd(f) && off < |f|
    ensures Lines(f[off..]) == [DropCR(f[..LineEnd(f)][off..])] + Lines(AfterLine(f))
  {
    hide Lines, After, DropCR;
    CutLineEnd(f, off);
    CutAt(f, off, LineEnd(f), f[off..], LineEnd(f[off..]));
    LinesUnfold(f[off..]);
  }

  lemma CutAt(f: seq<byte>, off: nat, n: nat, g: seq<byte>, m: nat)
    requires off <= n <= |f| && off < |f| && g == f[off..] && m == n - off
    ensures g[..m] == f[..n][off..]
    ensures After(g, m) == After(f, n)
  {
  }

  lemma LinesFromUnfold(f: seq<byte>, off: nat)
    requires f != [] && off > 0
    ensures LinesFrom(f, off) == LinesFrom(AfterLine(f), if off > LineEnd(f) then off - (LineEnd(f) + 1) else 0)
    ensures LinesFrom(f, 0) == Lines(f)
  {
  }

  lemma CutLineUnfold(f: seq<byte>, off: nat)
    requires f != [] && 0 < off
    ensures off < LineEnd(f) ==> CutLine(f, off) == Some(DropCR(f[..LineEnd(f)]))
    ensures off > LineEnd(f) && off <= |f| ==> CutLine(f, off) == CutLine(AfterLine(f), off - (LineEnd(f) + 1))
  {
  }

  /** From any offset, the scan finds what the lines starting there or later hold. */
  lemma {:induction false} FragmentIsSkipped(f: seq<byte>, off: nat)
    requires off <= |f| && CleanCut(f, off)
    ensures LastTitle(Lines(f[off..])) == LastTitle(LinesFrom(f, off))
    decreases |f|
  {
    hide TitleOf, IsObjectText, DropCR, LastTitle, Lines, LinesFrom, CutLine;
    if off == 0 {
      assert f[0..] == f;
      if f != [] { LinesFromUnfold(f, 1); } else { NothingFromEnd(f); }
    } else if off == |f| {
      NothingFromEnd(f);
      assert f[off..] == [];
    } else {
      var n, rest := LineEnd(f), AfterLine(f);
      CutLineUnfold(f, off);
      LinesFromUnfold(f, off);
      if off > n {
        assert f[off..] == rest[off - (n + 1)..];
        FragmentIsSkipped(rest, off - (n + 1));
      } else {
        CutInFirstLine(f, off);
        FragmentIsNoRecord(f[..n], off);
        LastTitleCons(DropCR(f[..n][off..]), Lines(rest));
        if rest != [] { LinesFromUnfold(rest, 1); } else { NothingFromEnd(rest); }
      }
    }
  }

  lemma {:induction false} CutLineEnd(f: seq<byte>, off: nat)
    requires off <= LineEnd(f)
    ensures LineEnd(f[off..]) == LineEnd(f) - off
  {
    var m := LineEnd(f[off..]);
    assert m < |f| - off ==> f[off..][m] == f[off + m];
    assert LineEnd(f) - off < |f[off..]| ==> f[off..][LineEnd(f) - off] == f[LineEnd(f)];
  }

  lemma {:induction false} NothingFromEnd(f: seq<byte>)
    ensures LinesFrom(f, |f|) == [] == Lines([])
    decreases |f|
  {
    if f != [] && LineEnd(f) < |f| {
      NothingFromEnd(f[LineEnd(f) + 1..]);
    }
  }

  /** The offset at which the window starts. */
  function WindowStart(f: seq<byte>): nat {
    if |f| > TITLE_TAIL_BYTES then |f| - TITLE_TAIL_BYTES else 0
  }

  lemma WindowSize(f: seq<byte>)
    ensures WindowStart(f) == if |f| > 65536 then |f| - 65536 else 0
  {
  }

  /** The scan returns the title of the last complete ai-title line that starts inside the window. */
  lemma ScanIsExact(f: seq<byte>)
    requires CleanCut(f, WindowStart(f))
    ensures TranscriptTitle(Some(f)) == LastTitle(LinesFrom(f, WindowStart(f)))
  {
    hide Lines, LinesFrom, LastTitle, CleanCut;
    FragmentIsSkipped(f, WindowStart(f));
    assert f[0..] == f;
  }

  lemma {:induction false} LinesFromIsSuffix(f: seq<byte>, off: nat) returns (earlier: seq<seq<byte>>)
    ensures Lines(f) == earlier + LinesFrom(f, off)
    decreases |f|
  {
    if off == 0 {
      earlier := [];
    } else if f == [] || LineEnd(f) == |f| {
      earlier := Lines(f);
    } else {
      var n, rest := LineEnd(f), AfterLine(f);
      var off' := if off > n then off - (n + 1) else 0;
      var more := LinesFromIsSuffix(rest, off');
      LinesUnfold(f);
      assert LinesFrom(f, off) == LinesFrom(rest, off');
      earlier := [DropCR(f[..n])] + more;
    }
  }

  /** If some ai-title line starts inside the window, the scan agrees with reading the whole file. */
  lemma WindowIsEnough(f: seq<byte>)
    requires CleanCut(f, WindowStart(f))
    requires HasTitle(LinesFrom(f, WindowStart(f)))
    ensures TranscriptTitle(Some(f)) == LastTitle(Lines(f))
  {
    ScanIsExact(f);
    var earlier := LinesFromIsSuffix(f, WindowStart(f));
    LastTitleAppend(earlier, LinesFrom(f, WindowStart(f)));
  }

  /** If none does, the scan returns "". */
  lemma NoTitleInWindow(f: seq<byte>)
    requires CleanCut(f, WindowStart(f))
    requires !HasTitle(LinesFrom(f, WindowStart(f)))
    ensures TranscriptTitle(Some(f)) == []
  {
    ScanIsExact(f);
    NoTitles(LinesFrom(f, WindowStart(f)));
  }
}
