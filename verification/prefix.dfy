/**
 Resolving a session by id prefix (internal/store/store.go resolveByPrefix): the
 query is `id LIKE prefix || '%' LIMIT 2`, so the prefix is a LIKE pattern, in
 which % and _ are wildcards and ASCII letters match in either case.
 */
module Prefix {
  import opened Wrappers

  function FoldCase(c: char): char {
    if 'A' <= c <= 'Z' then c + 32 as char else c
  }

  /** SQLite's LIKE. */
  predicate Like(pattern: string, s: string)
    decreases |pattern| + |s|
  {
    if pattern == "" then s == ""
    else if pattern[0] == '%' then Like(pattern[1..], s) || (s != "" && Like(pattern, s[1..]))
    else s != "" && (pattern[0] == '_' || FoldCase(pattern[0]) == FoldCase(s[0])) && Like(pattern[1..], s[1..])
  }

  datatype Resolution = NotFound | Unique(id: string) | Ambiguous

  function Matching(ids: set<string>, prefix: string): set<string> {
    set id | id in ids && Like(prefix + "%", id)
  }

  /** The answer for the sessions found. */
  ghost function Verdict(found: set<string>): Resolution {
    if found == {} then NotFound
    else if exists id :: found == {id} then var id :| found == {id}; Unique(id)
    else Ambiguous
  }

  ghost function Resolve(ids: set<string>, prefix: string): Resolution {
    Verdict(Matching(ids, prefix))
  }

  /** Reads at most two matches, enough to tell a unique one from an ambiguous one. */
  method ResolveByPrefix(ids: set<string>, prefix: string) returns (r: Resolution)
    ensures r == Resolve(ids, prefix)
  {
    var found := Matching(ids, prefix);
    if first :| first in found {
      if second :| second in found - {first} {
        assert forall id :: found == {id} ==> first == id && second == id;
        return Ambiguous;
      }
      assert found - {first} == {};
      assert found == {first};
      return Unique(first);
    }
    return NotFound;
  }

  lemma {:induction false} PercentMatchesAll(s: string)
    ensures Like("%", s)
  {
    assert "%"[1..] == "";
    if s != "" {
      PercentMatchesAll(s[1..]);
    }
  }

  /** A pattern position that is a single-character wildcard or the character itself, up to case. */
  predicate Fits(p: char, c: char) {
    p == '_' || FoldCase(p) == FoldCase(c)
  }

  /** Without a %, the pattern is compared position by position with the start of the id. */
  lemma {:induction false} LikeIsPrefix(prefix: string, s: string)
    requires '%' !in prefix
    ensures Like(prefix + "%", s) <==> |prefix| <= |s| && forall k :: 0 <= k < |prefix| ==> Fits(prefix[k], s[k])
  {
    if prefix == "" {
      assert prefix + "%" == "%";
      PercentMatchesAll(s);
    } else if s != "" {
      var p := prefix + "%";
      assert p[1..] == prefix[1..] + "%";
      LikeIsPrefix(prefix[1..], s[1..]);
      if |prefix| <= |s| {
        forall k | 0 < k < |prefix| ensures Fits(prefix[k], s[k]) <==> Fits(prefix[1..][k - 1], s[1..][k - 1]) {
        }
        assert (forall k :: 0 <= k < |prefix| ==> Fits(prefix[k], s[k]))
          ==> forall k :: 0 <= k < |prefix[1..]| ==> Fits(prefix[1..][k], s[1..][k]) by {
          assert forall k :: 0 <= k < |prefix[1..]| ==> prefix[1..][k] == prefix[k + 1] && s[1..][k] == s[k + 1];
        }
      }
    }
  }

  /** A character the daemon's ids are made of: a lower-case hexadecimal digit. */
  predicate IsIdChar(c: char) {
    '0' <= c <= '9' || 'a' <= c <= 'f'
  }

  ghost predicate IsIdText(s: string) {
    forall k :: 0 <= k < |s| ==> IsIdChar(s[k])
  }

  /** Some character of the prefix, no wildcard, is none of an id's in either case. */
  ghost predicate Hopeless(prefix: string) {
    exists k :: 0 <= k < |prefix| && prefix[k] != '%' && prefix[k] != '_' && !IsIdChar(FoldCase(prefix[k]))
  }

  /** How many characters a match takes up at least. */
  function Width(pattern: string): nat {
    if pattern == "" then 0 else Width(pattern[1..]) + if pattern[0] == '%' then 0 else 1
  }

  /** Spelled as ids are, or matching no id of n characters whatever it is. */
  ghost predicate Clean(prefix: string, n: nat) {
    IsIdText(prefix) || Hopeless(prefix) || Width(prefix) > n
  }

  /** A match contains each literal of the pattern, up to case, and is at least as long as its width. */
  lemma {:induction false} MatchContainsLiterals(pattern: string, s: string)
    requires Like(pattern, s)
    ensures Width(pattern) <= |s|
    ensures forall k :: 0 <= k < |pattern| && pattern[k] != '%' && pattern[k] != '_' ==>
      exists j :: 0 <= j < |s| && FoldCase(s[j]) == FoldCase(pattern[k])
    decreases |pattern| + |s|
  {
    if pattern != "" {
      var p, t := pattern[1..], if pattern[0] == '%' && Like(pattern[1..], s) then s else s[1..];
      MatchContainsLiterals(if Like(p, t) then p else pattern, t);
      forall k | 0 <= k < |pattern| && pattern[k] != '%' && pattern[k] != '_'
        ensures exists j :: 0 <= j < |s| && FoldCase(s[j]) == FoldCase(pattern[k])
      {
        if k == 0 {
          assert FoldCase(s[0]) == FoldCase(pattern[0]);
        } else {
          assert p[k - 1] == pattern[k];
          var j :| 0 <= j < |t| && FoldCase(t[j]) == FoldCase(pattern[k]);
          assert t == s || t[j] == s[j + 1];
        }
      }
    }
  }

  lemma {:induction false} WidthOfPrefix(prefix: string)
    ensures Width(prefix + "%") == Width(prefix)
  {
    if prefix != "" {
      assert (prefix + "%")[1..] == prefix[1..] + "%";
      WidthOfPrefix(prefix[1..]);
    } else {
      assert prefix + "%" == "%" && "%"[1..] == "";
    }
  }

  lemma MatchIsHopeful(prefix: string, id: string)
    requires IsIdText(id) && Like(prefix + "%", id)
    ensures !Hopeless(prefix) && Width(prefix) <= |id|
  {
    MatchContainsLiterals(prefix + "%", id);
    WidthOfPrefix(prefix);
    forall k | 0 <= k < |prefix| && prefix[k] != '%' && prefix[k] != '_' ensures IsIdChar(FoldCase(prefix[k])) {
      assert (prefix + "%")[k] == prefix[k];
      var j :| 0 <= j < |id| && FoldCase(id[j]) == FoldCase(prefix[k]);
      assert IsIdChar(id[j]);
    }
  }

  lemma StartOfIdText(prefix: string, id: string)
    requires IsIdText(id) && !IsIdText(prefix)
    ensures !(prefix <= id)
  {
    var k :| 0 <= k < |prefix| && !IsIdChar(prefix[k]);
    assert k < |id| ==> prefix[k] != id[k];
  }

  /** A clean prefix matches exactly the ids that start with it. */
  lemma LikeOnIds(prefix: string, id: string)
    requires IsIdText(id) && Clean(prefix, |id|)
    ensures Like(prefix + "%", id) <==> prefix <= id
  {
    if IsIdText(prefix) {
      assert '%' !in prefix;
      LikeIsPrefix(prefix, id);
      if Like(prefix + "%", id) {
        forall k | 0 <= k < |prefix| ensures prefix[k] == id[k] {
          assert Fits(prefix[k], id[k]) && IsIdChar(prefix[k]) && IsIdChar(id[k]);
        }
      }
    } else {
      StartOfIdText(prefix, id);
      if Like(prefix + "%", id) {
        MatchIsHopeful(prefix, id);
      }
    }
  }

  /** An id text the prefix matches: wildcards made definite, letters in lower case. */
  function Spelled(prefix: string): string {
    if prefix == "" then ""
    else
      (if prefix[0] == '%' then "" else if prefix[0] == '_' then "0" else [FoldCase(prefix[0])]) + Spelled(prefix[1..])
  }

  lemma {:induction false} SpelledMatches(prefix: string, rest: string)
    ensures Like(prefix + "%", Spelled(prefix) + rest)
    ensures |Spelled(prefix)| == Width(prefix)
  {
    if prefix == "" {
      assert prefix + "%" == "%" && Spelled(prefix) + rest == rest;
      PercentMatchesAll(rest);
    } else {
      var s := Spelled(prefix) + rest;
      assert (prefix + "%")[1..] == prefix[1..] + "%";
      SpelledMatches(prefix[1..], rest);
      if prefix[0] == '%' {
        assert s == Spelled(prefix[1..]) + rest;
      } else {
        assert s[1..] == Spelled(prefix[1..]) + rest;
      }
    }
  }

  lemma {:induction false} SpelledIsIdText(prefix: string)
    requires !Hopeless(prefix)
    ensures IsIdText(Spelled(prefix))
  {
    if prefix != "" {
      assert forall k :: 0 <= k < |prefix[1..]| ==> prefix[1..][k] == prefix[k + 1];
      SpelledIsIdText(prefix[1..]);
      assert prefix[0] == '%' || prefix[0] == '_' || IsIdChar(FoldCase(prefix[0]));
    }
  }

  /** A prefix that is not clean resolves to a session whose id does not start with it. */
  lemma LooseResolves(prefix: string, n: nat) returns (id: string)
    requires !Clean(prefix, n)
    ensures IsIdText(id) && |id| == n && !(prefix <= id)
    ensures Like(prefix + "%", id) && Resolve({id}, prefix) == Unique(id)
  {
    var rest := seq(n - Width(prefix), _ => '0');
    id := Spelled(prefix) + rest;
    SpelledMatches(prefix, rest);
    SpelledIsIdText(prefix);
    assert IsIdText(id);
    StartOfIdText(prefix, id);
    assert Matching({id}, prefix) == {id};
  }

  /** Sessions with ids of n characters. */
  ghost predicate AreIds(ids: set<string>, n: nat) {
    forall id :: id in ids ==> IsIdText(id) && |id| == n
  }

  /** The sessions whose id starts with the prefix, as the promise has it. */
  function Prefixed(ids: set<string>, prefix: string): set<string> {
    set id | id in ids && prefix <= id
  }

  /**
   The exact condition, for ids of any one length: every set of sessions is
   resolved as by true prefixes if and only if the prefix is clean.
   */
  lemma ResolvesExactly(prefix: string, n: nat)
    ensures (forall ids :: AreIds(ids, n) ==> Resolve(ids, prefix) == Verdict(Prefixed(ids, prefix)))
      <==> Clean(prefix, n)
  {
    hide Clean, Verdict;
    if Clean(prefix, n) {
      forall ids | AreIds(ids, n) ensures Resolve(ids, prefix) == Verdict(Prefixed(ids, prefix)) {
        forall id | id in ids ensures Like(prefix + "%", id) <==> prefix <= id {
          LikeOnIds(prefix, id);
        }
        assert Matching(ids, prefix) == Prefixed(ids, prefix);
      }
    } else {
      var id := LooseResolves(prefix, n);
      assert AreIds({id}, n);
      assert Prefixed({id}, prefix) == {};
      NothingFound();
    }
  }

  lemma NothingFound()
    ensures Verdict({}) == NotFound
  {
  }

  /** For a clean prefix, a session is resolved exactly when it is the only one whose id starts so. */
  lemma ResolvesUniquePrefix(ids: set<string>, prefix: string, id: string)
    requires forall i :: i in ids ==> IsIdText(i) && Clean(prefix, |i|)
    ensures Resolve(ids, prefix) == Unique(id) <==>
      id in ids && prefix <= id && forall other :: other in ids && prefix <= other ==> other == id
    ensures Resolve(ids, prefix) == NotFound <==> forall i :: i in ids ==> !(prefix <= i)
  {
    hide Clean;
    var found := Matching(ids, prefix);
    forall i | i in ids ensures i in found <==> prefix <= i {
      LikeOnIds(prefix, i);
    }
    if id in ids && prefix <= id && forall other :: other in ids && prefix <= other ==> other == id {
      assert found == {id};
    }
    if Resolve(ids, prefix) == Unique(id) {
      assert found == {id};
    }
    if found != {} {
      var i :| i in found;
    }
  }

  /** The three ways to be loose: an underscore, a percent sign, a letter in upper case. */
  lemma UnderscoreIsAWildcard(id: string)
    requires id != ""
    ensures Resolve({id}, "_") == Unique(id)
    ensures Resolve({id}, "%") == Unique(id)
    ensures id[0] == 'a' ==> Resolve({id}, "A") == Unique(id)
  {
    LikeIsPrefix("_", id);
    LikeIsPrefix("A", id);
    PercentMatchesAll(id);
    assert "%" + "%" == "%%" && "%%"[1..] == "%";
    assert Matching({id}, "_") == {id} && Matching({id}, "%") == {id};
    assert id[0] == 'a' ==> Matching({id}, "A") == {id};
  }
}
