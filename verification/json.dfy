/**
 JSON texts as bytes: the grammar of RFC 8259 (sections 2 to 7) as Go's decoder
 accepts it, and the theorem the transcript reader relies on: cut anywhere, an
 object text does not leave an object text behind.

 Inside strings any byte from 0x20 on is accepted, as the decoder accepts it; a
 recogniser that also rejects malformed UTF-8 accepts fewer texts.
 */
module Json {
  import opened Wrappers

  type byte = n: int | 0 <= n < 256

  const QUOTE: byte := 34
  const BACKSLASH: byte := 92
  const LBRACE: byte := 123
  const RBRACE: byte := 125
  const LBRACKET: byte := 91
  const RBRACKET: byte := 93
  const COMMA: byte := 44
  const COLON: byte := 58

  predicate IsSpace(b: byte) {
    b == 32 || b == 9 || b == 10 || b == 13
  }

  predicate IsDigit(b: byte) {
    48 <= b <= 57
  }

  predicate IsHex(b: byte) {
    IsDigit(b) || 65 <= b <= 70 || 97 <= b <= 102
  }

  /** What may follow a backslash, the u of a hexadecimal escape included. */
  predicate IsEscape(b: byte) {
    b == QUOTE || b == BACKSLASH || b == 47 || b == 98 || b == 102 || b == 110 || b == 114 || b == 116 || b == 117
  }

  // ---- the grammar, as a recogniser: the position after the construct that starts at i ----

  function SkipSpace(s: seq<byte>, i: nat): (j: nat)
    requires i <= |s|
    ensures i <= j <= |s|
    decreases |s| - i
  {
    if i < |s| && IsSpace(s[i]) then SkipSpace(s, i + 1) else i
  }

  /** The rest of a string, from just after its opening quote. */
  function StringEnd(s: seq<byte>, i: nat): (r: Option<nat>)
    requires i <= |s|
    ensures r.Some? ==> i < r.value <= |s|
    decreases |s| - i
  {
    if i == |s| || s[i] < 32 then None
    else if s[i] == QUOTE then Some(i + 1)
    else if s[i] != BACKSLASH then StringEnd(s, i + 1)
    else if i + 1 == |s| || !IsEscape(s[i + 1]) then None
    else if s[i + 1] != 117 then StringEnd(s, i + 2)
    else if i + 6 <= |s| && IsHex(s[i + 2]) && IsHex(s[i + 3]) && IsHex(s[i + 4]) && IsHex(s[i + 5])
      then StringEnd(s, i + 6)
    else None
  }

  function DigitsEnd(s: seq<byte>, i: nat): (j: nat)
    requires i <= |s|
    ensures i <= j <= |s| && forall k :: i <= k < j ==> IsDigit(s[k])
    decreases |s| - i
  {
    if i < |s| && IsDigit(s[i]) then DigitsEnd(s, i + 1) else i
  }

  /** A byte of a number or a literal name. */
  predicate IsScalarByte(b: byte) {
    IsDigit(b) || b == 43 || b == 45 || b == 46 || b == 69 || 97 <= b <= 122
  }

  ghost predicate ScalarBytes(s: seq<byte>, i: nat, r: Option<nat>) {
    r.Some? ==> i < r.value <= |s| && forall k :: i <= k < r.value ==> IsScalarByte(s[k])
  }

  function IntEnd(s: seq<byte>, i: nat): (r: Option<nat>)
    requires i <= |s|
    ensures ScalarBytes(s, i, r)
  {
    var j := if i < |s| && s[i] == 45 then i + 1 else i;
    if j == |s| || !IsDigit(s[j]) then None
    else if s[j] == 48 then Some(j + 1)
    else Some(DigitsEnd(s, j))
  }

  function FractionEnd(s: seq<byte>, i: nat): (r: Option<nat>)
    requires i <= |s|
    ensures r == Some(i) || ScalarBytes(s, i, r)
  {
    if i == |s| || s[i] != 46 then Some(i)
    else if DigitsEnd(s, i + 1) == i + 1 then None
    else Some(DigitsEnd(s, i + 1))
  }

  function ExponentEnd(s: seq<byte>, i: nat): (r: Option<nat>)
    requires i <= |s|
    ensures r == Some(i) || ScalarBytes(s, i, r)
  {
    if i == |s| || (s[i] != 69 && s[i] != 101) then Some(i)
    else
      var j := if i + 1 < |s| && (s[i + 1] == 43 || s[i + 1] == 45) then i + 2 else i + 1;
      if DigitsEnd(s, j) == j then None else Some(DigitsEnd(s, j))
  }

  function NumberEnd(s: seq<byte>, i: nat): (r: Option<nat>)
    requires i <= |s|
    ensures ScalarBytes(s, i, r)
  {
    match IntEnd(s, i)
    case None => None
    case Some(j) =>
      match FractionEnd(s, j)
      case None => None
      case Some(k) => ExponentEnd(s, k)
  }

  const TRUE: seq<byte> := [116, 114, 117, 101]
  const FALSE: seq<byte> := [102, 97, 108, 115, 101]
  const NULL: seq<byte> := [110, 117, 108, 108]

  predicate At(s: seq<byte>, i: nat, text: seq<byte>) {
    i + |text| <= |s| && s[i..i + |text|] == text
  }

  function ScalarEnd(s: seq<byte>, i: nat): (r: Option<nat>)
    requires i <= |s|
    ensures ScalarBytes(s, i, r)
  {
    if At(s, i, TRUE) then AtBytes(s, i, TRUE); Some(i + |TRUE|)
    else if At(s, i, FALSE) then AtBytes(s, i, FALSE); Some(i + |FALSE|)
    else if At(s, i, NULL) then AtBytes(s, i, NULL); Some(i + |NULL|)
    else NumberEnd(s, i)
  }

  lemma AtBytes(s: seq<byte>, i: nat, text: seq<byte>)
    requires At(s, i, text) && forall k :: 0 <= k < |text| ==> IsScalarByte(text[k])
    ensures forall k :: i <= k < i + |text| ==> IsScalarByte(s[k])
  {
    assert forall k :: i <= k < i + |text| ==> s[k] == s[i..i + |text|][k - i];
  }

  function ValueEnd(s: seq<byte>, i: nat): (r: Option<nat>)
    requires i <= |s|
    ensures r.Some? ==> i < r.value <= |s|
    decreases |s| - i, 0
  {
    if i == |s| then None
    else if s[i] == QUOTE then StringEnd(s, i + 1)
    else if s[i] == LBRACE then ObjectEnd(s, i + 1)
    else if s[i] == LBRACKET then ArrayEnd(s, i + 1)
    else ScalarEnd(s, i)
  }

  /** The rest of an object, from just after its brace. */
  function ObjectEnd(s: seq<byte>, i: nat): (r: Option<nat>)
    requires i <= |s|
    ensures r.Some? ==> i < r.value <= |s|
    decreases |s| - i, 3
  {
    var j := SkipSpace(s, i);
    if j < |s| && s[j] == RBRACE then Some(j + 1) else MembersEnd(s, j)
  }

  /** The position of the value of the member whose key starts at i: after the key, a colon and white space. */
  function MemberValue(s: seq<byte>, i: nat): (r: Option<nat>)
    requires i <= |s|
    ensures r.Some? ==> i < r.value <= |s|
  {
    if i == |s| || s[i] != QUOTE then None
    else match StringEnd(s, i + 1)
      case None => None
      case Some(k) =>
        var colon := SkipSpace(s, k);
        if colon == |s| || s[colon] != COLON then None else Some(SkipSpace(s, colon + 1))
  }

  /** The rest of an object from a key on. */
  function MembersEnd(s: seq<byte>, i: nat): (r: Option<nat>)
    requires i <= |s|
    ensures r.Some? ==> i < r.value <= |s|
    decreases |s| - i, 2
  {
    match MemberValue(s, i)
    case None => None
    case Some(v) =>
      match ValueEnd(s, v)
      case None => None
      case Some(k) =>
        var j := SkipSpace(s, k);
        if j == |s| then None
        else if s[j] == RBRACE then Some(j + 1)
        else if s[j] == COMMA then MembersEnd(s, SkipSpace(s, j + 1))
        else None
  }

  /** The rest of an array, from just after its bracket. */
  function ArrayEnd(s: seq<byte>, i: nat): (r: Option<nat>)
    requires i <= |s|
    ensures r.Some? ==> i < r.value <= |s|
    decreases |s| - i, 3
  {
    var j := SkipSpace(s, i);
    if j < |s| && s[j] == RBRACKET then Some(j + 1) else ElementsEnd(s, j)
  }

  function ElementsEnd(s: seq<byte>, i: nat): (r: Option<nat>)
    requires i <= |s|
    ensures r.Some? ==> i < r.value <= |s|
    decreases |s| - i, 2
  {
    match ValueEnd(s, i)
    case None => None
    case Some(k) =>
      var j := SkipSpace(s, k);
      if j == |s| then None
      else if s[j] == RBRACKET then Some(j + 1)
      else if s[j] == COMMA then ElementsEnd(s, SkipSpace(s, j + 1))
      else None
  }

  /** An object with white space around it and nothing else. */
  predicate IsObjectText(s: seq<byte>) {
    var i := SkipSpace(s, 0);
    && i < |s| && s[i] == LBRACE
    && ObjectEnd(s, i + 1).Some?
    && SkipSpace(s, ObjectEnd(s, i + 1).value) == |s|
  }

  // ---- a scanner that tracks strings and nesting only ----

  datatype Mode = Outside | InString | Escaped | Broken

  datatype Scan = Scan(mode: Mode, depth: int)

  function Step(st: Scan, b: byte): Scan {
    match st.mode
    case Outside =>
      if b == QUOTE then st.(mode := InString)
      else if b == BACKSLASH then st.(mode := Broken)
      else if b == LBRACE || b == LBRACKET then st.(depth := st.depth + 1)
      else if b == RBRACE || b == RBRACKET then st.(depth := st.depth - 1)
      else st
    case InString =>
      if b == QUOTE then st.(mode := Outside) else if b == BACKSLASH then st.(mode := Escaped) else st
    case Escaped => st.(mode := if IsEscape(b) then InString else Broken)
    case Broken => st
  }

  function Feed(st: Scan, s: seq<byte>): Scan
    decreases |s|
  {
    if s == [] then st else Feed(Step(st, s[0]), s[1..])
  }

  /** From position i to j the scanner goes from a to b, never breaks and never drops below the given depth. */
  ghost predicate Passes(s: seq<byte>, i: nat, j: nat, a: Scan, b: Scan, floor: int)
    decreases j - i
  {
    && i <= j <= |s| && a.mode != Broken && a.depth >= floor
    && if i == j then a == b else Passes(s, i + 1, j, Step(a, s[i]), b, floor)
  }

  lemma {:induction false} Joined(s: seq<byte>, i: nat, j: nat, k: nat, a: Scan, b: Scan, c: Scan, floor: int)
    requires Passes(s, i, j, a, b, floor) && Passes(s, j, k, b, c, floor)
    ensures Passes(s, i, k, a, c, floor)
    decreases j - i
  {
    if i < j {
      Joined(s, i + 1, j, k, Step(a, s[i]), b, c, floor);
    }
  }

  lemma {:induction false} LowerFloor(s: seq<byte>, i: nat, j: nat, a: Scan, b: Scan, floor: int, lower: int)
    requires Passes(s, i, j, a, b, floor) && lower <= floor
    ensures Passes(s, i, j, a, b, lower)
    decreases j - i
  {
    if i < j {
      LowerFloor(s, i + 1, j, Step(a, s[i]), b, floor, lower);
    }
  }

  lemma {:induction false} PlainPasses(s: seq<byte>, i: nat, j: nat, d: int)
    requires i <= j <= |s|
    requires forall k :: i <= k < j ==> IsSpace(s[k]) || IsScalarByte(s[k]) || s[k] == COMMA || s[k] == COLON
    ensures Passes(s, i, j, Scan(Outside, d), Scan(Outside, d), d)
    decreases j - i
  {
    if i < j {
      PlainPasses(s, i + 1, j, d);
    }
  }

  lemma {:induction false} SpaceBytes(s: seq<byte>, i: nat)
    requires i <= |s|
    ensures forall k :: i <= k < SkipSpace(s, i) ==> IsSpace(s[k])
    decreases |s| - i
  {
    if i < |s| && IsSpace(s[i]) {
      SpaceBytes(s, i + 1);
    }
  }

  lemma SpacePasses(s: seq<byte>, i: nat, d: int)
    requires i <= |s|
    ensures Passes(s, i, SkipSpace(s, i), Scan(Outside, d), Scan(Outside, d), d)
  {
    SpaceBytes(s, i);
    PlainPasses(s, i, SkipSpace(s, i), d);
  }

  lemma {:induction false} StringPasses(s: seq<byte>, i: nat, d: int)
    requires i <= |s| && StringEnd(s, i).Some?
    ensures Passes(s, i, StringEnd(s, i).value, Scan(InString, d), Scan(Outside, d), d)
    decreases |s| - i
  {
    var inside := Scan(InString, d);
    if s[i] == QUOTE {
      assert Passes(s, i + 1, i + 1, Scan(Outside, d), Scan(Outside, d), d);
    } else if s[i] != BACKSLASH {
      StringPasses(s, i + 1, d);
    } else if s[i + 1] != 117 {
      StringPasses(s, i + 2, d);
      assert Passes(s, i + 1, StringEnd(s, i).value, Scan(Escaped, d), Scan(Outside, d), d);
    } else {
      StringPasses(s, i + 6, d);
      assert Passes(s, i + 5, StringEnd(s, i).value, inside, Scan(Outside, d), d);
      assert Passes(s, i + 4, StringEnd(s, i).value, inside, Scan(Outside, d), d);
      assert Passes(s, i + 3, StringEnd(s, i).value, inside, Scan(Outside, d), d);
      assert Passes(s, i + 2, StringEnd(s, i).value, inside, Scan(Outside, d), d);
      assert Passes(s, i + 1, StringEnd(s, i).value, Scan(Escaped, d), Scan(Outside, d), d);
    }
  }

  predicate Opens(b: byte) {
    b == LBRACE || b == LBRACKET
  }

  predicate Closes(b: byte) {
    b == RBRACE || b == RBRACKET
  }

  /** The inside of a bracketed value, up to its closing bracket, stays one level deeper. */
  ghost predicate InsidePasses(s: seq<byte>, i: nat, end: nat, d: int) {
    && i < end <= |s| && Closes(s[end - 1])
    && Passes(s, i, end - 1, Scan(Outside, d + 1), Scan(Outside, d + 1), d + 1)
  }

  lemma BracketsPass(s: seq<byte>, i: nat, end: nat, d: int)
    requires i < |s| && Opens(s[i]) && InsidePasses(s, i + 1, end, d)
    ensures Passes(s, i, end, Scan(Outside, d), Scan(Outside, d), d)
  {
    var outside, inner := Scan(Outside, d), Scan(Outside, d + 1);
    LowerFloor(s, i + 1, end - 1, inner, inner, d + 1, d);
    assert Passes(s, end, end, outside, outside, d);
    Joined(s, i + 1, end - 1, end, inner, inner, outside, d);
  }

  /** White space before the inside, or before the next item, changes nothing. */
  lemma SpaceThenInside(s: seq<byte>, i: nat, end: nat, d: int)
    requires i <= |s| && InsidePasses(s, SkipSpace(s, i), end, d)
    ensures InsidePasses(s, i, end, d)
  {
    var inner := Scan(Outside, d + 1);
    SpacePasses(s, i, d + 1);
    Joined(s, i, SkipSpace(s, i), end - 1, inner, inner, inner, d + 1);
  }

  lemma ItemThenClose(s: seq<byte>, i: nat, k: nat, d: int)
    requires Passes(s, i, k, Scan(Outside, d + 1), Scan(Outside, d + 1), d + 1)
    requires SkipSpace(s, k) < |s| && Closes(s[SkipSpace(s, k)])
    ensures InsidePasses(s, i, SkipSpace(s, k) + 1, d)
  {
    var inner := Scan(Outside, d + 1);
    SpacePasses(s, k, d + 1);
    Joined(s, i, k, SkipSpace(s, k), inner, inner, inner, d + 1);
  }

  lemma ItemThenMore(s: seq<byte>, i: nat, k: nat, end: nat, d: int)
    requires Passes(s, i, k, Scan(Outside, d + 1), Scan(Outside, d + 1), d + 1)
    requires SkipSpace(s, k) < |s| && s[SkipSpace(s, k)] == COMMA
    requires InsidePasses(s, SkipSpace(s, SkipSpace(s, k) + 1), end, d)
    ensures InsidePasses(s, i, end, d)
  {
    var inner, j := Scan(Outside, d + 1), SkipSpace(s, k);
    SpacePasses(s, k, d + 1);
    Joined(s, i, k, j, inner, inner, inner, d + 1);
    SpaceThenInside(s, j + 1, end, d);
    assert Passes(s, j, end - 1, inner, inner, d + 1);
    Joined(s, i, j, end - 1, inner, inner, inner, d + 1);
  }

  lemma MemberValuePasses(s: seq<byte>, i: nat, d: int)
    requires i <= |s| && MemberValue(s, i).Some?
    ensures Passes(s, i, MemberValue(s, i).value, Scan(Outside, d), Scan(Outside, d), d)
  {
    var outside := Scan(Outside, d);
    var k := StringEnd(s, i + 1).value;
    var colon := SkipSpace(s, k);
    StringPasses(s, i + 1, d);
    assert Passes(s, i, k, outside, outside, d);
    SpacePasses(s, k, d);
    Joined(s, i, k, colon, outside, outside, outside, d);
    SpacePasses(s, colon + 1, d);
    assert Passes(s, colon, SkipSpace(s, colon + 1), outside, outside, d);
    Joined(s, i, colon, SkipSpace(s, colon + 1), outside, outside, outside, d);
  }

  /** A value leaves the scanner where it found it. */
  lemma {:induction false} ValuePasses(s: seq<byte>, i: nat, d: int)
    requires i <= |s| && ValueEnd(s, i).Some?
    ensures Passes(s, i, ValueEnd(s, i).value, Scan(Outside, d), Scan(Outside, d), d)
    decreases |s| - i, 0
  {
    if s[i] == QUOTE {
      StringPasses(s, i + 1, d);
    } else if s[i] == LBRACE {
      ObjectPasses(s, i + 1, d);
      BracketsPass(s, i, ValueEnd(s, i).value, d);
    } else if s[i] == LBRACKET {
      ArrayPasses(s, i + 1, d);
      BracketsPass(s, i, ValueEnd(s, i).value, d);
    } else {
      PlainPasses(s, i, ValueEnd(s, i).value, d);
    }
  }

  lemma {:induction false} ObjectPasses(s: seq<byte>, i: nat, d: int)
    requires i <= |s| && ObjectEnd(s, i).Some?
    ensures InsidePasses(s, i, ObjectEnd(s, i).value, d)
    decreases |s| - i, 3
  {
    var j := SkipSpace(s, i);
    if !(j < |s| && s[j] == RBRACE) {
      MembersPass(s, j, ObjectEnd(s, i).value, d);
    }
    SpaceThenInside(s, i, ObjectEnd(s, i).value, d);
  }

  /** What ends an object or goes on with it after a member. */
  lemma MembersUnfold(s: seq<byte>, i: nat) returns (v: nat, k: nat, j: nat)
    requires i <= |s| && MembersEnd(s, i).Some?
    ensures i < v <= k <= j < |s|
    ensures MemberValue(s, i) == Some(v) && ValueEnd(s, v) == Some(k) && j == SkipSpace(s, k)
    ensures s[j] == COMMA ==> MembersEnd(s, SkipSpace(s, j + 1)) == MembersEnd(s, i)
    ensures s[j] != COMMA ==> Closes(s[j]) && MembersEnd(s, i) == Some(j + 1)
  {
    v := MemberValue(s, i).value;
    k := ValueEnd(s, v).value;
    j := SkipSpace(s, k);
  }

  lemma ElementsUnfold(s: seq<byte>, i: nat) returns (k: nat, j: nat)
    requires i <= |s| && ElementsEnd(s, i).Some?
    ensures ValueEnd(s, i) == Some(k) && j == SkipSpace(s, k) < |s|
    ensures s[j] == COMMA ==> ElementsEnd(s, SkipSpace(s, j + 1)) == ElementsEnd(s, i)
    ensures s[j] != COMMA ==> Closes(s[j]) && ElementsEnd(s, i) == Some(j + 1)
  {
    k := ValueEnd(s, i).value;
    j := SkipSpace(s, k);
  }

  lemma MemberPasses(s: seq<byte>, i: nat, v: nat, k: nat, d: int)
    requires i <= |s| && MemberValue(s, i) == Some(v) && Passes(s, v, k, Scan(Outside, d), Scan(Outside, d), d)
    ensures Passes(s, i, k, Scan(Outside, d), Scan(Outside, d), d)
  {
    MemberValuePasses(s, i, d);
    Joined(s, i, v, k, Scan(Outside, d), Scan(Outside, d), Scan(Outside, d), d);
  }

  lemma {:induction false} MembersPass(s: seq<byte>, i: nat, end: nat, d: int)
    requires i <= |s| && MembersEnd(s, i) == Some(end)
    ensures InsidePasses(s, i, end, d)
    decreases |s| - i, 2
  {
    hide Passes, ValueEnd, ObjectEnd, MembersEnd, MemberValue, InsidePasses;
    var v, k, j := MembersUnfold(s, i);
    ValuePasses(s, v, d + 1);
    MemberPasses(s, i, v, k, d + 1);
    if s[j] == COMMA {
      MembersPass(s, SkipSpace(s, j + 1), end, d);
      ItemThenMore(s, i, k, end, d);
    } else {
      ItemThenClose(s, i, k, d);
    }
  }

  lemma {:induction false} ArrayPasses(s: seq<byte>, i: nat, d: int)
    requires i <= |s| && ArrayEnd(s, i).Some?
    ensures InsidePasses(s, i, ArrayEnd(s, i).value, d)
    decreases |s| - i, 3
  {
    var j := SkipSpace(s, i);
    if !(j < |s| && s[j] == RBRACKET) {
      ElementsPass(s, j, ArrayEnd(s, i).value, d);
    }
    SpaceThenInside(s, i, ArrayEnd(s, i).value, d);
  }

  lemma {:induction false} ElementsPass(s: seq<byte>, i: nat, end: nat, d: int)
    requires i <= |s| && ElementsEnd(s, i) == Some(end)
    ensures InsidePasses(s, i, end, d)
    decreases |s| - i, 2
  {
    hide Passes, ValueEnd, ArrayEnd;
    var k, j := ElementsUnfold(s, i);
    ValuePasses(s, i, d + 1);
    if s[j] == COMMA {
      ElementsPass(s, SkipSpace(s, j + 1), end, d);
      ItemThenMore(s, i, k, end, d);
    } else {
      ItemThenClose(s, i, k, d);
    }
  }

  // ---- no proper suffix ----

  lemma {:induction false} FeedAppend(st: Scan, s: seq<byte>, t: seq<byte>)
    ensures Feed(st, s + t) == Feed(Feed(st, s), t)
    decreases |s|
  {
    if s == [] {
      assert s + t == t;
    } else {
      assert (s + t)[1..] == s[1..] + t;
      FeedAppend(Step(st, s[0]), s[1..], t);
    }
  }

  /** Starting deeper by n ends deeper by n. */
  lemma {:induction false} FeedDeeper(st: Scan, s: seq<byte>, n: int)
    ensures Feed(st.(depth := st.depth + n), s) == Feed(st, s).(depth := Feed(st, s).depth + n)
    decreases |s|
  {
    if s != [] {
      FeedDeeper(Step(st, s[0]), s[1..], n);
    }
  }

  lemma {:induction false} BrokenForGood(st: Scan, s: seq<byte>)
    requires st.mode == Broken
    ensures Feed(st, s).mode == Broken
    decreases |s|
  {
    if s != [] {
      BrokenForGood(Step(st, s[0]), s[1..]);
    }
  }

  /** Of two scans of one text, one started inside a string and one outside, not both can end outside. */
  lemma {:induction false} OppositeParity(s: seq<byte>, a: int, b: int)
    ensures !(Feed(Scan(Outside, a), s).mode == Outside && Feed(Scan(InString, b), s).mode == Outside)
    decreases |s|
  {
    if s != [] {
      var x, y := Step(Scan(Outside, a), s[0]), Step(Scan(InString, b), s[0]);
      if s[0] == BACKSLASH {
        BrokenForGood(x, s[1..]);
      } else if s[0] == QUOTE {
        OppositeParity(s[1..], y.depth, x.depth);
      } else {
        OppositeParity(s[1..], x.depth, y.depth);
      }
    }
  }

  lemma {:induction false} PassesFeeds(s: seq<byte>, i: nat, k: nat, j: nat, a: Scan, b: Scan, floor: int)
    requires Passes(s, i, j, a, b, floor) && i <= k <= j
    ensures Feed(a, s[i..k]).mode != Broken && Feed(a, s[i..k]).depth >= floor
    ensures k == j ==> Feed(a, s[i..k]) == b
    decreases j - i
  {
    if i < k {
      assert s[i..k][1..] == s[i + 1..k];
      PassesFeeds(s, i + 1, k, j, Step(a, s[i]), b, floor);
    }
  }

  /** The whole of an object text is scanned back to where it started. */
  lemma ObjectTextFeeds(s: seq<byte>)
    requires IsObjectText(s)
    ensures Feed(Scan(Outside, 0), s) == Scan(Outside, 0)
    ensures IsSpace(s[0]) || s[0] == LBRACE
  {
    var outside, i := Scan(Outside, 0), SkipSpace(s, 0);
    var end := ObjectEnd(s, i + 1).value;
    SpacePasses(s, 0, 0);
    ValuePasses(s, i, 0);
    Joined(s, 0, i, end, outside, outside, outside, 0);
    SpacePasses(s, end, 0);
    Joined(s, 0, end, |s|, outside, outside, outside, 0);
    PassesFeeds(s, 0, |s|, |s|, outside, outside, 0);
    assert s[0..|s|] == s;
  }

  /** Between its opening and its closing brace an object text is at least one level deep. */
  lemma InsideIsDeep(s: seq<byte>, k: nat)
    requires IsObjectText(s) && s[0] == LBRACE && 0 < k < ObjectEnd(s, 1).value
    ensures Feed(Scan(Outside, 0), s[..k]).mode != Broken && Feed(Scan(Outside, 0), s[..k]).depth >= 1
  {
    ObjectPasses(s, 1, 0);
    PassesFeeds(s, 1, k, ObjectEnd(s, 1).value - 1, Scan(Outside, 1), Scan(Outside, 1), 1);
    assert s[..k][1..] == s[1..k];
  }

  lemma SpaceIsNoObject(s: seq<byte>)
    requires forall k :: 0 <= k < |s| ==> IsSpace(s[k])
    ensures !IsObjectText(s)
  {
    var i := SkipSpace(s, 0);
    assert i < |s| ==> IsSpace(s[i]);
  }

  /** A text that a scan from outside brings back to the start is brought elsewhere from any state one level deep. */
  lemma ScansDisagree(st: Scan, s: seq<byte>)
    requires st.mode != Broken && st.depth >= 1 && s != [] && (IsSpace(s[0]) || s[0] == LBRACE)
    ensures Feed(Scan(Outside, 0), s) == Scan(Outside, 0) ==> Feed(st, s) != Scan(Outside, 0)
  {
    match st.mode {
      case Outside => FeedDeeper(Scan(Outside, 0), s, st.depth);
      case InString => OppositeParity(s, 0, st.depth);
      case Escaped => BrokenForGood(Step(st, s[0]), s[1..]);
    }
  }

  /**
   A proper suffix of an object text that starts with its brace is never an
   object text: cut outside strings the depths disagree, cut inside a string the
   quotes do, and cut after a backslash the first byte does.
   */
  lemma NoProperSuffix(s: seq<byte>, k: nat)
    requires IsObjectText(s) && s[0] == LBRACE && 0 < k <= |s|
    ensures !IsObjectText(s[k..])
  {
    var v, end := s[k..], ObjectEnd(s, 1).value;
    if k >= end {
      SpaceBytes(s, end);
      SpaceIsNoObject(v);
    } else if IsObjectText(v) {
      ObjectTextFeeds(s);
      ObjectTextFeeds(v);
      InsideIsDeep(s, k);
      assert s == s[..k] + v;
      FeedAppend(Scan(Outside, 0), s[..k], v);
      ScansDisagree(Feed(Scan(Outside, 0), s[..k]), v);
    }
  }
}
