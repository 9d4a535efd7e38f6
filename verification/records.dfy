/**
 What the transcript reader makes of a line, by how the line is spelled: the
 members of the object, the string fields, and the title of an ai-title record.
 */
module Records {
  import opened Wrappers
  import opened Json
  import opened Printing
  import opened Transcript

  function MembersOf(fields: Fields): seq<Member> {
    match fields
    case NoFields => []
    case Field(key, _, _, value, _, _, rest) => [Member(key, Print(value))] + MembersOf(rest)
  }

  lemma {:induction false} ReadsMembers(s: seq<byte>, i: nat, fields: Fields)
    requires AreFields(fields) && fields.Field?
    requires At(s, i, PrintFields(fields)) && At(s, i + |PrintFields(fields)|, [125])
    ensures i <= |s| && MembersEnd(s, i).Some? && Members(s, i) == MembersOf(fields)
    decreases fields
  {
    hide At, ValueEnd, SkipSpace, Print, PrintFields, PrintKey, StringEnd, MemberValue, Members, MembersEnd, AreFields;
    ReadsFields(s, i, fields);
    FieldParts(s, i, fields);
    FieldIsOk(fields);
    var v := i + |PrintKey(fields.key, fields.gap, fields.lead)|;
    var k := v + |Print(fields.value)|;
    ReadsDoc(s, v, fields.value);
    SliceAt(s, v, Print(fields.value));
    MembersAt(s, i, fields.key, v, k, k + |fields.after|);
    if fields.rest != NoFields {
      RestIsOk(fields);
      ReadsMembers(s, k + |fields.after| + 1 + |fields.before|, fields.rest);
    }
  }

  lemma RestIsOk(fields: Fields)
    requires AreFields(fields) && fields.Field?
    ensures AreFields(fields.rest) && (fields.rest != NoFields ==> fields.rest.Field?)
  {
  }

  lemma MembersAt(s: seq<byte>, i: nat, key: seq<byte>, v: nat, k: nat, j: nat)
    requires i < |s| && MembersEnd(s, i).Some? && MemberValue(s, i) == Some(v) && ValueEnd(s, v) == Some(k)
    requires i < v <= k <= j < |s| && j == SkipSpace(s, k)
    requires StringEnd(s, i + 1) == Some(i + |key| + 2) && s[i + 1..i + |key| + 1] == key
    ensures s[j] != 44 ==> Members(s, i) == [Member(key, s[v..k])]
    ensures s[j] == 44 ==>
      var next := SkipSpace(s, j + 1);
      MembersEnd(s, next).Some? && Members(s, i) == [Member(key, s[v..k])] + Members(s, next)
  {
    hide MembersEnd, Members, MemberSpan, ValueEnd, StringEnd, MemberValue;
    var first, v', k', j' := MembersStep(s, i);
    assert first == Member(key, s[v..k]);
  }

  /** The members read from a spelled object are its own, in order. */
  lemma ReadsRecord(s: seq<byte>, before: seq<byte>, d: Doc, after: seq<byte>)
    requires Spells(s, before, d, after)
    ensures IsObjectText(s) && RecordMembers(s) == MembersOf(d.fields)
  {
    hide Print, PrintFields, ObjectEnd, At, AreFields, Members, MembersEnd;
    SpellingIsAccepted(s, before, d, after);
    AtStart(s, before, Print(d), after);
    var i, fields := |before| + 1, d.fields;
    BracesAt(s, |before|, d);
    ReadsObject(s, i, d.open, fields);
    var j := i + |d.open|;
    if fields == NoFields {
      AtOne(s, j, 125);
      EmptyLists();
    } else {
      FieldsStart(fields);
      AtByte(s, j, PrintFields(fields), 0);
      ReadsMembers(s, j, fields);
    }
  }

  lemma BracesAt(s: seq<byte>, i: nat, d: Doc)
    requires d.Object? && IsDoc(d) && At(s, i, Print(d))
    ensures IsWhite(d.open) && AreFields(d.fields)
    ensures At(s, i + 1, d.open) && At(s, i + 1 + |d.open|, PrintFields(d.fields))
    ensures At(s, i + 1 + |d.open| + |PrintFields(d.fields)|, [125])
    ensures d.fields == NoFields ==> PrintFields(d.fields) == []
  {
    hide At, AreFields, PrintFields;
    AtSplit(s, i, [123] + d.open + PrintFields(d.fields), [125]);
    AtSplit(s, i, [123] + d.open, PrintFields(d.fields));
    AtSplit(s, i, [123], d.open);
    EmptyLists();
  }

  // ---- string fields ----

  /** A value for the key that is not null. */
  predicate Gives(m: Member, key: seq<byte>) {
    m.key == key && m.value != [110, 117, 108, 108]
  }

  ghost predicate LastGiven(members: seq<Member>, key: seq<byte>, w: nat) {
    w < |members| && Gives(members[w], key) && forall j :: w < j < |members| ==> !Gives(members[j], key)
  }

  lemma StringFieldOneMore(init: seq<Member>, m: Member, key: seq<byte>)
    ensures StringField(init + [m], key) ==
      var earlier := StringField(init, key);
      if !Gives(m, key) || earlier.None? then earlier
      else if IsQuoted(m.value) then Some(m.value[1..|m.value| - 1]) else None
  {
    hide IsQuoted;
    assert (init + [m])[..|init|] == init;
  }

  /** A string field is an error exactly if some value given for it is no string. */
  lemma {:induction false} StringFieldFails(members: seq<Member>, key: seq<byte>)
    ensures StringField(members, key).None? <==> exists m :: m in members && Gives(m, key) && !IsQuoted(m.value)
  {
    hide IsQuoted, Gives, StringField;
    if members == [] {
      NoField(key);
    } else {
      var n := |members| - 1;
      StringFieldFails(members[..n], key);
      assert members == members[..n] + [members[n]];
      StringFieldOneMore(members[..n], members[n], key);
      assert forall m :: m in members <==> m in members[..n] || m == members[n];
    }
  }

  lemma NoField(key: seq<byte>)
    ensures StringField([], key) == Some([])
  {
  }

  /** Else it is the last value given for it, without its quotes, and empty if there is none. */
  lemma {:induction false} StringFieldIsLastGiven(members: seq<Member>, key: seq<byte>)
    requires StringField(members, key).Some?
    ensures forall w: nat :: LastGiven(members, key, w) ==>
      members[w].value == [34] + StringField(members, key).value + [34]
    ensures (forall m :: m in members ==> !Gives(m, key)) ==> StringField(members, key).value == []
  {
    hide Gives, StringField, IsQuoted;
    if members == [] {
      NoField(key);
    } else {
      var n := |members| - 1;
      var init, m := members[..n], members[n];
      assert members == init + [m];
      StringFieldOneMore(init, m, key);
      StringFieldIsLastGiven(init, key);
      if Gives(m, key) {
        Unquoted(m.value);
      }
      forall w: nat | LastGiven(members, key, w)
        ensures members[w].value == [34] + StringField(members, key).value + [34]
      {
        if w < n {
          assert LastGiven(init, key, w);
        }
      }
    }
  }

  lemma Unquoted(value: seq<byte>)
    ensures IsQuoted(value) ==> value == [34] + value[1..|value| - 1] + [34]
  {
  }

  // ---- ai-title records ----

  /** Text without quotes, backslashes and control characters. */
  predicate IsPlain(text: seq<byte>) {
    forall k :: 0 <= k < |text| ==> text[k] >= 32 && text[k] != 34 && text[k] != 92
  }

  lemma {:induction false} PlainIsStringBody(text: seq<byte>)
    requires IsPlain(text)
    ensures IsStringBody(text)
  {
    if text != [] {
      PlainIsStringBody(text[1..]);
    }
  }

  /** A record line: {"type":"kind","aiTitle":"title","sessionId":"id"}, byte by byte. */
  function RecordLine(kind: seq<byte>, title: seq<byte>, id: seq<byte>): seq<byte> {
    [123, 34, 116, 121, 112, 101, 34, 58, 34] + kind
    + [34, 44, 34, 97, 105, 84, 105, 116, 108, 101, 34, 58, 34] + title
    + [34, 44, 34, 115, 101, 115, 115, 105, 111, 110, 73, 100, 34, 58, 34] + id
    + [34, 125]
  }

  function StringsOnly(key: seq<byte>, text: seq<byte>, rest: Fields): Fields {
    Field(key, [], [], Str(text), [], [], rest)
  }

  lemma PrintStringsOnly(key: seq<byte>, text: seq<byte>, rest: Fields)
    ensures PrintFields(StringsOnly(key, text, rest))
      == [34] + key + [34, 58, 34] + text + [34] + if rest == NoFields then [] else [44] + PrintFields(rest)
  {
    hide PrintFields;
    var follows := if rest == NoFields then [] else [44] + PrintFields(rest);
    FieldsUnfold(StringsOnly(key, text, rest));
    assert Follows(StringsOnly(key, text, rest)) == follows;
    KeyAndText(key, text, follows);
  }

  lemma KeyAndText(key: seq<byte>, text: seq<byte>, follows: seq<byte>)
    ensures PrintKey(key, [], []) + Print(Str(text)) + [] + follows == [34] + key + [34, 58, 34] + text + [34] + follows
  {
    assert PrintKey(key, [], []) == [34] + key + [34, 58];
    assert Print(Str(text)) == [34] + text + [34];
    assert [34] + key + [34, 58] + ([34] + text + [34]) == [34] + key + [34, 58, 34] + text + [34];
  }

  /** The fields of a record line. */
  function RecordFields(kind: seq<byte>, title: seq<byte>, id: seq<byte>): Fields {
    StringsOnly([116, 121, 112, 101], kind,
      StringsOnly([97, 105, 84, 105, 116, 108, 101], title,
        StringsOnly([115, 101, 115, 115, 105, 111, 110, 73, 100], id, NoFields)))
  }

  lemma RecordFieldsAreOk(kind: seq<byte>, title: seq<byte>, id: seq<byte>)
    requires IsStringBody(kind) && IsStringBody(title) && IsStringBody(id)
    ensures AreFields(RecordFields(kind, title, id))
    ensures MembersOf(RecordFields(kind, title, id)) == [
        Member([116, 121, 112, 101], [34] + kind + [34]),
        Member([97, 105, 84, 105, 116, 108, 101], [34] + title + [34]),
        Member([115, 101, 115, 115, 105, 111, 110, 73, 100], [34] + id + [34])]
  {
    hide IsStringBody;
    PlainIsStringBody([115, 101, 115, 115, 105, 111, 110, 73, 100]);
    PlainIsStringBody([97, 105, 84, 105, 116, 108, 101]);
    PlainIsStringBody([116, 121, 112, 101]);
    var third := StringsOnly([115, 101, 115, 115, 105, 111, 110, 73, 100], id, NoFields);
    var second := StringsOnly([97, 105, 84, 105, 116, 108, 101], title, third);
    assert AreFields(third) && AreFields(second);
    assert MembersOf(third) == [Member([115, 101, 115, 115, 105, 111, 110, 73, 100], [34] + id + [34])];
    assert MembersOf(second) == [Member([97, 105, 84, 105, 116, 108, 101], [34] + title + [34])] + MembersOf(third);
  }

  lemma RecordLineIsSpelled(kind: seq<byte>, title: seq<byte>, id: seq<byte>)
    requires IsStringBody(kind) && IsStringBody(title) && IsStringBody(id)
    ensures Spells(RecordLine(kind, title, id), [], Object([], RecordFields(kind, title, id)), [])
  {
    hide IsStringBody, PrintFields, AreFields, RecordLine, RecordFields;
    RecordFieldsAreOk(kind, title, id);
    PrintRecord(kind, title, id);
    EmptyLists();
    var printed := [123] + PrintFields(RecordFields(kind, title, id)) + [125];
    assert [123] + [] + PrintFields(RecordFields(kind, title, id)) + [125] == printed;
    assert [] + printed + [] == printed;
  }

  lemma PrintRecord(kind: seq<byte>, title: seq<byte>, id: seq<byte>)
    ensures RecordLine(kind, title, id) == [123] + PrintFields(RecordFields(kind, title, id)) + [125]
  {
    hide PrintFields, StringsOnly;
    var third := StringsOnly([115, 101, 115, 115, 105, 111, 110, 73, 100], id, NoFields);
    var second := StringsOnly([97, 105, 84, 105, 116, 108, 101], title, third);
    PrintStringsOnly([115, 101, 115, 115, 105, 111, 110, 73, 100], id, NoFields);
    PrintStringsOnly([97, 105, 84, 105, 116, 108, 101], title, third);
    PrintStringsOnly([116, 121, 112, 101], kind, second);
    StringsAreFields([115, 101, 115, 115, 105, 111, 110, 73, 100], id, NoFields);
    StringsAreFields([97, 105, 84, 105, 116, 108, 101], title, third);
    var p1: seq<byte> := [34] + [116, 121, 112, 101] + [34, 58, 34];
    var p2: seq<byte> := [34] + [97, 105, 84, 105, 116, 108, 101] + [34, 58, 34];
    var p3: seq<byte> := [34] + [115, 101, 115, 115, 105, 111, 110, 73, 100] + [34, 58, 34];
    Literals();
    Nested(p1, p2, p3, kind, title, id);
  }

  lemma Literals()
    ensures [123] + ([34] + [116, 121, 112, 101] + [34, 58, 34]) == [123, 34, 116, 121, 112, 101, 34, 58, 34]
    ensures [34, 44] + ([34] + [97, 105, 84, 105, 116, 108, 101] + [34, 58, 34])
      == [34, 44, 34, 97, 105, 84, 105, 116, 108, 101, 34, 58, 34]
    ensures [34, 44] + ([34] + [115, 101, 115, 115, 105, 111, 110, 73, 100] + [34, 58, 34])
      == [34, 44, 34, 115, 101, 115, 115, 105, 111, 110, 73, 100, 34, 58, 34]
  {
  }

  lemma StringsAreFields(key: seq<byte>, text: seq<byte>, rest: Fields)
    ensures StringsOnly(key, text, rest) != NoFields
  {
  }

  lemma Nested(p1: seq<byte>, p2: seq<byte>, p3: seq<byte>, kind: seq<byte>, title: seq<byte>, id: seq<byte>)
    ensures var c := p3 + id + [34] + [];
      var b := p2 + title + [34] + ([44] + c);
      var a := p1 + kind + [34] + ([44] + b);
      [123] + a + [125] == [123] + p1 + kind + ([34, 44] + p2) + title + ([34, 44] + p3) + id + [34, 125]
  {
    var c := p3 + id + [34] + [];
    var b := p2 + title + [34] + ([44] + c);
    var a := p1 + kind + [34] + ([44] + b);
    var tail := p3 + id + [34, 125];
    assert c + [125] == tail;
    Inner(p2, title, c);
    Inner(p1, kind, b);
    assert [123] + a + [125] == [123] + (a + [125]);
    var body := p2 + title + [34, 44] + tail;
    assert p1 + kind + [34, 44] + body == p1 + kind + ([34, 44] + body);
    Flat(p2, title, tail);
    Flat(p3, id, [34, 125]);
    Outer([123] + p1 + kind, [34, 44] + p2, title, [34, 44] + p3, id);
  }

  lemma Inner(p: seq<byte>, text: seq<byte>, rest: seq<byte>)
    ensures (p + text + [34] + ([44] + rest)) + [125] == p + text + [34, 44] + (rest + [125])
  {
  }

  lemma Flat(p: seq<byte>, text: seq<byte>, rest: seq<byte>)
    ensures [34, 44] + (p + text + [34, 44] + rest) == ([34, 44] + p) + text + ([34, 44] + rest)
    ensures [34, 44] + (p + text + rest) == ([34, 44] + p) + text + rest
  {
  }

  lemma Outer(a: seq<byte>, b: seq<byte>, c: seq<byte>, d: seq<byte>, e: seq<byte>)
    ensures a + (b + c + (d + e + [34, 125])) == a + b + c + d + e + [34, 125]
  {
  }

  /** A record of type ai-title has the title it spells; one of another type has none. */
  lemma TitleOfRecordLine(kind: seq<byte>, title: seq<byte>, id: seq<byte>)
    requires IsStringBody(kind) && IsStringBody(title) && IsStringBody(id)
    ensures IsObjectText(RecordLine(kind, title, id))
    ensures TitleOf(RecordLine(kind, title, id))
      == if kind == [97, 105, 45, 116, 105, 116, 108, 101] then Some(title) else None
  {
    hide IsStringBody, Spells, RecordLine, IsObjectText, RecordMembers, RecordFields, MembersOf;
    var line := RecordLine(kind, title, id);
    RecordLineIsSpelled(kind, title, id);
    RecordFieldsAreOk(kind, title, id);
    ReadsRecord(line, [], Object([], RecordFields(kind, title, id)), []);
    ThreeStrings(RecordMembers(line), kind, title, id);
  }

  lemma ThreeStrings(members: seq<Member>, kind: seq<byte>, title: seq<byte>, id: seq<byte>)
    requires members == [
        Member([116, 121, 112, 101], [34] + kind + [34]),
        Member([97, 105, 84, 105, 116, 108, 101], [34] + title + [34]),
        Member([115, 101, 115, 115, 105, 111, 110, 73, 100], [34] + id + [34])]
    ensures StringField(members, [116, 121, 112, 101]) == Some(kind)
    ensures StringField(members, [97, 105, 84, 105, 116, 108, 101]) == Some(title)
  {
    hide StringField;
    var typeKey: seq<byte> := [116, 121, 112, 101];
    var titleKey: seq<byte> := [97, 105, 84, 105, 116, 108, 101];
    QuotesAround(kind);
    QuotesAround(title);
    StringFieldFails(members, typeKey);
    StringFieldFails(members, titleKey);
    StringFieldIsLastGiven(members, typeKey);
    StringFieldIsLastGiven(members, titleKey);
    assert LastGiven(members, typeKey, 0) && LastGiven(members, titleKey, 1);
    SameBetweenQuotes(kind, StringField(members, typeKey));
    SameBetweenQuotes(title, StringField(members, titleKey));
  }

  lemma QuotesAround(text: seq<byte>)
    ensures IsQuoted([34] + text + [34]) && [34] + text + [34] != [110, 117, 108, 108]
  {
    assert ([34] + text + [34])[0] == 34;
  }

  lemma SameBetweenQuotes(a: seq<byte>, b: Option<seq<byte>>)
    ensures b.Some? && [34] + a + [34] == [34] + b.value + [34] ==> a == b.value
  {
    if b.Some? {
      assert ([34] + a + [34])[1..|a| + 1] == a && ([34] + b.value + [34])[1..|b.value| + 1] == b.value;
    }
  }

  /**
   From file to title: if the last record line that starts within the last 64 KiB
   spells a title, that is what the scan returns, whatever the other lines are.
   */
  lemma ScanFindsSpelledTitle(
    f: seq<byte>, earlier: seq<seq<byte>>, title: seq<byte>, id: seq<byte>, later: seq<seq<byte>>)
    requires CleanCut(f, WindowStart(f)) && IsStringBody(title) && IsStringBody(id)
    requires LinesFrom(f, if |f| > 65536 then |f| - 65536 else 0)
      == earlier + [RecordLine([97, 105, 45, 116, 105, 116, 108, 101], title, id)] + later
    requires forall line :: line in later ==> TitleOf(line) == None
    ensures TranscriptTitle(Some(f)) == title
  {
    hide TitleOf, RecordLine, CleanCut, LinesFrom, IsStringBody, LastTitle, Window;
    var line := RecordLine([97, 105, 45, 116, 105, 116, 108, 101], title, id);
    WindowSize(f);
    ScanIsExact(f);
    PlainIsStringBody([97, 105, 45, 116, 105, 116, 108, 101]);
    TitleOfRecordLine([97, 105, 45, 116, 105, 116, 108, 101], title, id);
    assert !HasTitle(later);
    LastTitleAppend(earlier + [line], later);
    LastTitleOneMore(earlier + [line], |earlier|);
    assert (earlier + [line])[..|earlier| + 1] == earlier + [line];
  }
}
