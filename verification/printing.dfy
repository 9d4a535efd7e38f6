/**
 What the JSON recogniser recognises, said independently of it: documents with
 their white space, and how they are spelled (sections 2 to 7 of RFC 8259). The
 recogniser accepts exactly the spellings of objects.
 */
module Printing {
  import opened Wrappers
  import opened Json

  /** A JSON value. Strings are kept as spelled between their quotes. */
  datatype Doc =
    | Literal(text: seq<byte>)
    | Number(negative: bool, whole: seq<byte>, fraction: seq<byte>, mark: seq<byte>, exponent: seq<byte>)
    | Str(text: seq<byte>)
    | Array(open: seq<byte>, items: Items)
    | Object(open: seq<byte>, fields: Fields)

  /** The elements of an array, each with the white space after it and, if more follow, after its comma. */
  datatype Items = NoItems | Item(value: Doc, after: seq<byte>, before: seq<byte>, rest: Items)

  datatype Fields =
    | NoFields
    | Field(
        key: seq<byte>, gap: seq<byte>, lead: seq<byte>,
        value: Doc, after: seq<byte>, before: seq<byte>, rest: Fields)

  predicate IsWhite(ws: seq<byte>) {
    forall k :: 0 <= k < |ws| ==> ws[k] == 32 || ws[k] == 9 || ws[k] == 10 || ws[k] == 13
  }

  predicate AreDigits(ds: seq<byte>) {
    forall k :: 0 <= k < |ds| ==> 48 <= ds[k] <= 57
  }

  predicate IsHexDigit(b: byte) {
    48 <= b <= 57 || 65 <= b <= 70 || 97 <= b <= 102
  }

  /** What may stand between quotes: no quote, no control character, and backslashes in escapes only. */
  predicate IsStringBody(text: seq<byte>)
    decreases |text|
  {
    if text == [] then true
    else if text[0] != 92 then text[0] >= 32 && text[0] != 34 && IsStringBody(text[1..])
    else if |text| >= 2 && text[1] == 117 then
      |text| >= 6 && (forall k :: 2 <= k < 6 ==> IsHexDigit(text[k])) && IsStringBody(text[6..])
    else
      |text| >= 2 && text[1] in [34, 92, 47, 98, 102, 110, 114, 116] && IsStringBody(text[2..])
  }

  predicate IsMark(mark: seq<byte>) {
    mark in [[101], [69], [101, 43], [101, 45], [69, 43], [69, 45]]
  }

  predicate IsNumber(d: Doc)
    requires d.Number?
  {
    && d.whole != [] && AreDigits(d.whole) && (d.whole[0] == 48 ==> |d.whole| == 1)
    && AreDigits(d.fraction)
    && if d.mark == [] then d.exponent == [] else IsMark(d.mark) && d.exponent != [] && AreDigits(d.exponent)
  }

  predicate IsDoc(d: Doc) {
    match d
    case Literal(text) =>
      text in [[116, 114, 117, 101], [102, 97, 108, 115, 101], [110, 117, 108, 108]]
    case Number(_, _, _, _, _) => IsNumber(d)
    case Str(text) => IsStringBody(text)
    case Array(open, items) => IsWhite(open) && AreItems(items)
    case Object(open, fields) => IsWhite(open) && AreFields(fields)
  }

  predicate AreItems(items: Items) {
    match items
    case NoItems => true
    case Item(value, after, before, rest) => IsDoc(value) && IsWhite(after) && IsWhite(before) && AreItems(rest)
  }

  predicate AreFields(fields: Fields) {
    match fields
    case NoFields => true
    case Field(key, gap, lead, value, after, before, rest) =>
      && IsStringBody(key) && IsWhite(gap) && IsWhite(lead) && IsDoc(value) && IsWhite(after) && IsWhite(before)
      && AreFields(rest)
  }

  function Print(d: Doc): seq<byte> {
    match d
    case Literal(text) => text
    case Number(negative, whole, fraction, mark, exponent) =>
      (if negative then [45] else []) + whole + (if fraction == [] then [] else [46] + fraction) + mark + exponent
    case Str(text) => [34] + text + [34]
    case Array(open, items) => [91] + open + PrintItems(items) + [93]
    case Object(open, fields) => [123] + open + PrintFields(fields) + [125]
  }

  function PrintItems(items: Items): seq<byte> {
    match items
    case NoItems => []
    case Item(value, after, before, rest) =>
      Print(value) + after + if rest == NoItems then [] else [44] + before + PrintItems(rest)
  }

  function PrintFields(fields: Fields): seq<byte> {
    match fields
    case NoFields => []
    case Field(key, gap, lead, value, after, before, rest) =>
      PrintKey(key, gap, lead) + Print(value) + after
      + if rest == NoFields then [] else [44] + before + PrintFields(rest)
  }

  function PrintKey(key: seq<byte>, gap: seq<byte>, lead: seq<byte>): seq<byte> {
    [34] + key + [34] + gap + [58] + lead
  }

  // ---- texts at positions ----

  lemma AtSplit(s: seq<byte>, i: nat, a: seq<byte>, b: seq<byte>)
    ensures At(s, i, a + b) <==> At(s, i, a) && At(s, i + |a|, b)
  {
    if i + |a + b| <= |s| {
      assert s[i..i + |a + b|] == s[i..i + |a|] + s[i + |a|..i + |a| + |b|];
      if At(s, i, a + b) {
        assert s[i..i + |a|] == (a + b)[..|a|] == a;
        assert s[i + |a|..i + |a| + |b|] == (a + b)[|a|..] == b;
      }
    }
  }

  lemma AtOne(s: seq<byte>, i: nat, b: byte)
    ensures At(s, i, [b]) <==> i < |s| && s[i] == b
  {
    if i < |s| {
      assert s[i..i + 1] == [s[i]];
    }
  }

  lemma AtByte(s: seq<byte>, i: nat, text: seq<byte>, k: nat)
    requires At(s, i, text) && k < |text|
    ensures s[i + k] == text[k]
  {
    assert s[i..i + |text|][k] == s[i + k];
  }

  // ---- every spelling is accepted ----

  lemma {:induction false} SkipsWhite(s: seq<byte>, i: nat, ws: seq<byte>)
    requires At(s, i, ws) && IsWhite(ws)
    requires i + |ws| == |s| || !IsSpace(s[i + |ws|])
    ensures SkipSpace(s, i) == i + |ws|
    decreases |ws|
  {
    if ws != [] {
      AtSplit(s, i, [ws[0]], ws[1..]);
      assert ws == [ws[0]] + ws[1..];
      AtByte(s, i, ws, 0);
      SkipsWhite(s, i + 1, ws[1..]);
    }
  }

  lemma {:induction false} ReadsString(s: seq<byte>, i: nat, text: seq<byte>)
    requires IsStringBody(text) && At(s, i, text) && At(s, i + |text|, [34])
    ensures i <= |s| && StringEnd(s, i) == Some(i + |text| + 1)
    decreases |text|
  {
    hide At, StringEnd;
    AtOne(s, i + |text|, 34);
    if text == [] {
      ReadsQuote(s, i);
    } else {
      var n := ReadsOneUnit(s, i, text);
      assert text == text[..n] + text[n..];
      AtSplit(s, i, text[..n], text[n..]);
      ReadsString(s, i + n, text[n..]);
    }
  }

  lemma ReadsQuote(s: seq<byte>, i: nat)
    requires At(s, i, [34])
    ensures i <= |s| && StringEnd(s, i) == Some(i + 1)
  {
    AtOne(s, i, 34);
  }

  /** One character or escape. */
  lemma ReadsOneUnit(s: seq<byte>, i: nat, text: seq<byte>) returns (n: nat)
    requires text != [] && IsStringBody(text) && At(s, i, text) && i + |text| < |s|
    ensures 0 < n <= |text| && IsStringBody(text[n..]) && StringEnd(s, i) == StringEnd(s, i + n)
  {
    hide At;
    AtByte(s, i, text, 0);
    if text[0] != 92 {
      n := 1;
    } else {
      AtByte(s, i, text, 1);
      if text[1] == 117 {
        n := 6;
        AtByte(s, i, text, 2);
        AtByte(s, i, text, 3);
        AtByte(s, i, text, 4);
        AtByte(s, i, text, 5);
      } else {
        n := 2;
      }
    }
  }

  predicate DigitAt(s: seq<byte>, i: nat) {
    i < |s| && 48 <= s[i] <= 57
  }

  lemma {:induction false} ReadsDigits(s: seq<byte>, i: nat, ds: seq<byte>)
    requires At(s, i, ds) && AreDigits(ds) && !DigitAt(s, i + |ds|)
    ensures DigitsEnd(s, i) == i + |ds|
    decreases |ds|
  {
    if ds != [] {
      AtSplit(s, i, [ds[0]], ds[1..]);
      assert ds == [ds[0]] + ds[1..];
      AtByte(s, i, ds, 0);
      ReadsDigits(s, i + 1, ds[1..]);
    }
  }

  /** A value is followed by white space, a comma, a closing bracket or nothing. */
  predicate Ends(s: seq<byte>, k: nat) {
    k >= |s| || s[k] in [32, 9, 10, 13, 44, 93, 125]
  }

  lemma ReadsInt(s: seq<byte>, i: nat, negative: bool, whole: seq<byte>)
    requires At(s, i, if negative then [45] else [])
    requires whole != [] && AreDigits(whole) && (whole[0] == 48 ==> |whole| == 1)
    requires var j := if negative then i + 1 else i; At(s, j, whole) && !DigitAt(s, j + |whole|)
    ensures IntEnd(s, i) == Some((if negative then i + 1 else i) + |whole|)
  {
    var j := if negative then i + 1 else i;
    AtByte(s, j, whole, 0);
    if negative {
      AtOne(s, i, 45);
    }
    ReadsDigits(s, j, whole);
  }

  lemma ReadsFraction(s: seq<byte>, i: nat, fraction: seq<byte>)
    requires AreDigits(fraction) && At(s, i, if fraction == [] then [] else [46] + fraction)
    requires var k := i + if fraction == [] then 0 else 1 + |fraction|;
      !DigitAt(s, k) && (fraction == [] ==> k == |s| || s[k] != 46)
    ensures FractionEnd(s, i) == Some(i + if fraction == [] then 0 else 1 + |fraction|)
  {
    if fraction != [] {
      AtSplit(s, i, [46], fraction);
      AtOne(s, i, 46);
      ReadsDigits(s, i + 1, fraction);
    }
  }

  lemma ReadsExponent(s: seq<byte>, i: nat, mark: seq<byte>, exponent: seq<byte>)
    requires At(s, i, mark) && At(s, i + |mark|, exponent) && Ends(s, i + |mark| + |exponent|)
    requires if mark == [] then exponent == [] else IsMark(mark) && exponent != [] && AreDigits(exponent)
    ensures ExponentEnd(s, i) == Some(i + |mark| + |exponent|)
  {
    if mark != [] {
      AtByte(s, i, mark, 0);
      AtByte(s, i + |mark|, exponent, 0);
      if |mark| == 2 {
        AtByte(s, i, mark, 1);
      }
      ReadsDigits(s, i + |mark|, exponent);
    }
  }

  function FractionPart(d: Doc): seq<byte>
    requires d.Number?
  {
    if d.fraction == [] then [] else [46] + d.fraction
  }

  function SignPart(d: Doc): seq<byte>
    requires d.Number?
  {
    if d.negative then [45] else []
  }

  lemma NumberParts(s: seq<byte>, i: nat, d: Doc)
    requires d.Number? && At(s, i, Print(d))
    ensures var j := i + |SignPart(d)|;
      var k := j + |d.whole|;
      var l := k + |FractionPart(d)|;
      && At(s, i, SignPart(d)) && At(s, j, d.whole) && At(s, k, FractionPart(d))
      && At(s, l, d.mark) && At(s, l + |d.mark|, d.exponent)
      && l + |d.mark| + |d.exponent| == i + |Print(d)| <= |s|
  {
    hide At, SignPart, FractionPart;
    var sign, part := SignPart(d), FractionPart(d);
    PrintNumber(d);
    AtSplit(s, i, sign + d.whole + part + d.mark, d.exponent);
    AtSplit(s, i, sign + d.whole + part, d.mark);
    AtSplit(s, i, sign + d.whole, part);
    AtSplit(s, i, sign, d.whole);
    Bounded(s, i, Print(d));
  }

  lemma PrintNumber(d: Doc)
    requires d.Number?
    ensures Print(d) == SignPart(d) + d.whole + FractionPart(d) + d.mark + d.exponent
  {
  }

  lemma ReadsNumber(s: seq<byte>, i: nat, d: Doc)
    requires d.Number? && IsNumber(d) && At(s, i, Print(d)) && Ends(s, i + |Print(d)|)
    ensures NumberEnd(s, i) == Some(i + |Print(d)|)
  {
    hide IntEnd, FractionEnd, ExponentEnd, At, Print, Ends, AreDigits, DigitAt;
    NumberParts(s, i, d);
    var k := i + |SignPart(d)| + |d.whole|;
    var l := k + |FractionPart(d)|;
    AfterFraction(s, l, d);
    AfterInt(s, k, d, FractionPart(d));
    ReadsInt(s, i, d.negative, d.whole);
    ReadsFraction(s, k, d.fraction);
    ReadsExponent(s, l, d.mark, d.exponent);
  }

  lemma Bounded(s: seq<byte>, i: nat, text: seq<byte>)
    requires At(s, i, text)
    ensures i + |text| <= |s|
  {
  }

  /** After the fraction comes the exponent mark or the end: neither a digit nor a point. */
  lemma AfterFraction(s: seq<byte>, k: nat, d: Doc)
    requires d.Number? && IsNumber(d) && At(s, k, d.mark) && Ends(s, k + |d.mark| + |d.exponent|)
    requires k + |d.mark| + |d.exponent| <= |s|
    ensures !DigitAt(s, k) && (k == |s| || s[k] != 46)
  {
    if d.mark != [] {
      AtByte(s, k, d.mark, 0);
    }
  }

  lemma AfterInt(s: seq<byte>, j: nat, d: Doc, part: seq<byte>)
    requires d.Number? && part == (if d.fraction == [] then [] else [46] + d.fraction) && At(s, j, part)
    requires !DigitAt(s, j + |part|)
    ensures !DigitAt(s, j)
  {
    if part != [] {
      AtByte(s, j, part, 0);
    }
  }

  /** Which byte a value starts with. */
  lemma PrintStart(d: Doc)
    requires IsDoc(d)
    ensures Print(d) != [] && !IsSpace(Print(d)[0]) && Print(d)[0] != 93
    ensures d.Str? <==> Print(d)[0] == 34
    ensures d.Object? <==> Print(d)[0] == 123
    ensures d.Array? <==> Print(d)[0] == 91
  {
    if d.Number? {
      var sign := if d.negative then [45] else [];
      assert Print(d)[0] == if d.negative then 45 else d.whole[0];
    }
  }

  lemma ReadsLiteral(s: seq<byte>, i: nat, text: seq<byte>)
    requires At(s, i, text) && text in [TRUE, FALSE, NULL]
    ensures ScalarEnd(s, i) == Some(i + |text|)
  {
    AtByte(s, i, text, 0);
    if At(s, i, TRUE) { AtByte(s, i, TRUE, 0); }
    if At(s, i, FALSE) { AtByte(s, i, FALSE, 0); }
    if At(s, i, NULL) { AtByte(s, i, NULL, 0); }
  }

  lemma NumbersAreNoLiterals(s: seq<byte>, i: nat)
    requires i < |s| && (s[i] == 45 || 48 <= s[i] <= 57)
    ensures ScalarEnd(s, i) == NumberEnd(s, i)
  {
    if At(s, i, TRUE) { AtByte(s, i, TRUE, 0); }
    if At(s, i, FALSE) { AtByte(s, i, FALSE, 0); }
    if At(s, i, NULL) { AtByte(s, i, NULL, 0); }
  }

  /** A spelled value is read to its end. */
  lemma {:induction false} ReadsDoc(s: seq<byte>, i: nat, d: Doc)
    requires IsDoc(d) && At(s, i, Print(d)) && Ends(s, i + |Print(d)|)
    ensures i < |s| && ValueEnd(s, i) == Some(i + |Print(d)|)
    decreases d, 2
  {
    hide At, ScalarEnd, NumberEnd, ObjectEnd, ArrayEnd, StringEnd;
    PrintStart(d);
    AtByte(s, i, Print(d), 0);
    Bounded(s, i, Print(d));
    match d
    case Literal(text) => ReadsLiteral(s, i, text);
    case Number(_, _, _, _, _) =>
      ReadsNumber(s, i, d);
      assert Print(d)[0] == if d.negative then 45 else d.whole[0];
      NumbersAreNoLiterals(s, i);
    case Str(text) =>
      AtSplit(s, i, [34] + text, [34]);
      AtSplit(s, i, [34], text);
      ReadsString(s, i + 1, text);
    case Array(open, items) =>
      AtSplit(s, i, [91] + open + PrintItems(items), [93]);
      AtSplit(s, i, [91] + open, PrintItems(items));
      AtSplit(s, i, [91], open);
      ReadsArray(s, i + 1, open, items);
    case Object(open, fields) =>
      AtSplit(s, i, [123] + open + PrintFields(fields), [125]);
      AtSplit(s, i, [123] + open, PrintFields(fields));
      AtSplit(s, i, [123], open);
      ReadsObject(s, i + 1, open, fields);
  }

  lemma ReadsArray(s: seq<byte>, i: nat, open: seq<byte>, items: Items)
    requires IsWhite(open) && AreItems(items)
    requires At(s, i, open) && At(s, i + |open|, PrintItems(items)) && At(s, i + |open| + |PrintItems(items)|, [93])
    ensures i <= |s| && ArrayEnd(s, i) == Some(i + |open| + |PrintItems(items)| + 1)
    decreases items, 4
  {
    hide At, ElementsEnd;
    var j := i + |open|;
    Bounded(s, i, open);
    AtOne(s, j + |PrintItems(items)|, 93);
    if items == NoItems {
      SkipsWhite(s, i, open);
    } else {
      ItemsStart(items);
      AtByte(s, j, PrintItems(items), 0);
      SkipsWhite(s, i, open);
      ReadsItems(s, j, items);
    }
  }

  lemma ItemsStart(items: Items)
    requires AreItems(items) && items.Item?
    ensures PrintItems(items) != [] && !IsSpace(PrintItems(items)[0]) && PrintItems(items)[0] != 93
  {
    PrintStart(items.value);
  }

  lemma {:induction false} ReadsItems(s: seq<byte>, i: nat, items: Items)
    requires AreItems(items) && items.Item?
    requires At(s, i, PrintItems(items)) && At(s, i + |PrintItems(items)|, [93])
    ensures i <= |s| && ElementsEnd(s, i) == Some(i + |PrintItems(items)| + 1)
    decreases items, 3
  {
    hide At, ValueEnd, SkipSpace, Print;
    var value, rest := items.value, items.rest;
    var more := if rest == NoItems then [] else [44] + items.before + PrintItems(rest);
    Bounded(s, i, PrintItems(items));
    AtSplit(s, i, Print(value) + items.after, more);
    AtSplit(s, i, Print(value), items.after);
    var k := i + |Print(value)|;
    var j := k + |items.after|;
    AtOne(s, i + |PrintItems(items)|, 93);
    if rest != NoItems {
      AtSplit(s, j, [44] + items.before, PrintItems(rest));
      AtSplit(s, j, [44], items.before);
      AtOne(s, j, 44);
      ItemsStart(rest);
      AtByte(s, j + 1 + |items.before|, PrintItems(rest), 0);
      SkipsWhite(s, j + 1, items.before);
      ReadsItems(s, j + 1 + |items.before|, rest);
    }
    SkipsWhite(s, k, items.after);
    EndsThere(s, k, items.after);
    ReadsDoc(s, i, value);
    ElementsStep(s, i);
  }

  lemma ElementsStep(s: seq<byte>, i: nat)
    requires i <= |s|
    ensures ElementsEnd(s, i) == match ValueEnd(s, i)
      case None => None
      case Some(k) =>
        var j := SkipSpace(s, k);
        if j == |s| then None
        else if s[j] == 93 then Some(j + 1)
        else if s[j] == 44 then ElementsEnd(s, SkipSpace(s, j + 1))
        else None
  {
  }

  /** White space and then a byte that ends a value, right after it. */
  lemma EndsThere(s: seq<byte>, k: nat, ws: seq<byte>)
    requires At(s, k, ws) && IsWhite(ws) && Ends(s, k + |ws|)
    ensures Ends(s, k)
  {
    if ws != [] {
      AtByte(s, k, ws, 0);
    }
  }

  lemma ReadsObject(s: seq<byte>, i: nat, open: seq<byte>, fields: Fields)
    requires IsWhite(open) && AreFields(fields)
    requires At(s, i, open) && At(s, i + |open|, PrintFields(fields))
    requires At(s, i + |open| + |PrintFields(fields)|, [125])
    ensures i <= |s| && ObjectEnd(s, i) == Some(i + |open| + |PrintFields(fields)| + 1)
    ensures SkipSpace(s, i) == i + |open| < |s|
    decreases fields, 4
  {
    hide At, MembersEnd;
    var j := i + |open|;
    Bounded(s, i, open);
    AtOne(s, j + |PrintFields(fields)|, 125);
    if fields == NoFields {
      SkipsWhite(s, i, open);
    } else {
      FieldsStart(fields);
      AtByte(s, j, PrintFields(fields), 0);
      SkipsWhite(s, i, open);
      ReadsFields(s, j, fields);
    }
  }

  lemma FieldsStart(fields: Fields)
    requires fields.Field?
    ensures PrintFields(fields) != [] && PrintFields(fields)[0] == 34
  {
  }

  /** A key, a colon and the white space around it are passed over. */
  lemma ReadsKey(s: seq<byte>, i: nat, key: seq<byte>, gap: seq<byte>, lead: seq<byte>)
    requires IsStringBody(key) && IsWhite(gap) && IsWhite(lead) && At(s, i, PrintKey(key, gap, lead))
    requires var v := i + |PrintKey(key, gap, lead)|; v < |s| && !IsSpace(s[v])
    ensures i <= |s| && MemberValue(s, i) == Some(i + |PrintKey(key, gap, lead)|)
    ensures i < |s| && StringEnd(s, i + 1) == Some(i + |key| + 2) && s[i + 1..i + |key| + 1] == key
  {
    hide At, StringEnd, SkipSpace;
    AtSplit(s, i, [34] + key + [34] + gap + [58], lead);
    AtSplit(s, i, [34] + key + [34] + gap, [58]);
    AtSplit(s, i, [34] + key + [34], gap);
    AtSplit(s, i, [34] + key, [34]);
    AtSplit(s, i, [34], key);
    AtOne(s, i, 34);
    ReadsString(s, i + 1, key);
    var k := i + |key| + 2;
    AtOne(s, k + |gap|, 58);
    SkipsWhite(s, k, gap);
    SkipsWhite(s, k + |gap| + 1, lead);
    SliceAt(s, i + 1, key);
  }

  lemma SliceAt(s: seq<byte>, i: nat, text: seq<byte>)
    requires At(s, i, text)
    ensures i + |text| <= |s| && s[i..i + |text|] == text
  {
  }

  /** What follows a field's value. */
  lemma AfterValue(s: seq<byte>, k: nat, fields: Fields, end: nat)
    requires AreFields(fields) && fields.Field?
    requires At(s, k, fields.after)
    requires fields.rest == NoFields ==> k + |fields.after| == end
    requires fields.rest != NoFields ==> At(s, k + |fields.after|, [44] + fields.before + PrintFields(fields.rest))
    requires fields.rest != NoFields ==> k + |fields.after| + 1 + |fields.before| + |PrintFields(fields.rest)| == end
    requires At(s, end, [125])
    ensures var j := k + |fields.after|;
      && j < |s| && Ends(s, k) && SkipSpace(s, k) == j
      && (fields.rest == NoFields ==> s[j] == 125)
      && (fields.rest != NoFields ==>
            var next := j + 1 + |fields.before|;
            s[j] == 44 && SkipSpace(s, j + 1) == next && At(s, next, PrintFields(fields.rest)))
  {
    hide At, SkipSpace, PrintFields, IsDoc, IsStringBody;
    var j := k + |fields.after|;
    AtOne(s, end, 125);
    if fields.rest != NoFields {
      AtSplit(s, j, [44] + fields.before, PrintFields(fields.rest));
      AtSplit(s, j, [44], fields.before);
      AtOne(s, j, 44);
      FieldsStart(fields.rest);
      AtByte(s, j + 1 + |fields.before|, PrintFields(fields.rest), 0);
      SkipsWhite(s, j + 1, fields.before);
    }
    SkipsWhite(s, k, fields.after);
    EndsThere(s, k, fields.after);
  }

  function Follows(fields: Fields): seq<byte>
    requires fields.Field?
  {
    if fields.rest == NoFields then [] else [44] + fields.before + PrintFields(fields.rest)
  }

  lemma FieldsUnfold(fields: Fields)
    requires fields.Field?
    ensures PrintFields(fields)
      == PrintKey(fields.key, fields.gap, fields.lead) + Print(fields.value) + fields.after + Follows(fields)
  {
  }

  /** Where the parts of a field are, and what follows it. */
  lemma FieldParts(s: seq<byte>, i: nat, fields: Fields)
    requires AreFields(fields) && fields.Field?
    requires At(s, i, PrintFields(fields)) && At(s, i + |PrintFields(fields)|, [125])
    ensures var v := i + |PrintKey(fields.key, fields.gap, fields.lead)|;
      var k := v + |Print(fields.value)|;
      var j := k + |fields.after|;
      && j < |s| && i <= v < k <= j
      && MemberValue(s, i) == Some(v) && At(s, v, Print(fields.value)) && Ends(s, k) && SkipSpace(s, k) == j
      && StringEnd(s, i + 1) == Some(i + |fields.key| + 2) && s[i + 1..i + |fields.key| + 1] == fields.key
      && (fields.rest == NoFields ==> j == i + |PrintFields(fields)| && s[j] == 125)
      && (fields.rest != NoFields ==>
            var next := j + 1 + |fields.before|;
            && s[j] == 44 && SkipSpace(s, j + 1) == next && At(s, next, PrintFields(fields.rest))
            && next + |PrintFields(fields.rest)| == i + |PrintFields(fields)|)
  {
    hide At, SkipSpace, Print, PrintFields, StringEnd, MemberValue, PrintKey, AreFields, IsSpace, Follows, Ends;
    var v, k, end := FieldPlaces(s, i, fields);
    FollowsThere(s, k + |fields.after|, fields, end);
    FieldIsOk(fields);
    AfterValue(s, k, fields, end);
    PrintStart(fields.value);
    AtByte(s, v, Print(fields.value), 0);
    ReadsKey(s, i, fields.key, fields.gap, fields.lead);
  }

  lemma FieldIsOk(fields: Fields)
    requires AreFields(fields) && fields.Field?
    ensures IsStringBody(fields.key) && IsWhite(fields.gap) && IsWhite(fields.lead) && IsDoc(fields.value)
  {
    hide IsStringBody, IsWhite, IsDoc;
  }

  lemma FollowsThere(s: seq<byte>, j: nat, fields: Fields, end: nat)
    requires fields.Field? && At(s, j, Follows(fields)) && end == j + |Follows(fields)|
    ensures fields.rest == NoFields ==> j == end
    ensures fields.rest != NoFields ==> At(s, j, [44] + fields.before + PrintFields(fields.rest))
    ensures fields.rest != NoFields ==> j + 1 + |fields.before| + |PrintFields(fields.rest)| == end
  {
    hide At, PrintFields;
  }

  lemma FieldPlaces(s: seq<byte>, i: nat, fields: Fields) returns (v: nat, k: nat, end: nat)
    requires fields.Field? && At(s, i, PrintFields(fields))
    ensures v == i + |PrintKey(fields.key, fields.gap, fields.lead)| && k == v + |Print(fields.value)|
    ensures end == i + |PrintFields(fields)| == k + |fields.after| + |Follows(fields)| <= |s|
    ensures At(s, i, PrintKey(fields.key, fields.gap, fields.lead)) && At(s, v, Print(fields.value))
    ensures At(s, k, fields.after) && At(s, k + |fields.after|, Follows(fields))
  {
    hide At, Print, PrintFields, PrintKey, Follows;
    var key, value := PrintKey(fields.key, fields.gap, fields.lead), Print(fields.value);
    FieldsUnfold(fields);
    Bounded(s, i, PrintFields(fields));
    AtSplit(s, i, key + value + fields.after, Follows(fields));
    AtSplit(s, i, key + value, fields.after);
    AtSplit(s, i, key, value);
    v, k, end := i + |key|, i + |key| + |value|, i + |PrintFields(fields)|;
  }

  lemma {:induction false} ReadsFields(s: seq<byte>, i: nat, fields: Fields)
    requires AreFields(fields) && fields.Field?
    requires At(s, i, PrintFields(fields)) && At(s, i + |PrintFields(fields)|, [125])
    ensures i <= |s| && MembersEnd(s, i) == Some(i + |PrintFields(fields)| + 1)
    decreases fields, 3
  {
    hide At, ValueEnd, SkipSpace, Print, PrintFields, PrintKey, StringEnd, MemberValue;
    FieldParts(s, i, fields);
    var v := i + |PrintKey(fields.key, fields.gap, fields.lead)|;
    ReadsDoc(s, v, fields.value);
    MembersStepAt(s, i);
    if fields.rest != NoFields {
      var j := v + |Print(fields.value)| + |fields.after|;
      ReadsFields(s, j + 1 + |fields.before|, fields.rest);
    }
  }

  lemma MembersStepAt(s: seq<byte>, i: nat)
    requires i <= |s|
    ensures MembersEnd(s, i) == match MemberValue(s, i)
      case None => None
      case Some(v) =>
        match ValueEnd(s, v)
        case None => None
        case Some(k) =>
          var j := SkipSpace(s, k);
          if j == |s| then None
          else if s[j] == 125 then Some(j + 1)
          else if s[j] == 44 then MembersEnd(s, SkipSpace(s, j + 1))
          else None
  {
  }

  // ---- nothing else is accepted ----

  lemma WhiteOf(s: seq<byte>, i: nat)
    requires i <= |s|
    ensures IsWhite(s[i..SkipSpace(s, i)])
  {
    SpaceBytes(s, i);
    var ws := s[i..SkipSpace(s, i)];
    assert forall k :: 0 <= k < |ws| ==> ws[k] == s[i + k];
  }

  lemma DigitsOf(s: seq<byte>, i: nat)
    requires i <= |s|
    ensures AreDigits(s[i..DigitsEnd(s, i)])
  {
    var ds := s[i..DigitsEnd(s, i)];
    assert forall k :: 0 <= k < |ds| ==> ds[k] == s[i + k];
  }

  lemma IntOf(s: seq<byte>, i: nat) returns (j: nat)
    requires i <= |s| && IntEnd(s, i).Some?
    ensures i <= j < IntEnd(s, i).value && s[i..j] in [[], [45]]
    ensures var whole := s[j..IntEnd(s, i).value];
      whole != [] && AreDigits(whole) && (whole[0] == 48 ==> |whole| == 1)
  {
    j := if i < |s| && s[i] == 45 then i + 1 else i;
    assert s[i..j] == if j == i then [] else [45];
    DigitsOf(s, j);
  }

  lemma FractionOf(s: seq<byte>, i: nat) returns (fraction: seq<byte>)
    requires i <= |s| && FractionEnd(s, i).Some?
    ensures AreDigits(fraction) && i <= FractionEnd(s, i).value <= |s|
    ensures s[i..FractionEnd(s, i).value] == if fraction == [] then [] else [46] + fraction
  {
    var end := FractionEnd(s, i).value;
    fraction := [];
    if end != i {
      DigitsOf(s, i + 1);
      fraction := s[i + 1..end];
      assert s[i..end] == [46] + fraction;
    }
  }

  lemma ExponentOf(s: seq<byte>, i: nat) returns (mark: seq<byte>, exponent: seq<byte>)
    requires i <= |s| && ExponentEnd(s, i).Some?
    ensures if mark == [] then exponent == [] else IsMark(mark) && exponent != [] && AreDigits(exponent)
    ensures i <= ExponentEnd(s, i).value <= |s| && s[i..ExponentEnd(s, i).value] == mark + exponent
  {
    var end := ExponentEnd(s, i).value;
    mark, exponent := [], [];
    if end != i {
      var j := if s[i + 1] == 43 || s[i + 1] == 45 then i + 2 else i + 1;
      mark, exponent := s[i..j], s[j..end];
      DigitsOf(s, j);
      assert mark == if j == i + 1 then [s[i]] else [s[i], s[i + 1]];
      assert s[i..end] == mark + exponent;
    }
  }

  lemma NumberOf(s: seq<byte>, i: nat) returns (d: Doc)
    requires i <= |s| && NumberEnd(s, i).Some?
    ensures d.Number? && IsNumber(d) && Print(d) == s[i..NumberEnd(s, i).value]
  {
    hide IntEnd, FractionEnd, ExponentEnd, AreDigits, IsMark, Print;
    var j := IntOf(s, i);
    var k := IntEnd(s, i).value;
    var fraction := FractionOf(s, k);
    var l := FractionEnd(s, k).value;
    var mark, exponent := ExponentOf(s, l);
    d := Number(i < j, s[j..k], fraction, mark, exponent);
    NumberPieces(s, i, j, k, l, ExponentEnd(s, l).value, d);
  }

  lemma NumberPieces(s: seq<byte>, i: nat, j: nat, k: nat, l: nat, m: nat, d: Doc)
    requires d.Number? && i <= j <= k <= l <= m <= |s|
    requires s[i..j] == (if d.negative then [45] else []) && s[j..k] == d.whole
    requires s[k..l] == (if d.fraction == [] then [] else [46] + d.fraction) && s[l..m] == d.mark + d.exponent
    ensures Print(d) == s[i..m]
  {
    Pieces(s, i, j, k);
    Pieces(s, i, k, l);
    Pieces(s, i, l, m);
    var start := s[i..l];
    assert start + (d.mark + d.exponent) == start + d.mark + d.exponent;
  }

  lemma Pieces(s: seq<byte>, i: nat, j: nat, k: nat)
    requires i <= j <= k <= |s|
    ensures s[i..k] == s[i..j] + s[j..k]
  {
  }

  lemma {:induction false} StringOf(s: seq<byte>, i: nat)
    requires i <= |s| && StringEnd(s, i).Some?
    ensures i < StringEnd(s, i).value <= |s|
    ensures var k := StringEnd(s, i).value;
      IsStringBody(s[i..k - 1]) && s[k - 1] == 34
    decreases |s| - i
  {
    hide IsStringBody, IsHexDigit;
    var k := StringEnd(s, i).value;
    var text := s[i..k - 1];
    if s[i] == 34 {
      EmptyBody();
      assert text == [];
    } else {
      var n := OneUnitOf(s, i);
      StringOf(s, i + n);
      Pieces(s, i, i + n, k - 1);
      LongerBody(s[i..i + n], s[i + n..k - 1]);
    }
  }

  predicate IsUnit(unit: seq<byte>) {
    && unit != []
    && if unit[0] != 92 then |unit| == 1 && unit[0] >= 32 && unit[0] != 34
       else if |unit| == 2 then unit[1] in [34, 92, 47, 98, 102, 110, 114, 116]
       else |unit| == 6 && unit[1] == 117 && forall k :: 2 <= k < 6 ==> IsHexDigit(unit[k])
  }

  /** One character or escape. */
  lemma OneUnitOf(s: seq<byte>, i: nat) returns (n: nat)
    requires i < |s| && s[i] != 34 && StringEnd(s, i).Some?
    ensures 0 < n && i + n < StringEnd(s, i).value <= |s| && IsUnit(s[i..i + n])
    ensures StringEnd(s, i + n) == StringEnd(s, i)
  {
    n := if s[i] != 92 then 1 else if s[i + 1] == 117 then 6 else 2;
    var unit := s[i..i + n];
    assert forall k :: 0 <= k < n ==> unit[k] == s[i + k];
  }

  lemma EmptyBody()
    ensures IsStringBody([])
  {
  }

  lemma LongerBody(unit: seq<byte>, rest: seq<byte>)
    requires IsUnit(unit) && IsStringBody(rest)
    ensures IsStringBody(unit + rest)
  {
    assert (unit + rest)[|unit|..] == rest;
  }

  lemma ScalarOf(s: seq<byte>, i: nat) returns (d: Doc)
    requires i <= |s| && ScalarEnd(s, i).Some?
    ensures IsDoc(d) && Print(d) == s[i..ScalarEnd(s, i).value]
  {
    hide NumberEnd;
    if At(s, i, TRUE) {
      d := Literal(TRUE);
    } else if At(s, i, FALSE) {
      d := Literal(FALSE);
    } else if At(s, i, NULL) {
      d := Literal(NULL);
    } else {
      d := NumberOf(s, i);
    }
  }

  /** Whatever is read as a value spells one. */
  lemma {:induction false} DocOf(s: seq<byte>, i: nat) returns (d: Doc)
    requires i <= |s| && ValueEnd(s, i).Some?
    ensures IsDoc(d) && Print(d) == s[i..ValueEnd(s, i).value]
    ensures s[i] == 123 ==> d.Object?
    decreases |s| - i, 1
  {
    hide ScalarEnd, ObjectEnd, ArrayEnd, StringEnd, IsStringBody, IsWhite, AreItems, AreFields;
    var end := ValueEnd(s, i).value;
    if s[i] == 34 {
      StringOf(s, i + 1);
      StringIsLonger(s, i + 1);
      d := Str(s[i + 1..end - 1]);
      assert s[i..end] == [34] + s[i + 1..end - 1] + [34];
    } else if s[i] == 123 {
      var open, fields := ObjectOf(s, i + 1);
      d := Object(open, fields);
      assert s[i..end] == [123] + s[i + 1..end];
      assert [123] + (open + PrintFields(fields) + [125]) == Print(d);
    } else if s[i] == 91 {
      var open, items := ArrayOf(s, i + 1);
      d := Array(open, items);
      assert s[i..end] == [91] + s[i + 1..end];
      assert [91] + (open + PrintItems(items) + [93]) == Print(d);
    } else {
      d := ScalarOf(s, i);
    }
  }

  lemma StringIsLonger(s: seq<byte>, i: nat)
    requires i <= |s|
    ensures StringEnd(s, i).Some? ==> i < StringEnd(s, i).value <= |s|
  {
  }

  lemma {:induction false} ArrayOf(s: seq<byte>, i: nat) returns (open: seq<byte>, items: Items)
    requires i <= |s| && ArrayEnd(s, i).Some?
    ensures i < ArrayEnd(s, i).value <= |s| && IsWhite(open) && AreItems(items)
    ensures s[i..ArrayEnd(s, i).value] == open + PrintItems(items) + [93]
    decreases |s| - i, 3
  {
    hide ElementsEnd, AreItems, IsWhite, PrintItems;
    var j, end := SkipSpace(s, i), ArrayEnd(s, i).value;
    open := s[i..j];
    WhiteOf(s, i);
    if s[j] == 93 {
      items := NoItems;
      EmptyLists();
      assert s[i..end] == open + [] + [93];
    } else {
      items := ItemsOf(s, j);
      Pieces(s, i, j, end);
      assert open + (PrintItems(items) + [93]) == open + PrintItems(items) + [93];
    }
  }

  lemma EmptyLists()
    ensures IsWhite([])
    ensures AreItems(NoItems) && PrintItems(NoItems) == [] && AreFields(NoFields) && PrintFields(NoFields) == []
  {
  }

  lemma {:induction false} ItemsOf(s: seq<byte>, i: nat) returns (items: Items)
    requires i <= |s| && ElementsEnd(s, i).Some?
    ensures i < ElementsEnd(s, i).value <= |s| && items.Item? && AreItems(items)
    ensures s[i..ElementsEnd(s, i).value] == PrintItems(items) + [93]
    decreases |s| - i, 2
  {
    hide ValueEnd, ElementsEnd, AreItems, IsDoc, IsWhite, Print, PrintItems;
    var end := ElementsEnd(s, i).value;
    ElementsStep(s, i);
    ValueIsLonger(s, i);
    var k := ValueEnd(s, i).value;
    var j := SkipSpace(s, k);
    var value := DocOf(s, i);
    WhiteOf(s, k);
    EmptyLists();
    if s[j] == 93 {
      items := Item(value, s[k..j], [], NoItems);
      OneItem(items);
      LastPieces(s, i, k, j);
    } else {
      var next := SkipSpace(s, j + 1);
      WhiteOf(s, j + 1);
      var rest := ItemsOf(s, next);
      items := Item(value, s[k..j], s[j + 1..next], rest);
      OneItem(items);
      MorePieces(s, i, k, j, next, end, PrintItems(rest) + [93]);
      assert [44] + s[j + 1..next] + (PrintItems(rest) + [93]) == [44] + s[j + 1..next] + PrintItems(rest) + [93];
    }
  }

  lemma LastPieces(s: seq<byte>, i: nat, k: nat, j: nat)
    requires i <= k <= j < |s|
    ensures s[i..j + 1] == s[i..k] + s[k..j] + [] + [s[j]]
  {
  }

  lemma MorePieces(s: seq<byte>, i: nat, k: nat, j: nat, next: nat, end: nat, rest: seq<byte>)
    requires i <= k <= j < next <= end <= |s| && s[next..end] == rest
    ensures s[i..end] == s[i..k] + s[k..j] + ([s[j]] + s[j + 1..next] + rest)
  {
    Pieces(s, i, k, j);
    Pieces(s, i, j, end);
    Pieces(s, j, j + 1, end);
    Pieces(s, j + 1, next, end);
  }

  lemma ValueIsLonger(s: seq<byte>, i: nat)
    requires i <= |s|
    ensures ValueEnd(s, i).Some? ==> i < ValueEnd(s, i).value <= |s|
  {
  }

  lemma OneItem(items: Items)
    requires items.Item?
    ensures AreItems(items) <==>
      IsDoc(items.value) && IsWhite(items.after) && IsWhite(items.before) && AreItems(items.rest)
    ensures PrintItems(items) == Print(items.value) + items.after
      + if items.rest == NoItems then [] else [44] + items.before + PrintItems(items.rest)
  {
  }

  lemma {:induction false} ObjectOf(s: seq<byte>, i: nat) returns (open: seq<byte>, fields: Fields)
    requires i <= |s| && ObjectEnd(s, i).Some?
    ensures i < ObjectEnd(s, i).value <= |s| && IsWhite(open) && AreFields(fields)
    ensures s[i..ObjectEnd(s, i).value] == open + PrintFields(fields) + [125]
    decreases |s| - i, 3
  {
    hide MembersEnd, AreFields, IsWhite, PrintFields;
    var j, end := SkipSpace(s, i), ObjectEnd(s, i).value;
    open := s[i..j];
    WhiteOf(s, i);
    if j < |s| && s[j] == 125 {
      fields := NoFields;
      EmptyLists();
      assert s[i..end] == open + [] + [125];
    } else {
      fields := FieldsOf(s, j);
      Pieces(s, i, j, end);
      assert open + (PrintFields(fields) + [125]) == open + PrintFields(fields) + [125];
    }
  }

  lemma KeyOf(s: seq<byte>, i: nat) returns (key: seq<byte>, gap: seq<byte>, lead: seq<byte>)
    requires i <= |s| && MemberValue(s, i).Some?
    ensures i < MemberValue(s, i).value <= |s|
    ensures IsStringBody(key) && IsWhite(gap) && IsWhite(lead)
    ensures PrintKey(key, gap, lead) == s[i..MemberValue(s, i).value]
  {
    hide StringEnd, IsStringBody, IsWhite;
    StringIsLonger(s, i + 1);
    var k := StringEnd(s, i + 1).value;
    var colon, v := SkipSpace(s, k), MemberValue(s, i).value;
    StringOf(s, i + 1);
    WhiteOf(s, k);
    WhiteOf(s, colon + 1);
    key, gap, lead := s[i + 1..k - 1], s[k..colon], s[colon + 1..v];
    assert s[i..v] == [34] + key + [34] + gap + [58] + lead;
  }

  lemma {:induction false} FieldsOf(s: seq<byte>, i: nat) returns (fields: Fields)
    requires i <= |s| && MembersEnd(s, i).Some?
    ensures i < MembersEnd(s, i).value <= |s| && fields.Field? && AreFields(fields)
    ensures s[i..MembersEnd(s, i).value] == PrintFields(fields) + [125]
    decreases |s| - i, 2
  {
    hide ValueEnd, MembersEnd, MemberValue, AreFields, IsDoc, IsWhite, IsStringBody, Print, PrintFields, PrintKey;
    var end := MembersEnd(s, i).value;
    MembersStepAt(s, i);
    var key, gap, lead := KeyOf(s, i);
    var v := MemberValue(s, i).value;
    ValueIsLonger(s, v);
    var k := ValueEnd(s, v).value;
    var j := SkipSpace(s, k);
    var value := DocOf(s, v);
    WhiteOf(s, k);
    Pieces(s, i, v, k);
    if s[j] == 125 {
      fields := Field(key, gap, lead, value, s[k..j], [], NoFields);
      EmptyLists();
      OneField(fields);
      LastPieces(s, i, k, j);
    } else {
      var next := SkipSpace(s, j + 1);
      WhiteOf(s, j + 1);
      var rest := FieldsOf(s, next);
      fields := Field(key, gap, lead, value, s[k..j], s[j + 1..next], rest);
      OneField(fields);
      MorePieces(s, i, k, j, next, end, PrintFields(rest) + [125]);
      assert [44] + s[j + 1..next] + (PrintFields(rest) + [125]) == [44] + s[j + 1..next] + PrintFields(rest) + [125];
    }
  }

  lemma OneField(fields: Fields)
    requires fields.Field?
    ensures AreFields(fields) <==>
      && IsStringBody(fields.key) && IsWhite(fields.gap) && IsWhite(fields.lead) && IsDoc(fields.value)
      && IsWhite(fields.after) && IsWhite(fields.before) && AreFields(fields.rest)
    ensures PrintFields(fields)
      == PrintKey(fields.key, fields.gap, fields.lead) + Print(fields.value) + fields.after + Follows(fields)
  {
  }

  // ---- object texts ----

  /** The text spells the object, with white space around it. */
  ghost predicate Spells(s: seq<byte>, before: seq<byte>, d: Doc, after: seq<byte>) {
    d.Object? && IsDoc(d) && IsWhite(before) && IsWhite(after) && s == before + Print(d) + after
  }

  lemma SpellingIsAccepted(s: seq<byte>, before: seq<byte>, d: Doc, after: seq<byte>)
    requires Spells(s, before, d, after)
    ensures IsObjectText(s) && SkipSpace(s, 0) == |before|
  {
    hide Print, ObjectEnd, IsDoc;
    var i, end := |before|, |before| + |Print(d)|;
    AtStart(s, before, Print(d), after);
    PrintStart(d);
    AtByte(s, i, Print(d), 0);
    SkipsWhite(s, 0, before);
    SkipsWhite(s, end, after);
    EndsThere(s, end, after);
    ReadsDoc(s, i, d);
    assert ValueEnd(s, i) == ObjectEnd(s, i + 1);
  }

  lemma AtStart(s: seq<byte>, a: seq<byte>, b: seq<byte>, c: seq<byte>)
    requires s == a + b + c
    ensures At(s, 0, a) && At(s, |a|, b) && At(s, |a| + |b|, c) && |a| + |b| + |c| == |s|
  {
    assert s[0..0 + |a|] == a;
    assert s[|a|..|a| + |b|] == b;
    assert s[|a| + |b|..|a| + |b| + |c|] == c;
  }

  lemma AcceptedIsSpelling(s: seq<byte>) returns (before: seq<byte>, d: Doc, after: seq<byte>)
    requires IsObjectText(s)
    ensures Spells(s, before, d, after)
  {
    hide ObjectEnd, Print, IsDoc;
    var i := SkipSpace(s, 0);
    d := DocOf(s, i);
    ValueIsLonger(s, i);
    var end := ValueEnd(s, i).value;
    WhiteOf(s, 0);
    WhiteOf(s, end);
    before, after := s[0..i], s[end..|s|];
    Pieces(s, 0, i, end);
    Pieces(s, 0, end, |s|);
    assert s[0..|s|] == s;
  }

  /** The recogniser accepts exactly the spellings of objects, white space around them allowed. */
  lemma ObjectTexts(s: seq<byte>)
    ensures IsObjectText(s) <==> exists before, d, after :: Spells(s, before, d, after)
  {
    hide IsObjectText, Spells;
    if IsObjectText(s) {
      var before, d, after := AcceptedIsSpelling(s);
    }
    if before, d, after :| Spells(s, before, d, after) {
      SpellingIsAccepted(s, before, d, after);
    }
  }
}
