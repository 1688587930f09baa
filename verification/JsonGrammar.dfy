/** Which texts the parser reads, and as what, given as a grammar: it reads exactly these. */
module JsonGrammar {
  import opened JsonTree
  import opened JsonNumber
  import opened JsonString
  import opened JsonText
  import opened JsonRoundTrip
  import opened JsonStringLaws
  import opened JsonNumberLaws
  import opened JsonTextLaws

  // ----- the grammar (section 2 of RFC 8259, with the liberties of the parser) -----

  /** A literal; at the end of the text its closing quote may be missing. */
  ghost predicate StringAt(s: string, i: nat, t: string, e: nat) {
    && At(s, i) == '\"'
    && exists end: nat, ts :: Quoted(s, i, end, ts) && t == Joined(ts) && e == if At(s, end) == '\"' then end + 1 else end
  }

  ghost predicate Quoted(s: string, i: nat, end: nat, ts: seq<string>) {
    Parts(s, i + 1, end, ts) && end <= |s| && (At(s, end) == '\"' || At(s, end) == NUL)
  }

  ghost predicate NumberAt(s: string, i: nat, v: Json, e: nat) {
    && (At(s, i) == '-' || IsDigit(At(s, i)))
    && exists neg, z, w, f, x :: Spells(s, i, e, neg, z, w, f, x) && v == NumberValue(neg, w, f, x)
  }

  /** `v` is written from `i` to `e`. */
  ghost predicate ValueAt(s: string, i: nat, v: Json, e: nat)
    decreases v
  {
    match v
    case Null => Occurs(s, i, "null") && e == i + 4
    case False => Occurs(s, i, "false") && e == i + 5
    case True => Occurs(s, i, "true") && e == i + 4
    case Num(_, _) => NumberAt(s, i, v, e)
    case Str(t) => StringAt(s, i, t, e)
    case Arr(items) => At(s, i) == '[' && if items.NoItems? then ClosedAt(s, i + 1, ']', e) else ItemsAt(s, i + 1, items, e)
    case Obj(members) =>
      At(s, i) == '{' && if members.NoMembers? then ClosedAt(s, i + 1, '}', e) else MembersAt(s, i + 1, members, e)
  }

  /** White space and one character. */
  ghost predicate ClosedAt(s: string, i: nat, c: char, e: nat) {
    e > 0 && Gap(s, i, e - 1) && At(s, e - 1) == c
  }

  /** The entries of an array, and its closing bracket. */
  ghost predicate ItemsAt(s: string, i: nat, items: Items, e: nat)
    requires items.Item?
    decreases items
  {
    exists a: nat, b: nat, c: nat ::
      && Gap(s, i, a) && ValueAt(s, a, items.head, b)
      && if items.next.NoItems? then ClosedAt(s, b, ']', e) && c == e
         else ClosedAt(s, b, ',', c) && ItemsAt(s, c, items.next, e)
  }

  /** A name and its colon. */
  ghost predicate NameAt(s: string, i: nat, name: string, e: nat) {
    exists a: nat, b: nat :: Gap(s, i, a) && StringAt(s, a, name, b) && ClosedAt(s, b, ':', e)
  }

  /** The members of an object, and its closing brace. */
  ghost predicate MembersAt(s: string, i: nat, members: Members, e: nat)
    requires members.Member?
    decreases members
  {
    exists n: nat, a: nat, b: nat, c: nat ::
      && NameAt(s, i, members.name, n) && Gap(s, n, a) && ValueAt(s, a, members.value, b)
      && if members.next.NoMembers? then ClosedAt(s, b, '}', e) && c == e
         else ClosedAt(s, b, ',', c) && MembersAt(s, c, members.next, e)
  }

  // ----- white space and single characters -----

  predicate Dark(c: char) {
    !(1 <= c as int <= 32)
  }

  lemma GapSkipped(s: string, i: nat, a: nat)
    requires Gap(s, i, a) && Dark(At(s, a))
    ensures SkipSpace(s, i) == a
  {
    SkipSpaceExactly(s, i, a);
  }

  lemma SkippedGap(s: string, i: nat)
    requires i <= |s|
    ensures Gap(s, i, SkipSpace(s, i)) && Dark(At(s, SkipSpace(s, i)))
  {
    SkipSpaceExactly(s, i, SkipSpace(s, i));
  }

  lemma ClosedSkipped(s: string, i: nat, c: char, e: nat)
    requires ClosedAt(s, i, c, e) && Dark(c)
    ensures SkipSpace(s, i) + 1 == e && At(s, SkipSpace(s, i)) == c && i < e && (c != NUL ==> e <= |s|)
  {
    GapSkipped(s, i, e - 1);
  }

  lemma SkippedClosed(s: string, i: nat, c: char)
    requires i <= |s| && At(s, SkipSpace(s, i)) == c
    ensures ClosedAt(s, i, c, SkipSpace(s, i) + 1)
  {
    SkippedGap(s, i);
  }

  // ----- leaves -----

  /** A literal is read exactly as written. */
  lemma StringExactly(s: string, i: nat, t: string, e: nat)
    ensures ParseString(s, i) == Ok(t, e) <==> StringAt(s, i, t, e)
  {
    hide ParseString, Joined, Parts;
    if StringAt(s, i, t, e) {
      var end: nat, ts :| Quoted(s, i, end, ts) && t == Joined(ts) && e == if At(s, end) == '\"' then end + 1 else end;
      QuotedParses(s, i, end, ts);
    }
    if ParseString(s, i) == Ok(t, e) {
      var end, ts := ParsedLiterals(s, i);
      ParsedInside(s, i);
      assert Quoted(s, i, end, ts);
    }
  }

  lemma ParsedInside(s: string, i: nat)
    requires ParseString(s, i).Ok?
    ensures ParseString(s, i).end <= |s|
  {
  }

  lemma QuotedParses(s: string, i: nat, end: nat, ts: seq<string>)
    requires At(s, i) == '\"' && Quoted(s, i, end, ts)
    ensures ParseString(s, i) == Ok(Joined(ts), if At(s, end) == '\"' then end + 1 else end)
  {
    hide Parts, LiteralEnd, Unescape, Joined;
    PartsDecode(s, i + 1, end, ts);
  }

  lemma NumberExactly(s: string, i: nat, v: Json, e: nat)
    requires i <= |s| && (At(s, i) == '-' || IsDigit(At(s, i)))
    ensures ParseNumber(s, i) == (v, e) <==> NumberAt(s, i, v, e)
  {
    hide ParseNumber, Occurs, WholeStops, FractionStops, ExponentStops, FractionText, ExponentText, Minus, ProperExponent, Numeral,
      NumberValue;
    if NumberAt(s, i, v, e) {
      var neg, z, w, f, x :| Spells(s, i, e, neg, z, w, f, x) && v == NumberValue(neg, w, f, x);
      NumberSpelled(s, i, e, neg, z, w, f, x);
    }
    var e', neg, z, w, f, x := NumberOf(s, i);
  }

  // ----- what is written is read -----

  /** A value begins with a character that is no white space, and that tells what it is. */
  lemma FirstChar(s: string, i: nat, v: Json, e: nat)
    requires ValueAt(s, i, v, e)
    ensures Dark(At(s, i)) && i < |s| && At(s, i) != ']' && At(s, i) != '}'
    ensures v.Null? || v.False? || v.True? || Plainly(s, i)
    ensures v.Str? <==> At(s, i) == '\"'
    ensures v.Num? <==> At(s, i) == '-' || IsDigit(At(s, i))
    ensures v.Arr? <==> At(s, i) == '['
    ensures v.Obj? <==> At(s, i) == '{'
  {
    hide StringAt, NumberAt, ItemsAt, MembersAt, ClosedAt, Occurs, Plainly;
    if At(s, i) != 'n' && At(s, i) != 'f' && At(s, i) != 't' { PlainlyFirst(s, i); }
    match v
    case Null => OccursAt(s, i, "null", 0);
    case False => OccursAt(s, i, "false", 0);
    case True => OccursAt(s, i, "true", 0);
    case Num(_, _) => NumberStarts(s, i, v, e);
    case Str(t) => StringStarts(s, i, t, e);
    case _ =>
  }

  /** None of the three words stands here. */
  predicate Plainly(s: string, i: nat) {
    !Occurs(s, i, "null") && !Occurs(s, i, "false") && !Occurs(s, i, "true")
  }

  lemma PlainlyFirst(s: string, i: nat)
    requires At(s, i) != 'n' && At(s, i) != 'f' && At(s, i) != 't'
    ensures Plainly(s, i)
  {
    if Occurs(s, i, "null") { OccursAt(s, i, "null", 0); }
    if Occurs(s, i, "false") { OccursAt(s, i, "false", 0); }
    if Occurs(s, i, "true") { OccursAt(s, i, "true", 0); }
  }

  lemma NumberStarts(s: string, i: nat, v: Json, e: nat)
    requires NumberAt(s, i, v, e)
    ensures At(s, i) == '-' || IsDigit(At(s, i))
  {
  }

  lemma StringStarts(s: string, i: nat, t: string, e: nat)
    requires StringAt(s, i, t, e)
    ensures At(s, i) == '\"'
  {
  }

  // ----- one level of the parser -----

  function ItemsThen(v: Json, rest: Parsed<Items>): Parsed<Items> {
    match rest
    case Ok(items, e) => Ok(Item(v, items), e)
    case Fail => Fail
    case Wild => Wild
  }

  lemma ItemsLevel(s: string, i: nat, v: Json, b: nat, c: nat)
    requires i <= |s| && ParseValue(s, SkipSpace(s, i)) == Ok(v, b) && c == SkipSpace(s, b)
    ensures
      ParseItems(s, i) ==
        if At(s, c) == ',' then ItemsThen(v, ParseItems(s, c + 1))
        else if At(s, c) == ']' then Ok(Item(v, NoItems), c + 1) else Fail
  {
    hide ParseValue, SkipSpace;
  }

  function MembersThen(name: string, v: Json, rest: Parsed<Members>): Parsed<Members> {
    match rest
    case Ok(members, e) => Ok(Member(name, v, members), e)
    case Fail => Fail
    case Wild => Wild
  }

  lemma MembersLevel(s: string, i: nat, name: string, n: nat, v: Json, b: nat, c: nat)
    requires i <= |s| && ParseName(s, i) == Ok(name, n) && ParseValue(s, SkipSpace(s, n)) == Ok(v, b) && c == SkipSpace(s, b)
    ensures
      ParseMembers(s, i) ==
        if At(s, c) == ',' then MembersThen(name, v, ParseMembers(s, c + 1))
        else if At(s, c) == '}' then Ok(Member(name, v, NoMembers), c + 1) else Fail
  {
    hide ParseValue, ParseName, SkipSpace;
  }

  lemma ArrayLevel(s: string, i: nat, j: nat)
    requires i < |s| && j == SkipSpace(s, i + 1)
    ensures At(s, j) == ']' ==> ParseArray(s, i) == Ok(Arr(NoItems), j + 1)
    ensures At(s, j) != ']' && ParseItems(s, i + 1).Ok? ==>
      ParseArray(s, i) == Ok(Arr(ParseItems(s, i + 1).value), ParseItems(s, i + 1).end)
    ensures At(s, j) != ']' && ParseArray(s, i).Ok? ==> ParseItems(s, i + 1).Ok?
  {
    SkipSkipped(s, i + 1);
    ItemsSkip(s, i + 1, j);
    hide ParseItems, SkipSpace;
  }

  lemma ObjectLevel(s: string, i: nat, j: nat)
    requires i < |s| && j == SkipSpace(s, i + 1)
    ensures At(s, j) == '}' ==> ParseObject(s, i) == Ok(Obj(NoMembers), j + 1)
    ensures At(s, j) != '}' && ParseMembers(s, i + 1).Ok? ==>
      ParseObject(s, i) == Ok(Obj(ParseMembers(s, i + 1).value), ParseMembers(s, i + 1).end)
    ensures At(s, j) != '}' && ParseObject(s, i).Ok? ==> ParseMembers(s, i + 1).Ok?
  {
    SkipSkipped(s, i + 1);
    MembersSkip(s, i + 1, j);
    hide ParseMembers, SkipSpace;
  }

  /** How a value is told by its first character. */
  lemma ValueLevel(s: string, i: nat)
    requires i <= |s|
    ensures Plainly(s, i) && At(s, i) == '\"' ==> ParseValue(s, i) == ParseStr(s, i)
    ensures Plainly(s, i) && (At(s, i) == '-' || IsDigit(At(s, i))) ==> ParseValue(s, i) == Ok(ParseNumber(s, i).0, ParseNumber(s, i).1)
    ensures Plainly(s, i) && At(s, i) == '[' ==> ParseValue(s, i) == ParseArray(s, i)
    ensures Plainly(s, i) && At(s, i) == '{' ==> ParseValue(s, i) == ParseObject(s, i)
    ensures Occurs(s, i, "null") ==> ParseValue(s, i) == Ok(Null, i + 4)
    ensures Occurs(s, i, "false") ==> ParseValue(s, i) == Ok(False, i + 5)
    ensures Occurs(s, i, "true") ==> ParseValue(s, i) == Ok(True, i + 4)
    ensures ParseValue(s, i).Ok? && Plainly(s, i) ==>
      At(s, i) == '\"' || At(s, i) == '-' || IsDigit(At(s, i)) || At(s, i) == '[' || At(s, i) == '{'
  {
    WordsApart(s, i);
    hide Occurs, ParseStr, ParseNumber, ParseArray, ParseObject;
  }

  lemma WordsApart(s: string, i: nat)
    ensures Occurs(s, i, "null") ==> At(s, i) == 'n'
    ensures Occurs(s, i, "false") ==> At(s, i) == 'f'
    ensures Occurs(s, i, "true") ==> At(s, i) == 't'
  {
    if Occurs(s, i, "null") { OccursAt(s, i, "null", 0); }
    if Occurs(s, i, "false") { OccursAt(s, i, "false", 0); }
    if Occurs(s, i, "true") { OccursAt(s, i, "true", 0); }
  }

  lemma StrLevel(s: string, i: nat, t: string, e: nat)
    ensures ParseString(s, i) == Ok(t, e) <==> ParseStr(s, i) == Ok(Str(t), e)
    ensures ParseStr(s, i).Ok? ==> ParseStr(s, i).value.Str?
  {
    hide ParseString;
  }

  lemma NameLevel(s: string, i: nat, name: string, b: nat)
    requires i <= |s| && ParseString(s, SkipSpace(s, i)) == Ok(name, b)
    ensures ParseName(s, i) == if At(s, SkipSpace(s, b)) == ':' then Ok(name, SkipSpace(s, b) + 1) else Fail
  {
    hide ParseString, SkipSpace;
  }

  // ----- what is written is read -----

  lemma NameRead(s: string, i: nat, name: string, e: nat)
    requires i <= |s| && NameAt(s, i, name, e)
    ensures ParseName(s, i) == Ok(name, e) && e <= |s|
  {
    hide StringAt, ClosedAt, Gap, SkipSpace, ParseString, ParseName;
    var a: nat, b: nat :| Gap(s, i, a) && StringAt(s, a, name, b) && ClosedAt(s, b, ':', e);
    StringStarts(s, a, name, b);
    GapSkipped(s, i, a);
    StringExactly(s, a, name, b);
    ClosedSkipped(s, b, ':', e);
    NameLevel(s, i, name, b);
  }

  lemma {:induction false} ValueRead(s: string, i: nat, v: Json, e: nat)
    requires i <= |s| && ValueAt(s, i, v, e)
    ensures ParseValue(s, i) == Ok(v, e)
    decreases v, 1
  {
    hide StringAt, NumberAt, ItemsAt, MembersAt, ClosedAt, Occurs, Plainly, ParseValue, ParseString, ParseNumber, ParseArray,
      ParseObject, ParseStr, IsDigit;
    FirstChar(s, i, v, e);
    ValueLevel(s, i);
    match v
    case Num(_, _) => NumberExactly(s, i, v, e);
    case Str(t) =>
      StringExactly(s, i, t, e);
      StrLevel(s, i, t, e);
    case Arr(items) => ArrayRead(s, i, items, e);
    case Obj(members) => ObjectRead(s, i, members, e);
    case _ =>
  }

  lemma {:induction false} ArrayRead(s: string, i: nat, items: Items, e: nat)
    requires i < |s| && if items.NoItems? then ClosedAt(s, i + 1, ']', e) else ItemsAt(s, i + 1, items, e)
    ensures ParseArray(s, i) == Ok(Arr(items), e)
    decreases items, 1
  {
    hide ClosedAt, SkipSpace, ParseArray, ParseItems;
    ArrayLevel(s, i, SkipSpace(s, i + 1));
    if items.NoItems? {
      ClosedSkipped(s, i + 1, ']', e);
    } else {
      ItemsRead(s, i + 1, items, e);
      ItemsBegin(s, i + 1, items, e);
    }
  }

  lemma ItemsBegin(s: string, i: nat, items: Items, e: nat)
    requires items.Item? && ItemsAt(s, i, items, e)
    ensures At(s, SkipSpace(s, i)) != ']'
  {
    hide ValueAt, ClosedAt, Gap, SkipSpace;
    var a: nat, b: nat, c: nat :|
      && Gap(s, i, a) && ValueAt(s, a, items.head, b)
      && if items.next.NoItems? then ClosedAt(s, b, ']', e) && c == e
         else ClosedAt(s, b, ',', c) && ItemsAt(s, c, items.next, e);
    FirstChar(s, a, items.head, b);
    GapSkipped(s, i, a);
  }

  lemma {:induction false} ItemsRead(s: string, i: nat, items: Items, e: nat)
    requires items.Item? && i <= |s| && ItemsAt(s, i, items, e)
    ensures ParseItems(s, i) == Ok(items, e)
    decreases items, 0
  {
    hide ValueAt, ClosedAt, Gap, SkipSpace, ParseValue, ParseItems, Dark;
    var a: nat, b: nat, c: nat :|
      && Gap(s, i, a) && ValueAt(s, a, items.head, b)
      && if items.next.NoItems? then ClosedAt(s, b, ']', e) && c == e
         else ClosedAt(s, b, ',', c) && ItemsAt(s, c, items.next, e);
    FirstChar(s, a, items.head, b);
    GapSkipped(s, i, a);
    ValueRead(s, a, items.head, b);
    ItemsLevel(s, i, items.head, b, SkipSpace(s, b));
    DarkOnes();
    if items.next.NoItems? {
      ClosedSkipped(s, b, ']', e);
    } else {
      ClosedSkipped(s, b, ',', c);
      ItemsRead(s, c, items.next, e);
    }
  }

  lemma DarkOnes()
    ensures Dark(']') && Dark(',') && Dark('}') && Dark(':') && Dark('\"')
  {
  }

  lemma {:induction false} ObjectRead(s: string, i: nat, members: Members, e: nat)
    requires i < |s| && if members.NoMembers? then ClosedAt(s, i + 1, '}', e) else MembersAt(s, i + 1, members, e)
    ensures ParseObject(s, i) == Ok(Obj(members), e)
    decreases members, 1
  {
    hide ClosedAt, SkipSpace, ParseObject, ParseMembers;
    ObjectLevel(s, i, SkipSpace(s, i + 1));
    if members.NoMembers? {
      ClosedSkipped(s, i + 1, '}', e);
    } else {
      MembersRead(s, i + 1, members, e);
      MembersBegin(s, i + 1, members, e);
    }
  }

  lemma NameBegins(s: string, i: nat, name: string, e: nat)
    requires NameAt(s, i, name, e)
    ensures At(s, SkipSpace(s, i)) == '\"'
  {
    hide StringAt, ClosedAt, Gap, SkipSpace;
    var a: nat, b: nat :| Gap(s, i, a) && StringAt(s, a, name, b) && ClosedAt(s, b, ':', e);
    StringStarts(s, a, name, b);
    GapSkipped(s, i, a);
  }

  lemma MembersBegin(s: string, i: nat, members: Members, e: nat)
    requires members.Member? && MembersAt(s, i, members, e)
    ensures At(s, SkipSpace(s, i)) != '}'
  {
    hide ValueAt, ClosedAt, Gap, SkipSpace, NameAt;
    var n: nat, a: nat, b: nat, c: nat :|
      && NameAt(s, i, members.name, n) && Gap(s, n, a) && ValueAt(s, a, members.value, b)
      && if members.next.NoMembers? then ClosedAt(s, b, '}', e) && c == e
         else ClosedAt(s, b, ',', c) && MembersAt(s, c, members.next, e);
    NameBegins(s, i, members.name, n);
  }

  lemma {:induction false} MembersRead(s: string, i: nat, members: Members, e: nat)
    requires members.Member? && i <= |s| && MembersAt(s, i, members, e)
    ensures ParseMembers(s, i) == Ok(members, e)
    decreases members, 0
  {
    hide ValueAt, ClosedAt, Gap, SkipSpace, ParseValue, ParseMembers, Dark, NameAt, ParseName;
    var n: nat, a: nat, b: nat, c: nat :|
      && NameAt(s, i, members.name, n) && Gap(s, n, a) && ValueAt(s, a, members.value, b)
      && if members.next.NoMembers? then ClosedAt(s, b, '}', e) && c == e
         else ClosedAt(s, b, ',', c) && MembersAt(s, c, members.next, e);
    NameRead(s, i, members.name, n);
    FirstChar(s, a, members.value, b);
    GapSkipped(s, n, a);
    ValueRead(s, a, members.value, b);
    MembersLevel(s, i, members.name, n, members.value, b, SkipSpace(s, b));
    DarkOnes();
    if members.next.NoMembers? {
      ClosedSkipped(s, b, '}', e);
    } else {
      ClosedSkipped(s, b, ',', c);
      MembersRead(s, c, members.next, e);
    }
  }

  // ----- and what is read is written -----

  lemma {:induction false} ValueWritten(s: string, i: nat)
    requires i <= |s| && ParseValue(s, i).Ok?
    ensures ValueAt(s, i, ParseValue(s, i).value, ParseValue(s, i).end)
    decreases |s| - i, 1
  {
    hide StringAt, NumberAt, ItemsAt, MembersAt, ClosedAt, Occurs, ParseValue, ParseString, ParseNumber, ParseArray,
      ParseObject, ParseStr, IsDigit;
    ValueLevel(s, i);
    if Plainly(s, i) {
      if At(s, i) == '\"' {
        StringWritten(s, i);
      } else if At(s, i) == '[' {
        ArrayWritten(s, i);
      } else if At(s, i) == '{' {
        ObjectWritten(s, i);
      } else {
        NumberWritten(s, i);
      }
    }
  }

  lemma StringWritten(s: string, i: nat)
    requires i <= |s| && ParseStr(s, i).Ok?
    ensures ValueAt(s, i, ParseStr(s, i).value, ParseStr(s, i).end)
  {
    hide StringAt, ParseString, ParseStr;
    var v, e := ParseStr(s, i).value, ParseStr(s, i).end;
    StrLevel(s, i, "", e);
    StrLevel(s, i, v.text, e);
    StringExactly(s, i, v.text, e);
  }

  lemma NumberWritten(s: string, i: nat)
    requires i <= |s| && (At(s, i) == '-' || IsDigit(At(s, i)))
    ensures ValueAt(s, i, ParseNumber(s, i).0, ParseNumber(s, i).1)
  {
    hide NumberAt, ParseNumber;
    NumberExactly(s, i, ParseNumber(s, i).0, ParseNumber(s, i).1);
    NumberIsNum(s, i);
  }

  lemma NumberIsNum(s: string, i: nat)
    ensures ParseNumber(s, i).0.Num?
  {
  }

  lemma {:induction false} ArrayWritten(s: string, i: nat)
    requires i < |s| && At(s, i) == '[' && ParseArray(s, i).Ok?
    ensures ValueAt(s, i, ParseArray(s, i).value, ParseArray(s, i).end)
    decreases |s| - i, 0
  {
    hide ClosedAt, ItemsAt, SkipSpace, ParseArray, ParseItems;
    var j := SkipSpace(s, i + 1);
    ArrayLevel(s, i, j);
    if At(s, j) == ']' { SkippedClosed(s, i + 1, ']'); } else { ItemsWritten(s, i + 1); }
  }

  lemma {:induction false} ObjectWritten(s: string, i: nat)
    requires i < |s| && At(s, i) == '{' && ParseObject(s, i).Ok?
    ensures ValueAt(s, i, ParseObject(s, i).value, ParseObject(s, i).end)
    decreases |s| - i, 0
  {
    hide ClosedAt, MembersAt, SkipSpace, ParseObject, ParseMembers;
    var j := SkipSpace(s, i + 1);
    ObjectLevel(s, i, j);
    if At(s, j) == '}' { SkippedClosed(s, i + 1, '}'); } else { MembersWritten(s, i + 1); }
  }

  /** What a successful parse of entries went through. */
  lemma ItemsParts(s: string, i: nat) returns (a: nat, v: Json, b: nat, c: nat)
    requires i <= |s| && ParseItems(s, i).Ok?
    ensures a == SkipSpace(s, i) && i <= a <= |s| && ParseValue(s, a) == Ok(v, b) && a < b <= |s| && c == SkipSpace(s, b)
    ensures ParseItems(s, i).value.Item? && ParseItems(s, i).value.head == v
    ensures if At(s, c) == ','
            then ParseItems(s, c + 1) == Ok(ParseItems(s, i).value.next, ParseItems(s, i).end) && c < |s|
            else At(s, c) == ']' && ParseItems(s, i).value.next.NoItems? && ParseItems(s, i).end == c + 1
  {
    hide ParseValue, SkipSpace;
    a := SkipSpace(s, i);
    v, b := ParseValue(s, a).value, ParseValue(s, a).end;
    c := SkipSpace(s, b);
  }

  lemma {:induction false} ItemsWritten(s: string, i: nat)
    requires i <= |s| && ParseItems(s, i).Ok?
    ensures ParseItems(s, i).value.Item? && ItemsAt(s, i, ParseItems(s, i).value, ParseItems(s, i).end)
    decreases |s| - i, 2
  {
    hide ValueAt, ClosedAt, Gap, SkipSpace, ParseValue, ParseItems;
    var a, v, b, c := ItemsParts(s, i);
    var items, e := ParseItems(s, i).value, ParseItems(s, i).end;
    SkippedGap(s, i);
    ValueWritten(s, a);
    SkippedClosed(s, b, At(s, c));
    if At(s, c) == ',' {
      ItemsWritten(s, c + 1);
      assert ItemsAfter(s, items, e, b, c + 1);
    } else {
      assert ItemsAfter(s, items, e, b, e);
    }
    ItemsFound(s, i, items, e, a, b, if At(s, c) == ',' then c + 1 else e);
  }

  /** What stands behind the first entry. */
  ghost predicate ItemsAfter(s: string, items: Items, e: nat, b: nat, c: nat)
    requires items.Item?
  {
    if items.next.NoItems? then ClosedAt(s, b, ']', e) && c == e
    else ClosedAt(s, b, ',', c) && ItemsAt(s, c, items.next, e)
  }

  lemma ItemsFound(s: string, i: nat, items: Items, e: nat, a: nat, b: nat, c: nat)
    requires items.Item? && Gap(s, i, a) && ValueAt(s, a, items.head, b) && ItemsAfter(s, items, e, b, c)
    ensures ItemsAt(s, i, items, e)
  {
    hide ValueAt, ClosedAt, Gap;
  }

  lemma MembersParts(s: string, i: nat) returns (name: string, n: nat, a: nat, v: Json, b: nat, c: nat)
    requires i <= |s| && ParseMembers(s, i).Ok?
    ensures ParseName(s, i) == Ok(name, n) && i < n <= |s|
    ensures a == SkipSpace(s, n) && n <= a <= |s| && ParseValue(s, a) == Ok(v, b) && a < b <= |s| && c == SkipSpace(s, b)
    ensures var m := ParseMembers(s, i).value; m.Member? && m.name == name && m.value == v
    ensures if At(s, c) == ','
            then ParseMembers(s, c + 1) == Ok(ParseMembers(s, i).value.next, ParseMembers(s, i).end) && c < |s|
            else At(s, c) == '}' && ParseMembers(s, i).value.next.NoMembers? && ParseMembers(s, i).end == c + 1
  {
    hide ParseValue, SkipSpace, ParseName;
    name, n := ParseName(s, i).value, ParseName(s, i).end;
    a := SkipSpace(s, n);
    v, b := ParseValue(s, a).value, ParseValue(s, a).end;
    c := SkipSpace(s, b);
  }

  lemma NameWritten(s: string, i: nat)
    requires i <= |s| && ParseName(s, i).Ok?
    ensures NameAt(s, i, ParseName(s, i).value, ParseName(s, i).end)
  {
    var a := SkipSpace(s, i);
    var name, b := ParseString(s, a).value, ParseString(s, a).end;
    hide StringAt, ClosedAt, Gap, SkipSpace, ParseString;
    SkippedGap(s, i);
    StringExactly(s, a, name, b);
    SkippedClosed(s, b, ':');
  }

  lemma {:induction false} MembersWritten(s: string, i: nat)
    requires i <= |s| && ParseMembers(s, i).Ok?
    ensures ParseMembers(s, i).value.Member? && MembersAt(s, i, ParseMembers(s, i).value, ParseMembers(s, i).end)
    decreases |s| - i, 2
  {
    hide ValueAt, ClosedAt, Gap, SkipSpace, ParseValue, ParseMembers, NameAt, ParseName;
    var name, n, a, v, b, c := MembersParts(s, i);
    var members, e := ParseMembers(s, i).value, ParseMembers(s, i).end;
    NameWritten(s, i);
    SkippedGap(s, n);
    ValueWritten(s, a);
    SkippedClosed(s, b, At(s, c));
    if At(s, c) == ',' {
      MembersWritten(s, c + 1);
      assert MembersAfter(s, members, e, b, c + 1);
    } else {
      assert MembersAfter(s, members, e, b, e);
    }
    MembersFound(s, i, members, e, n, a, b, if At(s, c) == ',' then c + 1 else e);
  }

  ghost predicate MembersAfter(s: string, members: Members, e: nat, b: nat, c: nat)
    requires members.Member?
  {
    if members.next.NoMembers? then ClosedAt(s, b, '}', e) && c == e
    else ClosedAt(s, b, ',', c) && MembersAt(s, c, members.next, e)
  }

  lemma MembersFound(s: string, i: nat, members: Members, e: nat, n: nat, a: nat, b: nat, c: nat)
    requires members.Member? && NameAt(s, i, members.name, n) && Gap(s, n, a) && ValueAt(s, a, members.value, b)
    requires MembersAfter(s, members, e, b, c)
    ensures MembersAt(s, i, members, e)
  {
    hide ValueAt, ClosedAt, Gap, NameAt;
  }

  // ----- whole texts -----

  /** The parser reads a value exactly where one is written, and exactly that value. */
  lemma ValueExactly(s: string, i: nat, v: Json, e: nat)
    requires i <= |s|
    ensures ParseValue(s, i) == Ok(v, e) <==> ValueAt(s, i, v, e)
  {
    hide *;
    if ValueAt(s, i, v, e) { ValueRead(s, i, v, e); }
    if ParseValue(s, i) == Ok(v, e) { ValueWritten(s, i); }
  }

  /** A text is read exactly where it is white space and a value, and, where the end is required, nothing but white space
      after that. */
  lemma TextExactly(s: string, strict: bool, v: Json, e: nat)
    ensures
      ParseText(s, strict) == Ok(v, e) <==>
        exists a: nat, b: nat :: Gap(s, 0, a) && ValueAt(s, a, v, b) && if strict then ClosedAt(s, b, NUL, e + 1) else e == b
  {
    hide ValueAt, ClosedAt, Gap, SkipSpace, ParseValue;
    if a: nat, b: nat :| Gap(s, 0, a) && ValueAt(s, a, v, b) && if strict then ClosedAt(s, b, NUL, e + 1) else e == b {
      FirstChar(s, a, v, b);
      GapSkipped(s, 0, a);
      ValueExactly(s, a, v, b);
      if strict { ClosedSkipped(s, b, NUL, e + 1); }
    }
    if ParseText(s, strict) == Ok(v, e) {
      var a := SkipSpace(s, 0);
      SkippedGap(s, 0);
      var b := ParseValue(s, a).end;
      ValueExactly(s, a, v, b);
      SkippedClosed(s, b, At(s, SkipSpace(s, b)));
    }
  }

  // ----- past the terminator -----

  predicate EndsInBackslash(s: string) {
    s != [] && s[|s| - 1] == '\\'
  }

  lemma {:induction false} WildLiteral(s: string, i: nat)
    requires i <= |s|
    ensures LiteralEnd(s, i) > |s| ==> EndsInBackslash(s)
    decreases |s| - i
  {
    if i < |s| && s[i] == '\\' && i + 1 < |s| {
      WildLiteral(s, i + 2);
    } else if i < |s| && s[i] != '\"' && s[i] != NUL && s[i] != '\\' {
      WildLiteral(s, i + 1);
    }
  }

  lemma WildString(s: string, i: nat)
    ensures ParseString(s, i).Wild? ==> At(s, i) == '\"' && LiteralEnd(s, i + 1) > |s| && EndsInBackslash(s)
    ensures At(s, i) == '\"' && LiteralEnd(s, i + 1) > |s| ==> ParseString(s, i).Wild?
  {
    if i < |s| { WildLiteral(s, i + 1); }
    hide LiteralEnd, Unescape;
  }

  /** The parser runs past the terminator exactly where it comes to a literal that does, and reports a failure everywhere
      else: each level hands on what the level below met. */
  lemma WildSpreads(s: string, i: nat)
    requires i < |s|
    ensures Plainly(s, i) && At(s, i) == '\"' ==> (ParseValue(s, i).Wild? <==> ParseString(s, i).Wild?)
    ensures Plainly(s, i) && At(s, i) == '[' ==>
      (ParseValue(s, i).Wild? <==> At(s, SkipSpace(s, i + 1)) != ']' && ParseItems(s, i + 1).Wild?)
    ensures Plainly(s, i) && At(s, i) == '{' ==>
      (ParseValue(s, i).Wild? <==> At(s, SkipSpace(s, i + 1)) != '}' && ParseMembers(s, i + 1).Wild?)
    ensures At(s, i) != '\"' && At(s, i) != '[' && At(s, i) != '{' ==> !ParseValue(s, i).Wild?
  {
    SkipSkipped(s, i + 1);
    ItemsSkip(s, i + 1, SkipSpace(s, i + 1));
    MembersSkip(s, i + 1, SkipSpace(s, i + 1));
    hide Occurs, ParseString, ParseNumber, ParseItems, ParseMembers, SkipSpace;
  }

  lemma WildItems(s: string, i: nat)
    requires i <= |s|
    ensures
      var v := ParseValue(s, SkipSpace(s, i));
      ParseItems(s, i).Wild? <==>
        || v.Wild?
        || (v.Ok? && At(s, SkipSpace(s, v.end)) == ',' && ParseItems(s, SkipSpace(s, v.end) + 1).Wild?)
  {
    hide ParseValue, SkipSpace;
  }

  lemma WildMembers(s: string, i: nat)
    requires i <= |s|
    ensures
      var n := ParseName(s, i);
      ParseMembers(s, i).Wild? <==>
        || n.Wild?
        || (n.Ok? && var v := ParseValue(s, SkipSpace(s, n.end));
                     || v.Wild?
                     || (v.Ok? && At(s, SkipSpace(s, v.end)) == ',' && ParseMembers(s, SkipSpace(s, v.end) + 1).Wild?))
    ensures ParseName(s, i).Wild? <==> ParseString(s, SkipSpace(s, i)).Wild?
  {
    hide ParseValue, ParseName, SkipSpace;
    WildName(s, i);
  }

  lemma WildName(s: string, i: nat)
    requires i <= |s|
    ensures ParseName(s, i).Wild? <==> ParseString(s, SkipSpace(s, i)).Wild?
  {
    hide ParseString, SkipSpace;
  }

  /** Only a text that ends in a backslash makes it do so. */
  lemma {:induction false} WildEnds(s: string, i: nat)
    requires i <= |s| && ParseValue(s, i).Wild?
    ensures EndsInBackslash(s)
    decreases |s| - i, 0
  {
    hide EndsInBackslash, SkipSpace, ParseValue, ParseItems, ParseMembers, ParseString, Plainly;
    WildStarts(s, i);
    WildSpreads(s, i);
    if At(s, i) == '\"' { WildString(s, i); }
    else if At(s, i) == '[' { WildItemsEnd(s, i + 1); }
    else { WildMembersEnd(s, i + 1); }
  }

  lemma WildStarts(s: string, i: nat)
    requires i <= |s| && ParseValue(s, i).Wild?
    ensures i < |s| && Plainly(s, i) && (At(s, i) == '\"' || At(s, i) == '[' || At(s, i) == '{')
  {
    hide Occurs, ParseString, ParseNumber, ParseItems, ParseMembers, SkipSpace;
  }

  lemma {:induction false} WildItemsEnd(s: string, i: nat)
    requires i <= |s| && ParseItems(s, i).Wild?
    ensures EndsInBackslash(s)
    decreases |s| - i, 1
  {
    hide EndsInBackslash, SkipSpace, ParseValue, ParseItems;
    WildItems(s, i);
    var v := ParseValue(s, SkipSpace(s, i));
    if v.Wild? { WildEnds(s, SkipSpace(s, i)); } else { WildItemsEnd(s, SkipSpace(s, v.end) + 1); }
  }

  lemma {:induction false} WildMembersEnd(s: string, i: nat)
    requires i <= |s| && ParseMembers(s, i).Wild?
    ensures EndsInBackslash(s)
    decreases |s| - i, 1
  {
    hide EndsInBackslash, SkipSpace, ParseValue, ParseMembers, ParseName, ParseString;
    WildMembers(s, i);
    var n := ParseName(s, i);
    if n.Wild? {
      WildString(s, SkipSpace(s, i));
    } else {
      var v := ParseValue(s, SkipSpace(s, n.end));
      if v.Wild? { WildEnds(s, SkipSpace(s, n.end)); } else { WildMembersEnd(s, SkipSpace(s, v.end) + 1); }
    }
  }

  lemma WildText(s: string, strict: bool)
    ensures ParseText(s, strict).Wild? <==> ParseValue(s, SkipSpace(s, 0)).Wild?
    ensures ParseText(s, strict).Wild? ==> EndsInBackslash(s)
  {
    hide ParseValue, SkipSpace, EndsInBackslash;
    if ParseValue(s, SkipSpace(s, 0)).Wild? { WildEnds(s, SkipSpace(s, 0)); }
  }
}
