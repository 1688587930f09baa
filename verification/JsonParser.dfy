/** The parser as the source runs it: loops over a text with a moving position, a string decoder that fills a buffer
    measured by a first pass, and items that are filled in place and linked one behind the other.  Each method is proved
    against the parsing function of the same part. */
module JsonParser {
  import opened JsonTree
  import opened JsonNumber
  import opened JsonString
  import opened JsonLiteral
  import opened JsonText
  import opened JsonItems

  // ----- strings -----

  /** The first pass of `parse_string`. */
  method MeasureLiteral(s: string, start: nat) returns (end: nat, len: nat)
    ensures end == LiteralEnd(s, start) && len == LiteralUnits(s, start)
  {
    end, len := start, 0;
    while At(s, end) != '\"' && At(s, end) != NUL
      invariant LiteralEnd(s, start) == LiteralEnd(s, end)
      invariant LiteralUnits(s, start) == len + LiteralUnits(s, end)
      decreases |s| - end
    {
      len := len + 1;
      if At(s, end) == '\\' { end := end + 1; }
      end := end + 1;
    }
  }

  /** A continuation byte, and the part of the code point above it. */
  lemma Utf8Split(u: nat)
    requires 0x80 <= u < 0x11_0000
    ensures Utf8(u)[|Utf8(u)| - 1] == (0x80 + u % 0x40) as char
    ensures |Utf8(u)| > 2 ==> Utf8(u)[|Utf8(u)| - 2] == (0x80 + u / 0x40 % 0x40) as char
    ensures |Utf8(u)| > 3 ==> Utf8(u)[1] == (0x80 + u / 0x40 / 0x40 % 0x40) as char
    ensures
      Utf8(u)[0] as int == if |Utf8(u)| == 2 then 0xC0 + u / 0x40 else if |Utf8(u)| == 3 then 0xE0 + u / 0x40 / 0x40
                           else 0xF0 + u / 0x40 / 0x40 / 0x40
  {
  }

  lemma Utf8One(u: nat)
    requires u < 0x80
    ensures Utf8(u) == [u as char]
  {
  }

  /** The UTF-8 bytes of a code point, written from the last to the first. */
  method WriteUtf8(out: array<char>, o: nat, code: nat) returns (o': nat)
    requires code < 0x11_0000 && o + |Utf8(code)| <= out.Length
    modifies out
    ensures o' == o + |Utf8(code)|
    ensures out[..o'] == old(out[..o]) + Utf8(code)
  {
    hide Utf8;
    var len := if code < 0x80 then 1 else if code < 0x800 then 2 else if code < 0x1_0000 then 3 else 4;
    var uc := code;
    o' := o + len;
    var mark := if len == 1 then 0 else if len == 2 then 0xC0 else if len == 3 then 0xE0 else 0xF0;
    ghost var before, t := out[..o], Utf8(code);
    if code < 0x80 { Utf8One(code); } else { Utf8Split(code); }
    if len == 4 { out[o + 3] := (0x80 + uc % 0x40) as char; uc := uc / 0x40; }
    if len >= 3 { out[o + 2] := (0x80 + uc % 0x40) as char; uc := uc / 0x40; }
    if len >= 2 { out[o + 1] := (0x80 + uc % 0x40) as char; uc := uc / 0x40; }
    out[o] := (mark + uc) as char;
    assert out[..o'] == before + t;
  }

  /** A `\u` escape, with `p` at its `u`. */
  method DecodeUnicode(s: string, p: nat, end: nat, out: array<char>, o: nat) returns (ok: bool, p': nat, o': nat)
    requires UnicodeUnit(s, p, end).Unit? ==> o + |UnicodeUnit(s, p, end).text| <= out.Length
    requires o <= out.Length
    modifies out
    ensures ok <==> UnicodeUnit(s, p, end).Unit?
    ensures ok ==> UnicodeUnit(s, p, end).next == p' && o' == o + |UnicodeUnit(s, p, end).text| <= out.Length
    ensures ok ==> out[..o'] == old(out[..o]) + UnicodeUnit(s, p, end).text
  {
    hide Utf8;
    var uc: nat := Hex4(s, p + 1);
    p', o', ok := p + 4, o, false;
    if p' >= end { return; }
    if LowSurrogate(uc) || uc == 0 { return; }
    if HighSurrogate(uc) {
      if p' + 6 > end { return; }
      if At(s, p' + 1) != '\\' || At(s, p' + 2) != 'u' { return; }
      var uc2 := Hex4(s, p' + 3);
      p' := p' + 6;
      if uc2 < 0xDC00 || uc2 > 0xDFFF { return; }
      uc := Combine(uc, uc2);
    }
    o' := WriteUtf8(out, o, uc);
    p', ok := p' + 1, true;
  }

  /** One turn of the second pass. */
  method DecodeUnit(s: string, p: nat, end: nat, out: array<char>, o: nat) returns (ok: bool, p': nat, o': nat)
    requires UnitAt(s, p, end).Unit? ==> o + |UnitAt(s, p, end).text| <= out.Length
    requires o < out.Length
    modifies out
    ensures ok <==> UnitAt(s, p, end).Unit?
    ensures ok ==> UnitAt(s, p, end).next == p' && o' == o + |UnitAt(s, p, end).text| <= out.Length
    ensures ok ==> out[..o'] == old(out[..o]) + UnitAt(s, p, end).text
  {
    ghost var before := out[..o];
    ok, o' := true, o + 1;
    if At(s, p) != '\\' {
      out[o] := At(s, p);
      p' := p + 1;
    } else {
      var c := At(s, p + 1);
      p' := p + 2;
      match c
      case 'b' => out[o] := 0x8 as char;
      case 'f' => out[o] := 0xC as char;
      case 'n' => out[o] := '\n';
      case 'r' => out[o] := '\r';
      case 't' => out[o] := '\t';
      case 'u' => ok, p', o' := DecodeUnicode(s, p + 1, end, out, o); return;
      case _ => out[o] := c;
    }
    assert out[..o'] == before + [out[o]];
  }

  /** What the second pass still has to do for the whole literal to decode to what the specification says. */
  ghost predicate Decoding(s: string, i: nat, p: nat, end: nat, done: string) {
    match Unescape(s, p, end)
    case BadText => Unescape(s, i, end) == BadText
    case Text(rest) => Unescape(s, i, end) == Text(done + rest)
  }

  lemma DecodingStep(s: string, i: nat, p: nat, end: nat, done: string)
    requires Decoding(s, i, p, end, done) && p < end
    ensures
      match UnitAt(s, p, end)
      case Bad => Unescape(s, i, end) == BadText
      case Unit(t, next) => Decoding(s, i, next, end, done + t)
  {
    hide UnitAt;
    var u := UnitAt(s, p, end);
    if u.Unit? && Unescape(s, u.next, end).Text? {
      var rest := Unescape(s, u.next, end).text;
      assert done + (u.text + rest) == done + u.text + rest;
    }
  }

  /** `parse_string`.  The buffer has the size that the first pass measured, every write stays inside it, and a
      successful decode stops exactly at the closing quote with the string and a NUL in the buffer. */
  method ReadString(s: string, i: nat) returns (r: Parsed<string>, out: array<char>)
    ensures r == ParseString(s, i) && fresh(out)
    ensures r.Ok? ==> out.Length == LiteralUnits(s, i + 1) + 1
    ensures r.Ok? ==> |r.value| < out.Length && out[..|r.value|] == r.value && out[|r.value|] == NUL
  {
    if At(s, i) != '\"' {
      out := new char[0];
      return Fail, out;
    }
    var end, len := MeasureLiteral(s, i + 1);
    out := new char[len + 1];
    if end > |s| { return Wild, out; }
    r := DecodeLiteral(s, i, end, len, out);
  }

  /** The second pass of `parse_string`. */
  method DecodeLiteral(s: string, i: nat, end: nat, len: nat, out: array<char>) returns (r: Parsed<string>)
    requires At(s, i) == '\"' && LiteralEnd(s, i + 1) == end <= |s|
    requires LiteralUnits(s, i + 1) == len && out.Length == len + 1
    modifies out
    ensures r == ParseString(s, i)
    ensures r.Ok? ==> |r.value| <= len && out[..|r.value|] == r.value && out[|r.value|] == NUL
  {
    var p: nat, o: nat := i + 1, 0;
    assert out[..0] == "";
    while p < end
      invariant p <= end == LiteralEnd(s, p) && o <= len && o + LiteralUnits(s, p) <= len
      invariant Decoding(s, i + 1, p, end, out[..o])
    {
      UnitWithinScan(s, p, end);
      DecodingStep(s, i + 1, p, end, out[..o]);
      var ok;
      ok, p, o := DecodeUnit(s, p, end, out, o);
      if !ok { return Fail; }
    }
    ghost var done := out[..o];
    assert Unescape(s, p, end) == Text("") && done + "" == done;
    out[o] := NUL;
    var t := out[..o];
    assert t == done;
    if At(s, p) == '\"' { p := p + 1; }
    r := Ok(t, p);
  }

  // ----- numbers and white space -----

  /** The digit loops of `parse_number`. */
  method ReadDigits(s: string, i: nat, acc: nat) returns (j: nat, n: nat)
    ensures j == DigitsEnd(s, i) && (forall k | i <= k < j :: IsDigit(At(s, k))) && n == DigitsValue(s, i, j, acc)
  {
    j, n := i, acc;
    DigitsAreDigits(s, i);
    while IsDigit(At(s, j))
      invariant i <= j && DigitsEnd(s, i) == DigitsEnd(s, j)
      invariant DigitsValue(s, i, DigitsEnd(s, i), acc) == DigitsValue(s, j, DigitsEnd(s, i), n)
      decreases |s| - j
    {
      n := n * 10 + DigitValue(At(s, j));
      j := j + 1;
    }
  }

  /** The first half of `parse_number`. */
  method ReadDecimal(s: string, i: nat) returns (mantissa: int, scale: int, num: nat)
    ensures (mantissa, scale, num) == ParseDecimal(s, i)
  {
    hide DigitsEnd;
    var negative, n: nat := false, 0;
    num, scale := i, 0;
    if At(s, num) == '-' { negative, num := true, num + 1; }
    if At(s, num) == '0' { num := num + 1; }
    if '1' <= At(s, num) <= '9' {
      num, n := ReadDigits(s, num, n);
    }
    if At(s, num) == '.' && IsDigit(At(s, num + 1)) {
      var d;
      d, n := ReadDigits(s, num + 1, n);
      scale, num := num + 1 - d, d;
    }
    mantissa := Signed(negative, n);
  }

  /** `parse_number`. */
  method ReadNumber(s: string, i: nat) returns (v: Json, end: nat)
    ensures (v, end) == ParseNumber(s, i)
  {
    hide DigitsValue, DigitsEnd, ParseDecimal;
    var mantissa, scale, num := ReadDecimal(s, i);
    var subscale, n: nat := 0, 0;
    if At(s, num) == 'e' || At(s, num) == 'E' {
      var negative := false;
      num := num + 1;
      if At(s, num) == '+' { num := num + 1; } else if At(s, num) == '-' { negative, num := true, num + 1; }
      num, n := ReadDigits(s, num, n);
      subscale := Signed(negative, n);
    }
    v, end := Num(mantissa, scale + subscale), num;
  }

  /** `skip`. */
  method Skip(s: string, i: nat) returns (j: nat)
    ensures j == SkipSpace(s, i)
  {
    j := i;
    while At(s, j) != NUL && At(s, j) <= ' '
      invariant SkipSpace(s, i) == SkipSpace(s, j)
      decreases |s| - j
    {
      j := j + 1;
    }
  }

  // ----- what is read of a list -----

  /** What is left to parse completes the children read so far to what the specification says. */
  ghost predicate Reading(front: seq<Json>, left: Parsed<Items>, whole: Parsed<Items>) {
    match left
    case Ok(rest, end) => whole == Ok(Chain(front, rest), end)
    case _ => whole == left
  }

  /** The same with `j` behind a child. */
  ghost predicate ReadTo(s: string, front: seq<Json>, j: nat, whole: Parsed<Items>)
    requires j <= |s|
  {
    if At(s, j) == ',' then Reading(front, ParseItems(s, j + 1), whole)
    else if At(s, j) == ']' then whole == Ok(Chain(front, NoItems), j + 1)
    else whole == Fail
  }

  lemma ReadEnd(s: string, front: seq<Json>, j: nat, whole: Parsed<Items>)
    requires j <= |s| && ReadTo(s, front, j, whole) && At(s, j) != ','
    ensures whole == if At(s, j) == ']' then Ok(Chain(front, NoItems), j + 1) else Fail
  {
  }

  lemma ReadingStep(s: string, front: seq<Json>, at: nat, whole: Parsed<Items>)
    requires at <= |s| && Reading(front, ParseItems(s, at), whole)
    ensures
      match ParseValue(s, SkipSpace(s, at))
      case Ok(v, end) => ReadTo(s, front + [v], SkipSpace(s, end), whole)
      case Fail => whole == Fail
      case Wild => whole == Wild
  {
    hide ParseValue, SkipSpace, Chain;
    var r := ParseValue(s, SkipSpace(s, at));
    if r.Ok? { ReadingOne(s, front, r.value, SkipSpace(s, r.end), ParseItems(s, at), whole); }
  }

  lemma ReadingOne(s: string, front: seq<Json>, v: Json, j: nat, left: Parsed<Items>, whole: Parsed<Items>)
    requires j <= |s| && Reading(front, left, whole)
    requires
      if At(s, j) == ',' then
        match ParseItems(s, j + 1) case Ok(rest, end) => left == Ok(Item(v, rest), end) case r => left == r
      else left == if At(s, j) == ']' then Ok(Item(v, NoItems), j + 1) else Fail
    ensures ReadTo(s, front + [v], j, whole)
  {
    hide ParseItems, Chain;
    if left.Ok? { ChainAppend(front, v, left.value.next); }
  }

  ghost predicate ReadingMembers(front: seq<(string, Json)>, left: Parsed<Members>, whole: Parsed<Members>) {
    match left
    case Ok(rest, end) => whole == Ok(ChainMembers(front, rest), end)
    case _ => whole == left
  }

  ghost predicate MembersReadTo(s: string, front: seq<(string, Json)>, j: nat, whole: Parsed<Members>)
    requires j <= |s|
  {
    if At(s, j) == ',' then ReadingMembers(front, ParseMembers(s, j + 1), whole)
    else if At(s, j) == '}' then whole == Ok(ChainMembers(front, NoMembers), j + 1)
    else whole == Fail
  }

  /** A name, a colon and a value. */
  function ParseMember(s: string, at: nat): (r: Parsed<(string, Json)>)
    requires at <= |s|
    ensures r.Ok? ==> at < r.end <= |s|
  {
    match ParseName(s, at)
    case Fail => Fail
    case Wild => Wild
    case Ok(name, from) =>
      match ParseValue(s, SkipSpace(s, from))
      case Fail => Fail
      case Wild => Wild
      case Ok(v, end) => Ok((name, v), end)
  }

  lemma MembersReadEnd(s: string, front: seq<(string, Json)>, j: nat, whole: Parsed<Members>)
    requires j <= |s| && MembersReadTo(s, front, j, whole) && At(s, j) != ','
    ensures whole == if At(s, j) == '}' then Ok(ChainMembers(front, NoMembers), j + 1) else Fail
  {
  }

  lemma ReadingMembersStep(s: string, front: seq<(string, Json)>, at: nat, whole: Parsed<Members>)
    requires at <= |s| && ReadingMembers(front, ParseMembers(s, at), whole)
    ensures
      match ParseMember(s, at)
      case Ok(m, end) => MembersReadTo(s, front + [m], SkipSpace(s, end), whole)
      case Fail => whole == Fail
      case Wild => whole == Wild
  {
    hide ParseValue, SkipSpace, ParseName;
    var r := ParseMember(s, at);
    if r.Ok? {
      var j := SkipSpace(s, r.end);
      ChainMembersAppend(front, r.value, NoMembers);
      if At(s, j) == ',' && ParseMembers(s, j + 1).Ok? {
        ChainMembersAppend(front, r.value, ParseMembers(s, j + 1).value);
      }
    }
  }

  // ----- parsing into items -----

  /** Where a parsing function got to: a position, a reported failure, or past the terminator. */
  datatype Reached = Reached(end: nat) | Refused | Overrun

  /** The result and the item agree with what the specification says. */
  ghost predicate Filled(r: Reached, item: Item, f: Foot, p: Parsed<Json>)
    reads Nodes(f)
  {
    match p
    case Ok(v, end) => r == Reached(end) && f.node == item && Stands(f, v)
    case Fail => r == Refused
    case Wild => r == Overrun
  }

  /** `parse_value`, filling an item that was just made. */
  method FillValue(item: Item, s: string, i: nat) returns (r: Reached, ghost f: Foot)
    requires i <= |s| && item.child == null
    modifies item`kind, item`mantissa, item`exponent, item`valuestring, item`child
    ensures Filled(r, item, f, ParseValue(s, i)) && (r.Reached? ==> forall x | x in Nodes(f) :: x == item || fresh(x))
    decreases |s| - i, 1
  {
    f := Foot(item, NoFeet);
    if Occurs(s, i, "null") { item.kind := KindNull; return Reached(i + 4), f; }
    if Occurs(s, i, "false") { item.kind := KindFalse; return Reached(i + 5), f; }
    if Occurs(s, i, "true") { item.kind := KindTrue; return Reached(i + 4), f; }
    var c := At(s, i);
    if c == '\"' {
      r := FillString(item, s, i);
    } else if c == '-' || IsDigit(c) {
      r := FillNumber(item, s, i);
    } else if c == '[' {
      r, f := FillArray(item, s, i);
    } else if c == '{' {
      r, f := FillObject(item, s, i);
    } else {
      r := Refused;
    }
  }

  /** `parse_number` into an item. */
  method FillNumber(item: Item, s: string, i: nat) returns (r: Reached)
    modifies item`kind, item`mantissa, item`exponent
    ensures var (v, end) := ParseNumber(s, i); r == Reached(end) && Stands(Foot(item, NoFeet), v)
  {
    var v, end := ReadNumber(s, i);
    item.kind, item.mantissa, item.exponent := KindNumber, v.mantissa, v.exponent;
    r := Reached(end);
  }

  /** `parse_string` into an item. */
  method FillString(item: Item, s: string, i: nat) returns (r: Reached)
    modifies item`kind, item`valuestring
    ensures match ParseString(s, i)
            case Ok(t, end) => r == Reached(end) && item.kind == KindString && item.valuestring == t
            case Fail => r == Refused
            case Wild => r == Overrun
  {
    var t, out := ReadString(s, i);
    if t.Fail? { return Refused; }
    if t.Wild? { return Overrun; }
    item.kind, item.valuestring := KindString, t.value;
    r := Reached(t.end);
  }

  /** One more child: its value and the position of what follows it. */
  method FillChild(child: Item, s: string, at: nat, ghost front: seq<Json>, ghost whole: Parsed<Items>)
      returns (r: Reached, ghost f: Foot, ghost v: Json)
    requires at <= |s| && Reading(front, ParseItems(s, at), whole) && child.child == null
    modifies child`kind, child`mantissa, child`exponent, child`valuestring, child`child
    ensures r.Reached? ==> at < r.end <= |s| && ReadTo(s, front + [v], r.end, whole)
    ensures r.Reached? ==> f.node == child && Stands(f, v) && (forall x | x in Nodes(f) :: x == child || fresh(x))
    ensures r.Refused? ==> whole == Fail
    ensures r.Overrun? ==> whole == Wild
    decreases |s| - at, 2
  {
    hide ReadTo, Reading, ParseValue, ParseItems;
    v := Null;
    ReadingStep(s, front, at, whole);
    var value := Skip(s, at);
    r, f := FillValue(child, s, value);
    match r
    case Refused =>
    case Overrun =>
    case Reached(end) =>
      v := ParseValue(s, value).value;
      NodesExist(f);
      var j := Skip(s, end);
      r := Reached(j);
  }

  /** Linking a sibling behind an item changes nothing below it. */
  method LinkNext(item: Item, sibling: Item, ghost f: Foot, ghost v: Json)
    requires f.node == item && Stands(f, v)
    modifies item`next
    ensures item.next == sibling && Stands(f, v)
  {
    item.next := sibling;
  }

  /** A fresh sibling linked behind the last child. */
  method LinkSibling(item: Item, child: Item, ghost fs: Feet, ghost front: seq<Json>, ghost last: Foot, ghost v: Json)
      returns (sibling: Item)
    requires child == last.node && Building(item, fs, front, last, v)
    modifies child`next
    ensures fresh(sibling) && Linked(item, With(fs, last), front + [v], sibling)
  {
    NodesExist(last);
    FeetExist(fs);
    sibling := new Item();
    LinkNext(child, sibling, last, v);
    sibling.prev := child;
    SegmentMore(item.child, fs, front, last, v);
  }

  /** The value of a child that is linked already. */
  method FillLinked(item: Item, child: Item, s: string, at: nat, ghost fs: Feet, ghost front: seq<Json>, ghost whole: Parsed<Items>)
      returns (r: Reached, ghost f: Foot, ghost v: Json)
    requires at <= |s| && Reading(front, ParseItems(s, at), whole) && Linked(item, fs, front, child)
    modifies child`kind, child`mantissa, child`exponent, child`valuestring, child`child
    ensures r.Reached? ==> f.node == child && Building(item, fs, front, f, v) && forall x | x in Nodes(f) :: x == child || fresh(x)
    ensures r.Reached? ==> at < r.end <= |s| && ReadTo(s, front + [v], r.end, whole)
    ensures r.Refused? ==> whole == Fail
    ensures r.Overrun? ==> whole == Wild
    decreases |s| - at, 3
  {
    hide ReadTo, Reading, ParseItems, Stands, Segment;
    FeetExist(fs);
    r, f, v := FillChild(child, s, at, front, whole);
  }

  lemma ReadComma(s: string, front: seq<Json>, j: nat, whole: Parsed<Items>)
    requires j < |s| && At(s, j) == ',' && ReadTo(s, front, j, whole)
    ensures Reading(front, ParseItems(s, j + 1), whole)
  {
  }

  /** The children: the first, and then one behind every comma. */
  method FillItems(item: Item, s: string, start: nat, ghost whole: Parsed<Items>) returns (r: Reached, ghost f: Foot)
    requires start <= |s| && item.kind == KindArray && whole == ParseItems(s, start)
    modifies item`child
    ensures match whole
            case Ok(items, end) => r == Reached(end) && f.node == item && Stands(f, Arr(items))
            case Fail => r == Refused
            case Wild => r == Overrun
    ensures r.Reached? ==> forall x | x in Nodes(f) :: x == item || fresh(x)
    decreases |s| - start, 4
  {
    hide Reading, ParseItems, Stands, Segment, ReadTo;
    f := Foot(item, NoFeet);
    var child := new Item();
    item.child := child;
    ghost var last, v, fs, front := f, Null, NoFeet, [];
    assert Linked(item, fs, front, child) && Reading(front, ParseItems(s, start), whole) by { Starting(child, whole); }
    r, last, v := FillLinked(item, child, s, start, fs, front, whole);
    if !r.Reached? { return; }
    var j := r.end;
    while At(s, j) == ','
      invariant start < j <= |s| && child == last.node && forall x | x in Nodes(last) || x in NodesOf(fs) :: fresh(x)
      invariant item.kind == KindArray && Building(item, fs, front, last, v) && ReadTo(s, front + [v], j, whole)
      decreases |s| - j
    {
      child := LinkSibling(item, child, fs, front, last, v);
      fs, front := With(fs, last), front + [v];
      ReadComma(s, front, j, whole);
      r, last, v := FillLinked(item, child, s, j + 1, fs, front, whole);
      if !r.Reached? { return; }
      j := r.end;
    }
    ReadEnd(s, front + [v], j, whole);
    if At(s, j) != ']' { return Refused, f; }
    f := Finished(item, fs, front, last, v);
    r := Reached(j + 1);
  }

  lemma Starting(child: Item, whole: Parsed<Items>)
    ensures Segment(child, NoFeet, [], child) && Reading([], whole, whole)
  {
  }

  lemma Finished(item: Item, fs: Feet, front: seq<Json>, last: Foot, v: Json) returns (f: Foot)
    requires item.kind == KindArray && Building(item, fs, front, last, v)
    ensures f == Foot(item, With(fs, last)) && Stands(f, Arr(Chain(front + [v], NoItems)))
  {
    SegmentMore(item.child, fs, front, last, v);
    SegmentListed(item.child, With(fs, last), front + [v]);
    f := Foot(item, With(fs, last));
  }

  /** `parse_array` at an opening bracket. */
  method FillArray(item: Item, s: string, i: nat) returns (r: Reached, ghost f: Foot)
    requires i < |s| && At(s, i) == '[' && item.child == null
    modifies item`kind, item`child
    ensures Filled(r, item, f, ParseArray(s, i)) && (r.Reached? ==> forall x | x in Nodes(f) :: x == item || fresh(x))
    decreases |s| - i, 0
  {
    f := Foot(item, NoFeet);
    item.kind := KindArray;
    var start := Skip(s, i + 1);
    if At(s, start) == ']' { return Reached(start + 1), f; }
    ghost var whole := ParseItems(s, start);
    r, f := FillItems(item, s, start, whole);
  }

  // ----- objects -----

  /** A name, a colon and a value into a child. */
  method FillMember(child: Item, s: string, at: nat) returns (r: Reached, ghost f: Foot, ghost m: (string, Json))
    requires at <= |s| && child.child == null
    modifies child`kind, child`mantissa, child`exponent, child`valuestring, child`name, child`child
    ensures match ParseMember(s, at)
            case Ok(n, end) => r == Reached(end) && m == n && f.node == child && Stands(f, m.1) && child.name == m.0
            case Fail => r == Refused
            case Wild => r == Overrun
    ensures r.Reached? ==> forall x | x in Nodes(f) :: x == child || fresh(x)
    decreases |s| - at, 2
  {
    hide ParseString, ParseValue;
    f, m := Foot(child, NoFeet), ("", Null);
    var start := Skip(s, at);
    r := FillString(child, s, start);
    if !r.Reached? { return; }
    child.name, child.valuestring := child.valuestring, "";
    var colon := Skip(s, r.end);
    if At(s, colon) != ':' { r := Refused; return; }
    var value := Skip(s, colon + 1);
    r, f := FillValue(child, s, value);
    if r.Reached? { m := (child.name, ParseValue(s, value).value); }
  }

  /** The name and value of a child that is linked already, and the position of what follows. */
  method FillNamed(item: Item, child: Item, s: string, at: nat, ghost fs: Feet, ghost front: seq<(string, Json)>,
                   ghost whole: Parsed<Members>)
      returns (r: Reached, ghost f: Foot, ghost m: (string, Json))
    requires at <= |s| && ReadingMembers(front, ParseMembers(s, at), whole) && NamedLinked(item, fs, front, child)
    modifies child`kind, child`mantissa, child`exponent, child`valuestring, child`name, child`child
    ensures r.Reached? ==> f.node == child && NamedBuilding(item, fs, front, f, m) && forall x | x in Nodes(f) :: x == child || fresh(x)
    ensures r.Reached? ==> at < r.end <= |s| && MembersReadTo(s, front + [m], r.end, whole)
    ensures r.Refused? ==> whole == Fail
    ensures r.Overrun? ==> whole == Wild
    decreases |s| - at, 3
  {
    hide MembersReadTo, ReadingMembers, ParseMembers, ParseMember, Stands, NamedSegment;
    FeetExist(fs);
    ReadingMembersStep(s, front, at, whole);
    r, f, m := FillMember(child, s, at);
    if r.Reached? {
      NodesExist(f);
      var j := Skip(s, r.end);
      r := Reached(j);
    }
  }

  /** A fresh sibling linked behind the last member. */
  method LinkMember(item: Item, child: Item, ghost fs: Feet, ghost front: seq<(string, Json)>, ghost last: Foot,
                    ghost m: (string, Json))
      returns (sibling: Item)
    requires child == last.node && NamedBuilding(item, fs, front, last, m)
    modifies child`next
    ensures fresh(sibling) && NamedLinked(item, With(fs, last), front + [m], sibling)
  {
    NodesExist(last);
    FeetExist(fs);
    sibling := new Item();
    LinkNext(child, sibling, last, m.1);
    sibling.prev := child;
    NamedSegmentMore(item.child, fs, front, last, m);
  }

  lemma MembersReadComma(s: string, front: seq<(string, Json)>, j: nat, whole: Parsed<Members>)
    requires j < |s| && At(s, j) == ',' && MembersReadTo(s, front, j, whole)
    ensures ReadingMembers(front, ParseMembers(s, j + 1), whole)
  {
  }

  lemma NamedStarting(child: Item, whole: Parsed<Members>)
    ensures NamedSegment(child, NoFeet, [], child) && ReadingMembers([], whole, whole)
  {
  }

  lemma NamedFinished(item: Item, fs: Feet, front: seq<(string, Json)>, last: Foot, m: (string, Json)) returns (f: Foot)
    requires item.kind == KindObject && NamedBuilding(item, fs, front, last, m)
    ensures f == Foot(item, With(fs, last)) && Stands(f, Obj(ChainMembers(front + [m], NoMembers)))
  {
    NamedSegmentMore(item.child, fs, front, last, m);
    SegmentNamed(item.child, With(fs, last), front + [m]);
    f := Foot(item, With(fs, last));
  }

  /** The members: the first, and then one behind every comma. */
  method FillMembers(item: Item, s: string, start: nat, ghost whole: Parsed<Members>) returns (r: Reached, ghost f: Foot)
    requires start <= |s| && item.kind == KindObject && whole == ParseMembers(s, start)
    modifies item`child
    ensures match whole
            case Ok(members, end) => r == Reached(end) && f.node == item && Stands(f, Obj(members))
            case Fail => r == Refused
            case Wild => r == Overrun
    ensures r.Reached? ==> forall x | x in Nodes(f) :: x == item || fresh(x)
    decreases |s| - start, 4
  {
    hide ReadingMembers, ParseMembers, Stands, NamedSegment, MembersReadTo;
    f := Foot(item, NoFeet);
    var child := new Item();
    item.child := child;
    ghost var last, m, fs, front := f, ("", Null), NoFeet, [];
    assert NamedLinked(item, fs, front, child) && ReadingMembers(front, ParseMembers(s, start), whole) by {
      NamedStarting(child, whole);
    }
    r, last, m := FillNamed(item, child, s, start, fs, front, whole);
    if !r.Reached? { return; }
    var j := r.end;
    while At(s, j) == ','
      invariant start < j <= |s| && child == last.node && forall x | x in Nodes(last) || x in NodesOf(fs) :: fresh(x)
      invariant item.kind == KindObject && NamedBuilding(item, fs, front, last, m) && MembersReadTo(s, front + [m], j, whole)
      decreases |s| - j
    {
      child := LinkMember(item, child, fs, front, last, m);
      fs, front := With(fs, last), front + [m];
      MembersReadComma(s, front, j, whole);
      r, last, m := FillNamed(item, child, s, j + 1, fs, front, whole);
      if !r.Reached? { return; }
      j := r.end;
    }
    MembersReadEnd(s, front + [m], j, whole);
    if At(s, j) != '}' { return Refused, f; }
    f := NamedFinished(item, fs, front, last, m);
    r := Reached(j + 1);
  }

  /** `parse_object` at an opening brace. */
  method FillObject(item: Item, s: string, i: nat) returns (r: Reached, ghost f: Foot)
    requires i < |s| && At(s, i) == '{' && item.child == null
    modifies item`kind, item`child
    ensures Filled(r, item, f, ParseObject(s, i)) && (r.Reached? ==> forall x | x in Nodes(f) :: x == item || fresh(x))
    decreases |s| - i, 0
  {
    f := Foot(item, NoFeet);
    item.kind := KindObject;
    var start := Skip(s, i + 1);
    if At(s, start) == '}' { return Reached(start + 1), f; }
    ghost var whole := ParseMembers(s, start);
    r, f := FillMembers(item, s, start, whole);
  }

  /** `cJSON_ParseWithOpts`: the root item stands for the tree that the specification reads. */
  method ParseItem(s: string, strict: bool) returns (item: Item, r: Reached, ghost f: Foot)
    ensures fresh(item) && Filled(r, item, f, ParseText(s, strict))
    ensures r.Reached? ==> forall x | x in Nodes(f) :: fresh(x)
  {
    hide ParseValue;
    item := new Item();
    var start := Skip(s, 0);
    r, f := FillValue(item, s, start);
    if strict && r.Reached? {
      NodesExist(f);
      var end := Skip(s, r.end);
      if At(s, end) != NUL { r := Refused; return; }
      r := Reached(end);
    }
  }
}
