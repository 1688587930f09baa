/** Parsing printed text yields the printed tree and consumes exactly the printed text. */
module JsonRoundTrip {
  import opened JsonTree
  import opened JsonNumber
  import opened JsonString
  import opened JsonText

  lemma {:induction false} SkipSpaceOver(s: string, i: nat, k: nat)
    requires i + k <= |s| && forall j | i <= j < i + k :: NUL < At(s, j) <= ' '
    ensures SkipSpace(s, i) == SkipSpace(s, i + k)
    decreases k
  {
    if k > 0 {
      assert NUL < At(s, i) <= ' ';
      SkipSpaceOver(s, i + 1, k - 1);
    }
  }

  predicate Blank(t: string) {
    forall j | 0 <= j < |t| :: NUL < t[j] <= ' '
  }

  /** White space followed by something visible: `skip` ends exactly there. */
  lemma SkipBlank(s: string, i: nat, w: string, t: string)
    requires Blank(w) && |t| > 0 && t[0] > ' ' && Occurs(s, i, w + t)
    ensures SkipSpace(s, i) == i + |w| && SkipSpace(s, i + |w|) == i + |w|
    ensures Occurs(s, i + |w|, t) && At(s, i + |w|) == t[0]
  {
    OccursSplit(s, i, w, t);
    forall j | i <= j < i + |w| ensures NUL < At(s, j) <= ' ' { OccursAt(s, i, w, j - i); }
    SkipSpaceOver(s, i, |w|);
    OccursAt(s, i + |w|, t, 0);
  }

  /** What starts a printed value is neither white space nor a closing bracket or brace. */
  lemma PrintStarts(v: Json, depth: nat, fmt: bool)
    ensures var t := Print(v, depth, fmt); |t| > 0 && t[0] > ' ' && t[0] != ']' && t[0] != '}'
  {
  }

  // ----- one step of each parsing function, from what it finds -----

  /** The text behind a value goes on with these items, or closes the array. */
  predicate ItemsFollow(s: string, b: nat, rest: Items, end: nat) {
    var j := SkipSpace(s, b);
    && j < |s|
    && if rest.NoItems? then At(s, j) == ']' && end == j + 1
       else At(s, j) == ',' && ParseItems(s, j + 1) == Ok(rest, end)
  }

  lemma ItemsStep(s: string, i: nat, v: Json, b: nat, rest: Items, end: nat)
    requires i <= |s| && ParseValue(s, SkipSpace(s, i)) == Ok(v, b) && ItemsFollow(s, b, rest, end)
    ensures ParseItems(s, i) == Ok(Item(v, rest), end)
  {
    hide ParseValue, SkipSpace;
  }

  /** The text behind a value goes on with these members, or closes the object. */
  predicate MembersFollow(s: string, b: nat, rest: Members, end: nat) {
    var j := SkipSpace(s, b);
    && j < |s|
    && if rest.NoMembers? then At(s, j) == '}' && end == j + 1
       else At(s, j) == ',' && ParseMembers(s, j + 1) == Ok(rest, end)
  }

  lemma MembersStep(s: string, i: nat, name: string, from: nat, v: Json, b: nat, rest: Members, end: nat)
    requires i <= |s| && ParseName(s, i) == Ok(name, from)
    requires from <= |s| && ParseValue(s, SkipSpace(s, from)) == Ok(v, b) && MembersFollow(s, b, rest, end)
    ensures ParseMembers(s, i) == Ok(Member(name, v, rest), end)
  {
    hide ParseValue, ParseName, SkipSpace;
  }

  /** Where the entries start does not depend on white space before them. */
  lemma ItemsSkip(s: string, i: nat, j: nat)
    requires i <= |s| && j <= |s| && SkipSpace(s, i) == SkipSpace(s, j)
    ensures ParseItems(s, i) == ParseItems(s, j)
  {
    hide ParseValue;
  }

  lemma NameSkip(s: string, i: nat, j: nat)
    requires i <= |s| && j <= |s| && SkipSpace(s, i) == SkipSpace(s, j)
    ensures ParseName(s, i) == ParseName(s, j)
  {
    hide ParseString;
  }

  lemma MembersSkip(s: string, i: nat, j: nat)
    requires i <= |s| && j <= |s| && SkipSpace(s, i) == SkipSpace(s, j)
    ensures ParseMembers(s, i) == ParseMembers(s, j)
  {
    hide ParseValue, ParseName;
    NameSkip(s, i, j);
  }

  lemma NameStep(s: string, i: nat, name: string, a: nat, b: nat)
    requires i <= |s| && SkipSpace(s, i) == a && ParseString(s, a) == Ok(name, b)
    requires SkipSpace(s, b) == b && At(s, b) == ':'
    ensures ParseName(s, i) == Ok(name, b + 1)
  {
    hide ParseString;
  }

  /** A separator, white space and something visible. */
  lemma SeparatorLayout(s: string, b: nat, sep: char, u: string, t: string)
    requires Blank(u) && |t| > 0 && t[0] > ' ' && sep > ' ' && Occurs(s, b, [sep] + (u + t))
    ensures At(s, b) == sep && SkipSpace(s, b) == b < |s|
    ensures b + 1 + |u| <= |s| && SkipSpace(s, b + 1) == b + 1 + |u| == SkipSpace(s, b + 1 + |u|)
    ensures Occurs(s, b + 1 + |u|, t)
  {
    OccursAt(s, b, [sep] + (u + t), 0);
    OccursSplit(s, b, [sep], u + t);
    SkipBlank(s, b + 1, u, t);
  }

  lemma QuoteLayout(s: string, i: nat, w: string, p: string, v: string)
    requires Blank(w) && |p| > 0 && p[0] == '\"' && Occurs(s, i, w + (p + v))
    ensures i <= |s| && SkipSpace(s, i) == i + |w|
    ensures Occurs(s, i + |w|, p) && Occurs(s, i + |w| + |p|, v)
  {
    SkipBlank(s, i, w, p + v);
    OccursSplit(s, i + |w|, p, v);
  }

  /** A printed name parses to the name, and white space behind the colon is skipped. */
  lemma NameBack(s: string, i: nat, name: string, w: string, p: string, u: string, t: string, a: nat, b: nat, c: nat)
    requires NulFree(name) && p == PrintString(name) && Blank(w) && Blank(u) && |t| > 0 && t[0] > ' '
    requires Occurs(s, i, Named(w, p, u, t)) && a == i + |w| && b == a + |p| && c == b + 1 + |u|
    ensures i <= |s| && ParseName(s, i) == Ok(name, b + 1)
    ensures c <= |s| && SkipSpace(s, b + 1) == c && Occurs(s, c, t)
  {
    assert |p| > 0 && p[0] == '\"' && Named(w, p, u, t) == w + (p + (":" + (u + t)));
    hide *;
    QuoteLayout(s, i, w, p, ":" + (u + t));
    StringRoundTrip(s, a, name);
    SeparatorLayout(s, b, ':', u, t);
    NameStep(s, i, name, a, b);
  }

  /** A text that starts with none of their first letters is none of the three literal names. */
  lemma NoLiteralName(s: string, i: nat)
    requires At(s, i) != 'n' && At(s, i) != 'f' && At(s, i) != 't'
    ensures !Occurs(s, i, "null") && !Occurs(s, i, "false") && !Occurs(s, i, "true")
  {
  }

  /** The values without parts. */
  lemma ScalarBack(s: string, i: nat, v: Json, t: string)
    requires Printable(v) && !v.Arr? && !v.Obj? && t == Print(v, 0, false)
    requires Occurs(s, i, t) && EndsNumber(At(s, i + |t|))
    ensures i <= |s| && ParseValue(s, i) == Ok(v, i + |t|)
  {
    hide PrintString, PrintInt, ParseNumber;
    if v.Str? {
      StringRoundTrip(s, i, v.text);
      assert At(s, i) == '\"';
      NoLiteralName(s, i);
    } else if v.Num? {
      OccursAt(s, i, t, 0);
      NoLiteralName(s, i);
      NumberRoundTrip(s, i, v.mantissa);
    } else {
      OccursAt(s, i, t, 0);
    }
  }

  lemma StartLayout(s: string, i: nat, t: string)
    requires Occurs(s, i, t) && |t| > 0 && t[0] > ' '
    ensures At(s, i) == t[0] && SkipSpace(s, i) == i < |s|
  {
  }

  /** An item and what follows it. */
  lemma ItemLayout(s: string, i: nat, h: string, rest: string, b: nat)
    requires Occurs(s, i, h + rest) && |h| > 0 && h[0] > ' ' && |rest| > 0 && b == i + |h|
    ensures SkipSpace(s, i) == i <= |s| && Occurs(s, i, h) && Occurs(s, b, rest)
    ensures b < |s| && At(s, b) == rest[0]
  {
    OccursSplit(s, i, h, rest);
    StartLayout(s, i, h);
    OccursAt(s, b, rest, 0);
  }

  /** A visible character, white space, and what may start with more white space. */
  lemma OpenLayout(s: string, b: nat, c: char, w: string, r: string)
    requires c > ' ' && Blank(w) && Occurs(s, b, [c] + (w + r))
    ensures SkipSpace(s, b) == b < |s| && At(s, b) == c
    ensures b + 1 + |w| <= |s| && SkipSpace(s, b + 1) == SkipSpace(s, b + 1 + |w|) && Occurs(s, b + 1 + |w|, r)
  {
    OccursAt(s, b, [c] + (w + r), 0);
    OccursSplit(s, b, [c], w + r);
    OccursSplit(s, b + 1, w, r);
    forall j | b + 1 <= j < b + 1 + |w| ensures NUL < At(s, j) <= ' ' { OccursAt(s, b + 1, w, j - b - 1); }
    SkipSpaceOver(s, b + 1, |w|);
  }

  /** Where the first item and what follows it stand. */
  lemma ItemsLayout(s: string, i: nat, items: Items, depth: nat, fmt: bool, t: string, end: nat)
      returns (h: string, b: nat, rest: string)
    requires items.Item? && PrintableItems(items) && t == PrintItems(items, depth, fmt)
    requires Occurs(s, i, t) && end == i + |t|
    ensures Printable(items.head) && PrintableItems(items.next)
    ensures h == Print(items.head, depth + 1, fmt) && rest == ItemsTail(items.next, depth, fmt)
    ensures i <= |s| && SkipSpace(s, i) == i && Occurs(s, i, h) && b == i + |h|
    ensures EndsNumber(At(s, b)) && Occurs(s, b, rest) && end == b + |rest|
  {
    hide Occurs, SkipSpace;
    h, rest := Print(items.head, depth + 1, fmt), ItemsTail(items.next, depth, fmt);
    b := i + |h|;
    PrintStarts(items.head, depth + 1, fmt);
    hide Print;
    assert t == h + rest;
    ItemLayout(s, i, h, rest, b);
  }

  lemma {:induction false} ItemsTailBack(s: string, b: nat, rest: Items, depth: nat, fmt: bool, t: string, end: nat)
    requires PrintableItems(rest) && t == ItemsTail(rest, depth, fmt) && Occurs(s, b, t) && end == b + |t|
    ensures b <= |s| && ItemsFollow(s, b, rest, end)
    decreases rest, 2
  {
    hide PrintItems, ParseItems, SkipSpace, Occurs;
    if rest.NoItems? {
      StartLayout(s, b, "]");
    } else {
      var w, r := Only(fmt, " "), PrintItems(rest, depth, fmt);
      OpenLayout(s, b, ',', w, r);
      ItemsBack(s, b + 1 + |w|, rest, depth, fmt, r, end);
      ItemsSkip(s, b + 1, b + 1 + |w|);
    }
  }

  /** The entries of an array. */
  lemma {:induction false} ItemsBack(s: string, i: nat, items: Items, depth: nat, fmt: bool, t: string, end: nat)
    requires items.Item? && PrintableItems(items) && t == PrintItems(items, depth, fmt)
    requires Occurs(s, i, t) && end == i + |t|
    ensures i <= |s| && ParseItems(s, i) == Ok(items, end)
    decreases items, 1
  {
    hide *;
    var h, b, rest := ItemsLayout(s, i, items, depth, fmt, t, end);
    ValueBack(s, i, items.head, depth + 1, fmt, h, b);
    ItemsTailBack(s, b, items.next, depth, fmt, rest, end);
    ItemsStep(s, i, items.head, b, items.next, end);
  }

  /** A value that ends the object: what follows it is skipped up to the closing brace. */
  lemma LastLayout(s: string, b: nat, w: string)
    requires Blank(w) && Occurs(s, b, w + "}")
    ensures SkipSpace(s, b) == b + |w| < |s| && At(s, b + |w|) == '}'
  {
    SkipBlank(s, b, w, "}");
  }

  lemma {:induction false} MembersTailBack(s: string, b: nat, rest: Members, depth: nat, fmt: bool, t: string, end: nat)
    requires depth > 0 && PrintableMembers(rest) && t == MembersTail(rest, depth, fmt)
    requires Occurs(s, b, t) && end == b + |t|
    ensures b <= |s| && MembersFollow(s, b, rest, end)
    decreases rest, 2
  {
    hide PrintMembers, ParseMembers, SkipSpace, Occurs;
    if rest.NoMembers? {
      var w := Only(fmt, "\n" + Tabs(depth - 1));
      assert Blank(w);
      LastLayout(s, b, w);
    } else {
      var w, r := Only(fmt, "\n"), PrintMembers(rest, depth, fmt);
      OpenLayout(s, b, ',', w, r);
      MembersBack(s, b + 1 + |w|, rest, depth, fmt, r, end);
      MembersSkip(s, b + 1, b + 1 + |w|);
    }
  }

  lemma PrintMembersSplit(members: Members, depth: nat, fmt: bool, w: string, p: string, u: string, h: string, rest: string)
    requires members.Member? && depth > 0 && h == Print(members.value, depth, fmt) && p == PrintString(members.name)
    requires w == Only(fmt, Tabs(depth)) && u == Only(fmt, "\t") && rest == MembersTail(members.next, depth, fmt)
    ensures |h| > 0 && h[0] > ' ' && Blank(w) && Blank(u)
    ensures PrintMembers(members, depth, fmt) == Named(w, p, u, h + rest)
    ensures |PrintMembers(members, depth, fmt)| == |w| + |p| + 1 + |u| + |h| + |rest|
  {
    PrintStarts(members.value, depth, fmt);
    hide Print, PrintString, MembersTail;
  }

  lemma PrintableParts(members: Members)
    requires members.Member? && PrintableMembers(members)
    ensures NulFree(members.name) && Printable(members.value) && PrintableMembers(members.next)
  {
  }

  /** Where the first member's value and what follows it stand; its name is parsed already. */
  lemma MembersLayout(s: string, i: nat, members: Members, depth: nat, fmt: bool, t: string, end: nat)
      returns (from: nat, c: nat, h: string, b: nat, rest: string)
    requires members.Member? && depth > 0 && PrintableMembers(members) && t == PrintMembers(members, depth, fmt)
    requires Occurs(s, i, t) && end == i + |t|
    ensures Printable(members.value) && PrintableMembers(members.next)
    ensures h == Print(members.value, depth, fmt) && rest == MembersTail(members.next, depth, fmt)
    ensures i <= |s| && ParseName(s, i) == Ok(members.name, from) && from <= |s| && SkipSpace(s, from) == c
    ensures Occurs(s, c, h) && b == c + |h| && EndsNumber(At(s, b)) && Occurs(s, b, rest) && end == b + |rest|
  {
    hide *;
    PrintableParts(members);
    var w, p, u := Only(fmt, Tabs(depth)), PrintString(members.name), Only(fmt, "\t");
    h, rest := Print(members.value, depth, fmt), MembersTail(members.next, depth, fmt);
    from := i + |w| + |p| + 1;
    c := from + |u|;
    b := c + |h|;
    PrintMembersSplit(members, depth, fmt, w, p, u, h, rest);
    NameBack(s, i, members.name, w, p, u, h + rest, i + |w|, i + |w| + |p|, c);
    ItemLayout(s, c, h, rest, b);
  }

  /** The entries of an object. */
  lemma {:induction false} MembersBack(s: string, i: nat, members: Members, depth: nat, fmt: bool, t: string, end: nat)
    requires members.Member? && depth > 0 && PrintableMembers(members) && t == PrintMembers(members, depth, fmt)
    requires Occurs(s, i, t) && end == i + |t|
    ensures i <= |s| && ParseMembers(s, i) == Ok(members, end)
    decreases members, 1
  {
    hide *;
    var from, c, h, b, rest := MembersLayout(s, i, members, depth, fmt, t, end);
    ValueBack(s, c, members.value, depth, fmt, h, b);
    MembersTailBack(s, b, members.next, depth, fmt, rest, end);
    MembersStep(s, i, members.name, from, members.value, b, members.next, end);
  }

  lemma ItemsStart(s: string, i: nat)
    requires i <= |s| && ParseItems(s, i).Ok?
    ensures At(s, SkipSpace(s, i)) != ']'
  {
    var j := SkipSpace(s, i);
    assert ParseValue(s, j).Ok?;
    hide ParseItems, SkipSpace, ParseStr, ParseArray, ParseObject, ParseNumber;
    if At(s, j) == ']' { NoLiteralName(s, j); }
  }

  lemma {:induction false} SkipSkipped(s: string, i: nat)
    ensures SkipSpace(s, SkipSpace(s, i)) == SkipSpace(s, i)
    decreases |s| - i
  {
    if i < |s| && NUL < s[i] <= ' ' { SkipSkipped(s, i + 1); }
  }

  lemma ArrayStep(s: string, i: nat, items: Items, k: nat, end: nat)
    requires At(s, i) == '[' && i < |s| && i + 1 <= k <= |s| && SkipSpace(s, i + 1) == SkipSpace(s, k)
    requires (items.Item? && ParseItems(s, k) == Ok(items, end))
          || (items.NoItems? && SkipSpace(s, k) == k && At(s, k) == ']' && end == k + 1)
    ensures ParseValue(s, i) == Ok(Arr(items), end)
  {
    var j := SkipSpace(s, k);
    if items.Item? {
      ItemsStart(s, k);
      SkipSkipped(s, k);
      ItemsSkip(s, k, j);
    }
    hide ParseItems;
    assert ParseArray(s, i) == Ok(Arr(items), end);
    hide ParseArray;
    NoLiteralName(s, i);
  }

  lemma MembersStart(s: string, i: nat)
    requires i <= |s| && ParseMembers(s, i).Ok?
    ensures At(s, SkipSpace(s, i)) == '\"'
  {
    hide ParseValue;
    assert ParseName(s, i).Ok?;
    assert ParseString(s, SkipSpace(s, i)).Ok?;
  }

  lemma ObjectStep(s: string, i: nat, members: Members, k: nat, end: nat)
    requires At(s, i) == '{' && i < |s| && i + 1 <= k <= |s| && SkipSpace(s, i + 1) == SkipSpace(s, k)
    requires (members.Member? && ParseMembers(s, k) == Ok(members, end))
          || (members.NoMembers? && SkipSpace(s, k) == k && At(s, k) == '}' && end == k + 1)
    ensures ParseValue(s, i) == Ok(Obj(members), end)
  {
    var j := SkipSpace(s, k);
    if members.Member? {
      MembersStart(s, k);
      SkipSkipped(s, k);
      MembersSkip(s, k, j);
    }
    hide ParseMembers;
    assert ParseObject(s, i) == Ok(Obj(members), end);
    hide ParseObject;
    NoLiteralName(s, i);
  }

  lemma {:induction false} ValueBack(s: string, i: nat, v: Json, depth: nat, fmt: bool, t: string, end: nat)
    requires Printable(v) && t == Print(v, depth, fmt) && EndsNumber(At(s, i + |t|))
    requires Occurs(s, i, t) && end == i + |t|
    ensures i <= |s| && ParseValue(s, i) == Ok(v, end)
    decreases v, 0
  {
    if v.Arr? {
      ArrayBack(s, i, v.items, depth, fmt, t, end);
    } else if v.Obj? {
      ObjectBack(s, i, v.members, depth, fmt, t, end);
    } else {
      assert t == Print(v, 0, false);
      hide *;
      ScalarBack(s, i, v, t);
    }
  }

  lemma {:induction false} ArrayBack(s: string, i: nat, items: Items, depth: nat, fmt: bool, t: string, end: nat)
    requires PrintableItems(items) && t == Print(Arr(items), depth, fmt) && Occurs(s, i, t) && end == i + |t|
    ensures i <= |s| && ParseValue(s, i) == Ok(Arr(items), end)
    decreases items, 2
  {
    if items.NoItems? {
      assert t == "[" + "]";
      hide *;
      ItemLayout(s, i, "[", "]", i + 1);
      StartLayout(s, i + 1, "]");
      StartLayout(s, i, "[");
      ArrayStep(s, i, items, i + 1, end);
    } else {
      var r := PrintItems(items, depth, fmt);
      assert t == "[" + r;
      PrintStarts(items.head, depth + 1, fmt);
      assert |r| > 0 && r[0] > ' ';
      hide *;
      ItemLayout(s, i, "[", r, i + 1);
      StartLayout(s, i + 1, r);
      StartLayout(s, i, "[");
      ItemsBack(s, i + 1, items, depth, fmt, r, end);
      ArrayStep(s, i, items, i + 1, end);
    }
  }

  lemma EmptyObjectBack(s: string, i: nat, depth: nat, fmt: bool, t: string, end: nat)
    requires t == Print(Obj(NoMembers), depth, fmt) && Occurs(s, i, t) && end == i + |t|
    ensures i <= |s| && ParseValue(s, i) == Ok(Obj(NoMembers), end)
  {
    var w := Only(fmt, "\n" + Tabs(depth));
    assert t == "{" + (w + "}") && Blank(w);
    hide *;
    SeparatorLayout(s, i, '{', w, "}");
    StartLayout(s, i + 1 + |w|, "}");
    ObjectStep(s, i, NoMembers, i + 1 + |w|, end);
  }

  /** Where the members stand. */
  lemma ObjectLayout(s: string, i: nat, members: Members, depth: nat, fmt: bool, t: string, end: nat)
      returns (k: nat, r: string)
    requires members.Member? && t == Print(Obj(members), depth, fmt) && Occurs(s, i, t) && end == i + |t|
    ensures i < |s| && At(s, i) == '{' && i + 1 <= k <= |s| && SkipSpace(s, i + 1) == SkipSpace(s, k)
    ensures r == PrintMembers(members, depth + 1, fmt) && Occurs(s, k, r) && end == k + |r|
  {
    var w := Only(fmt, "\n");
    r := PrintMembers(members, depth + 1, fmt);
    assert t == "{" + (w + r) && Blank(w);
    hide *;
    OpenLayout(s, i, '{', w, r);
    k := i + 1 + |w|;
  }

  lemma {:induction false} ObjectBack(s: string, i: nat, members: Members, depth: nat, fmt: bool, t: string, end: nat)
    requires PrintableMembers(members) && t == Print(Obj(members), depth, fmt) && Occurs(s, i, t) && end == i + |t|
    ensures i <= |s| && ParseValue(s, i) == Ok(Obj(members), end)
    decreases members, 2
  {
    hide *;
    if members.NoMembers? {
      EmptyObjectBack(s, i, depth, fmt, t, end);
    } else {
      var k, r := ObjectLayout(s, i, members, depth, fmt, t, end);
      MembersBack(s, k, members, depth + 1, fmt, r, end);
      ObjectStep(s, i, members, k, end);
    }
  }

  /** For every tree of null, booleans, int-range integers, NUL-free strings, arrays and objects, the printed text
      parses to the same tree, formatted or not, at any depth, and is consumed exactly, wherever it stands in a text
      (a number only may not run into more digits). */
  lemma ParsePrinted(v: Json, depth: nat, fmt: bool, before: string, behind: string, t: string, s: string)
    requires Printable(v) && EndsNumber(At(behind, 0)) && t == Print(v, depth, fmt) && s == before + t + behind
    ensures ParseValue(s, |before|) == Ok(v, |before| + |t|)
  {
    hide *;
    PlacedBetween(before, t, behind, s);
    ValueBack(s, |before|, v, depth, fmt, t, |before| + |t|);
  }

  lemma PlacedBetween(before: string, t: string, behind: string, s: string)
    requires s == before + t + behind
    ensures Occurs(s, |before|, t) && At(s, |before| + |t|) == At(behind, 0)
  {
  }

  /** `cJSON_Parse` after `cJSON_Print` or `cJSON_PrintUnformatted`, with `require_null_terminated` or without. */
  lemma TextRoundTrip(v: Json, depth: nat, fmt: bool, strict: bool, t: string)
    requires Printable(v) && t == Print(v, depth, fmt)
    ensures ParseText(t, strict) == Ok(v, |t|)
  {
    PrintStarts(v, depth, fmt);
    assert At(t, |t|) == NUL && EndsNumber(NUL) && SkipSpace(t, 0) == 0 && SkipSpace(t, |t|) == |t|;
    assert Occurs(t, 0, t);
    hide Print, ParseValue, SkipSpace, Occurs;
    ValueBack(t, 0, v, depth, fmt, t, |t|);
  }
}
