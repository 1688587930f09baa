/** What the printed text of a tree is, to the last character: entries joined by separators. */
module JsonPrintedText {
  import opened JsonTree
  import opened JsonNumber
  import opened JsonString
  import opened JsonText

  function Join(sep: string, texts: seq<string>): string
    requires texts != []
  {
    if |texts| == 1 then texts[0] else texts[0] + sep + Join(sep, texts[1..])
  }

  function Separator(fmt: bool, formatted: string, plain: string): string {
    if fmt then formatted else plain
  }

  /** The entries of an array. */
  function Entries(items: Items, depth: nat, fmt: bool): (e: seq<string>)
    ensures items.Item? ==> e != []
  {
    if items.NoItems? then [] else [Print(items.head, depth, fmt)] + Entries(items.next, depth, fmt)
  }

  function OneLine(name: string, value: Json, depth: nat, fmt: bool): string {
    Separator(fmt, Tabs(depth), "") + PrintString(name) + Separator(fmt, ":\t", ":") + Print(value, depth, fmt)
  }

  /** The members of an object, each of them on its own line where the text is formatted. */
  function Lines(members: Members, depth: nat, fmt: bool): (e: seq<string>)
    ensures members.Member? ==> e != []
  {
    if members.NoMembers? then []
    else
      [OneLine(members.name, members.value, depth, fmt)] + Lines(members.next, depth, fmt)
  }

  lemma JoinMore(sep: string, t: string, rest: seq<string>, end: string)
    requires rest != []
    ensures Join(sep, [t] + rest) + end == t + (sep + (Join(sep, rest) + end))
  {
    var j := Join(sep, rest);
    assert ([t] + rest)[1..] == rest && Join(sep, [t] + rest) == t + sep + j;
    hide Join;
    assert t + sep + j + end == t + (sep + (j + end));
  }

  lemma JoinOne(sep: string, t: string)
    ensures Join(sep, [t]) == t
  {
  }

  lemma CommaText(fmt: bool, x: string)
    ensures "," + (Only(fmt, " ") + x) == Separator(fmt, ", ", ",") + x
    ensures "," + (Only(fmt, "\n") + x) == Separator(fmt, ",\n", ",") + x
  {
    if fmt {
      assert "," + (" " + x) == ", " + x && "," + ("\n" + x) == ",\n" + x;
    } else {
      assert "" + x == x;
    }
  }

  lemma ItemsNext(items: Items, depth: nat, fmt: bool)
    requires items.Item?
    ensures
      PrintItems(items, depth, fmt) ==
        Print(items.head, depth + 1, fmt)
        + if items.next.NoItems? then "]" else "," + (Only(fmt, " ") + PrintItems(items.next, depth, fmt))
    ensures Entries(items, depth + 1, fmt) == [Print(items.head, depth + 1, fmt)] + Entries(items.next, depth + 1, fmt)
  {
    hide Print, Only;
  }

  lemma {:induction false} ItemsText(items: Items, depth: nat, fmt: bool)
    requires items.Item?
    ensures PrintItems(items, depth, fmt) == Join(Separator(fmt, ", ", ","), Entries(items, depth + 1, fmt)) + "]"
    decreases items
  {
    hide Print, PrintItems, Separator, Only, Join;
    var first, sep := Print(items.head, depth + 1, fmt), Separator(fmt, ", ", ",");
    ItemsNext(items, depth, fmt);
    if items.next.NoItems? {
      JoinOne(sep, first);
      assert [first] + [] == [first];
    } else {
      ItemsText(items.next, depth, fmt);
      JoinMore(sep, first, Entries(items.next, depth + 1, fmt), "]");
      CommaText(fmt, PrintItems(items.next, depth, fmt));
    }
  }

  lemma ArrayText(items: Items, depth: nat, fmt: bool)
    ensures
      Print(Arr(items), depth, fmt) ==
        if items.NoItems? then "[]" else "[" + Join(Separator(fmt, ", ", ","), Entries(items, depth + 1, fmt)) + "]"
  {
    hide PrintItems, Join, Entries, Separator;
    if items.Item? { ItemsText(items, depth, fmt); }
    assert items.Item? ==>
      "[" + (Join(Separator(fmt, ", ", ","), Entries(items, depth + 1, fmt)) + "]")
        == "[" + Join(Separator(fmt, ", ", ","), Entries(items, depth + 1, fmt)) + "]";
  }

  lemma NamedText(fmt: bool, w: string, p: string, h: string, t: string)
    ensures Named(Only(fmt, w), p, Only(fmt, "\t"), h + t) == Separator(fmt, w, "") + p + Separator(fmt, ":\t", ":") + h + t
  {
    if fmt {
      assert w + (p + (":" + ("\t" + (h + t)))) == w + p + ":\t" + h + t;
    } else {
      assert "" + (p + (":" + ("" + (h + t)))) == "" + p + ":" + h + t;
    }
  }

  lemma MembersNext(members: Members, depth: nat, fmt: bool)
    requires members.Member? && depth > 0
    ensures
      PrintMembers(members, depth, fmt) ==
        OneLine(members.name, members.value, depth, fmt)
        + if members.next.NoMembers? then Only(fmt, "\n" + Tabs(depth - 1)) + "}"
          else "," + (Only(fmt, "\n") + PrintMembers(members.next, depth, fmt))
    ensures Lines(members, depth, fmt) == [OneLine(members.name, members.value, depth, fmt)] + Lines(members.next, depth, fmt)
  {
    hide Print, Only, PrintString, Tabs, Separator, Named;
    NamedText(fmt, Tabs(depth), PrintString(members.name), Print(members.value, depth, fmt), MembersTail(members.next, depth, fmt));
  }

  lemma CloseText(fmt: bool, w: string)
    ensures Only(fmt, w) + "}" == Separator(fmt, w + "}", "}")
  {
    assert "" + "}" == "}";
  }

  lemma {:induction false} MembersText(members: Members, depth: nat, fmt: bool)
    requires members.Member? && depth > 0
    ensures
      PrintMembers(members, depth, fmt) ==
        Join(Separator(fmt, ",\n", ","), Lines(members, depth, fmt)) + Separator(fmt, "\n" + Tabs(depth - 1) + "}", "}")
    decreases members
  {
    hide Print, PrintMembers, Separator, Only, Join, OneLine, Tabs;
    var first, sep := OneLine(members.name, members.value, depth, fmt), Separator(fmt, ",\n", ",");
    var end := Separator(fmt, "\n" + Tabs(depth - 1) + "}", "}");
    MembersNext(members, depth, fmt);
    CloseText(fmt, "\n" + Tabs(depth - 1));
    if members.next.NoMembers? {
      JoinOne(sep, first);
      assert [first] + [] == [first];
    } else {
      MembersText(members.next, depth, fmt);
      JoinMore(sep, first, Lines(members.next, depth, fmt), end);
      CommaText(fmt, PrintMembers(members.next, depth, fmt));
    }
  }

  lemma OpenText(fmt: bool, x: string)
    ensures "{" + (Only(fmt, "\n") + x) == Separator(fmt, "{\n", "{") + x
  {
    if fmt {
      assert "{" + ("\n" + x) == "{\n" + x;
    } else {
      assert "" + x == x;
    }
  }

  /** A printed object: a line for each member, indented by one tab more than the braces, the value behind a colon and a tab;
      or without any white space. */
  lemma ObjectText(members: Members, depth: nat, fmt: bool)
    ensures
      Print(Obj(members), depth, fmt) ==
        if members.NoMembers? then Separator(fmt, "{\n" + Tabs(depth) + "}", "{}")
        else Separator(fmt, "{\n", "{") + Join(Separator(fmt, ",\n", ","), Lines(members, depth + 1, fmt))
             + Separator(fmt, "\n" + Tabs(depth) + "}", "}")
  {
    hide Separator, Join, Lines, Tabs, PrintMembers, Only;
    if members.NoMembers? {
      EmptyObject(depth, fmt);
    } else {
      MembersText(members, depth + 1, fmt);
      OpenText(fmt, PrintMembers(members, depth + 1, fmt));
      Assoc(Separator(fmt, "{\n", "{"), Join(Separator(fmt, ",\n", ","), Lines(members, depth + 1, fmt)),
            Separator(fmt, "\n" + Tabs(depth) + "}", "}"));
    }
  }

  lemma EmptyObject(depth: nat, fmt: bool)
    ensures Print(Obj(NoMembers), depth, fmt) == Separator(fmt, "{\n" + Tabs(depth) + "}", "{}")
  {
    hide Tabs;
    assert "{" + ("\n" + Tabs(depth) + "}") == "{\n" + Tabs(depth) + "}" && "{" + ("" + "}") == "{}";
  }

  lemma Assoc(a: string, b: string, c: string)
    ensures a + (b + c) == a + b + c
  {
  }

  /** Everything else that is printed. */
  lemma ScalarText(depth: nat, fmt: bool, n: int, t: string)
    ensures Print(Null, depth, fmt) == "null" && Print(False, depth, fmt) == "false" && Print(True, depth, fmt) == "true"
    ensures Print(Num(n, 0), depth, fmt) == PrintInt(n) && Print(Str(t), depth, fmt) == PrintString(t)
    ensures |Tabs(depth)| == depth && forall k | 0 <= k < depth :: Tabs(depth)[k] == '\t'
  {
  }
}
