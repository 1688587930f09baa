/** The unbuffered printer: every value is printed into a buffer of its own; arrays and objects first print their
    entries, add up the space, allocate once and copy.  The added-up space is always enough. */
module JsonTwoPass {
  import opened JsonTree
  import opened JsonNumber
  import opened JsonString
  import opened JsonText
  import opened JsonItems
  import opened JsonEscaper
  import opened JsonPrintLaws
  import opened JsonPrinter

  /** A text and its terminator at the start of a buffer. */
  ghost predicate HoldsText(out: array<char>, t: string)
    reads out
  {
    |t| < out.Length && out[..|t| + 1] == t + [NUL]
  }

  /** `cJSON_strdup` and its like: a buffer of the given size with a copy of `t`. */
  method Duplicate(t: string, size: nat) returns (out: array<char>)
    requires |t| < size
    ensures fresh(out) && HoldsText(out, t)
  {
    out := new char[size];
    assert out[..0] == "" && "" + t == t;
    CopyText(out, 0, t);
  }

  /** `strlen` and the text in front of the terminator. */
  method TextOf(out: array<char>, ghost t: string) returns (s: string)
    requires HoldsText(out, t) && NulFree(t)
    ensures s == t
  {
    var n := 0;
    ghost var all := out[..|t| + 1];
    assert all[|t|] == out[|t|] == NUL;
    forall k | 0 <= k < |t| ensures out[k] != NUL { assert out[k] == all[k] == t[k]; }
    while out[n] != NUL
      invariant n <= |t|
      decreases |t| - n
    {
      n := n + 1;
    }
    s := out[..n];
    assert all[..|t|] == t && out[..|t|] == all[..|t|];
  }

  lemma PrintStringLength(str: string)
    ensures |PrintString(str)| == |EscapeAll(str)| + 2
  {
  }

  /** `print_string_ptr` without a print buffer. */
  method AllocString(str: string) returns (out: array<char>)
    ensures fresh(out) && HoldsText(out, PrintString(str))
  {
    PrintStringLength(str);
    hide EscapeAll, PrintString;
    var flag := NeedsEscape(str);
    var len := |str|;
    if flag { len := CountEscaped(str); }
    out := new char[len + 3];
    assert out[..0] == "";
    if flag { FillEscaped(str, out, 0); } else { FillPlain(str, out, 0); }
  }

  /** `print_value`. */
  method AllocValue(item: Item, depth: nat, fmt: bool, ghost f: Foot, ghost v: Json, ghost t: string) returns (out: array<char>)
    requires item == f.node && Stands(f, v) && Printable(v) && t == Print(v, depth, fmt)
    ensures fresh(out) && HoldsText(out, t)
    decreases v, 2
  {
    match item.kind
    case KindNull => out := Duplicate("null", 5);
    case KindFalse => out := Duplicate("false", 6);
    case KindTrue => out := Duplicate("true", 5);
    case KindNumber =>
      IntFits(item.mantissa);
      if item.mantissa == 0 { out := Duplicate("0", 2); } else { out := Duplicate(PrintInt(item.mantissa), 21); }
    case KindString => out := AllocString(item.valuestring);
    case KindArray => out := AllocArray(item, depth, fmt, f, v.items, t);
    case KindObject => out := AllocObject(item, depth, fmt, f, v.members, t);
  }

  /** `print_value` and what its result reads as. */
  method EntryText(item: Item, depth: nat, fmt: bool, ghost f: Foot, ghost v: Json) returns (s: string)
    requires item == f.node && Stands(f, v) && Printable(v)
    ensures s == Print(v, depth, fmt)
    decreases v, 3
  {
    PrintNulFree(v, depth, fmt);
    ghost var t := Print(v, depth, fmt);
    hide Print, Stands;
    var out := AllocValue(item, depth, fmt, f, v, t);
    s := TextOf(out, t);
  }

  // ----- arrays -----

  /** The entries printed one by one. */
  function EntryTexts(items: Items, depth: nat, fmt: bool): seq<string> {
    if items.NoItems? then [] else [Print(items.head, depth + 1, fmt)] + EntryTexts(items.next, depth, fmt)
  }

  /** The space added up for them. */
  function Space(items: Items, depth: nat, fmt: bool): nat {
    if items.NoItems? then 0
    else |Print(items.head, depth + 1, fmt)| + 2 + (if fmt then 1 else 0) + Space(items.next, depth, fmt)
  }

  lemma {:induction false} SpaceSuffices(items: Items, depth: nat, fmt: bool)
    requires items.Item?
    ensures |PrintItems(items, depth, fmt)| <= Space(items, depth, fmt)
  {
    hide Print;
    if items.next.Item? { SpaceSuffices(items.next, depth, fmt); }
  }

  function AppendOne(front: seq<string>, s: string, ghost rest: seq<string>): (r: seq<string>)
    ensures r == front + [s] && r + rest == front + ([s] + rest)
  {
    front + [s]
  }

  /** The texts in front of those of `child`, and the space added up for them. */
  ghost predicate Collected(items: Items, child: Items, depth: nat, fmt: bool, entries: seq<string>, len: nat) {
    && PrintableItems(child) && (child == items || child < items)
    && entries + EntryTexts(child, depth, fmt) == EntryTexts(items, depth, fmt)
    && len + Space(child, depth, fmt) == 5 + Space(items, depth, fmt)
  }

  lemma CollectedMore(items: Items, child: Items, depth: nat, fmt: bool, entries: seq<string>, len: nat, ret: string)
    requires Collected(items, child, depth, fmt, entries, len) && child.Item? && ret == Print(child.head, depth + 1, fmt)
    ensures Collected(items, child.next, depth, fmt, AppendOne(entries, ret, EntryTexts(child.next, depth, fmt)),
                      len + |ret| + 2 + if fmt then 1 else 0)
  {
    hide Print, Printable;
    var more := AppendOne(entries, ret, EntryTexts(child.next, depth, fmt));
  }

  /** The first pass of `print_array`. */
  method CollectEntries(first: Item?, depth: nat, fmt: bool, ghost fs: Feet, ghost items: Items)
      returns (entries: seq<string>, len: nat)
    requires Listed(first, fs, items) && PrintableItems(items)
    ensures entries == EntryTexts(items, depth, fmt) && len == 5 + Space(items, depth, fmt)
    decreases items, 1
  {
    entries, len := [], 5;
    var child := first;
    ghost var feet, rest := fs, items;
    assert Collected(items, rest, depth, fmt, entries, len);
    hide Print, Printable, Stands;
    while child != null
      invariant Listed(child, feet, rest) && Collected(items, rest, depth, fmt, entries, len)
      decreases rest
    {
      FeetExist(feet.rest);
      assert Listed(child.next, feet.rest, rest.next);
      var ret := EntryText(child, depth + 1, fmt, feet.head, rest.head);
      CollectedMore(items, rest, depth, fmt, entries, len, ret);
      entries := AppendOne(entries, ret, EntryTexts(rest.next, depth, fmt));
      len := len + |ret| + 2 + if fmt then 1 else 0;
      child, feet, rest := child.next, feet.rest, rest.next;
    }
  }

  /** The opening bracket. */
  method CopyBracket(out: array<char>, ghost items: Items, ghost depth: nat, fmt: bool, ghost t: string)
    requires items.Item? && t == "[" + PrintItems(items, depth, fmt) && |t| < out.Length
    modifies out
    ensures out[..1] + Left(items, depth, fmt) == t
  {
    assert out[..0] == "" && "" + "[" == "[";
    hide PrintItems;
    CopyText(out, 0, "[");
  }

  /** One turn of the copying loop. */
  method CopyOne(out: array<char>, o: nat, entries: seq<string>, i: nat, fmt: bool,
                 ghost child: Items, ghost depth: nat, ghost t: string) returns (ptr: nat)
    requires i < |entries| && o <= out.Length && |t| < out.Length
    requires entries[i..] == EntryTexts(child, depth, fmt) && out[..o] + Left(child, depth, fmt) == t
    modifies out
    ensures child.Item? && entries[i + 1..] == EntryTexts(child.next, depth, fmt)
    ensures ptr <= out.Length && out[..ptr] + Left(child.next, depth, fmt) == t
  {
    hide *;
    EntryTextsAt(entries, i, child, depth, fmt);
    LeftIs(child, depth, fmt);
    ptr := CopyEntry(out, o, entries[i], i + 1 < |entries|, fmt, child, depth, t);
  }

  lemma LeftIs(items: Items, depth: nat, fmt: bool)
    ensures items.Item? ==> Left(items, depth, fmt) == PrintItems(items, depth, fmt)
    ensures items.NoItems? ==> Left(items, depth, fmt) == "]"
  {
  }

  lemma NoEntries(child: Items, depth: nat, fmt: bool)
    requires EntryTexts(child, depth, fmt) == []
    ensures child == NoItems
  {
    hide Print;
  }

  /** The second pass of `print_array`: everything but the closing bracket. */
  method CopyEntries(out: array<char>, entries: seq<string>, ghost items: Items, ghost depth: nat, fmt: bool)
      returns (ptr: nat)
    requires items.Item? && entries == EntryTexts(items, depth, fmt)
    requires |"[" + PrintItems(items, depth, fmt)| < out.Length
    modifies out
    ensures ptr < out.Length && out[..ptr] + "]" == "[" + PrintItems(items, depth, fmt)
  {
    hide *;
    ghost var t := "[" + PrintItems(items, depth, fmt);
    CopyBracket(out, items, depth, fmt, t);
    ghost var child := items;
    ptr := 1;
    assert entries[0..] == entries;
    for i := 0 to |entries|
      invariant ptr <= out.Length && entries[i..] == EntryTexts(child, depth, fmt)
      invariant out[..ptr] + Left(child, depth, fmt) == t
    {
      ptr := CopyOne(out, ptr, entries, i, fmt, child, depth, t);
      child := child.next;
    }
    NoEntries(child, depth, fmt);
    LeftIs(child, depth, fmt);
  }

  lemma EntryTextsAt(entries: seq<string>, i: nat, child: Items, depth: nat, fmt: bool)
    requires i < |entries| && entries[i..] == EntryTexts(child, depth, fmt)
    ensures child.Item? && child.next.Item? == (i + 1 < |entries|) && entries[i] == Print(child.head, depth + 1, fmt)
    ensures entries[i + 1..] == EntryTexts(child.next, depth, fmt)
  {
    hide Print;
    assert entries[i..][0] == entries[i];
    assert entries[i..][1..] == entries[i + 1..];
  }

  /** One entry and what separates it from the next. */
  method CopyEntry(out: array<char>, o: nat, entry: string, more: bool, fmt: bool,
                   ghost items: Items, ghost depth: nat, ghost t: string) returns (ptr: nat)
    requires items.Item? && more == items.next.Item? && entry == Print(items.head, depth + 1, fmt)
    requires o <= out.Length && out[..o] + PrintItems(items, depth, fmt) == t && |t| < out.Length
    modifies out
    ensures o <= ptr <= out.Length && out[..ptr] + Left(items.next, depth, fmt) == t
  {
    ghost var before := out[..o];
    EntrySplit(items, depth, fmt, before, entry);
    hide Print, PrintItems, Left;
    Copy(out, o, entry);
    ptr := o + |entry|;
    if more {
      var separator := "," + Only(fmt, " ");
      CopyText(out, ptr, separator);
      ptr := ptr + |separator|;
    } else {
      assert before + entry + "" == before + entry;
    }
  }

  /** `print_array`. */
  method AllocArray(item: Item, depth: nat, fmt: bool, ghost f: Foot, ghost items: Items, ghost t: string) returns (out: array<char>)
    requires item == f.node && Stands(f, Arr(items)) && PrintableItems(items) && t == Print(Arr(items), depth, fmt)
    ensures fresh(out) && HoldsText(out, t)
    decreases items, 3
  {
    if item.child == null {
      out := Duplicate("[]", 3);
    } else {
      SpaceSuffices(items, depth, fmt);
      var entries, len := CollectEntries(item.child, depth, fmt, f.parts, items);
      out := new char[len];
      var ptr := CopyEntries(out, entries, items, depth, fmt);
      ghost var at := out[..ptr];
      CopyText(out, ptr, "]");
      assert at + "]" == t;
    }
  }

  // ----- objects -----

  /** The names and values printed one by one. */
  function NameTexts(members: Members): seq<string> {
    if members.NoMembers? then [] else [PrintString(members.name)] + NameTexts(members.next)
  }

  function ValueTexts(members: Members, depth: nat, fmt: bool): seq<string> {
    if members.NoMembers? then [] else [Print(members.value, depth, fmt)] + ValueTexts(members.next, depth, fmt)
  }

  /** The space added up for them. */
  function MembersSpace(members: Members, depth: nat, fmt: bool): nat {
    if members.NoMembers? then 0
    else
      |Print(members.value, depth, fmt)| + |PrintString(members.name)| + 2 + (if fmt then 2 + depth else 0)
      + MembersSpace(members.next, depth, fmt)
  }

  lemma {:induction false} MembersSpaceSuffices(members: Members, depth: nat, fmt: bool)
    requires members.Member? && depth > 0
    ensures |PrintMembers(members, depth, fmt)| <= MembersSpace(members, depth, fmt) + 1 + if fmt then depth else 0
  {
    hide Print, PrintString;
    if members.next.Member? { MembersSpaceSuffices(members.next, depth, fmt); }
  }

  /** What is collected in front of `child`, and the space added up for it. */
  ghost predicate MembersCollected(members: Members, child: Members, depth: nat, fmt: bool, names: seq<string>,
                                   entries: seq<string>, len: nat)
  {
    && PrintableMembers(child) && (child == members || child < members)
    && names + NameTexts(child) == NameTexts(members)
    && entries + ValueTexts(child, depth, fmt) == ValueTexts(members, depth, fmt)
    && len + MembersSpace(child, depth, fmt) == 7 + (if fmt then depth else 0) + MembersSpace(members, depth, fmt)
  }

  lemma MembersCollectedMore(members: Members, child: Members, depth: nat, fmt: bool, names: seq<string>, entries: seq<string>,
                             len: nat, str: string, ret: string)
    requires MembersCollected(members, child, depth, fmt, names, entries, len) && child.Member?
    requires str == PrintString(child.name) && ret == Print(child.value, depth, fmt)
    ensures MembersCollected(members, child.next, depth, fmt, AppendOne(names, str, NameTexts(child.next)),
                             AppendOne(entries, ret, ValueTexts(child.next, depth, fmt)),
                             len + |ret| + |str| + 2 + if fmt then 2 + depth else 0)
  {
    hide Print, Printable, PrintString;
    var more := AppendOne(names, str, NameTexts(child.next));
  }

  /** The first pass of `print_object`, with `depth` already raised. */
  method CollectMembers(first: Item?, depth: nat, fmt: bool, ghost fs: Feet, ghost members: Members)
      returns (names: seq<string>, entries: seq<string>, len: nat)
    requires NamedList(first, fs, members) && PrintableMembers(members)
    ensures names == NameTexts(members) && entries == ValueTexts(members, depth, fmt)
    ensures len == 7 + (if fmt then depth else 0) + MembersSpace(members, depth, fmt)
    decreases members, 1
  {
    names, entries, len := [], [], if fmt then 7 + depth else 7;
    var child := first;
    ghost var feet, rest := fs, members;
    assert MembersCollected(members, rest, depth, fmt, names, entries, len);
    hide Print, Printable, PrintString, Stands;
    while child != null
      invariant NamedList(child, feet, rest) && MembersCollected(members, rest, depth, fmt, names, entries, len)
      decreases rest
    {
      FeetExist(feet.rest);
      assert NamedList(child.next, feet.rest, rest.next);
      var str, ret := MemberTexts(child, depth, fmt, feet, rest);
      MembersCollectedMore(members, rest, depth, fmt, names, entries, len, str, ret);
      names, entries := AppendOne(names, str, NameTexts(rest.next)), AppendOne(entries, ret, ValueTexts(rest.next, depth, fmt));
      len := len + |ret| + |str| + 2 + if fmt then 2 + depth else 0;
      child, feet, rest := child.next, feet.rest, rest.next;
    }
  }

  method MemberTexts(child: Item, depth: nat, fmt: bool, ghost fs: Feet, ghost members: Members)
      returns (name: string, value: string)
    requires members.Member? && NamedList(child, fs, members) && PrintableMembers(members)
    ensures name == PrintString(members.name) && value == Print(members.value, depth, fmt)
    decreases members, 0
  {
    StringNulFree(members.name);
    NodesExist(fs.head);
    assert child.name == members.name;
    hide Print, PrintString;
    var out := AllocString(child.name);
    name := TextOf(out, PrintString(members.name));
    value := EntryText(child, depth, fmt, fs.head, members.value);
  }

  /** One name and its value. */
  method CopyMember(out: array<char>, o: nat, name: string, value: string, more: bool, depth: nat, fmt: bool,
                    ghost members: Members, ghost t: string) returns (ptr: nat)
    requires members.Member? && more == members.next.Member? && depth > 0
    requires name == PrintString(members.name) && value == Print(members.value, depth, fmt)
    requires o <= out.Length && out[..o] + PrintMembers(members, depth, fmt) == t && |t| < out.Length
    modifies out
    ensures o <= ptr <= out.Length && out[..ptr] + MembersLeft(members.next, depth, fmt) == t
  {
    ghost var before, head := out[..o], Only(fmt, Tabs(depth)) + name + (":" + Only(fmt, "\t"));
    var end := MemberEnd(more, fmt);
    hide *;
    MemberSplit(members, depth, fmt, before, head, value, end);
    assert o + |head| + |value| + |end| <= |t| by { assert |before| == o; }
    ptr := CopyName(out, o, name, depth, fmt, head);
    ptr := CopyTwo(out, ptr, value, end);
  }

  method CopyTwo(out: array<char>, o: nat, a: string, b: string) returns (ptr: nat)
    requires o + |a| + |b| < out.Length
    modifies out
    ensures ptr == o + |a| + |b| && out[..ptr] == old(out[..o]) + a + b
  {
    Copy(out, o, a);
    CopyText(out, o + |a|, b);
    ptr := o + |a| + |b|;
  }

  /** Indentation, name and colon. */
  method CopyName(out: array<char>, o: nat, name: string, depth: nat, fmt: bool, ghost head: string) returns (ptr: nat)
    requires head == Only(fmt, Tabs(depth)) + name + (":" + Only(fmt, "\t")) && o + |head| <= out.Length
    modifies out
    ensures ptr == o + |head| && out[..ptr] == old(out[..o]) + head
  {
    hide Only, Tabs;
    var tabs, colon := Only(fmt, Tabs(depth)), ":" + Only(fmt, "\t");
    JoinedName(out[..o], tabs, name, colon);
    Copy(out, o, tabs);
    Copy(out, o + |tabs|, name);
    ptr := o + |tabs| + |name|;
    Copy(out, ptr, colon);
    ptr := ptr + |colon|;
  }

  lemma MemberTextsAt(names: seq<string>, entries: seq<string>, i: nat, child: Members, depth: nat, fmt: bool)
    requires i < |names| && names[i..] == NameTexts(child)
    requires i < |entries| && entries[i..] == ValueTexts(child, depth, fmt)
    ensures child.Member? && child.next.Member? == (i + 1 < |names|)
    ensures names[i] == PrintString(child.name) && entries[i] == Print(child.value, depth, fmt)
    ensures names[i + 1..] == NameTexts(child.next) && entries[i + 1..] == ValueTexts(child.next, depth, fmt)
  {
    hide Print, PrintString;
    assert names[i..][0] == names[i] && names[i..][1..] == names[i + 1..];
    assert entries[i..][0] == entries[i] && entries[i..][1..] == entries[i + 1..];
  }

  /** The opening brace. */
  method CopyOpening(out: array<char>, ghost members: Members, ghost depth: nat, fmt: bool, ghost t: string) returns (ptr: nat)
    requires members.Member? && depth > 0
    requires t == "{" + (Only(fmt, "\n") + PrintMembers(members, depth, fmt)) && |t| < out.Length
    modifies out
    ensures ptr <= out.Length && out[..ptr] + MembersLeft(members, depth, fmt) == t
  {
    var start := "{" + Only(fmt, "\n");
    assert out[..0] == "" && "" + start == start;
    hide PrintMembers;
    CopyText(out, 0, start);
    ptr := |start|;
    Opening("", Only(fmt, "\n"), PrintMembers(members, depth, fmt));
  }

  /** One turn of the copying loop. */
  method CopyNext(out: array<char>, o: nat, names: seq<string>, entries: seq<string>, i: nat, depth: nat, fmt: bool,
                  ghost child: Members, ghost t: string) returns (ptr: nat)
    requires depth > 0 && i < |names| == |entries| && o <= out.Length && |t| < out.Length
    requires names[i..] == NameTexts(child) && entries[i..] == ValueTexts(child, depth, fmt)
    requires out[..o] + MembersLeft(child, depth, fmt) == t
    modifies out
    ensures child.Member? && ptr <= out.Length && out[..ptr] + MembersLeft(child.next, depth, fmt) == t
    ensures names[i + 1..] == NameTexts(child.next) && entries[i + 1..] == ValueTexts(child.next, depth, fmt)
  {
    hide *;
    MemberTextsAt(names, entries, i, child, depth, fmt);
    MembersLeftIs(child, depth, fmt);
    ptr := CopyMember(out, o, names[i], entries[i], i + 1 < |names|, depth, fmt, child, t);
  }

  /** The second pass of `print_object`: everything but the closing indentation and brace. */
  method CopyMembers(out: array<char>, names: seq<string>, entries: seq<string>, ghost members: Members, depth: nat, fmt: bool,
                     ghost t: string) returns (ptr: nat)
    requires members.Member? && depth > 0 && |names| == |entries|
    requires names == NameTexts(members) && entries == ValueTexts(members, depth, fmt)
    requires t == "{" + (Only(fmt, "\n") + PrintMembers(members, depth, fmt)) && |t| < out.Length
    modifies out
    ensures ptr < out.Length && out[..ptr] + MembersLeft(NoMembers, depth, fmt) == t
  {
    hide *;
    ptr := CopyOpening(out, members, depth, fmt, t);
    assert names[0..] == names && entries[0..] == entries;
    ghost var child := members;
    for i := 0 to |names|
      invariant ptr <= out.Length && names[i..] == NameTexts(child) && entries[i..] == ValueTexts(child, depth, fmt)
      invariant out[..ptr] + MembersLeft(child, depth, fmt) == t
    {
      ptr := CopyNext(out, ptr, names, entries, i, depth, fmt, child, t);
      child := child.next;
    }
    NoTexts(child, names);
    MembersLeftIs(NoMembers, depth, fmt);
  }

  lemma NoTexts(child: Members, names: seq<string>)
    requires names[|names|..] == NameTexts(child)
    ensures child == NoMembers
  {
    hide PrintString;
  }

  lemma MembersLeftIs(members: Members, depth: nat, fmt: bool)
    requires depth > 0
    ensures members.Member? ==> MembersLeft(members, depth, fmt) == PrintMembers(members, depth, fmt)
    ensures members.NoMembers? ==> MembersLeft(members, depth, fmt) == Only(fmt, Tabs(depth - 1)) + "}"
    ensures |MembersLeft(members, depth, fmt)| > 0
  {
    hide Print, PrintString;
  }

  lemma ObjectFits(members: Members, depth: nat, fmt: bool, t: string)
    requires members.Member? && t == "{" + (Only(fmt, "\n") + PrintMembers(members, depth + 1, fmt))
    ensures |t| < 7 + (if fmt then depth + 1 else 0) + MembersSpace(members, depth + 1, fmt)
  {
    hide PrintMembers, MembersSpace;
    MembersSpaceSuffices(members, depth + 1, fmt);
  }

  /** `print_object`. */
  method AllocObject(item: Item, depth: nat, fmt: bool, ghost f: Foot, ghost members: Members, ghost t: string) returns (out: array<char>)
    requires item == f.node && Stands(f, Obj(members)) && PrintableMembers(members) && t == Print(Obj(members), depth, fmt)
    ensures fresh(out) && HoldsText(out, t)
    decreases members, 2
  {
    hide Print, Stands, PrintMembers, MembersSpace, MembersLeft, Only, Tabs, PrintableMembers, NamedList, NameTexts,
      ValueTexts;
    if item.child == null {
      EmptyObject(item, depth, fmt, f, members, t);
      out := Duplicate("{" + (Only(fmt, "\n" + Tabs(depth)) + "}"), if fmt then depth + 4 else 3);
    } else {
      FilledObject(item, depth, fmt, f, members, t);
      ObjectFits(members, depth, fmt, t);
      var names, entries, len := CollectMembers(item.child, depth + 1, fmt, f.parts, members);
      TextCounts(members, depth + 1, fmt);
      out := new char[len];
      var ptr := CopyMembers(out, names, entries, members, depth + 1, fmt, t);
      var last := Only(fmt, Tabs(depth)) + "}";
      CopyText(out, ptr, last);
    }
  }

  lemma {:induction false} TextCounts(members: Members, depth: nat, fmt: bool)
    ensures |NameTexts(members)| == |ValueTexts(members, depth, fmt)|
  {
    hide Print, PrintString;
    if members.Member? { TextCounts(members.next, depth, fmt); }
  }

  /** `cJSON_Print` and `cJSON_PrintUnformatted`. */
  method PrintText(item: Item, fmt: bool, ghost f: Foot, ghost v: Json) returns (out: array<char>)
    requires item == f.node && Stands(f, v) && Printable(v)
    ensures fresh(out) && HoldsText(out, Print(v, 0, fmt))
  {
    out := AllocValue(item, 0, fmt, f, v, Print(v, 0, fmt));
  }
}
