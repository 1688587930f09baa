/** The buffered printer: `print_value`, `print_array` and `print_object` walk over the items of a tree and write to a
    growing buffer exactly the text that `Print` describes, inside the space they were granted. */
module JsonPrinter {
  import opened JsonTree
  import opened JsonNumber
  import opened JsonString
  import opened JsonText
  import opened JsonItems
  import opened JsonPrintLaws
  import opened PrintBuffer

  /** Room that every request may take beyond the text itself. */
  const SPARE := 21

  /** What is still to be written of an array, with its closing bracket. */
  function Left(items: Items, depth: nat, fmt: bool): string {
    if items.Item? then PrintItems(items, depth, fmt) else "]"
  }

  lemma EntrySplit(items: Items, depth: nat, fmt: bool, written: string, h: string)
    requires items.Item? && h == Print(items.head, depth + 1, fmt)
    ensures |h| + |Left(items.next, depth, fmt)| <= |PrintItems(items, depth, fmt)|
    ensures items.next.Item? ==> |h| + 1 + |Only(fmt, " ")| <= |PrintItems(items, depth, fmt)|
    ensures written + PrintItems(items, depth, fmt) ==
            (written + h + if items.next.Item? then "," + Only(fmt, " ") else "") + Left(items.next, depth, fmt)
  {
    hide Print;
  }

  /** `print_value` followed by moving the offset to the end of the text. */
  method AppendValue(p: PrintBuffer, item: Item, depth: nat, fmt: bool, ghost f: Foot, ghost v: Json, ghost t: string)
    requires item == f.node && Stands(f, v)
    requires p.Valid() && Printable(v) && t == Print(v, depth, fmt) && p.offset + |t| + SPARE <= LARGEST
    modifies p, p.buffer
    ensures p.Valid() && (p.buffer == old(p.buffer) || fresh(p.buffer))
    ensures p.Written() == old(p.Written()) + t
    decreases v, 3
  {
    ghost var before := p.Written();
    PrintNulFree(v, depth, fmt);
    PrintValue(p, item, depth, fmt, f, v, t);
    p.MoveToEnd(before, t);
  }

  /** The cases of `print_value` without parts. */
  method PrintScalar(p: PrintBuffer, item: Item, ghost f: Foot, ghost v: Json, ghost t: string)
    requires item == f.node && Stands(f, v) && !v.Arr? && !v.Obj?
    requires p.Valid() && Printable(v) && t == Print(v, 0, false) && p.offset + |t| + SPARE <= LARGEST
    modifies p, p.buffer
    ensures p.Holds(old(p.Written()), t) && (p.buffer == old(p.buffer) || fresh(p.buffer))
  {
    if item.kind == KindNull { p.PutText("null", 5); }
    else if item.kind == KindFalse { p.PutText("false", 6); }
    else if item.kind == KindTrue { p.PutText("true", 5); }
    else if item.kind == KindString { p.PutString(item.valuestring); }
    else if item.mantissa == 0 { p.PutText("0", 2); }
    else {
      IntFits(item.mantissa);
      p.PutText(PrintInt(item.mantissa), 21);
    }
  }

  /** `print_value`. */
  method PrintValue(p: PrintBuffer, item: Item, depth: nat, fmt: bool, ghost f: Foot, ghost v: Json, ghost t: string)
    requires item == f.node && Stands(f, v)
    requires p.Valid() && Printable(v) && t == Print(v, depth, fmt) && p.offset + |t| + SPARE <= LARGEST
    modifies p, p.buffer
    ensures p.Holds(old(p.Written()), t) && (p.buffer == old(p.buffer) || fresh(p.buffer))
    decreases v, 2
  {
    if item.kind == KindArray {
      PrintArray(p, item, depth, fmt, f, v.items, t);
    } else if item.kind == KindObject {
      PrintObject(p, item, depth, fmt, f, v.members, t);
    } else {
      PrintScalar(p, item, f, v, t);
    }
  }

  /** One entry of an array and what separates it from the next. */
  method PrintEntry(p: PrintBuffer, child: Item, depth: nat, fmt: bool, ghost fs: Feet, ghost items: Items, ghost t: string)
    requires items.Item? && Listed(child, fs, items) && PrintableItems(items) && t == PrintItems(items, depth, fmt)
    requires p.Valid() && p.offset + |t| + SPARE <= LARGEST
    modifies p, p.buffer
    ensures p.Valid() && (p.buffer == old(p.buffer) || fresh(p.buffer))
    ensures old(p.offset) <= p.offset && p.Written() + Left(items.next, depth, fmt) == old(p.Written()) + t
    decreases items, 1
  {
    ghost var before, h := p.Written(), Print(items.head, depth + 1, fmt);
    assert Printable(items.head) && Stands(fs.head, items.head) && (child.next != null <==> items.next.Item?);
    EntrySplit(items, depth, fmt, before, h);
    hide Print, PrintItems, Left, Printable, PrintableItems, Stands, Listed;
    AppendValue(p, child, depth + 1, fmt, fs.head, items.head, h);
    assert p.Written() == before + h;
    if child.next != null {
      p.AppendText("," + Only(fmt, " "), if fmt then 3 else 2);
    } else {
      assert before + h + "" == before + h;
    }
  }

  /** `print_array`. */
  method PrintArray(p: PrintBuffer, item: Item, depth: nat, fmt: bool, ghost f: Foot, ghost items: Items, ghost t: string)
    requires item == f.node && Stands(f, Arr(items))
    requires p.Valid() && PrintableItems(items) && t == Print(Arr(items), depth, fmt) && p.offset + |t| + SPARE <= LARGEST
    modifies p, p.buffer
    ensures p.Holds(old(p.Written()), t) && (p.buffer == old(p.buffer) || fresh(p.buffer))
    decreases items, 3
  {
    if item.child == null {
      p.PutText("[]", 3);
    } else {
      ghost var before, r := p.Written(), PrintItems(items, depth, fmt);
      assert t == "[" + r && r == Left(items, depth, fmt);
      PrintEntries(p, item.child, depth, fmt, f.parts, items, t);
      ghost var at := p.Written();
      p.PutText("]", 2);
      assert at + "]" == before + t;
    }
  }

  /** The opening bracket and the loop. */
  method PrintEntries(p: PrintBuffer, first: Item, depth: nat, fmt: bool, ghost fs: Feet, ghost items: Items, ghost t: string)
    requires items.Item? && Listed(first, fs, items) && PrintableItems(items) && t == "[" + Left(items, depth, fmt)
    requires p.Valid() && p.offset + |t| + SPARE <= LARGEST
    modifies p, p.buffer
    ensures p.Valid() && (p.buffer == old(p.buffer) || fresh(p.buffer)) && old(p.offset) <= p.offset
    ensures p.Written() + "]" == old(p.Written()) + t
    decreases items, 2
  {
    hide PrintItems, Printable, Stands;
    ghost var goal := p.Written() + t;
    FeetExist(fs);
    p.Append("[", 1);
    var child: Item? := first;
    ghost var feet, rest := fs, items;
    while child != null
      invariant p.Valid() && old(p.offset) <= p.offset && (p.buffer == old(p.buffer) || fresh(p.buffer))
      invariant Listed(child, feet, rest) && PrintableItems(rest) && (rest == items || rest < items)
      invariant p.Written() + Left(rest, depth, fmt) == goal
      decreases rest
    {
      FeetExist(feet.rest);
      assert Listed(child.next, feet.rest, rest.next);
      PrintEntry(p, child, depth, fmt, feet, rest, PrintItems(rest, depth, fmt));
      child, feet, rest := child.next, feet.rest, rest.next;
    }
  }

  // ----- objects -----

  /** What is still to be written of an object, with its closing brace. */
  function MembersLeft(members: Members, depth: nat, fmt: bool): string
    requires depth > 0
  {
    if members.Member? then PrintMembers(members, depth, fmt) else Only(fmt, Tabs(depth - 1)) + "}"
  }

  /** What stands between a value and the rest of the object. */
  function MemberEnd(more: bool, fmt: bool): string {
    Only(more, ",") + Only(fmt, "\n")
  }

  /** The parts of a member's text in the order in which they are appended. */
  lemma MemberSplit(members: Members, depth: nat, fmt: bool, before: string, head: string, h: string, e: string)
    requires members.Member? && depth > 0 && h == Print(members.value, depth, fmt) && e == MemberEnd(members.next.Member?, fmt)
    requires head == Only(fmt, Tabs(depth)) + PrintString(members.name) + (":" + Only(fmt, "\t"))
    ensures |head| + |h| + |e| <= |PrintMembers(members, depth, fmt)|
    ensures before + PrintMembers(members, depth, fmt) == (before + head + h + e) + MembersLeft(members.next, depth, fmt)
  {
    hide Print, PrintString;
    var l := MembersLeft(members.next, depth, fmt);
    assert MembersTail(members.next, depth, fmt) == e + l;
    NamedIs(Only(fmt, Tabs(depth)), PrintString(members.name), Only(fmt, "\t"), h + (e + l));
    assert PrintMembers(members, depth, fmt) == head + (h + (e + l));
    hide *;
    Reassociate(before, head, h, e, l);
  }

  lemma NamedIs(w: string, p: string, u: string, rest: string)
    ensures Named(w, p, u, rest) == w + p + (":" + u) + rest
  {
  }

  lemma Reassociate(before: string, head: string, h: string, e: string, l: string)
    ensures before + (head + (h + (e + l))) == (before + head + h + e) + l
  {
  }

  lemma OnlyIs(c: bool, t: string)
    ensures Only(c, t) == if c then t else ""
  {
  }

  lemma JoinedName(before: string, w: string, q: string, u: string)
    ensures before + w + q + u == before + (w + q + u) && before + "" == before
  {
  }

  /** Indentation, name and colon. */
  method PrintName(p: PrintBuffer, name: string, depth: nat, fmt: bool, ghost head: string)
    requires depth > 0 && head == Only(fmt, Tabs(depth)) + PrintString(name) + (":" + Only(fmt, "\t")) && NulFree(name)
    requires p.Valid() && p.offset + |head| + SPARE <= LARGEST
    modifies p, p.buffer
    ensures p.Valid() && (p.buffer == old(p.buffer) || fresh(p.buffer))
    ensures p.Written() == old(p.Written()) + head
  {
    ghost var before, w, q, u := p.Written(), Only(fmt, Tabs(depth)), PrintString(name), ":" + Only(fmt, "\t");
    StringNulFree(name);
    OnlyIs(fmt, Tabs(depth));
    OnlyIs(fmt, "\t");
    JoinedName(before, w, q, u);
    hide PrintString, Only, Tabs;
    if fmt { p.Append(Tabs(depth), depth); }
    p.PutString(name);
    p.MoveToEnd(before + w, q);
    p.Append(":" + Only(fmt, "\t"), if fmt then 2 else 1);
  }

  /** One turn of the loop of `print_object`. */
  method PrintMember(p: PrintBuffer, child: Item, depth: nat, fmt: bool, ghost fs: Feet, ghost members: Members, ghost t: string)
    requires members.Member? && NamedList(child, fs, members)
    requires depth > 0 && PrintableMembers(members) && t == PrintMembers(members, depth, fmt)
    requires p.Valid() && p.offset + |t| + SPARE <= LARGEST
    modifies p, p.buffer
    ensures p.Valid() && (p.buffer == old(p.buffer) || fresh(p.buffer))
    ensures old(p.offset) <= p.offset && p.Written() + MembersLeft(members.next, depth, fmt) == old(p.Written()) + t
    decreases members, 1
  {
    ghost var before, h := p.Written(), Print(members.value, depth, fmt);
    ghost var head := Only(fmt, Tabs(depth)) + PrintString(members.name) + (":" + Only(fmt, "\t"));
    var end := MemberEnd(child.next != null, fmt);
    assert Printable(members.value) && NulFree(members.name) && Stands(fs.head, members.value);
    assert child.name == members.name && (child.next != null <==> members.next.Member?);
    MemberSplit(members, depth, fmt, before, head, h, end);
    NodesExist(fs.head);
    hide Print, PrintMembers, MembersLeft, Printable, PrintableMembers, PrintString, Only, Tabs, MemberEnd, Stands, NamedList;
    PrintName(p, child.name, depth, fmt, head);
    AppendValue(p, child, depth, fmt, fs.head, members.value, h);
    p.AppendText(end, |end| + 1);
  }

  /** `print_object`. */
  method PrintObject(p: PrintBuffer, item: Item, depth: nat, fmt: bool, ghost f: Foot, ghost members: Members, ghost t: string)
    requires item == f.node && Stands(f, Obj(members))
    requires p.Valid() && PrintableMembers(members) && t == Print(Obj(members), depth, fmt)
    requires p.offset + |t| + SPARE <= LARGEST
    modifies p, p.buffer
    ensures p.Holds(old(p.Written()), t) && (p.buffer == old(p.buffer) || fresh(p.buffer))
    decreases members, 4
  {
    hide Print, Stands, PrintMembers, PrintableMembers, MembersLeft, NamedList, Only, Tabs;
    if item.child == null {
      EmptyObject(item, depth, fmt, f, members, t);
      p.PutText("{" + (Only(fmt, "\n" + Tabs(depth)) + "}"), if fmt then depth + 4 else 3);
    } else {
      var last := Only(fmt, Tabs(depth)) + "}";
      FilledObject(item, depth, fmt, f, members, t);
      PrintMemberLoop(p, item.child, depth + 1, fmt, f.parts, members, t);
      p.PutText(last, if fmt then depth + 2 else 2);
    }
  }

  lemma EmptyObject(item: Item, depth: nat, fmt: bool, f: Foot, members: Members, t: string)
    requires item == f.node && Stands(f, Obj(members)) && item.child == null && t == Print(Obj(members), depth, fmt)
    ensures t == "{" + (Only(fmt, "\n" + Tabs(depth)) + "}") && |t| + 1 == if fmt then depth + 4 else 3
  {
  }

  lemma FilledObject(item: Item, depth: nat, fmt: bool, f: Foot, members: Members, t: string)
    requires item == f.node && Stands(f, Obj(members)) && item.child != null && t == Print(Obj(members), depth, fmt)
    ensures members.Member? && NamedList(item.child, f.parts, members)
    ensures t == "{" + (Only(fmt, "\n") + MembersLeft(members, depth + 1, fmt))
    ensures MembersLeft(members, depth + 1, fmt) == PrintMembers(members, depth + 1, fmt)
    ensures MembersLeft(NoMembers, depth + 1, fmt) == Only(fmt, Tabs(depth)) + "}"
    ensures |Only(fmt, Tabs(depth)) + "}"| + 1 == if fmt then depth + 2 else 2
  {
    hide PrintMembers;
  }

  lemma Opening(before: string, w: string, l: string)
    ensures before + ("{" + w) + l == before + ("{" + (w + l))
  {
  }

  /** The opening brace and the loop. */
  method PrintMemberLoop(p: PrintBuffer, first: Item, depth: nat, fmt: bool, ghost fs: Feet, ghost members: Members, ghost t: string)
    requires members.Member? && NamedList(first, fs, members) && depth > 0 && PrintableMembers(members)
    requires t == "{" + (Only(fmt, "\n") + MembersLeft(members, depth, fmt))
    requires p.Valid() && p.offset + |t| + SPARE <= LARGEST
    modifies p, p.buffer
    ensures p.Valid() && (p.buffer == old(p.buffer) || fresh(p.buffer)) && old(p.offset) <= p.offset
    ensures p.Written() + MembersLeft(NoMembers, depth, fmt) == old(p.Written()) + t
    decreases members, 3
  {
    var start := "{" + Only(fmt, "\n");
    Opening(p.Written(), Only(fmt, "\n"), MembersLeft(members, depth, fmt));
    hide MembersLeft, PrintableMembers, Only, NamedList;
    FeetExist(fs);
    ghost var goal := p.Written() + t;
    p.AppendText(start, |start| + 1);
    PrintMembersFrom(p, first, depth, fmt, fs, members, goal);
  }

  method PrintMembersFrom(p: PrintBuffer, first: Item, depth: nat, fmt: bool, ghost fs: Feet, ghost members: Members, ghost goal: string)
    requires members.Member? && NamedList(first, fs, members) && depth > 0 && PrintableMembers(members)
    requires p.Valid() && |goal| + SPARE <= LARGEST && p.Written() + MembersLeft(members, depth, fmt) == goal
    modifies p, p.buffer
    ensures p.Valid() && (p.buffer == old(p.buffer) || fresh(p.buffer)) && old(p.offset) <= p.offset
    ensures p.Written() + MembersLeft(NoMembers, depth, fmt) == goal
    decreases members, 2
  {
    hide PrintMembers, Printable, Only, Stands;
    FeetExist(fs);
    var child: Item? := first;
    ghost var feet, rest := fs, members;
    while child != null
      invariant p.Valid() && old(p.offset) <= p.offset && (p.buffer == old(p.buffer) || fresh(p.buffer))
      invariant NamedList(child, feet, rest) && PrintableMembers(rest) && (rest == members || rest < members)
      invariant p.Written() + MembersLeft(rest, depth, fmt) == goal
      decreases rest
    {
      FeetExist(feet.rest);
      assert NamedList(child.next, feet.rest, rest.next);
      PrintMember(p, child, depth, fmt, feet, rest, PrintMembers(rest, depth, fmt));
      child, feet, rest := child.next, feet.rest, rest.next;
    }
  }

  /** `cJSON_PrintBuffered`: whatever the first size, the buffer ends up with exactly the text of the tree. */
  method PrintBuffered(item: Item, prebuffer: nat, fmt: bool, ghost f: Foot, ghost v: Json) returns (out: array<char>)
    requires item == f.node && Stands(f, v) && Printable(v) && |Print(v, 0, fmt)| + SPARE <= LARGEST
    ensures fresh(out) && |Print(v, 0, fmt)| < out.Length
    ensures out[..|Print(v, 0, fmt)| + 1] == Print(v, 0, fmt) + [NUL]
  {
    ghost var t := Print(v, 0, fmt);
    hide Print, Printable, Stands;
    NodesExist(f);
    var p := new PrintBuffer(prebuffer);
    PrintValue(p, item, 0, fmt, f, v, t);
    out := p.buffer;
    assert "" + t == t;
  }
}
