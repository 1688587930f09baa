/** The two forms of printed text: minifying the formatted one gives the unformatted one. */
module JsonMinifyPrinted {
  import opened JsonTree
  import opened JsonNumber
  import opened JsonString
  import opened JsonText
  import opened JsonPrintLaws
  import opened JsonMinify
  import opened JsonMinifyPieces

  /** Minifying takes `t`, at `i` in the text, to `u` and goes on behind it. */
  ghost predicate Leaves(s: string, i: nat, t: string, u: string) {
    Occurs(s, i, t) ==> Min(s, i) == Prepend(u, Min(s, i + |t|))
  }

  lemma LeavesBoth(s: string, i: nat, a: string, u: string, b: string, v: string)
    requires Leaves(s, i, a, u) && Leaves(s, i + |a|, b, v)
    ensures Leaves(s, i, a + b, u + v)
  {
    OccursSplit(s, i, a, b);
    hide Min, Occurs;
    if Occurs(s, i, a + b) {
      var m := Min(s, i + |a| + |b|);
      if m.Small? { assert u + (v + m.text) == (u + v) + m.text; }
    }
  }

  lemma LeavesNothing(s: string, i: nat, t: string)
    requires forall k | 0 <= k < |t| :: t[k] in SPACES
    ensures Leaves(s, i, t, "")
    decreases |t|
  {
    if t == [] {
      NothingKept(Min(s, i));
    } else {
      assert t == [t[0]] + t[1..] && "" + "" == "";
      LeavesSpace(s, i, t[0]);
      LeavesNothing(s, i + 1, t[1..]);
      LeavesBoth(s, i, [t[0]], "", t[1..], "");
    }
  }

  lemma LeavesSpace(s: string, i: nat, c: char)
    requires c in SPACES
    ensures Leaves(s, i, [c], "")
  {
    hide Min, Prepend;
    if Occurs(s, i, [c]) {
      OneThere(s, i, c);
      SpaceTurn(s, i);
      NothingKept(Min(s, i + 1));
    }
  }

  predicate Single(c: char) {
    c !in SPACES && c != '/' && c != '\"' && c != NUL
  }

  lemma {:induction false} LeavesAll(s: string, i: nat, t: string)
    requires forall k | 0 <= k < |t| :: Single(t[k])
    ensures Leaves(s, i, t, t)
    decreases |t|
  {
    if t == [] {
      NothingKept(Min(s, i));
    } else {
      var first, rest := [t[0]], t[1..];
      assert t == first + rest && Single(t[0]);
      hide Min, Prepend, Single;
      LeavesOne(s, i, t[0]);
      LeavesAll(s, i + 1, rest);
      LeavesBoth(s, i, first, first, rest, rest);
    }
  }

  lemma LeavesOne(s: string, i: nat, c: char)
    requires Single(c)
    ensures Leaves(s, i, [c], [c])
  {
    hide Min, Prepend;
    if Occurs(s, i, [c]) {
      OneThere(s, i, c);
      OtherTurn(s, i);
    }
  }

  lemma LeavesString(s: string, i: nat, t: string)
    requires NulFree(t)
    ensures Leaves(s, i, PrintString(t), PrintString(t))
  {
    var e := EscapeAll(t);
    hide Min, EscapeAll, LiteralEnd, Unescape, Prepend;
    if Occurs(s, i, PrintString(t)) {
      assert PrintString(t) == "\"" + e + "\"";
      QuotedLayout(s, i, e);
      EscapeAllDecodes(s, i + 1, t, e);
      QuotedTurn(s, i, i + 1 + |e|);
    }
  }

  lemma LeavesWord(s: string, i: nat, t: string)
    requires t == "null" || t == "true" || t == "false" || t == "[]"
    ensures Leaves(s, i, t, t)
  {
    hide Min, Prepend;
    LeavesAll(s, i, t);
  }

  lemma LeavesInt(s: string, i: nat, n: int)
    ensures Leaves(s, i, PrintInt(n), PrintInt(n))
  {
    forall k | 0 <= k < |PrintInt(n)| ensures Single(PrintInt(n)[k]) {
      assert PrintInt(n)[k] == '-' || IsDigit(PrintInt(n)[k]);
    }
    hide *;
    LeavesAll(s, i, PrintInt(n));
  }

  /** White space that only the formatted form has. */
  lemma LeavesOnly(s: string, i: nat, fmt: bool, t: string)
    requires forall k | 0 <= k < |t| :: t[k] in SPACES
    ensures Leaves(s, i, Only(fmt, t), Only(false, t))
  {
    hide Min;
    LeavesNothing(s, i, Only(fmt, t));
  }

  // ----- trees -----

  lemma {:induction false} LeavesValue(s: string, i: nat, v: Json, depth: nat, fmt: bool)
    requires Printable(v)
    ensures Leaves(s, i, Print(v, depth, fmt), Print(v, depth, false))
    decreases v, 3
  {
    hide Leaves, PrintString, PrintInt, Tabs, SPACES;
    match v
    case Null => LeavesWord(s, i, "null");
    case True => LeavesWord(s, i, "true");
    case False => LeavesWord(s, i, "false");
    case Num(m, _) => LeavesInt(s, i, m);
    case Str(t) => LeavesString(s, i, t);
    case Arr(items) => LeavesArray(s, i, items, depth, fmt);
    case Obj(members) => LeavesObject(s, i, members, depth, fmt);
  }

  lemma {:induction false} LeavesArray(s: string, i: nat, items: Items, depth: nat, fmt: bool)
    requires PrintableItems(items)
    ensures Leaves(s, i, Print(Arr(items), depth, fmt), Print(Arr(items), depth, false))
    decreases items, 2
  {
    hide Leaves, PrintItems;
    if items.NoItems? {
      LeavesWord(s, i, "[]");
    } else {
      LeavesOne(s, i, '[');
      LeavesItems(s, i + 1, items, depth, fmt);
      LeavesBoth(s, i, "[", "[", PrintItems(items, depth, fmt), PrintItems(items, depth, false));
    }
  }

  lemma {:induction false} LeavesItems(s: string, i: nat, items: Items, depth: nat, fmt: bool)
    requires items.Item? && PrintableItems(items)
    ensures Leaves(s, i, PrintItems(items, depth, fmt), PrintItems(items, depth, false))
    decreases items, 0
  {
    hide Leaves, Print, ItemsTail;
    var head := Print(items.head, depth + 1, fmt);
    LeavesValue(s, i, items.head, depth + 1, fmt);
    LeavesItemsTail(s, i + |head|, items.next, depth, fmt);
    LeavesBoth(s, i, head, Print(items.head, depth + 1, false), ItemsTail(items.next, depth, fmt), ItemsTail(items.next, depth, false));
  }

  lemma {:induction false} LeavesItemsTail(s: string, i: nat, rest: Items, depth: nat, fmt: bool)
    requires PrintableItems(rest)
    ensures Leaves(s, i, ItemsTail(rest, depth, fmt), ItemsTail(rest, depth, false))
    decreases rest, 1
  {
    hide Leaves, PrintItems, Only;
    if rest.NoItems? {
      LeavesOne(s, i, ']');
    } else {
      var w, x := Only(fmt, " "), PrintItems(rest, depth, fmt);
      LeavesOne(s, i, ',');
      LeavesOnly(s, i + 1, fmt, " ");
      LeavesItems(s, i + 1 + |w|, rest, depth, fmt);
      LeavesBoth(s, i + 1, w, Only(false, " "), x, PrintItems(rest, depth, false));
      LeavesBoth(s, i, ",", ",", w + x, Only(false, " ") + PrintItems(rest, depth, false));
    }
  }

  lemma TabsAreSpaces(n: nat)
    ensures forall k | 0 <= k < |Tabs(n)| :: Tabs(n)[k] == '\t' && Tabs(n)[k] in SPACES
    ensures forall k | 0 <= k < |"\n" + Tabs(n)| :: ("\n" + Tabs(n))[k] in SPACES
  {
  }

  lemma {:induction false} LeavesObject(s: string, i: nat, members: Members, depth: nat, fmt: bool)
    requires PrintableMembers(members)
    ensures Leaves(s, i, Print(Obj(members), depth, fmt), Print(Obj(members), depth, false))
    decreases members, 2
  {
    hide Leaves, PrintMembers, Only, Tabs, SPACES;
    LeavesBrace(s, i);
    if members.NoMembers? {
      TabsAreSpaces(depth);
      LeavesClose(s, i + 1, "\n" + Tabs(depth), fmt);
      LeavesBoth(s, i, "{", "{", Only(fmt, "\n" + Tabs(depth)) + "}", Only(false, "\n" + Tabs(depth)) + "}");
    } else {
      var w, x := Only(fmt, "\n"), PrintMembers(members, depth + 1, fmt);
      NewlineOnly(s, i + 1, fmt);
      LeavesMembers(s, i + 1 + |w|, members, depth + 1, fmt);
      LeavesBoth(s, i + 1, w, Only(false, "\n"), x, PrintMembers(members, depth + 1, false));
      LeavesBoth(s, i, "{", "{", w + x, Only(false, "\n") + PrintMembers(members, depth + 1, false));
    }
  }

  lemma NewlineOnly(s: string, i: nat, fmt: bool)
    ensures Leaves(s, i, Only(fmt, "\n"), Only(false, "\n"))
    ensures Leaves(s, i, Only(fmt, "\t"), Only(false, "\t"))
  {
    hide Leaves, Only;
    LeavesOnly(s, i, fmt, "\n");
    LeavesOnly(s, i, fmt, "\t");
  }

  lemma LeavesClose(s: string, i: nat, w: string, fmt: bool)
    requires forall k | 0 <= k < |w| :: w[k] in SPACES
    ensures Leaves(s, i, Only(fmt, w) + "}", Only(false, w) + "}")
  {
    hide Leaves, Only, SPACES;
    LeavesOnly(s, i, fmt, w);
    LeavesBrace(s, i + |Only(fmt, w)|);
    LeavesBoth(s, i, Only(fmt, w), Only(false, w), "}", "}");
  }

  lemma LeavesBrace(s: string, i: nat)
    ensures Leaves(s, i, "{", "{") && Leaves(s, i, "}", "}") && Leaves(s, i, ":", ":") && Leaves(s, i, ",", ",")
  {
    hide Leaves;
    LeavesOne(s, i, '{');
    LeavesOne(s, i, '}');
    LeavesOne(s, i, ':');
    LeavesOne(s, i, ',');
  }

  lemma {:induction false} LeavesMembers(s: string, i: nat, members: Members, depth: nat, fmt: bool)
    requires members.Member? && depth > 0 && PrintableMembers(members)
    ensures Leaves(s, i, PrintMembers(members, depth, fmt), PrintMembers(members, depth, false))
    decreases members, 0
  {
    hide Leaves, Print, MembersTail, PrintString, Only, Tabs, SPACES, Named;
    var w, p, u := Only(fmt, Tabs(depth)), PrintString(members.name), Only(fmt, "\t");
    var h, t := Print(members.value, depth, fmt), MembersTail(members.next, depth, fmt);
    var a: nat := i + |w| + |p| + 1 + |u|;
    TabsAreSpaces(depth);
    LeavesOnly(s, i, fmt, Tabs(depth));
    LeavesString(s, i + |w|, members.name);
    LeavesBrace(s, i + |w| + |p|);
    NewlineOnly(s, i + |w| + |p| + 1, fmt);
    LeavesValue(s, a, members.value, depth, fmt);
    LeavesMembersTail(s, a + |h|, members.next, depth, fmt);
    LeavesBoth(s, a, h, Print(members.value, depth, false), t, MembersTail(members.next, depth, false));
    LeavesNamed(s, i, w, Only(false, Tabs(depth)), p, u, Only(false, "\t"), h + t,
                Print(members.value, depth, false) + MembersTail(members.next, depth, false));
  }

  lemma LeavesNamed(s: string, i: nat, w: string, w': string, p: string, u: string, u': string, r: string, r': string)
    requires Leaves(s, i, w, w') && Leaves(s, i + |w|, p, p) && Leaves(s, i + |w| + |p|, ":", ":")
    requires Leaves(s, i + |w| + |p| + 1, u, u') && Leaves(s, i + |w| + |p| + 1 + |u|, r, r')
    ensures Leaves(s, i, Named(w, p, u, r), Named(w', p, u', r'))
  {
    hide Leaves;
    LeavesBoth(s, i + |w| + |p| + 1, u, u', r, r');
    LeavesBoth(s, i + |w| + |p|, ":", ":", u + r, u' + r');
    LeavesBoth(s, i + |w|, p, p, ":" + (u + r), ":" + (u' + r'));
    LeavesBoth(s, i, w, w', p + (":" + (u + r)), p + (":" + (u' + r')));
  }

  lemma {:induction false} LeavesMembersTail(s: string, i: nat, rest: Members, depth: nat, fmt: bool)
    requires depth > 0 && PrintableMembers(rest)
    ensures Leaves(s, i, MembersTail(rest, depth, fmt), MembersTail(rest, depth, false))
    decreases rest, 1
  {
    hide Leaves, PrintMembers, Only, Tabs, SPACES;
    if rest.NoMembers? {
      TabsAreSpaces(depth - 1);
      LeavesClose(s, i, "\n" + Tabs(depth - 1), fmt);
    } else {
      var w, x := Only(fmt, "\n"), PrintMembers(rest, depth, fmt);
      LeavesBrace(s, i);
      NewlineOnly(s, i + 1, fmt);
      LeavesMembers(s, i + 1 + |w|, rest, depth, fmt);
      LeavesBoth(s, i + 1, w, Only(false, "\n"), x, PrintMembers(rest, depth, false));
      LeavesBoth(s, i, ",", ",", w + x, Only(false, "\n") + PrintMembers(rest, depth, false));
    }
  }

  /** Minifying printed text, formatted or not and at any depth, gives the unformatted text. */
  lemma MinifyPrinted(v: Json, depth: nat, fmt: bool)
    requires Printable(v)
    ensures Min(Print(v, depth, fmt), 0) == Small(Print(v, depth, false))
  {
    hide Print, Min;
    var s := Print(v, depth, fmt);
    LeavesValue(s, 0, v, depth, fmt);
    assert s[0..|s|] == s;
    EmptyMin(s);
    assert Print(v, depth, false) + "" == Print(v, depth, false);
  }
}
