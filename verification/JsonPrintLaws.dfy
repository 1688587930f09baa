/** What the printers rely on: printed text holds no terminator, and the space computed beforehand is enough. */
module JsonPrintLaws {
  import opened JsonTree
  import opened JsonNumber
  import opened JsonString
  import opened JsonText

  lemma EscapeNulFree(c: char)
    requires c != NUL
    ensures NulFree(Escape(c))
  {
    if |Escape(c)| == 6 {
      HexBack(c as nat / 16);
      HexBack(c as nat % 16);
    }
  }

  lemma {:induction false} EscapeAllNulFree(s: string)
    requires NulFree(s)
    ensures NulFree(EscapeAll(s))
  {
    if s != [] {
      EscapeNulFree(s[0]);
      EscapeAllNulFree(s[1..]);
    }
  }

  lemma StringNulFree(s: string)
    requires NulFree(s)
    ensures NulFree(PrintString(s))
  {
    EscapeAllNulFree(s);
  }

  lemma ConcatNulFree(a: string, b: string)
    ensures NulFree(a + b) <==> NulFree(a) && NulFree(b)
  {
    if NulFree(a + b) {
      assert forall k | 0 <= k < |a| :: (a + b)[k] == a[k];
      assert forall k | 0 <= k < |b| :: (a + b)[|a| + k] == b[k];
    }
  }

  lemma IntNulFree(n: int)
    ensures NulFree(PrintInt(n))
  {
    forall k | 0 <= k < |PrintInt(n)| ensures PrintInt(n)[k] == '-' || IsDigit(PrintInt(n)[k]) {}
  }

  lemma {:induction false} PrintNulFree(v: Json, depth: nat, fmt: bool)
    requires Printable(v)
    ensures NulFree(Print(v, depth, fmt))
    decreases v, 2
  {
    match v
    case Arr(items) => ArrayNulFree(items, depth, fmt);
    case Obj(members) => ObjectNulFree(members, depth, fmt);
    case Str(t) => StringNulFree(t);
    case Num(m, _) => IntNulFree(m);
    case _ =>
  }

  lemma {:induction false} ArrayNulFree(items: Items, depth: nat, fmt: bool)
    requires PrintableItems(items)
    ensures NulFree(Print(Arr(items), depth, fmt))
    decreases items, 2
  {
    if items.Item? {
      ItemsNulFree(items, depth, fmt);
      hide PrintItems;
      ConcatNulFree("[", PrintItems(items, depth, fmt));
    }
  }

  lemma {:induction false} ObjectNulFree(members: Members, depth: nat, fmt: bool)
    requires PrintableMembers(members)
    ensures NulFree(Print(Obj(members), depth, fmt))
    decreases members, 2
  {
    if members.Member? {
      MembersNulFree(members, depth + 1, fmt);
      hide PrintMembers;
      ConcatNulFree("{", Only(fmt, "\n") + PrintMembers(members, depth + 1, fmt));
      ConcatNulFree(Only(fmt, "\n"), PrintMembers(members, depth + 1, fmt));
    }
  }

  lemma {:induction false} ItemsNulFree(items: Items, depth: nat, fmt: bool)
    requires items.Item? && PrintableItems(items)
    ensures NulFree(PrintItems(items, depth, fmt))
    decreases items, 0
  {
    PrintNulFree(items.head, depth + 1, fmt);
    ItemsTailNulFree(items.next, depth, fmt);
    hide Print, ItemsTail;
    ConcatNulFree(Print(items.head, depth + 1, fmt), ItemsTail(items.next, depth, fmt));
  }

  lemma {:induction false} ItemsTailNulFree(rest: Items, depth: nat, fmt: bool)
    requires PrintableItems(rest)
    ensures NulFree(ItemsTail(rest, depth, fmt))
    decreases rest, 1
  {
    if rest.Item? {
      ItemsNulFree(rest, depth, fmt);
      hide PrintItems;
      ConcatNulFree(",", Only(fmt, " ") + PrintItems(rest, depth, fmt));
      ConcatNulFree(Only(fmt, " "), PrintItems(rest, depth, fmt));
    }
  }

  lemma {:induction false} MembersNulFree(members: Members, depth: nat, fmt: bool)
    requires members.Member? && depth > 0 && PrintableMembers(members)
    ensures NulFree(PrintMembers(members, depth, fmt))
    decreases members, 0
  {
    PrintNulFree(members.value, depth, fmt);
    MembersTailNulFree(members.next, depth, fmt);
    StringNulFree(members.name);
    hide Print, MembersTail, PrintString;
    var w, p, u, h, t := Only(fmt, Tabs(depth)), PrintString(members.name), Only(fmt, "\t"),
      Print(members.value, depth, fmt), MembersTail(members.next, depth, fmt);
    assert NulFree(w) && NulFree(u) && NulFree(":");
    NamedNulFree(w, p, u, h, t);
  }

  lemma NamedNulFree(w: string, p: string, u: string, h: string, t: string)
    requires NulFree(w) && NulFree(p) && NulFree(u) && NulFree(h) && NulFree(t)
    ensures NulFree(Named(w, p, u, h + t))
  {
    ConcatNulFree(w, p + (":" + (u + (h + t))));
    ConcatNulFree(p, ":" + (u + (h + t)));
    ConcatNulFree(":", u + (h + t));
    ConcatNulFree(u, h + t);
    ConcatNulFree(h, t);
  }

  lemma {:induction false} MembersTailNulFree(rest: Members, depth: nat, fmt: bool)
    requires depth > 0 && PrintableMembers(rest)
    ensures NulFree(MembersTail(rest, depth, fmt))
    decreases rest, 1
  {
    if rest.Member? {
      MembersNulFree(rest, depth, fmt);
      hide PrintMembers;
      ConcatNulFree(",", Only(fmt, "\n") + PrintMembers(rest, depth, fmt));
      ConcatNulFree(Only(fmt, "\n"), PrintMembers(rest, depth, fmt));
    }
  }

  // ----- numbers fit in 21 characters -----

  function Pow10(k: nat): nat {
    if k == 0 then 1 else 10 * Pow10(k - 1)
  }

  lemma {:induction false} DigitsFit(n: nat, k: nat)
    requires n < Pow10(k)
    ensures |Digits(n)| <= k
    decreases k
  {
    if n > 0 {
      assert Digits(n) == Digits(n / 10) + [DigitChar(n % 10)] && k > 0 && Pow10(k) == 10 * Pow10(k - 1);
      hide Digits, Pow10;
      DigitsFit(n / 10, k - 1);
    }
  }

  lemma IntFits(n: int)
    requires INT_MIN <= n <= INT_MAX
    ensures |PrintInt(n)| <= 11
  {
    var m: nat := if n < 0 then -n else n;
    assert Pow10(5) == 100_000;
    assert Pow10(10) == 100_000 * Pow10(5);
    DigitsFit(m, 10);
  }
}
