/** On which texts `cJSON_Minify` stays inside its buffer: on all that parse up to their terminator, except for a lone
    string whose closing quote is missing, which the parser tolerates. */
module JsonMinifyDefined {
  import opened JsonTree
  import opened JsonNumber
  import opened JsonString
  import opened JsonText
  import opened JsonMinify
  import opened JsonRoundTrip
  import opened JsonMinifyMeaning

  /** Between `i` and `e` there is nothing to run past the terminator on. */
  ghost predicate Keeps(s: string, i: nat, e: nat) {
    Min(s, e).Small? ==> Min(s, i).Small?
  }

  lemma KeepsOne(s: string, i: nat)
    requires i < |s| && Ordinary(s[i])
    ensures Keeps(s, i, i + 1)
  {
  }

  lemma {:induction false} KeepsRun(s: string, i: nat, n: nat)
    requires forall k: nat :: k < n ==> OrdinaryAt(s, i, k)
    ensures Keeps(s, i, i + n)
    decreases n
  {
    if n > 0 {
      assert OrdinaryAt(s, i, n - 1);
      KeepsRun(s, i, n - 1);
      KeepsOne(s, i + (n - 1));
    }
  }

  lemma {:induction false} KeepsSpace(s: string, i: nat)
    ensures Keeps(s, i, SkipSpace(s, i))
    decreases |s| - i
  {
    if i < |s| && NUL < s[i] <= ' ' { KeepsSpace(s, i + 1); }
  }

  /** A literal keeps exactly where it is closed. */
  lemma KeepsLiteral(s: string, i: nat, text: string, end: nat)
    requires ParseString(s, i) == Ok(text, end)
    ensures At(s, LiteralEnd(s, i + 1)) == '\"' ==> Keeps(s, i, end)
    ensures At(s, LiteralEnd(s, i + 1)) != '\"' ==> Min(s, i).Overrun? && SkipSpace(s, end) == end && At(s, end) == NUL
  {
    hide Unescape;
    LiteralStops(s, i + 1);
  }

  lemma {:induction false} LiteralStops(s: string, i: nat)
    ensures At(s, LiteralEnd(s, i)) == '\"' || At(s, LiteralEnd(s, i)) == NUL
    decreases |s| - i
  {
    if i < |s| && s[i] != '\"' && s[i] != NUL { LiteralStops(s, if s[i] == '\\' then i + 2 else i + 1); }
  }

  lemma KeepsWord(s: string, i: nat, w: string)
    requires Occurs(s, i, w) && forall k :: 0 <= k < |w| ==> Ordinary(w[k])
    ensures Keeps(s, i, i + |w|)
  {
    forall k: nat | k < |w| ensures OrdinaryAt(s, i, k) { OccursAt(s, i, w, k); }
    KeepsRun(s, i, |w|);
  }

  lemma KeepsNumber(s: string, i: nat)
    requires ParseNumber(s, i).1 >= i
    ensures Keeps(s, i, ParseNumber(s, i).1)
  {
    var n := ParseNumber(s, i).1 - i;
    forall k: nat | k < n ensures OrdinaryAt(s, i, k) { NumberChars(s, i, i + k); }
    KeepsRun(s, i, n);
  }

  lemma KeepsScalar(s: string, i: nat, v: Json, e: nat)
    requires i <= |s| && ParseValue(s, i) == Ok(v, e) && !v.Arr? && !v.Obj?
    requires At(s, SkipSpace(s, e)) != NUL || !v.Str? || At(s, LiteralEnd(s, i + 1)) == '\"'
    ensures Keeps(s, i, e)
  {
    hide ParseArray, ParseObject, ParseString, ParseNumber, Min, SkipSpace;
    if Occurs(s, i, "null") {
      KeepsWord(s, i, "null");
    } else if Occurs(s, i, "false") {
      KeepsWord(s, i, "false");
    } else if Occurs(s, i, "true") {
      KeepsWord(s, i, "true");
    } else if At(s, i) == '\"' {
      KeepsLiteral(s, i, v.text, e);
    } else {
      KeepsNumber(s, i);
    }
  }

  lemma {:induction false} KeepsItems(s: string, i: nat, items: Items, e: nat)
    requires i <= |s| && ParseItems(s, i) == Ok(items, e)
    ensures Keeps(s, i, e)
    decreases |s| - i, 2
  {
    hide ParseItems, ParseValue, SkipSpace, Min;
    var a, end, c := ItemsParts(s, i, items, e);
    KeepsSpace(s, i);
    KeepsValue(s, a, items.head, end);
    KeepsSpace(s, end);
    KeepsOne(s, c);
    if items.next.Item? { KeepsItems(s, c + 1, items.next, e); }
  }

  lemma {:induction false} KeepsMembers(s: string, i: nat, members: Members, e: nat)
    requires i <= |s| && ParseMembers(s, i) == Ok(members, e)
    ensures Keeps(s, i, e)
    decreases |s| - i, 2
  {
    hide ParseMembers, ParseValue, SkipSpace, Min, ParseName;
    var from, x, end, c := MembersParts(s, i, members, e);
    KeepsName(s, i, members.name, from);
    KeepsSpace(s, from);
    KeepsValue(s, x, members.value, end);
    KeepsSpace(s, end);
    KeepsOne(s, c);
    if members.next.Member? { KeepsMembers(s, c + 1, members.next, e); }
  }

  lemma KeepsName(s: string, i: nat, name: string, from: nat)
    requires i <= |s| && ParseName(s, i) == Ok(name, from)
    ensures Keeps(s, i, from)
  {
    var a, q := NameParts(s, i, name, from);
    hide ParseString, SkipSpace, Min, LiteralEnd;
    KeepsSpace(s, i);
    KeepsLiteral(s, a, name, q);
    KeepsSpace(s, q);
    KeepsOne(s, from - 1);
  }

  lemma {:induction false} KeepsValue(s: string, i: nat, v: Json, e: nat)
    requires i <= |s| && ParseValue(s, i) == Ok(v, e)
    requires At(s, SkipSpace(s, e)) != NUL || !v.Str? || At(s, LiteralEnd(s, i + 1)) == '\"'
    ensures Keeps(s, i, e)
    decreases |s| - i, 1
  {
    hide ParseValue, ParseItems, ParseMembers, SkipSpace, Min, LiteralEnd;
    if v.Arr? {
      var a := ArrayParts(s, i, v.items, e);
      KeepsOne(s, i);
      KeepsSpace(s, i + 1);
      if v.items.Item? { KeepsItems(s, a, v.items, e); } else { KeepsOne(s, a); }
    } else if v.Obj? {
      var a := ObjectParts(s, i, v.members, e);
      KeepsOne(s, i);
      KeepsSpace(s, i + 1);
      if v.members.Member? { KeepsMembers(s, a, v.members, e); } else { KeepsOne(s, a); }
    } else {
      KeepsScalar(s, i, v, e);
    }
  }

  /** The whole text is one string without its closing quote. */
  predicate UnclosedString(s: string) {
    var a := SkipSpace(s, 0);
    At(s, a) == '\"' && At(s, LiteralEnd(s, a + 1)) != '\"'
  }

  lemma {:induction false} OverrunBehindSpace(s: string, i: nat)
    requires Min(s, SkipSpace(s, i)).Overrun?
    ensures Min(s, i).Overrun?
    decreases |s| - i
  {
    if i < |s| && NUL < s[i] <= ' ' { OverrunBehindSpace(s, i + 1); }
  }

  /** Such a text: a quote and one letter.  It parses, and minifying it runs past the terminator. */
  lemma UnclosedTextOverruns()
    ensures ParseText("\"a", true) == Ok(Str("a"), 2) && Min("\"a", 0).Overrun? && UnclosedString("\"a")
  {
    var s := "\"a";
    assert SkipSpace(s, 0) == 0 && LiteralEnd(s, 1) == 2;
    assert UnitAt(s, 1, 2) == Unit("a", 2);
    UnescapeStep(s, 1, 2, 'a', 2, "");
    assert ['a'] + "" == "a" && Unescape(s, 1, 2) == Text("a");
    assert At(s, 0) == '\"' && At(s, 2) == NUL;
    assert ParseString(s, 0) == Ok("a", 2);
  }

  /** Among the texts that parse up to their terminator, minifying runs past it exactly on a lone unclosed string; all
      others parse to the same tree afterwards. */
  lemma MinifyParsed(s: string, v: Json, e: nat)
    requires ParseText(s, true) == Ok(v, e)
    ensures Min(s, 0).Small? <==> !UnclosedString(s)
    ensures !UnclosedString(s) ==> ParseText(Min(s, 0).text, true).Ok? && ParseText(Min(s, 0).text, true).value == v
  {
    var a := SkipSpace(s, 0);
    var r := ParseValue(s, a);
    assert r == Ok(v, r.end) && SkipSpace(s, r.end) == e && At(s, e) == NUL;
    if UnclosedString(s) {
      StringAt(s, a, v, r.end);
      KeepsLiteral(s, a, v.text, r.end);
      OverrunBehindSpace(s, 0);
    } else {
      assert Min(s, e) == Small("");
      if v.Str? { StringAt(s, a, v, r.end); }
      hide ParseText, ParseValue, Min, SkipSpace;
      KeepsSpace(s, 0);
      KeepsValue(s, a, v, r.end);
      KeepsSpace(s, r.end);
      MinifyPreservesMeaning(s, v, e);
    }
  }

  lemma StringAt(s: string, i: nat, v: Json, e: nat)
    requires i <= |s| && ParseValue(s, i) == Ok(v, e)
    ensures v.Str? <==> At(s, i) == '\"'
    ensures v.Str? ==> ParseString(s, i) == Ok(v.text, e)
  {
    hide ParseString, ParseNumber, ParseArray, ParseObject;
    if At(s, i) == '\"' { NoLiteralName(s, i); }
  }
}
