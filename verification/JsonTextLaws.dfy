/** White space around and behind a JSON text, what else follows it, and where reading leaves the text. */
module JsonTextLaws {
  import opened JsonTree
  import opened JsonNumber
  import opened JsonString
  import opened JsonText
  import opened JsonRoundTrip

  /** What the parser takes for white space: every character up to the space, but not the terminator. */
  predicate Gap(s: string, i: nat, j: nat) {
    i <= j <= |s| && forall k | i <= k < j :: 1 <= s[k] as int <= 32
  }

  lemma {:induction false} SkipSpaceExactly(s: string, i: nat, j: nat)
    requires i <= |s|
    ensures j == SkipSpace(s, i) <==> Gap(s, i, j) && !(1 <= At(s, j) as int <= 32)
    decreases |s| - i
  {
    if i < |s| && 1 <= s[i] as int <= 32 { SkipSpaceExactly(s, i + 1, j); }
  }

  /** A printed tree with white space around it, and whatever else behind that: the text is read as the tree, and where the
      end of the text is required, if and only if there is nothing else. */
  lemma SurroundedText(s: string, a: nat, b: nat, c: nat, v: Json, depth: nat, fmt: bool)
    requires Printable(v) && Gap(s, 0, a) && Occurs(s, a, Print(v, depth, fmt)) && b == a + |Print(v, depth, fmt)|
    requires Gap(s, b, c) && !(1 <= At(s, c) as int <= 32) && (b == c ==> EndsNumber(At(s, b)))
    ensures ParseText(s, false) == Ok(v, b)
    ensures ParseText(s, true) == if At(s, c) == NUL then Ok(v, c) else Fail
  {
    hide Print, Occurs, Printable, ParseValue, SkipSpace;
    assert b < c ==> EndsNumber(s[b]);
    PrintedFirst(s, a, v, depth, fmt);
    SkipSpaceExactly(s, 0, a);
    SkipSpaceExactly(s, b, c);
    ValueBack(s, a, v, depth, fmt, Print(v, depth, fmt), b);
  }

  lemma PrintedFirst(s: string, a: nat, v: Json, depth: nat, fmt: bool)
    requires Printable(v) && Occurs(s, a, Print(v, depth, fmt))
    ensures |Print(v, depth, fmt)| > 0 && !(1 <= At(s, a) as int <= 32)
  {
    OccursAt(s, a, Print(v, depth, fmt), 0);
  }
}
