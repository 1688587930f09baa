/** A text that parses, up to its terminator, parses to the same tree after `cJSON_Minify`. */
module JsonMinifyMeaning {
  import opened JsonTree
  import opened JsonNumber
  import opened JsonString
  import opened JsonText
  import opened JsonMinify
  import opened JsonRoundTrip

  /** From `j` on, `m` is what minifying leaves of `s` from `i` on. */
  ghost predicate Suffix(m: string, j: nat, s: string, i: nat) {
    i <= |s| && j <= |m| && Min(s, i) == Small(m[j..])
  }

  // ----- copied pieces -----

  /** Characters that are copied one by one. */
  predicate Ordinary(c: char) {
    !White(c) && c != '/' && c != '\"' && c != NUL
  }

  predicate Twin(m: string, j: nat, s: string, i: nat, k: nat) {
    At(m, j + k) == At(s, i + k)
  }

  /** The `n` characters at the two positions are the same. */
  ghost predicate Same(m: string, j: nat, s: string, i: nat, n: nat) {
    forall k: nat :: k < n ==> Twin(m, j, s, i, k)
  }

  predicate OrdinaryAt(s: string, i: nat, k: nat) {
    Ordinary(At(s, i + k))
  }

  lemma CopiedOne(m: string, j: nat, s: string, i: nat)
    requires Suffix(m, j, s, i) && i < |s| && Ordinary(s[i])
    ensures Suffix(m, j + 1, s, i + 1) && At(m, j) == At(s, i)
  {
    var rest := Min(s, i + 1).text;
    assert m[j..] == [s[i]] + rest;
    assert m[j..][0] == m[j] && m[j..][1..] == m[j + 1..] == rest;
  }

  lemma {:induction false} CopiedRun(m: string, j: nat, s: string, i: nat, n: nat)
    requires Suffix(m, j, s, i) && forall k: nat :: k < n ==> OrdinaryAt(s, i, k)
    ensures Suffix(m, j + n, s, i + n) && Same(m, j, s, i, n)
    decreases n
  {
    if n > 0 {
      CopiedRun(m, j, s, i, n - 1);
      assert OrdinaryAt(s, i, n - 1);
      CopiedOne(m, j + (n - 1), s, i + (n - 1));
    }
  }

  lemma CopiedLiteral(m: string, j: nat, s: string, i: nat, e: nat)
    requires Suffix(m, j, s, i) && At(s, i) == '\"' && e == LiteralEnd(s, i + 1)
    ensures At(s, e) == '\"' && e < |s| && Suffix(m, j + (e + 1 - i), s, e + 1) && Same(m, j, s, i, e + 1 - i)
  {
    var lit, rest := s[i..e + 1], Min(s, e + 1).text;
    var n, t := e + 1 - i, m[j..];
    assert t == lit + rest && |lit| == n;
    hide Min, LiteralEnd;
    assert m[j + n..] == t[n..] == rest;
    forall k: nat | k < n ensures Twin(m, j, s, i, k) { assert m[j + k] == t[k] == lit[k] == s[i + k]; }
  }

  // ----- white space -----

  /** Behind white space, as the parser skips it, both texts go on with the same character. */
  lemma {:induction false} SpaceMin(m: string, j: nat, s: string, i: nat) returns (b: nat)
    requires Suffix(m, j, s, i) && At(s, SkipSpace(s, i)) != '/'
    ensures b == SkipSpace(m, j) && Suffix(m, b, s, SkipSpace(s, i)) && At(m, b) == At(s, SkipSpace(s, i))
    decreases |s| - i
  {
    if i < |s| && NUL < s[i] <= ' ' {
      if White(s[i]) {
        b := SpaceMin(m, j, s, i + 1);
      } else {
        CopiedOne(m, j, s, i);
        b := SpaceMin(m, j + 1, s, i + 1);
      }
    } else {
      b := j;
      if i < |s| && s[i] != NUL {
        if s[i] == '\"' {
          CopiedLiteral(m, j, s, i, LiteralEnd(s, i + 1));
          assert Twin(m, j, s, i, 0);
        } else {
          CopiedOne(m, j, s, i);
        }
      }
    }
  }

  // ----- numbers -----

  predicate NumberChar(c: char) {
    IsDigit(c) || c == '.' || c == 'e' || c == 'E' || c == '+' || c == '-'
  }

  lemma {:induction false} DigitsTwin(m: string, j: nat, s: string, i: nat, n: nat, k: nat, acc: nat)
    requires Same(m, j, s, i, n) && k <= n && DigitsEnd(s, i + k) <= i + n
    requires !NumberChar(At(s, i + n)) && !NumberChar(At(m, j + n))
    requires forall l | i + k <= l < DigitsEnd(s, i + k) :: IsDigit(At(s, l))
    ensures DigitsEnd(m, j + k) + i == DigitsEnd(s, i + k) + j
    ensures forall l | j + k <= l < DigitsEnd(m, j + k) :: IsDigit(At(m, l))
    ensures DigitsValue(m, j + k, DigitsEnd(m, j + k), acc) == DigitsValue(s, i + k, DigitsEnd(s, i + k), acc)
    decreases n - k
  {
    if k < n {
      assert Twin(m, j, s, i, k);
      if IsDigit(At(s, i + k)) { DigitsTwin(m, j, s, i, n, k + 1, acc * 10 + DigitValue(At(s, i + k))); }
    }
  }

  lemma WholeTwin(m: string, j: nat, s: string, i: nat, n: nat)
    requires Same(m, j, s, i, n) && ParseWhole(s, i).2 <= i + n
    requires !NumberChar(At(s, i + n)) && !NumberChar(At(m, j + n))
    ensures var a, b := ParseWhole(s, i), ParseWhole(m, j); b.0 == a.0 && b.1 == a.1 && b.2 + i == a.2 + j
  {
    hide Same, DigitsEnd, DigitsValue, ParseWhole;
    CharTwin(m, j, s, i, n, 0);
    var a := if At(s, i) == '-' then 1 else 0;
    CharTwin(m, j, s, i, n, a);
    var b := if At(s, i + a) == '0' then a + 1 else a;
    CharTwin(m, j, s, i, n, b);
    DigitsAreDigits(s, i + b);
    DigitsAreDigits(m, j + b);
    WholeParts(s, i, a, b);
    WholeParts(m, j, a, b);
    if '1' <= At(s, i + b) <= '9' { DigitsTwin(m, j, s, i, n, b, 0); }
  }

  lemma WholeParts(s: string, i: nat, a: nat, b: nat)
    requires a == (if At(s, i) == '-' then 1 else 0) && b == (if At(s, i + a) == '0' then a + 1 else a)
    requires forall k | i + b <= k < DigitsEnd(s, i + b) :: IsDigit(At(s, k))
    ensures
      var digits := '1' <= At(s, i + b) <= '9';
      ParseWhole(s, i) == (At(s, i) == '-', if digits then DigitsValue(s, i + b, DigitsEnd(s, i + b), 0) else 0,
                           if digits then DigitsEnd(s, i + b) else i + b)
  {
    hide DigitsEnd, DigitsValue;
  }

  /** Up to the end of a lexeme both texts show the same characters, as far as a number is concerned. */
  lemma CharTwin(m: string, j: nat, s: string, i: nat, n: nat, k: nat)
    requires Same(m, j, s, i, n) && k <= n && !NumberChar(At(s, i + n)) && !NumberChar(At(m, j + n))
    ensures At(m, j + k) == At(s, i + k) || (!NumberChar(At(m, j + k)) && !NumberChar(At(s, i + k)))
  {
    if k < n { assert Twin(m, j, s, i, k); }
  }

  lemma FractionTwin(m: string, j: nat, s: string, i: nat, n: nat, c: nat, whole: nat)
    requires Same(m, j, s, i, n) && c <= n && ParseFraction(s, i + c, whole).2 <= i + n
    requires !NumberChar(At(s, i + n)) && !NumberChar(At(m, j + n))
    ensures
      var a, b := ParseFraction(s, i + c, whole), ParseFraction(m, j + c, whole);
      b.0 == a.0 && b.1 == a.1 && b.2 + i == a.2 + j
  {
    if c < n {
      assert Twin(m, j, s, i, c);
      assert c + 1 < n ==> Twin(m, j, s, i, c + 1);
      DigitsAreDigits(s, i + c + 1);
      if At(s, i + c) == '.' && IsDigit(At(s, i + c + 1)) { DigitsTwin(m, j, s, i, n, c + 1, whole); }
    }
  }

  lemma ExponentTwin(m: string, j: nat, s: string, i: nat, n: nat, k: nat)
    requires Same(m, j, s, i, n) && k <= n && ParseExponent(s, i + k).1 == i + n
    requires !NumberChar(At(s, i + n)) && !NumberChar(At(m, j + n))
    ensures ParseExponent(m, j + k) == (ParseExponent(s, i + k).0, j + n)
  {
    if k < n {
      assert Twin(m, j, s, i, k);
      var e := if At(s, i + k + 1) == '+' || At(s, i + k + 1) == '-' then k + 2 else k + 1;
      assert k + 1 < n ==> Twin(m, j, s, i, k + 1);
      DigitsAreDigits(s, i + e);
      DigitsTwin(m, j, s, i, n, e, 0);
    }
  }

  /** The lexeme of a number means the same number wherever it is cut off by something that is not part of one. */
  lemma NumberTwin(m: string, j: nat, s: string, i: nat, n: nat)
    requires Same(m, j, s, i, n) && ParseNumber(s, i).1 == i + n
    requires !NumberChar(At(s, i + n)) && !NumberChar(At(m, j + n))
    ensures ParseNumber(m, j) == (ParseNumber(s, i).0, j + n)
  {
    hide ParseWhole, ParseFraction, ParseExponent;
    var (neg, whole, c) := ParseWhole(s, i);
    var (all, scale, d) := ParseFraction(s, c, whole);
    WholeTwin(m, j, s, i, n);
    FractionTwin(m, j, s, i, n, c - i, whole);
    ExponentTwin(m, j, s, i, n, d - i);
  }

  lemma NumberChars(s: string, i: nat, k: nat)
    requires i <= k < ParseNumber(s, i).1
    ensures Ordinary(At(s, k))
  {
    var (neg, whole, c) := ParseWhole(s, i);
    var (all, scale, d) := ParseFraction(s, c, whole);
    if k < c { WholeChars(s, i, k); }
    else if k < d { FractionChars(s, c, whole, k); }
    else { ExponentChars(s, d, k); }
  }

  lemma WholeChars(s: string, i: nat, k: nat)
    requires i <= k < ParseWhole(s, i).2
    ensures Ordinary(At(s, k))
  {
    var a := if At(s, i) == '-' then i + 1 else i;
    var b := if At(s, a) == '0' then a + 1 else a;
    DigitsAreDigits(s, b);
  }

  lemma FractionChars(s: string, c: nat, whole: nat, k: nat)
    requires c <= k < ParseFraction(s, c, whole).2
    ensures Ordinary(At(s, k))
  {
    DigitsAreDigits(s, c + 1);
  }

  lemma ExponentChars(s: string, d: nat, k: nat)
    requires d <= k < ParseExponent(s, d).1
    ensures Ordinary(At(s, k))
  {
    var e := if At(s, d + 1) == '+' || At(s, d + 1) == '-' then d + 2 else d + 1;
    DigitsAreDigits(s, e);
  }

  // ----- strings -----

  lemma {:induction false} EndTwin(m: string, j: nat, s: string, i: nat, n: nat, k: nat)
    requires Same(m, j, s, i, n) && k < n && LiteralEnd(s, i + k) == i + n - 1 && At(s, i + n - 1) == '\"'
    ensures LiteralEnd(m, j + k) == j + n - 1 && At(m, j + n - 1) == '\"'
    decreases n - k
  {
    assert Twin(m, j, s, i, k) && Twin(m, j, s, i, n - 1);
    if k < n - 1 {
      EndTwin(m, j, s, i, n, if At(s, i + k) == '\\' then k + 2 else k + 1);
    }
  }

  lemma Hex4Twin(m: string, j: nat, s: string, i: nat, n: nat, k: nat)
    requires Same(m, j, s, i, n) && k + 4 <= n
    ensures Hex4(m, j + k) == Hex4(s, i + k)
  {
    assert Twin(m, j, s, i, k) && Twin(m, j, s, i, k + 1) && Twin(m, j, s, i, k + 2) && Twin(m, j, s, i, k + 3);
  }

  function Shifted(u: Unit, j: nat, i: nat): Unit
    requires u.Unit? ==> u.next + j >= i
  {
    match u case Bad => Bad case Unit(t, next) => Unit(t, next + j - i)
  }

  lemma UnicodeTwin(m: string, j: nat, s: string, i: nat, n: nat, k: nat)
    requires Same(m, j, s, i, n) && k < n
    ensures UnicodeUnit(m, j + k, j + n - 1) == Shifted(UnicodeUnit(s, i + k, i + n - 1), j, i)
  {
    if k + 4 < n - 1 {
      Hex4Twin(m, j, s, i, n, k + 1);
      if k + 10 <= n - 1 {
        Hex4Twin(m, j, s, i, n, k + 7);
        assert Twin(m, j, s, i, k + 5) && Twin(m, j, s, i, k + 6);
      }
      hide Hex4, Utf8;
    }
  }

  lemma UnitTwin(m: string, j: nat, s: string, i: nat, n: nat, k: nat)
    requires Same(m, j, s, i, n) && k < n - 1
    ensures UnitAt(m, j + k, j + n - 1) == Shifted(UnitAt(s, i + k, i + n - 1), j, i)
  {
    hide UnicodeUnit;
    assert Twin(m, j, s, i, k) && Twin(m, j, s, i, k + 1);
    hide Same;
    UnicodeTwin(m, j, s, i, n, k + 1);
  }

  lemma UnescapeUnit(s: string, p: nat, end: nat, u: Unit, rest: Text)
    requires p < end && UnitAt(s, p, end) == u && (u.Unit? ==> Unescape(s, u.next, end) == rest)
    ensures Unescape(s, p, end) ==
            if u.Bad? || rest.BadText? then BadText else Text(u.text + rest.text)
  {
    hide UnitAt;
  }

  /** The same with absolute positions. */
  lemma UnitBeside(m: string, j: nat, s: string, i: nat, n: nat, p: nat, q: nat, e: nat, f: nat) returns (u: Unit, v: Unit)
    requires Same(m, j, s, i, n) && i <= p < e && p + j == q + i && e == i + n - 1 && f == j + n - 1
    ensures u == UnitAt(s, p, e) && v == UnitAt(m, q, f) && u.Unit? == v.Unit?
    ensures u.Unit? ==> u.text == v.text && u.next + j == v.next + i && p < u.next && q < v.next
  {
    hide Same, UnitAt;
    var k := p - i;
    UnitTwin(m, j, s, i, n, k);
    assert i + k == p && j + k == q;
    u, v := UnitAt(s, p, e), UnitAt(m, q, f);
    assert v == Shifted(u, j, i);
  }

  lemma {:induction false} UnescapeTwin(m: string, j: nat, s: string, i: nat, n: nat, p: nat, q: nat, e: nat, f: nat)
    requires Same(m, j, s, i, n) && i <= p && p + j == q + i && e == i + n - 1 && f == j + n - 1
    ensures Unescape(m, q, f) == Unescape(s, p, e)
    decreases if p < e then e - p else 0
  {
    if p < e {
      hide *;
      var u, v := UnitBeside(m, j, s, i, n, p, q, e, f);
      var rest := if u.Unit? then Unescape(s, u.next, e) else BadText;
      if u.Unit? { UnescapeTwin(m, j, s, i, n, u.next, v.next, e, f); }
      UnescapeUnit(s, p, e, u, rest);
      UnescapeUnit(m, q, f, v, rest);
    }
  }

  /** A closed literal that is copied verbatim decodes to the same string. */
  lemma StringMin(m: string, j: nat, s: string, i: nat, text: string, end: nat) returns (b: nat)
    requires Suffix(m, j, s, i) && ParseString(s, i) == Ok(text, end)
    ensures ParseString(m, j) == Ok(text, b) && Suffix(m, b, s, end) && At(m, j) == '\"'
  {
    var e := LiteralEnd(s, i + 1);
    var n := e + 1 - i;
    CopiedLiteral(m, j, s, i, e);
    b := j + n;
    hide Min;
    StringTwin(m, j, s, i, n);
  }

  lemma StringTwin(m: string, j: nat, s: string, i: nat, n: nat)
    requires Same(m, j, s, i, n) && n > 1 && At(s, i) == '\"' && LiteralEnd(s, i + 1) == i + n - 1 && At(s, i + n - 1) == '\"'
    ensures At(m, j) == '\"'
    ensures ParseString(s, i).Ok? ==> ParseString(m, j) == Ok(ParseString(s, i).value, j + n) && ParseString(s, i).end == i + n
  {
    FirstTwin(m, j, s, i, n);
    hide *;
    EndTwin(m, j, s, i, n, 1);
    UnescapeTwin(m, j, s, i, n, i + 1, j + 1, i + n - 1, j + n - 1);
    ClosedLiteral(s, i, i + n - 1);
    ClosedLiteral(m, j, j + n - 1);
  }

  lemma FirstTwin(m: string, j: nat, s: string, i: nat, n: nat)
    requires Same(m, j, s, i, n) && n > 0
    ensures At(m, j) == At(s, i)
  {
    assert Twin(m, j, s, i, 0);
  }

  lemma ClosedLiteral(s: string, i: nat, end: nat)
    requires At(s, i) == '\"' && LiteralEnd(s, i + 1) == end && At(s, end) == '\"'
    ensures ParseString(s, i) == match Unescape(s, i + 1, end) case BadText => Fail case Text(t) => Ok(t, end + 1)
  {
    hide LiteralEnd, Unescape;
  }

  // ----- values -----

  /** What may follow a value in a text that parses. */
  predicate Separator(c: char) {
    c == ',' || c == ']' || c == '}' || c == NUL
  }

  lemma WordMin(m: string, j: nat, s: string, i: nat, w: string)
    requires Suffix(m, j, s, i) && Occurs(s, i, w) && |w| > 0 && forall k :: 0 <= k < |w| ==> Ordinary(w[k])
    ensures Occurs(m, j, w) && Suffix(m, j + |w|, s, i + |w|) && At(m, j) == w[0]
  {
    forall k: nat | k < |w| ensures OrdinaryAt(s, i, k) { OccursAt(s, i, w, k); }
    CopiedRun(m, j, s, i, |w|);
    forall k | 0 <= k < |w| ensures m[j..j + |w|][k] == w[k] {
      assert Twin(m, j, s, i, k);
      OccursAt(s, i, w, k);
    }
  }

  /** Behind a value both texts go on with something that ends a number. */
  lemma BehindNumber(m: string, b: nat, s: string, e: nat)
    requires Suffix(m, b, s, e) && Separator(At(s, SkipSpace(s, e)))
    ensures !NumberChar(At(s, e)) && !NumberChar(At(m, b))
  {
    var c := SpaceMin(m, b, s, e);
    hide Min;
  }

  lemma NumberMin(m: string, j: nat, s: string, i: nat, v: Json, e: nat) returns (b: nat)
    requires Suffix(m, j, s, i) && ParseNumber(s, i) == (v, e) && i < e && Separator(At(s, SkipSpace(s, e)))
    ensures ParseNumber(m, j) == (v, b) && Suffix(m, b, s, e) && At(m, j) == At(s, i)
  {
    var n := e - i;
    forall k: nat | k < n ensures OrdinaryAt(s, i, k) { NumberChars(s, i, i + k); }
    hide ParseNumber, Min, SkipSpace;
    CopiedRun(m, j, s, i, n);
    BehindNumber(m, j + n, s, e);
    NumberTwin(m, j, s, i, n);
    assert Twin(m, j, s, i, 0);
    b := j + n;
  }

  lemma NotWord(s: string, i: nat, w: string)
    requires |w| > 0
    ensures Occurs(s, i, w) ==> At(s, i) == w[0]
  {
    if Occurs(s, i, w) { OccursAt(s, i, w, 0); }
  }

  lemma NumberValue(s: string, i: nat, v: Json, e: nat)
    requires i <= |s| && (At(s, i) == '-' || IsDigit(At(s, i))) && ParseNumber(s, i) == (v, e)
    ensures ParseValue(s, i) == Ok(v, e)
  {
    NoLiteralName(s, i);
  }

  lemma ScalarMin(m: string, j: nat, s: string, i: nat, v: Json, e: nat) returns (b: nat)
    requires Suffix(m, j, s, i) && ParseValue(s, i) == Ok(v, e) && !v.Arr? && !v.Obj?
    requires Separator(At(s, SkipSpace(s, e)))
    ensures ParseValue(m, j) == Ok(v, b) && Suffix(m, b, s, e)
  {
    hide ParseArray, ParseObject, ParseString, ParseNumber, Min, SkipSpace;
    if At(s, i) != 'n' && At(s, i) != 'f' && At(s, i) != 't' { NoLiteralName(s, i); }
    if Occurs(s, i, "null") {
      WordMin(m, j, s, i, "null");
      b := j + 4;
    } else if Occurs(s, i, "false") {
      WordMin(m, j, s, i, "false");
      NotWord(m, j, "null");
      b := j + 5;
    } else if Occurs(s, i, "true") {
      WordMin(m, j, s, i, "true");
      NotWord(m, j, "null");
      NotWord(m, j, "false");
      b := j + 4;
    } else if At(s, i) == '\"' {
      b := StringMin(m, j, s, i, v.text, e);
      NoLiteralName(m, j);
    } else {
      b := NumberMin(m, j, s, i, v, e);
      NumberValue(m, j, v, b);
    }
  }

  // ----- arrays and objects -----

  lemma ValueStart(s: string, i: nat)
    requires i <= |s| && ParseValue(s, i).Ok?
    ensures At(s, i) != '/'
  {
    if At(s, i) == '/' { NoLiteralName(s, i); }
  }

  /** What a successful parse of an array's entries found first. */
  lemma ItemsParts(s: string, i: nat, items: Items, e: nat) returns (a: nat, end: nat, c: nat)
    requires i <= |s| && ParseItems(s, i) == Ok(items, e)
    ensures items.Item? && i <= a == SkipSpace(s, i) && a <= |s| && ParseValue(s, a) == Ok(items.head, end) && At(s, a) != '/'
    ensures a < end <= c == SkipSpace(s, end) && c < |s| && ItemsFollow(s, end, items.next, e)
    ensures At(s, c) == (if items.next.NoItems? then ']' else ',') && Separator(At(s, c))
  {
    hide ParseValue, SkipSpace;
    a := SkipSpace(s, i);
    ValueStart(s, a);
    end := ParseValue(s, a).end;
    c := SkipSpace(s, end);
  }

  lemma {:induction false} ItemsMin(m: string, j: nat, s: string, i: nat, items: Items, e: nat) returns (b: nat)
    requires Suffix(m, j, s, i) && ParseItems(s, i) == Ok(items, e)
    ensures ParseItems(m, j) == Ok(items, b) && Suffix(m, b, s, e)
    decreases |s| - i, 2
  {
    hide *;
    var a, end, c := ItemsParts(s, i, items, e);
    var at := SpaceMin(m, j, s, i);
    var behind := ValueMin(m, at, s, a, items.head, end);
    b := ItemsFollowMin(m, behind, s, end, c, items.next, e);
    ItemsStep(m, j, items.head, behind, items.next, b);
  }

  lemma {:induction false} ItemsFollowMin(m: string, j: nat, s: string, i: nat, c: nat, rest: Items, e: nat) returns (b: nat)
    requires Suffix(m, j, s, i) && ItemsFollow(s, i, rest, e) && c == SkipSpace(s, i) && i <= c < |s|
    requires At(s, c) == if rest.NoItems? then ']' else ','
    ensures ItemsFollow(m, j, rest, b) && Suffix(m, b, s, e)
    decreases |s| - i, 3
  {
    hide Min, SkipSpace, ParseItems;
    var at := SpaceMin(m, j, s, i);
    CopiedOne(m, at, s, c);
    if rest.NoItems? {
      b := at + 1;
    } else {
      b := ItemsMin(m, at + 1, s, c + 1, rest, e);
    }
  }

  /** What a successful parse of a name found. */
  lemma NameParts(s: string, i: nat, name: string, from: nat) returns (a: nat, q: nat)
    requires i <= |s| && ParseName(s, i) == Ok(name, from)
    ensures i <= a == SkipSpace(s, i) && a < q && ParseString(s, a) == Ok(name, q) && At(s, a) == '\"'
    ensures q < from <= |s| && SkipSpace(s, q) == from - 1 && At(s, from - 1) == ':' == s[from - 1] && Ordinary(':')
  {
    a := SkipSpace(s, i);
    q := ParseString(s, a).end;
    hide SkipSpace, LiteralEnd, Unescape;
  }

  /** What a successful parse of an object's entries found first. */
  lemma MembersParts(s: string, i: nat, members: Members, e: nat) returns (from: nat, x: nat, end: nat, c: nat)
    requires i <= |s| && ParseMembers(s, i) == Ok(members, e)
    ensures members.Member? && i < from <= |s| && ParseName(s, i) == Ok(members.name, from)
    ensures from <= x == SkipSpace(s, from) && x <= |s| && ParseValue(s, x) == Ok(members.value, end) && At(s, x) != '/'
    ensures x < end <= c == SkipSpace(s, end) && c < |s| && MembersFollow(s, end, members.next, e)
    ensures At(s, c) == (if members.next.NoMembers? then '}' else ',') && Separator(At(s, c))
  {
    hide ParseValue, SkipSpace, ParseName;
    from := ParseName(s, i).end;
    x := SkipSpace(s, from);
    ValueStart(s, x);
    end := ParseValue(s, x).end;
    c := SkipSpace(s, end);
  }

  lemma NameJoined(s: string, i: nat, name: string, a: nat, q: nat, colon: nat)
    requires i <= |s| && SkipSpace(s, i) == a && ParseString(s, a) == Ok(name, q) && SkipSpace(s, q) == colon && At(s, colon) == ':'
    ensures ParseName(s, i) == Ok(name, colon + 1)
  {
    hide ParseString, SkipSpace;
  }

  /** A name up to the start of its value. */
  lemma NameMin(m: string, j: nat, s: string, i: nat, name: string, from: nat, x: nat) returns (b: nat, at: nat)
    requires Suffix(m, j, s, i) && ParseName(s, i) == Ok(name, from) && x == SkipSpace(s, from) && At(s, x) != '/'
    ensures ParseName(m, j) == Ok(name, b) && b <= |m| && SkipSpace(m, b) == at && Suffix(m, at, s, x)
  {
    hide *;
    var a, q := NameParts(s, i, name, from);
    var start := SpaceMin(m, j, s, i);
    var behind := StringMin(m, start, s, a, name, q);
    var colon := SpaceMin(m, behind, s, q);
    CopiedOne(m, colon, s, from - 1);
    b := colon + 1;
    at := SpaceMin(m, b, s, from);
    NameJoined(m, j, name, start, behind, colon);
  }

  lemma {:induction false} MembersMin(m: string, j: nat, s: string, i: nat, members: Members, e: nat) returns (b: nat)
    requires Suffix(m, j, s, i) && ParseMembers(s, i) == Ok(members, e)
    ensures ParseMembers(m, j) == Ok(members, b) && Suffix(m, b, s, e)
    decreases |s| - i, 2
  {
    hide *;
    var from, x, end, c := MembersParts(s, i, members, e);
    var start, at := NameMin(m, j, s, i, members.name, from, x);
    var behind := ValueMin(m, at, s, x, members.value, end);
    b := MembersFollowMin(m, behind, s, end, c, members.next, e);
    MembersStep(m, j, members.name, start, members.value, behind, members.next, b);
  }

  lemma {:induction false} MembersFollowMin(m: string, j: nat, s: string, i: nat, c: nat, rest: Members, e: nat)
      returns (b: nat)
    requires Suffix(m, j, s, i) && MembersFollow(s, i, rest, e) && c == SkipSpace(s, i) && i <= c < |s|
    requires At(s, c) == if rest.NoMembers? then '}' else ','
    ensures MembersFollow(m, j, rest, b) && Suffix(m, b, s, e)
    decreases |s| - i, 3
  {
    hide Min, SkipSpace, ParseMembers;
    var at := SpaceMin(m, j, s, i);
    CopiedOne(m, at, s, c);
    if rest.NoMembers? {
      b := at + 1;
    } else {
      b := MembersMin(m, at + 1, s, c + 1, rest, e);
    }
  }

  /** What a successful parse of an array found first. */
  lemma ArrayParts(s: string, i: nat, items: Items, e: nat) returns (a: nat)
    requires i <= |s| && ParseValue(s, i) == Ok(Arr(items), e)
    ensures i < |s| && At(s, i) == '[' && i < a == SkipSpace(s, i + 1) && At(s, a) != '/'
    ensures if items.NoItems? then a < |s| && At(s, a) == ']' && e == a + 1 else a <= |s| && ParseItems(s, a) == Ok(items, e)
  {
    hide ParseString, ParseNumber, ParseItems, ParseObject, SkipSpace;
    a := SkipSpace(s, i + 1);
    SkipSkipped(s, i + 1);
    assert At(s, i) == '[';
    if ParseItems(s, a).Ok? {
      var x, y, z := ItemsParts(s, a, ParseItems(s, a).value, ParseItems(s, a).end);
    }
  }

  lemma {:induction false} ArrayMin(m: string, j: nat, s: string, i: nat, items: Items, e: nat) returns (b: nat)
    requires Suffix(m, j, s, i) && ParseValue(s, i) == Ok(Arr(items), e)
    ensures ParseValue(m, j) == Ok(Arr(items), b) && Suffix(m, b, s, e)
    decreases |s| - i, 0
  {
    var a := ArrayParts(s, i, items, e);
    hide ParseValue, ParseItems, SkipSpace, Min;
    CopiedOne(m, j, s, i);
    var start := SpaceMin(m, j + 1, s, i + 1);
    SkipSkipped(m, j + 1);
    if items.NoItems? {
      CopiedOne(m, start, s, a);
      b := start + 1;
    } else {
      b := ItemsMin(m, start, s, a, items, e);
    }
    ArrayStep(m, j, items, start, b);
  }

  lemma SomeMember(s: string, i: nat)
    requires i <= |s| && ParseMembers(s, i).Ok?
    ensures ParseMembers(s, i).value.Member?
  {
    hide ParseName, ParseValue, SkipSpace;
  }

  /** What a successful parse of an object found first. */
  lemma ObjectParts(s: string, i: nat, members: Members, e: nat) returns (a: nat)
    requires i <= |s| && ParseValue(s, i) == Ok(Obj(members), e)
    ensures i < |s| && At(s, i) == '{' && i < a == SkipSpace(s, i + 1) && At(s, a) != '/'
    ensures
      if members.NoMembers? then a < |s| && At(s, a) == '}' && e == a + 1
      else a <= |s| && ParseMembers(s, a) == Ok(members, e)
  {
    hide ParseString, ParseNumber, ParseMembers, ParseArray, SkipSpace;
    a := SkipSpace(s, i + 1);
    SkipSkipped(s, i + 1);
    assert At(s, i) == '{';
    if ParseMembers(s, a).Ok? {
      MembersStart(s, a);
      SomeMember(s, a);
    }
  }

  lemma {:induction false} ObjectMin(m: string, j: nat, s: string, i: nat, members: Members, e: nat) returns (b: nat)
    requires Suffix(m, j, s, i) && ParseValue(s, i) == Ok(Obj(members), e)
    ensures ParseValue(m, j) == Ok(Obj(members), b) && Suffix(m, b, s, e)
    decreases |s| - i, 0
  {
    var a := ObjectParts(s, i, members, e);
    hide ParseValue, ParseMembers, SkipSpace, Min;
    CopiedOne(m, j, s, i);
    var start := SpaceMin(m, j + 1, s, i + 1);
    SkipSkipped(m, j + 1);
    if members.NoMembers? {
      CopiedOne(m, start, s, a);
      b := start + 1;
    } else {
      b := MembersMin(m, start, s, a, members, e);
    }
    ObjectStep(m, j, members, start, b);
  }

  lemma {:induction false} ValueMin(m: string, j: nat, s: string, i: nat, v: Json, e: nat) returns (b: nat)
    requires Suffix(m, j, s, i) && ParseValue(s, i) == Ok(v, e) && Separator(At(s, SkipSpace(s, e)))
    ensures ParseValue(m, j) == Ok(v, b) && Suffix(m, b, s, e)
    decreases |s| - i, 1
  {
    hide *;
    if v.Arr? {
      b := ArrayMin(m, j, s, i, v.items, e);
    } else if v.Obj? {
      b := ObjectMin(m, j, s, i, v.members, e);
    } else {
      b := ScalarMin(m, j, s, i, v, e);
    }
  }

  /** Every text that parses up to its terminator, and whose literals are closed, parses to the same tree after being
      minified, again up to the terminator. */
  lemma MinifyPreservesMeaning(s: string, v: Json, e: nat)
    requires ParseText(s, true) == Ok(v, e) && Min(s, 0).Small?
    ensures ParseText(Min(s, 0).text, true).Ok? && ParseText(Min(s, 0).text, true).value == v
  {
    var m, a := Min(s, 0).text, SkipSpace(s, 0);
    var r := ParseValue(s, a);
    ValueStart(s, a);
    assert m[0..] == m && Suffix(m, 0, s, 0);
    assert At(s, SkipSpace(s, r.end)) == NUL;
    hide Min, SkipSpace, ParseValue;
    var b := SpaceMin(m, 0, s, 0);
    var c := ValueMin(m, b, s, a, v, r.end);
    var d := SpaceMin(m, c, s, r.end);
  }
}
