/** Laws of the base64 codec, about the meanings that `Base64` proves its loops to compute. */
module Base64Laws {
  import opened Base64

  // ----- the alphabet -----

  /** The alphabet of section 4 of RFC 4648, letter by letter. */
  function Letter(v: Six): Byte {
    match v
    case 0 => 0x41 case 1 => 0x42 case 2 => 0x43 case 3 => 0x44 case 4 => 0x45 case 5 => 0x46 case 6 => 0x47 case 7 => 0x48  // ABCDEFGH
    case 8 => 0x49 case 9 => 0x4A case 10 => 0x4B case 11 => 0x4C case 12 => 0x4D case 13 => 0x4E case 14 => 0x4F case 15 => 0x50  // IJKLMNOP
    case 16 => 0x51 case 17 => 0x52 case 18 => 0x53 case 19 => 0x54 case 20 => 0x55 case 21 => 0x56 case 22 => 0x57 case 23 => 0x58  // QRSTUVWX
    case 24 => 0x59 case 25 => 0x5A case 26 => 0x61 case 27 => 0x62 case 28 => 0x63 case 29 => 0x64 case 30 => 0x65 case 31 => 0x66  // YZabcdef
    case 32 => 0x67 case 33 => 0x68 case 34 => 0x69 case 35 => 0x6A case 36 => 0x6B case 37 => 0x6C case 38 => 0x6D case 39 => 0x6E  // ghijklmn
    case 40 => 0x6F case 41 => 0x70 case 42 => 0x71 case 43 => 0x72 case 44 => 0x73 case 45 => 0x74 case 46 => 0x75 case 47 => 0x76  // opqrstuv
    case 48 => 0x77 case 49 => 0x78 case 50 => 0x79 case 51 => 0x7A case 52 => 0x30 case 53 => 0x31 case 54 => 0x32 case 55 => 0x33  // wxyz0123
    case 56 => 0x34 case 57 => 0x35 case 58 => 0x36 case 59 => 0x37 case 60 => 0x38 case 61 => 0x39 case 62 => 0x2B case _ => 0x2F  // 456789+/
  }

  ghost predicate InAlphabet(c: Byte) {
    exists v: Six :: Letter(v) == c
  }

  lemma LettersBelow32(v: Six)
    requires v < 32
    ensures EncodeChar(v) == Letter(v)
  {
    match v
    case 0 => case 1 => case 2 => case 3 => case 4 => case 5 => case 6 => case 7 =>
    case 8 => case 9 => case 10 => case 11 => case 12 => case 13 => case 14 => case 15 =>
    case 16 => case 17 => case 18 => case 19 => case 20 => case 21 => case 22 => case 23 =>
    case 24 => case 25 => case 26 => case 27 => case 28 => case 29 => case 30 => case _ =>
  }

  lemma LettersFrom32(v: Six)
    requires v >= 32
    ensures EncodeChar(v) == Letter(v)
  {
    match v
    case 32 => case 33 => case 34 => case 35 => case 36 => case 37 => case 38 => case 39 =>
    case 40 => case 41 => case 42 => case 43 => case 44 => case 45 => case 46 => case 47 =>
    case 48 => case 49 => case 50 => case 51 => case 52 => case 53 => case 54 => case 55 =>
    case 56 => case 57 => case 58 => case 59 => case 60 => case 61 => case 62 => case _ =>
  }

  /** The encoding table is the alphabet. */
  lemma EncodeTable(v: Six)
    ensures EncodeChar(v) == Letter(v)
  {
    hide EncodeChar, Letter;
    if v < 32 { LettersBelow32(v); } else { LettersFrom32(v); }
  }

  lemma EncodeBack(c: Byte)
    requires DecodeChar(c) < 64
    ensures EncodeChar(DecodeChar(c)) == c
  {
  }

  /** The decoding table finds each letter's place in the alphabet, marks the padding, and marks every other byte, such
      as a line feed or a space, as one to skip. */
  lemma DecodeTable(c: Byte)
    ensures DecodeChar(c) < 64 <==> InAlphabet(c)
    ensures InAlphabet(c) ==> Letter(DecodeChar(c)) == c
    ensures forall v: Six :: Letter(v) == c ==> DecodeChar(c) == v
    ensures !InAlphabet(c) ==> DecodeChar(c) == if c == PAD then 65 else 64
  {
    forall v: Six ensures Letter(v) == c ==> DecodeChar(c) == v {
      EncodeTable(v);
      TablesInverse(v);
    }
    hide Letter;
    if DecodeChar(c) < 64 {
      EncodeBack(c);
      EncodeTable(DecodeChar(c));
      assert Letter(DecodeChar(c)) == c;
    }
  }

  // ----- values and groups -----

  lemma ValuesMore(s: seq<Byte>, c: Byte)
    ensures Values(s + [c]) == Values(s) + if DecodeChar(c) < 64 then [DecodeChar(c)] else []
  {
    assert (s + [c])[..|s|] == s;
  }

  lemma {:induction false} ValuesConcat(a: seq<Byte>, b: seq<Byte>)
    ensures Values(a + b) == Values(a) + Values(b)
  {
    if b == [] {
      assert a + b == a;
    } else {
      hide Values;
      var front, c := b[..|b| - 1], b[|b| - 1];
      assert b == front + [c] && a + b == (a + front) + [c];
      ValuesConcat(a, front);
      ValuesMore(front, c);
      ValuesMore(a + front, c);
    }
  }

  lemma SextetsBack(a: Byte, b: Byte, c: Byte)
    ensures var e := Group(a, b, c); Triple(Sextet(e, 3), Sextet(e, 2), Sextet(e, 1), Sextet(e, 0)) == [a, b, c]
    ensures Sextet(Group(a, b, 0), 0) == 0 && Sextet(Group(a, 0, 0), 1) == 0 && Sextet(Group(a, 0, 0), 0) == 0
  {
  }

  lemma ValuesOf(s: seq<Byte>, v: seq<Six>)
    requires |s| == |v| <= 4 && forall i | 0 <= i < |s| :: s[i] == EncodeChar(v[i])
    ensures PAD !in s && Values(s) == v
  {
    hide Values, EncodeChar, DecodeChar;
    if |s| == 0 {
      NoValues(s);
    } else {
      var n := |s| - 1;
      ValuesOf(s[..n], v[..n]);
      TablesInverse(v[n]);
      ValuesMore(s[..n], s[n]);
      assert s == s[..n] + [s[n]] && v == v[..n] + [v[n]];
    }
  }

  lemma NoValues(s: seq<Byte>)
    requires s == []
    ensures Values(s) == []
  {
  }

  lemma QuadValues(a: Byte, b: Byte, c: Byte, n: nat)
    requires n <= 4
    ensures var e := Group(a, b, c); var q := Quad(a, b, c)[..n];
      PAD !in q && Values(q) == [Sextet(e, 3), Sextet(e, 2), Sextet(e, 1), Sextet(e, 0)][..n]
  {
    var e := Group(a, b, c);
    ValuesOf(Quad(a, b, c)[..n], [Sextet(e, 3), Sextet(e, 2), Sextet(e, 1), Sextet(e, 0)][..n]);
  }

  /** `g` is a text without padding that decodes, in complete groups, to `x`. */
  ghost predicate DecodesTo(g: seq<Byte>, x: seq<Byte>) {
    PAD !in g && |Values(g)| % 4 == 0 && DecodeGroups(Values(g)) == x
  }

  /** Four characters decode to the three bytes they were made from. */
  lemma QuadDecodes(a: Byte, b: Byte, c: Byte)
    ensures var q := Quad(a, b, c); |Values(q)| == 4 && DecodesTo(q, [a, b, c])
  {
    var q := Quad(a, b, c);
    QuadValues(a, b, c, 4);
    assert q[..4] == q;
    SextetsBack(a, b, c);
    var v := Values(q);
    assert v[..0] == [];
    assert DecodeGroups(v) == [] + Triple(v[0], v[1], v[2], v[3]);
  }

  lemma GroupsAppend(v: seq<Six>, w: seq<Six>)
    requires |v| % 4 == 0 && |w| == 4
    ensures DecodeGroups(v + w) == DecodeGroups(v) + DecodeGroups(w)
  {
    hide DecodeGroups, Triple;
    var u := v + w;
    LastGroup(u);
    LastGroup(w);
    NoGroups();
    assert u[..|v|] == v && w[..0] == [];
  }

  lemma NoGroups()
    ensures DecodeGroups([]) == []
  {
  }

  lemma LastGroup(v: seq<Six>)
    requires |v| % 4 == 0 && v != []
    ensures var n := |v|; DecodeGroups(v) == DecodeGroups(v[..n - 4]) + Triple(v[n - 4], v[n - 3], v[n - 2], v[n - 1])
  {
  }

  lemma DecodesToAppend(g: seq<Byte>, x: seq<Byte>, q: seq<Byte>, y: seq<Byte>)
    requires DecodesTo(g, x) && DecodesTo(q, y) && |Values(q)| == 4
    ensures DecodesTo(g + q, x + y)
  {
    ValuesConcat(g, q);
    GroupsAppend(Values(g), Values(q));
  }

  lemma EmptyDecodes()
    ensures DecodesTo([], [])
  {
  }

  /** Complete groups decode to the bytes they were made from. */
  lemma {:induction false} GroupsRoundTrip(x: seq<Byte>)
    requires |x| % 3 == 0
    ensures DecodesTo(EncodeGroups(x), x)
  {
    hide DecodesTo, Quad;
    if x == [] {
      EmptyDecodes();
    } else {
      var front, a, b, c := x[..|x| - 3], x[|x| - 3], x[|x| - 2], x[|x| - 1];
      GroupsRoundTrip(front);
      QuadDecodes(a, b, c);
      DecodesToAppend(EncodeGroups(front), front, Quad(a, b, c), [a, b, c]);
      assert x == front + [a, b, c];
    }
  }

  /** The characters of the last one or two bytes, without the padding. */
  function TailChars(tail: seq<Byte>): seq<Byte>
    requires 0 < |tail| < 3
  {
    EncodeRest(tail)[..|tail| + 1]
  }

  /** Together with the padding behind them they decode to the bytes they were made from. */
  lemma TailDecodes(tail: seq<Byte>, next: Byte)
    requires 0 < |tail| < 3 && (|tail| == 1 ==> next == PAD)
    ensures var q := TailChars(tail);
      && PAD !in q && |Values(q)| == |tail| + 1 && Last(Values(q), next) == Decoded(tail, false)
      && EncodeRest(tail) == q + (if |tail| == 1 then [PAD, PAD] else [PAD])
  {
    var q := TailChars(tail);
    if |tail| == 1 {
      QuadValues(tail[0], 0, 0, 2);
      SextetsBack(tail[0], 0, 0);
      assert q == Quad(tail[0], 0, 0)[..2];
    } else {
      QuadValues(tail[0], tail[1], 0, 3);
      SextetsBack(tail[0], tail[1], 0);
      assert q == Quad(tail[0], tail[1], 0)[..3];
    }
  }

  lemma LastAppend(v: seq<Six>, w: seq<Six>, next: Byte)
    requires |v| % 4 == 0 && 0 < |w| < 4
    ensures Last(v + w, next) == Last(w, next) && Whole(v + w) == v
  {
    assert |v + w| % 4 == |w|;
    var n := |v| + |w|;
    assert (v + w)[|v|..] == w && (v + w)[..|v|] == v;
  }

  /** How a text is decoded whose first padding character comes right after `g`. */
  lemma DecodeUpTo(g: seq<Byte>, rest: seq<Byte>, k: nat, v: seq<Six>)
    requires PAD !in g && k <= |rest| && (k > 0 ==> rest[0] == PAD) && v == Values(g)
    requires k > 0 && |v| % 4 == 2 ==> |rest| > 1
    ensures Readable(g + rest, |g| + k)
    ensures Decode(g + rest, |g| + k) == Finished(v, k > 0, CharAt(rest, 1))
  {
    assert (g + rest)[..|g|] == g;
    FirstPadAt(g + rest, |g| + k, |g|);
  }

  /** Decoding an encoded byte string gives it back, with the error flag clear, whatever the length and whatever
      follows the encoded text in memory. */
  lemma RoundTrip(x: seq<Byte>, rest: seq<Byte>)
    ensures Readable(Encode(x) + rest, |Encode(x)|)
    ensures Decode(Encode(x) + rest, |Encode(x)|) == Decoded(x, false)
  {
    var n := |x| - |x| % 3;
    var g, tail := EncodeGroups(x[..n]), x[n..];
    GroupsRoundTrip(x[..n]);
    assert x == x[..n] + tail && |tail| == |x| % 3;
    hide EncodeGroups, EncodeRest, Values, FirstPad, DecodeGroups, Last;
    if tail == [] {
      DecodeUpTo(g, rest, 0, Values(g));
      assert Encode(x) == g && Whole(Values(g)) == Values(g);
    } else {
      TailRoundTrip(g, x[..n], tail, rest);
      assert Encode(x) == g + EncodeRest(tail);
    }
  }

  lemma TailFinished(g: seq<Byte>, x: seq<Byte>, tail: seq<Byte>, next: Byte)
    requires DecodesTo(g, x) && 0 < |tail| < 3 && (|tail| == 1 ==> next == PAD)
    ensures PAD !in g + TailChars(tail)
    ensures Finished(Values(g) + Values(TailChars(tail)), true, next) == Decoded(x + tail, false)
  {
    TailDecodes(tail, next);
    LastAppend(Values(g), Values(TailChars(tail)), next);
  }

  lemma PadsNext(pads: seq<Byte>, rest: seq<Byte>)
    requires pads == [PAD] || pads == [PAD, PAD]
    ensures CharAt(pads + rest, 1) == if |pads| == 2 then PAD else CharAt(rest, 0)
  {
  }

  lemma LeftOverValues(g: seq<Byte>, x: seq<Byte>, w: seq<Six>)
    requires DecodesTo(g, x) && |w| < 4
    ensures |Values(g) + w| % 4 == |w|
  {
  }

  lemma TailRoundTrip(g: seq<Byte>, x: seq<Byte>, tail: seq<Byte>, rest: seq<Byte>)
    requires DecodesTo(g, x) && 0 < |tail| < 3
    ensures var e := g + EncodeRest(tail); Readable(e + rest, |e|) && Decode(e + rest, |e|) == Decoded(x + tail, false)
  {
    hide *;
    var q := TailChars(tail);
    var pads := if |tail| == 1 then [PAD, PAD] else [PAD];
    var next := if |tail| == 1 then PAD else CharAt(rest, 0);
    assert next == CharAt(pads + rest, 1) by { PadsNext(pads, rest); }
    TailDecodes(tail, next);
    LeftOverValues(g, x, Values(q));
    TailFinished(g, x, tail, next);
    ValuesConcat(g, q);
    DecodeUpTo(g + q, pads + rest, |pads|, Values(g) + Values(q));
    assert (g + EncodeRest(tail)) + rest == (g + q) + (pads + rest);
    assert |g + EncodeRest(tail)| == |g + q| + |pads|;
  }

  /** The text without the bytes that are neither letters of the alphabet nor padding. */
  ghost function Clean(s: seq<Byte>): seq<Byte> {
    if s == [] then []
    else
      var c := s[|s| - 1];
      Clean(s[..|s| - 1]) + if InAlphabet(c) || c == PAD then [c] else []
  }

  lemma ValuesSingle(c: Byte)
    ensures Values([c]) == (if DecodeChar(c) < 64 then [DecodeChar(c)] else []) && Values([]) == []
  {
    assert [c][..0] == [];
  }

  lemma {:induction false} CleanValues(s: seq<Byte>)
    ensures Values(Clean(s)) == Values(s) && (PAD !in s ==> PAD !in Clean(s))
  {
    if s != [] {
      var c := s[|s| - 1];
      CleanValues(s[..|s| - 1]);
      DecodeTable(c);
      hide InAlphabet, DecodeChar;
      ValuesConcat(Clean(s[..|s| - 1]), if InAlphabet(c) || c == PAD then [c] else []);
      ValuesSingle(c);
    }
  }

  /** What stands in front of a text without being padding moves its first padding character. */
  lemma PadBehind(s: seq<Byte>, rest: seq<Byte>, x: seq<Byte>, m: nat) returns (p: nat)
    requires PAD !in s && x == s + rest && |s| <= m <= |x|
    ensures p == FirstPad(rest, m - |s|) && FirstPad(x, m) == |s| + p
    ensures Values(x[..|s| + p]) == Values(s) + Values(rest[..p])
    ensures CharAt(x, |s| + p + 1) == CharAt(rest, p + 1)
  {
    p := FirstPad(rest, m - |s|);
    assert x[..|s| + p] == s + rest[..p];
    ValuesConcat(s, rest[..p]);
    hide Values, FirstPad;
    FirstPadAt(x, m, |s| + p);
  }

  /** The values in front of the padding, whether there is padding, and what follows it: nothing else matters. */
  lemma SameDecode(s: seq<Byte>, m: nat, p: nat, t: seq<Byte>, n: nat, q: nat)
    requires Readable(s, m) && n <= |t|
    requires p == FirstPad(s, m) && q == FirstPad(t, n)
    requires Values(s[..p]) == Values(t[..q]) && CharAt(s, p + 1) == CharAt(t, q + 1)
    requires m - p == n - q && |s| - p == |t| - q
    ensures Readable(t, n) && Decode(s, m) == Decode(t, n)
  {
    hide Values, FirstPad, Finished, CharAt;
  }

  lemma SameBehind(s: seq<Byte>, c: seq<Byte>, rest: seq<Byte>, x: seq<Byte>, m: nat, y: seq<Byte>, n: nat)
    requires PAD !in s && PAD !in c && Values(s) == Values(c) && x == s + rest && y == c + rest
    requires |s| <= m && Readable(x, m) && n == |c| + m - |s|
    ensures Readable(y, n) && Decode(x, m) == Decode(y, n)
  {
    hide Values, FirstPad, Finished, CharAt, Decode;
    var p := PadBehind(s, rest, x, m);
    var q := PadBehind(c, rest, y, n);
    SameDecode(x, m, |s| + p, y, n, |c| + q);
  }

  /** Characters outside the alphabet, wherever they stand before the padding, change neither the bytes nor the error
      flag. */
  lemma SkippedCharactersDoNotMatter(s: seq<Byte>, rest: seq<Byte>, k: nat)
    requires PAD !in s && Readable(s + rest, |s| + k)
    ensures var c := Clean(s); Readable(c + rest, |c| + k) && Decode(s + rest, |s| + k) == Decode(c + rest, |c| + k)
  {
    hide Values, FirstPad, Finished, Clean, CharAt, Decode;
    CleanValues(s);
    SameBehind(s, Clean(s), rest, s + rest, |s| + k, Clean(s) + rest, |Clean(s)| + k);
  }

  // ----- decoding first -----

  lemma TripleBack(v0: Six, v1: Six, v2: Six, v3: Six)
    ensures
      var t := Triple(v0, v1, v2, v3);
      var e := Group(t[0], t[1], t[2]);
      Sextet(e, 3) == v0 && Sextet(e, 2) == v1 && Sextet(e, 1) == v2 && Sextet(e, 0) == v3
  {
  }

  lemma QuadOfTriple(v0: Six, v1: Six, v2: Six, v3: Six)
    ensures var t := Triple(v0, v1, v2, v3); Quad(t[0], t[1], t[2]) == [Letter(v0), Letter(v1), Letter(v2), Letter(v3)]
  {
    TripleBack(v0, v1, v2, v3);
    hide EncodeChar, Letter, Sextet, Triple, Group;
    EncodeTable(v0);
    EncodeTable(v1);
    EncodeTable(v2);
    EncodeTable(v3);
  }

  function Letters(v: seq<Six>): (t: seq<Byte>)
    ensures |t| == |v| && forall k :: 0 <= k < |v| ==> t[k] == Letter(v[k])
  {
    seq(|v|, k requires 0 <= k < |v| => Letter(v[k]))
  }

  /** Complete groups of letters, decoded and encoded again, are the same letters. */
  lemma {:induction false} GroupsBack(v: seq<Six>)
    requires |v| % 4 == 0
    ensures |DecodeGroups(v)| % 3 == 0 && EncodeGroups(DecodeGroups(v)) == Letters(v)
  {
    hide Letter, Quad, Triple, DecodeGroups, EncodeGroups;
    if v == [] {
      NoGroups();
      NoLetters();
    } else {
      var n := |v|;
      var t, front := Triple(v[n - 4], v[n - 3], v[n - 2], v[n - 1]), DecodeGroups(v[..n - 4]);
      GroupsBack(v[..n - 4]);
      LastGroup(v);
      QuadOfTriple(v[n - 4], v[n - 3], v[n - 2], v[n - 1]);
      EncodeMore(front, t);
      assert Letters(v) == Letters(v[..n - 4]) + [Letter(v[n - 4]), Letter(v[n - 3]), Letter(v[n - 2]), Letter(v[n - 1])];
    }
  }

  lemma NoLetters()
    ensures EncodeGroups([]) == []
  {
  }

  lemma EncodeMore(front: seq<Byte>, t: seq<Byte>)
    requires |front| % 3 == 0 && |t| == 3
    ensures EncodeGroups(front + t) == EncodeGroups(front) + Quad(t[0], t[1], t[2])
  {
    var x := front + t;
    assert x[..|x| - 3] == front;
  }

  /** The last letter in front of the padding carries no bits of its own. */
  lemma PaddingBits(x: seq<Byte>)
    requires 0 < |x| < 3
    ensures |EncodeRest(x)| == 4 && EncodeRest(x)[3] == PAD && (EncodeRest(x)[2] == PAD <==> |x| == 1)
    ensures |x| == 1 ==> DecodeChar(EncodeRest(x)[1]) & 0xF == 0
    ensures |x| == 2 ==> DecodeChar(EncodeRest(x)[2]) & 0x3 == 0
  {
    var q := if |x| == 1 then Group(x[0], 0, 0) else Group(x[0], x[1], 0);
    TablesInverse(Sextet(q, 1));
    TablesInverse(Sextet(q, 2));
    assert Sextet(Group(x[0], 0, 0), 2) & 0xF == 0;
    assert |x| == 2 ==> Sextet(Group(x[0], x[1], 0), 1) & 0x3 == 0;
    hide EncodeChar, DecodeChar, Sextet, Group;
  }

  /** What is decoded: the bytes of the complete groups of letters in front of the first padding character, and of the two or
      three letters left over there; the error flag is clear exactly where nothing else is left over. */
  lemma DecodeExactly(s: seq<Byte>, size: nat, p: nat, v: seq<Six>)
    requires Readable(s, size) && p <= size && PAD !in s[..p] && (p < size ==> s[p] == PAD) && v == Values(s[..p])
    ensures
      var d, n := Decode(s, size), |v| - |v| % 4;
      var paired := p + 1 < |s| && s[p + 1] == PAD;
      && d.bytes == DecodeGroups(v[..n]) + (if p == size then []
                                            else if |v| - n == 3 then Triple(v[n], v[n + 1], v[n + 2], 0)[..2]
                                            else if |v| - n == 2 && paired then Triple(v[n], v[n + 1], 0, 0)[..1]
                                            else [])
      && (!d.error <==> if p == size then |v| == n else |v| - n == 3 || (|v| - n == 2 && paired))
  {
    hide Values, DecodeGroups, Triple;
    FirstPadAt(s, size, p);
    assert p == size ==> s[..p] == s[..size];
  }
}
