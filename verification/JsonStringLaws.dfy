/** What a string literal means, without reference to how it is decoded: a literal is a row of plain bytes and escapes, and
    its text is what they spell, one after the other. */
module JsonStringLaws {
  import opened JsonTree
  import opened JsonString
  import opened JsonLiteral

  // ----- hexadecimal digits -----

  const LOWER := "0123456789abcdef"
  const UPPER := "0123456789ABCDEF"

  /** `c` is the hexadecimal digit of value `v`, in either case. */
  predicate Digit(c: char, v: nat) {
    v < 16 && (c == LOWER[v] || c == UPPER[v])
  }

  /** The digits are the characters of the two tables, with their places as values, and nothing else is one. */
  lemma HexTable(c: char)
    ensures forall v: nat :: Digit(c, v) <==> HexValue(c) == v
    ensures HexValue(c) < 0 <==> c !in LOWER && c !in UPPER
  {
    assert HexValue(c) >= 0 ==> Digit(c, HexValue(c));
    assert forall v: nat | v < 16 :: HexValue(LOWER[v]) == v && HexValue(UPPER[v]) == v;
  }

  lemma HexDigits(d: nat)
    requires d < 16
    ensures HexChar(d) == LOWER[d]
  {
  }

  /** The four digits from `i` on spell `u`. */
  predicate Spelled(s: string, i: nat, u: nat) {
    && u < 0x1_0000
    && Digit(At(s, i), u / 0x1000) && Digit(At(s, i + 1), u / 0x100 % 0x10)
    && Digit(At(s, i + 2), u / 0x10 % 0x10) && Digit(At(s, i + 3), u % 0x10)
  }

  lemma FourDigits(a: nat, b: nat, c: nat, d: nat, u: nat)
    requires a < 16 && b < 16 && c < 16 && d < 16 && u == ((a * 16 + b) * 16 + c) * 16 + d
    ensures u < 0x1_0000 && u / 0x1000 == a && u / 0x100 % 0x10 == b && u / 0x10 % 0x10 == c && u % 0x10 == d
  {
  }

  lemma DigitsOf(u: nat)
    requires u < 0x1_0000
    ensures
      var a, b, c, d := u / 0x1000, u / 0x100 % 0x10, u / 0x10 % 0x10, u % 0x10;
      u == ((a * 16 + b) * 16 + c) * 16 + d
  {
  }

  /** Four spelled digits are read as the number they spell. */
  lemma Hex4Reads(s: string, i: nat, u: nat)
    requires Spelled(s, i, u)
    ensures Hex4(s, i) == u
  {
    var a, b, c, d := u / 0x1000, u / 0x100 % 0x10, u / 0x10 % 0x10, u % 0x10;
    DigitOnly(At(s, i), a);
    DigitOnly(At(s, i + 1), b);
    DigitOnly(At(s, i + 2), c);
    DigitOnly(At(s, i + 3), d);
    hide HexValue, Digit;
    DigitsOf(u);
  }

  lemma DigitOnly(c: char, v: nat)
    ensures Digit(c, v) <==> HexValue(c) == v
  {
    HexTable(c);
  }

  /** Whatever is not read as zero is spelled by four digits. */
  lemma Hex4Only(s: string, i: nat)
    requires Hex4(s, i) != 0
    ensures Spelled(s, i, Hex4(s, i))
  {
    hide HexValue, Digit;
    var a, b, c, d := HexValue(At(s, i)), HexValue(At(s, i + 1)), HexValue(At(s, i + 2)), HexValue(At(s, i + 3));
    var u := Hex4(s, i);
    assert a >= 0 && b >= 0 && c >= 0 && d >= 0 && u == ((a * 16 + b) * 16 + c) * 16 + d;
    hide Hex4;
    SpelledBy(s, i, a, b, c, d, u);
  }

  lemma SpelledBy(s: string, i: nat, a: nat, b: nat, c: nat, d: nat, u: nat)
    requires a < 16 && b < 16 && c < 16 && d < 16 && u == ((a * 16 + b) * 16 + c) * 16 + d
    requires HexValue(At(s, i)) == a && HexValue(At(s, i + 1)) == b && HexValue(At(s, i + 2)) == c && HexValue(At(s, i + 3)) == d
    ensures Spelled(s, i, u)
  {
    hide HexValue, Digit, At;
    DigitOnly(At(s, i), a);
    DigitOnly(At(s, i + 1), b);
    DigitOnly(At(s, i + 2), c);
    DigitOnly(At(s, i + 3), d);
    FourDigits(a, b, c, d, u);
  }

  // ----- the parts of a literal -----

  /** `\u` and four digits at `p` spell `u`. */
  predicate Escaped(s: string, p: nat, u: nat) {
    At(s, p) == '\\' && At(s, p + 1) == 'u' && Spelled(s, p + 2, u)
  }

  /** A code point of the basic plane, written as one escape. */
  predicate BasicAt(s: string, p: nat, u: nat) {
    0 < u < 0x1_0000 && !(0xD800 <= u <= 0xDFFF) && Escaped(s, p, u)
  }

  /** A code point beyond it, written as a pair of escapes (section 7 of RFC 8259). */
  predicate PairAt(s: string, p: nat, u: nat) {
    && 0x1_0000 <= u < 0x11_0000
    && Escaped(s, p, 0xD800 + (u - 0x1_0000) / 0x400) && Escaped(s, p + 6, 0xDC00 + (u - 0x1_0000) % 0x400)
  }

  const ESCAPES := "bfnrt"
  const CONTROLS: string := [0x8 as char, 0xC as char, '\n', '\r', '\t']

  /** A character behind a backslash that stands for a control character, or for itself. */
  predicate ShortAt(s: string, p: nat, c: char) {
    && At(s, p) == '\\' && At(s, p + 1) != 'u'
    && if At(s, p + 1) in ESCAPES
       then exists k :: 0 <= k < 5 && At(s, p + 1) == ESCAPES[k] && c == CONTROLS[k]
       else c == At(s, p + 1)
  }

  /** One part of a literal: what stands from `p` to `next` spells `t`. */
  ghost predicate Part(s: string, p: nat, next: nat, t: string) {
    || (next == p + 1 && PlainForScan(At(s, p)) && t == [At(s, p)])
    || (next == p + 2 && |t| == 1 && ShortAt(s, p, t[0]))
    || (next == p + 6 && exists u: nat :: BasicAt(s, p, u) && t == Utf8(u))
    || (next == p + 12 && exists u: nat :: PairAt(s, p, u) && t == Utf8(u))
  }

  /** The characters from `p` to `end` are parts that spell `ts`, one after the other. */
  ghost predicate Parts(s: string, p: nat, end: nat, ts: seq<string>)
    decreases |ts|
  {
    if ts == [] then p == end
    else exists next :: p < next <= end && Part(s, p, next, ts[0]) && Parts(s, next, end, ts[1..])
  }

  function Joined(ts: seq<string>): string {
    if ts == [] then "" else ts[0] + Joined(ts[1..])
  }

  // ----- one part is one unit -----

  /** Every code point of the basic plane but a surrogate, and but zero, in digits of either case. */
  lemma BasicUnit(s: string, p: nat, end: nat, u: nat)
    requires BasicAt(s, p, u) && p + 5 < end
    ensures UnitAt(s, p, end) == Unit(Utf8(u), p + 6)
  {
    hide Utf8, Spelled, Hex4;
    Hex4Reads(s, p + 2, u);
  }

  lemma PairNumbers(u: nat)
    requires 0x1_0000 <= u < 0x11_0000
    ensures
      var hi, lo := 0xD800 + (u - 0x1_0000) / 0x400, 0xDC00 + (u - 0x1_0000) % 0x400;
      HighSurrogate(hi) && LowSurrogate(lo) && Combine(hi, lo) == u
  {
  }

  /** Every code point beyond the basic plane, as its surrogate pair. */
  lemma PairUnit(s: string, p: nat, end: nat, u: nat)
    requires PairAt(s, p, u) && p + 11 <= end
    ensures UnitAt(s, p, end) == Unit(Utf8(u), p + 12)
  {
    hide Utf8, Spelled, Hex4, Combine;
    PairNumbers(u);
    Hex4Reads(s, p + 2, 0xD800 + (u - 0x1_0000) / 0x400);
    Hex4Reads(s, p + 8, 0xDC00 + (u - 0x1_0000) % 0x400);
  }

  lemma ShortUnit(s: string, p: nat, end: nat, c: char)
    requires At(s, p) == '\\' && At(s, p + 1) != 'u'
    ensures ShortAt(s, p, c) <==> UnitAt(s, p, end) == Unit([c], p + 2)
  {
    assert forall k | 0 <= k < 5 :: ESCAPES[k] == 'b' || ESCAPES[k] == 'f' || ESCAPES[k] == 'n' || ESCAPES[k] == 'r' || ESCAPES[k] == 't';
    assert ESCAPES[0] == 'b' && ESCAPES[1] == 'f' && ESCAPES[2] == 'n' && ESCAPES[3] == 'r' && ESCAPES[4] == 't';
  }

  /** A part decodes to what it spells. */
  lemma PartUnit(s: string, p: nat, next: nat, end: nat, t: string)
    requires Part(s, p, next, t) && next <= end
    ensures UnitAt(s, p, end) == Unit(t, next)
  {
    if next == p + 6 {
      var u: nat :| BasicAt(s, p, u) && t == Utf8(u);
      BasicUnit(s, p, end, u);
    } else if next == p + 12 {
      var u: nat :| PairAt(s, p, u) && t == Utf8(u);
      PairUnit(s, p, end, u);
    } else if next == p + 2 {
      ShortUnit(s, p, end, t[0]);
      assert t == [t[0]];
    }
  }

  lemma PairOf(hi: nat, lo: nat)
    requires HighSurrogate(hi) && LowSurrogate(lo)
    ensures var u := Combine(hi, lo); 0xD800 + (u - 0x1_0000) / 0x400 == hi && 0xDC00 + (u - 0x1_0000) % 0x400 == lo
  {
  }

  lemma UnicodePart(s: string, p: nat, end: nat)
    requires At(s, p) == '\\' && At(s, p + 1) == 'u' && UnitAt(s, p, end).Unit?
    ensures Part(s, p, UnitAt(s, p, end).next, UnitAt(s, p, end).text)
  {
    hide Utf8, Spelled, Hex4, Combine;
    var uc := Hex4(s, p + 2);
    Hex4Only(s, p + 2);
    if HighSurrogate(uc) {
      var lo := Hex4(s, p + 8);
      Hex4Only(s, p + 8);
      PairOf(uc, lo);
      assert PairAt(s, p, Combine(uc, lo));
    } else {
      assert BasicAt(s, p, uc);
    }
  }

  /** And whatever decodes is a part: all other escapes are refused. */
  lemma UnitPart(s: string, p: nat, end: nat)
    requires UnitAt(s, p, end).Unit? && At(s, p) != '\"' && At(s, p) != NUL
    ensures Part(s, p, UnitAt(s, p, end).next, UnitAt(s, p, end).text)
  {
    if At(s, p) == '\\' && At(s, p + 1) == 'u' {
      UnicodePart(s, p, end);
    } else if At(s, p) == '\\' {
      ShortUnit(s, p, end, UnitAt(s, p, end).text[0]);
    }
  }

  // ----- whole literals -----

  lemma SpelledScan(s: string, i: nat, u: nat)
    requires Spelled(s, i, u)
    ensures forall j | i <= j < i + 4 :: PlainForScan(At(s, j))
  {
    DigitPlain(At(s, i), u / 0x1000);
    DigitPlain(At(s, i + 1), u / 0x100 % 0x10);
    DigitPlain(At(s, i + 2), u / 0x10 % 0x10);
    DigitPlain(At(s, i + 3), u % 0x10);
    hide Digit, PlainForScan;
    forall j | i <= j < i + 4 ensures PlainForScan(At(s, j)) {
      assert j == i || j == i + 1 || j == i + 2 || j == i + 3;
    }
  }

  lemma DigitPlain(c: char, v: nat)
    requires Digit(c, v)
    ensures PlainForScan(c)
  {
    DigitOnly(c, v);
  }

  lemma EscapedScan(s: string, p: nat, u: nat)
    requires Escaped(s, p, u)
    ensures LiteralEnd(s, p) == LiteralEnd(s, p + 6)
  {
    SpelledScan(s, p + 2, u);
    hide Spelled;
    ScanPlain(s, p + 2, 4);
  }

  /** The first pass steps over whole parts. */
  lemma PartScan(s: string, p: nat, next: nat, t: string)
    requires Part(s, p, next, t)
    ensures LiteralEnd(s, p) == LiteralEnd(s, next)
  {
    hide Spelled, Utf8;
    if next == p + 6 {
      var u: nat :| BasicAt(s, p, u) && t == Utf8(u);
      EscapedScan(s, p, u);
    } else if next == p + 12 {
      var u: nat :| PairAt(s, p, u) && t == Utf8(u);
      EscapedScan(s, p, 0xD800 + (u - 0x1_0000) / 0x400);
      EscapedScan(s, p + 6, 0xDC00 + (u - 0x1_0000) % 0x400);
    }
  }

  lemma {:induction false} PartsDecode(s: string, p: nat, end: nat, ts: seq<string>)
    requires Parts(s, p, end, ts) && (At(s, end) == '\"' || At(s, end) == NUL)
    ensures LiteralEnd(s, p) == end && Unescape(s, p, end) == Text(Joined(ts))
    decreases |ts|
  {
    hide Part, UnitAt;
    if ts != [] {
      var next :| p < next <= end && Part(s, p, next, ts[0]) && Parts(s, next, end, ts[1..]);
      PartScan(s, p, next, ts[0]);
      PartUnit(s, p, next, end, ts[0]);
      PartsDecode(s, next, end, ts[1..]);
    }
  }

  lemma {:induction false} DecodedParts(s: string, p: nat, end: nat) returns (ts: seq<string>)
    requires p <= end == LiteralEnd(s, p) && end <= |s| && Unescape(s, p, end).Text?
    ensures Parts(s, p, end, ts) && Unescape(s, p, end) == Text(Joined(ts))
    decreases end - p
  {
    if p == end {
      ts := [];
    } else {
      var next, t := UnitAt(s, p, end).next, UnitAt(s, p, end).text;
      UnitPart(s, p, end);
      UnitWithinScan(s, p, end);
      hide Part, UnitAt;
      var rest := DecodedParts(s, next, end);
      ts := [t] + rest;
      assert ts[0] == t && ts[1..] == rest;
      assert Part(s, p, next, ts[0]) && Parts(s, next, end, ts[1..]);
    }
  }

  /** A literal parses to what its parts spell, to the position behind its closing quote. */
  lemma LiteralParses(s: string, i: nat, end: nat, ts: seq<string>)
    requires At(s, i) == '\"' && Parts(s, i + 1, end, ts) && At(s, end) == '\"'
    ensures ParseString(s, i) == Ok(Joined(ts), end + 1)
  {
    hide Parts, LiteralEnd, Unescape, Joined;
    PartsDecode(s, i + 1, end, ts);
  }

  /** And nothing else parses, except that the terminator of the text is taken for a closing quote. */
  lemma ParsedLiterals(s: string, i: nat) returns (end: nat, ts: seq<string>)
    requires ParseString(s, i).Ok?
    ensures At(s, i) == '\"' && Parts(s, i + 1, end, ts) && (At(s, end) == '\"' || At(s, end) == NUL)
    ensures ParseString(s, i) == Ok(Joined(ts), if At(s, end) == '\"' then end + 1 else end)
  {
    end := LiteralEnd(s, i + 1);
    LiteralStops(s, i + 1);
    hide Parts, LiteralEnd, Unescape, Joined;
    ts := DecodedParts(s, i + 1, end);
  }

  lemma LiteralStops(s: string, i: nat)
    ensures var end := LiteralEnd(s, i); end <= |s| ==> At(s, end) == '\"' || At(s, end) == NUL
    decreases |s| - i
  {
    if i < |s| && s[i] != '\"' && s[i] != NUL { LiteralStops(s, if s[i] == '\\' then i + 2 else i + 1); }
  }

  // ----- printed literals -----

  const NAMED: string := ['\"', '\\'] + CONTROLS
  const LETTERS := "\"\\bfnrt"

  /** How each character is written: the seven named ones by a letter, other control characters by two lower-case digits, and
      everything else as it is. */
  lemma EscapeTable(c: char)
    ensures forall k | 0 <= k < 7 :: Escape(NAMED[k]) == ['\\', LETTERS[k]]
    ensures c !in NAMED ==>
      Escape(c) == if c < ' ' then "\\u00" + [LOWER[c as nat / 16], LOWER[c as nat % 16]] else [c]
  {
    assert NAMED == ['\"', '\\', 0x8 as char, 0xC as char, '\n', '\r', '\t'];
    assert LETTERS == ['\"', '\\', 'b', 'f', 'n', 'r', 't'];
    if c !in NAMED && c < ' ' {
      HexDigits(c as nat / 16);
      HexDigits(c as nat % 16);
    }
  }

  /** The UTF-8 bytes of a code point (section 3 of RFC 3629): the first one tells their number, and the others carry six bits
      each. */
  lemma Utf8Bytes(u: nat)
    requires u < 0x11_0000
    ensures
      var t := Utf8(u);
      && |t| == (if u < 0x80 then 1 else if u < 0x800 then 2 else if u < 0x1_0000 then 3 else 4)
      && (|t| == 1 ==> t[0] < 0x80 as char) && (|t| == 2 ==> 0xC0 as char <= t[0] < 0xE0 as char)
      && (|t| == 3 ==> 0xE0 as char <= t[0] < 0xF0 as char) && (|t| == 4 ==> 0xF0 as char <= t[0] < 0xF8 as char)
      && forall k | 0 < k < |t| :: 0x80 as char <= t[k] < 0xC0 as char
    ensures CodePoint(Utf8(u)) == u
  {
    Utf8RoundTrip(u);
  }
}
