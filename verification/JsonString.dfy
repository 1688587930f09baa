/** String literals in JSON text: escaping as `print_string_ptr` does it, unescaping as `parse_string` does it. */
module JsonString {
  import opened JsonTree

  // ----- printing -----

  predicate Plain(c: char) {
    c > 0x1F as char && c != '\"' && c != '\\'
  }

  function HexChar(d: nat): (c: char)
    requires d < 16
  {
    if d < 10 then ('0' as nat + d) as char else ('a' as nat + (d - 10)) as char
  }

  /** How one character is written inside a literal. */
  function Escape(c: char): (t: string)
    ensures 1 <= |t| <= 6
  {
    if Plain(c) then [c]
    else if c == '\\' || c == '\"' then ['\\', c]
    else if c == 0x8 as char then "\\b"
    else if c == 0xC as char then "\\f"
    else if c == '\n' then "\\n"
    else if c == '\r' then "\\r"
    else if c == '\t' then "\\t"
    else ['\\', 'u', '0', '0', HexChar(c as nat / 16), HexChar(c as nat % 16)]
  }

  function EscapeAll(s: string): string {
    if s == [] then [] else Escape(s[0]) + EscapeAll(s[1..])
  }

  function PrintString(s: string): string {
    ['\"'] + EscapeAll(s) + ['\"']
  }

  predicate NulFree(s: string) {
    NUL !in s
  }

  // ----- parsing -----

  /** `parse_hex4`: the value of four hexadecimal digits, 0 if one of them is not one. */
  function HexValue(c: char): (d: int)
    ensures -1 <= d < 16
  {
    if '0' <= c <= '9' then c as int - '0' as int
    else if 'A' <= c <= 'F' then 10 + c as int - 'A' as int
    else if 'a' <= c <= 'f' then 10 + c as int - 'a' as int
    else -1
  }

  function Hex4(s: string, i: nat): (h: nat)
    ensures h < 0x1_0000
  {
    var a, b, c, d := HexValue(At(s, i)), HexValue(At(s, i + 1)), HexValue(At(s, i + 2)), HexValue(At(s, i + 3));
    if a < 0 || b < 0 || c < 0 || d < 0 then 0 else ((a * 16 + b) * 16 + c) * 16 + d
  }

  /** Section 3 of RFC 3629: the number of bytes, and the bytes, of a code point. */
  function Utf8(u: nat): (t: string)
    requires u < 0x11_0000
    ensures 1 <= |t| <= 4
    ensures |t| == if u < 0x80 then 1 else if u < 0x800 then 2 else if u < 0x1_0000 then 3 else 4
  {
    if u < 0x80 then [u as char]
    else if u < 0x800 then [(0xC0 + u / 0x40) as char, (0x80 + u % 0x40) as char]
    else if u < 0x1_0000 then
      [(0xE0 + u / 0x1000) as char, (0x80 + u / 0x40 % 0x40) as char, (0x80 + u % 0x40) as char]
    else
      [(0xF0 + u / 0x4_0000) as char, (0x80 + u / 0x1000 % 0x40) as char, (0x80 + u / 0x40 % 0x40) as char,
       (0x80 + u % 0x40) as char]
  }

  predicate LowSurrogate(u: nat) { 0xDC00 <= u <= 0xDFFF }
  predicate HighSurrogate(u: nat) { 0xD800 <= u <= 0xDBFF }

  /** The code point of a surrogate pair. */
  function Combine(hi: nat, lo: nat): (u: nat)
    requires HighSurrogate(hi) && LowSurrogate(lo)
    ensures 0x1_0000 <= u < 0x11_0000
  {
    0x1_0000 + (hi - 0xD800) * 0x400 + (lo - 0xDC00)
  }

  /** What one escape or plain character decodes to, and where the next one starts; `Bad` makes the parse fail. */
  datatype Unit = Unit(text: string, next: nat) | Bad

  /** The `\u` escape whose `u` stands at `p`, inside a literal that ends at `end`. */
  function UnicodeUnit(s: string, p: nat, end: nat): (r: Unit) {
    var uc := Hex4(s, p + 1);
    if p + 4 >= end || LowSurrogate(uc) || uc == 0 then Bad
    else if HighSurrogate(uc) then
      var uc2 := Hex4(s, p + 7);
      if p + 10 > end || At(s, p + 5) != '\\' || At(s, p + 6) != 'u' || !LowSurrogate(uc2) then Bad
      else Unit(Utf8(Combine(uc, uc2)), p + 11)
    else Unit(Utf8(uc), p + 5)
  }

  function UnitAt(s: string, p: nat, end: nat): (r: Unit)
    ensures r.Unit? ==> p < r.next
  {
    if At(s, p) != '\\' then Unit([At(s, p)], p + 1)
    else
      var c := At(s, p + 1);
      if c == 'b' then Unit([0x8 as char], p + 2)
      else if c == 'f' then Unit([0xC as char], p + 2)
      else if c == 'n' then Unit("\n", p + 2)
      else if c == 'r' then Unit("\r", p + 2)
      else if c == 't' then Unit("\t", p + 2)
      else if c == 'u' then UnicodeUnit(s, p + 1, end)
      else Unit([c], p + 2)
  }

  datatype Text = Text(text: string) | BadText

  /** The second pass of `parse_string`. */
  function Unescape(s: string, p: nat, end: nat): Text
    decreases if p < end then end - p else 0
  {
    if p >= end then Text("")
    else
      match UnitAt(s, p, end)
      case Bad => BadText
      case Unit(t, next) =>
        match Unescape(s, next, end)
        case BadText => BadText
        case Text(rest) => Text(t + rest)
  }

  /** The first pass: the closing quote, or the terminator.  A backslash right before the terminator sends it past
      the end of the text. */
  function LiteralEnd(s: string, i: nat): (j: nat)
    ensures i <= j
    decreases |s| - i
  {
    if i >= |s| || s[i] == '\"' || s[i] == NUL then i
    else LiteralEnd(s, if s[i] == '\\' then i + 2 else i + 1)
  }

  /** The number of iterations of the first pass, which becomes the size of the output buffer. */
  function LiteralUnits(s: string, i: nat): nat
    decreases |s| - i
  {
    if i >= |s| || s[i] == '\"' || s[i] == NUL then 0
    else 1 + LiteralUnits(s, if s[i] == '\\' then i + 2 else i + 1)
  }

  // ----- what the two directions have to do with each other -----

  lemma HexBack(d: nat)
    requires d < 16
    ensures HexValue(HexChar(d)) == d && HexChar(d) != '\"' && HexChar(d) != '\\' && HexChar(d) != NUL
  {
  }

  lemma EscapeHex(s: string, p: nat, c: char, end: nat)
    requires NUL < c < ' ' && |Escape(c)| == 6 && p + 6 <= end && Occurs(s, p, Escape(c))
    ensures UnitAt(s, p, end) == Unit([c], p + 6)
    ensures LiteralEnd(s, p) == LiteralEnd(s, p + 6)
  {
    HexBack(c as nat / 16);
    HexBack(c as nat % 16);
    OccursAt(s, p, Escape(c), 0);
    OccursAt(s, p, Escape(c), 1);
    OccursAt(s, p, Escape(c), 2);
    OccursAt(s, p, Escape(c), 3);
    OccursAt(s, p, Escape(c), 4);
    OccursAt(s, p, Escape(c), 5);
    assert Hex4(s, p + 2) == c as nat;
    assert LiteralEnd(s, p + 2) == LiteralEnd(s, p + 4);
    assert LiteralEnd(s, p + 4) == LiteralEnd(s, p + 6);
  }

  /** An escaped character decodes to itself, and the first pass steps over exactly its escape. */
  lemma EscapeDecodes(s: string, p: nat, c: char, end: nat)
    requires c != NUL && Occurs(s, p, Escape(c)) && p + |Escape(c)| <= end
    ensures UnitAt(s, p, end) == Unit([c], p + |Escape(c)|)
    ensures LiteralEnd(s, p) == LiteralEnd(s, p + |Escape(c)|)
  {
    OccursAt(s, p, Escape(c), 0);
    if |Escape(c)| == 6 {
      EscapeHex(s, p, c, end);
    } else if |Escape(c)| == 2 {
      OccursAt(s, p, Escape(c), 1);
    }
  }

  lemma UnescapeStep(s: string, p: nat, end: nat, c: char, next: nat, rest: string)
    requires p < end && UnitAt(s, p, end) == Unit([c], next) && Unescape(s, next, end) == Text(rest)
    ensures Unescape(s, p, end) == Text([c] + rest)
  {
  }

  lemma EmptyLiteral(s: string, p: nat)
    requires Occurs(s, p, "\"")
    ensures LiteralEnd(s, p) == p && Unescape(s, p, p) == Text("")
  {
    OccursAt(s, p, "\"", 0);
  }

  lemma EscapeAllStep(s: string, p: nat, c: char, t: string, e: string, end: nat)
    requires c != NUL && e == Escape(c) && Occurs(s, p, e) && p + |e| <= end
    requires LiteralEnd(s, p + |e|) == end && Unescape(s, p + |e|, end) == Text(t)
    ensures LiteralEnd(s, p) == end && Unescape(s, p, end) == Text([c] + t)
  {
    hide *;
    EscapeDecodes(s, p, c, end);
    UnescapeStep(s, p, end, c, p + |e|, t);
  }

  /** Unescaping the escaped form of a NUL-free string gives it back and stops exactly at the closing quote. */
  lemma {:induction false} EscapeAllDecodes(s: string, p: nat, t: string, e: string)
    requires NulFree(t) && e == EscapeAll(t) && Occurs(s, p, e + "\"")
    ensures LiteralEnd(s, p) == p + |e|
    ensures Unescape(s, p, p + |e|) == Text(t)
    decreases |t|
  {
    hide Escape, LiteralEnd, Unescape;
    if t == [] {
      EmptyLiteral(s, p);
    } else {
      var c, first, rest := t[0], Escape(t[0]), EscapeAll(t[1..]);
      assert e + "\"" == first + (rest + "\"");
      OccursSplit(s, p, first, rest + "\"");
      EscapeAllDecodes(s, p + |first|, t[1..], rest);
      EscapeAllStep(s, p, c, t[1..], first, p + |e|);
      assert [c] + t[1..] == t;
    }
  }

  /** `parse_string`. */
  function ParseString(s: string, i: nat): (r: Parsed<string>)
    ensures r.Ok? ==> i < r.end <= |s|
  {
    if At(s, i) != '\"' then Fail
    else
      var end := LiteralEnd(s, i + 1);
      if end > |s| then Wild
      else
        match Unescape(s, i + 1, end)
        case BadText => Fail
        case Text(t) => Ok(t, if At(s, end) == '\"' then end + 1 else end)
  }

  lemma QuotedLayout(s: string, i: nat, e: string)
    requires Occurs(s, i, "\"" + e + "\"")
    ensures At(s, i) == '\"' && Occurs(s, i + 1, e + "\"") && At(s, i + 1 + |e|) == '\"' && i + 1 + |e| < |s|
  {
    assert "\"" + e + "\"" == "\"" + (e + "\"");
    OccursSplit(s, i, "\"", e + "\"");
    OccursSplit(s, i + 1, e, "\"");
  }

  lemma ParsedLiteral(s: string, i: nat, t: string, end: nat)
    requires At(s, i) == '\"' && LiteralEnd(s, i + 1) == end < |s| && At(s, end) == '\"' && Unescape(s, i + 1, end) == Text(t)
    ensures ParseString(s, i) == Ok(t, end + 1)
  {
    hide LiteralEnd, Unescape;
  }

  lemma QuotedBack(s: string, i: nat, p: nat, t: string, e: string, end: nat)
    requires NulFree(t) && e == EscapeAll(t) && Occurs(s, i, "\"" + e + "\"") && p == i + 1 && end == p + |e|
    ensures ParseString(s, i) == Ok(t, end + 1)
  {
    hide *;
    QuotedLayout(s, i, e);
    EscapeAllDecodes(s, p, t, e);
    ParsedLiteral(s, i, t, end);
  }

  /** A printed string parses back to itself, and to the position behind its closing quote. */
  lemma StringRoundTrip(s: string, i: nat, t: string)
    requires NulFree(t) && Occurs(s, i, PrintString(t))
    ensures ParseString(s, i) == Ok(t, i + |PrintString(t)|)
  {
    var e := EscapeAll(t);
    hide EscapeAll, Occurs, ParseString, NulFree;
    assert PrintString(t) == "\"" + e + "\"";
    QuotedBack(s, i, i + 1, t, e, i + 1 + |e|);
  }
}
