/** The buffers behind string literals: the first pass of the decoder bounds what the second pass writes, and the first
    pass of the printer counts it exactly. */
module JsonLiteral {
  import opened JsonTree
  import opened JsonString

  // ----- UTF-8 -----

  /** The code point that a UTF-8 sequence stands for (section 3 of RFC 3629). */
  function CodePoint(t: string): int {
    if |t| == 1 then t[0] as int
    else if |t| == 2 then (t[0] as int - 0xC0) * 0x40 + (t[1] as int - 0x80)
    else if |t| == 3 then ((t[0] as int - 0xE0) * 0x40 + (t[1] as int - 0x80)) * 0x40 + (t[2] as int - 0x80)
    else if |t| == 4 then
      (((t[0] as int - 0xF0) * 0x40 + (t[1] as int - 0x80)) * 0x40 + (t[2] as int - 0x80)) * 0x40 + (t[3] as int - 0x80)
    else -1
  }

  lemma Utf8RoundTrip(u: nat)
    requires u < 0x11_0000
    ensures CodePoint(Utf8(u)) == u
  {
    assert u / 0x1000 == u / 0x40 / 0x40 && u / 0x4_0000 == u / 0x40 / 0x40 / 0x40;
  }

  /** Every code point beyond the basic plane has a surrogate pair. */
  lemma SurrogatesCover(u: nat)
    requires 0x1_0000 <= u < 0x11_0000
    ensures
      var hi, lo := 0xD800 + (u - 0x1_0000) / 0x400, 0xDC00 + u % 0x400;
      HighSurrogate(hi) && LowSurrogate(lo) && Combine(hi, lo) == u
  {
  }

  // ----- the decoder's bound -----

  predicate PlainForScan(c: char) {
    c != '\"' && c != '\\' && c != NUL
  }

  /** The first pass steps over plain characters one by one. */
  lemma {:induction false} ScanPlain(s: string, p: nat, k: nat)
    requires forall j | p <= j < p + k :: PlainForScan(At(s, j))
    ensures LiteralEnd(s, p) == LiteralEnd(s, p + k) && LiteralUnits(s, p) == k + LiteralUnits(s, p + k)
    decreases k
  {
    if k > 0 {
      assert PlainForScan(At(s, p));
      ScanPlain(s, p + 1, k - 1);
    }
  }

  lemma Hex4Plain(s: string, p: nat)
    requires Hex4(s, p) != 0
    ensures forall j | p <= j < p + 4 :: PlainForScan(At(s, j))
  {
    assert HexValue(NUL) < 0 && HexValue('\"') < 0 && HexValue('\\') < 0;
    assert HexValue(At(s, p)) >= 0 && HexValue(At(s, p + 1)) >= 0 && HexValue(At(s, p + 2)) >= 0 && HexValue(At(s, p + 3)) >= 0;
    forall j | p <= j < p + 4 ensures PlainForScan(At(s, j)) {
      assert j == p || j == p + 1 || j == p + 2 || j == p + 3;
    }
  }

  /** The first pass takes a `\u` escape in five steps and meets the rest of the literal behind it. */
  lemma ScanUnicode(s: string, p: nat)
    requires At(s, p) == '\\' && At(s, p + 1) == 'u' && Hex4(s, p + 2) != 0
    ensures LiteralEnd(s, p) == LiteralEnd(s, p + 6) && LiteralUnits(s, p) == 5 + LiteralUnits(s, p + 6)
  {
    Hex4Plain(s, p + 2);
    ScanPlain(s, p + 2, 4);
  }

  lemma UnicodeWithinScan(s: string, p: nat, end: nat)
    requires p < end == LiteralEnd(s, p) && end <= |s| && At(s, p) == '\\' && At(s, p + 1) == 'u'
    ensures
      var u := UnicodeUnit(s, p + 1, end);
      u.Unit? ==>
        && u.next <= end && LiteralEnd(s, u.next) == end
        && |u.text| + LiteralUnits(s, u.next) < LiteralUnits(s, p)
  {
    hide LiteralEnd, LiteralUnits, Hex4, Utf8;
    var uc := Hex4(s, p + 2);
    if uc != 0 {
      ScanUnicode(s, p);
      if HighSurrogate(uc) && At(s, p + 6) == '\\' && At(s, p + 7) == 'u' && Hex4(s, p + 8) != 0 {
        ScanUnicode(s, p + 6);
      }
    }
  }

  /** One unit of the second pass covers whole iterations of the first, at least as many as it writes bytes, and does
      not run over the end of the literal. */
  lemma UnitWithinScan(s: string, p: nat, end: nat)
    requires p < end == LiteralEnd(s, p) && end <= |s|
    ensures
      var u := UnitAt(s, p, end);
      u.Unit? ==>
        && u.next <= end && LiteralEnd(s, u.next) == end
        && |u.text| + LiteralUnits(s, u.next) <= LiteralUnits(s, p)
  {
    if At(s, p) == '\\' && At(s, p + 1) == 'u' {
      UnicodeWithinScan(s, p, end);
    }
  }

  /** A literal that decodes does so in at most as many bytes as the first pass counted. */
  lemma {:induction false} DecodedFits(s: string, p: nat, end: nat)
    requires p <= end == LiteralEnd(s, p) && end <= |s|
    ensures Unescape(s, p, end).Text? ==> |Unescape(s, p, end).text| <= LiteralUnits(s, p)
    decreases end - p
  {
    if p < end {
      UnitWithinScan(s, p, end);
      var u := UnitAt(s, p, end);
      if u.Unit? { DecodedFits(s, u.next, end); }
    }
  }
}
