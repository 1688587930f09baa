/** Base64 as in section 4 of RFC 4648, computed the way the source does: the encoder spreads a 24-bit group over
    four bytes by repeated masked additions, the decoder squeezes four bytes together again and never resets its
    accumulator between groups. */
module Base64 {

  type Byte = bv8

  const PAD: Byte := 0x3D

  /** The encoding table. */
  function EncodeChar(v: bv32): (c: Byte)
    requires v < 64
  {
    if v < 26 then (v + 0x41) as bv8
    else if v < 52 then (v - 26 + 0x61) as bv8
    else if v < 62 then (v - 52 + 0x30) as bv8
    else if v == 62 then 0x2B
    else 0x2F
  }

  /** The decoding table: 64 marks characters to skip, 65 the padding. */
  function DecodeChar(c: Byte): (v: bv32)
    ensures v <= 65 && (v == 65 <==> c == PAD)
  {
    if 0x41 <= c <= 0x5A then (c - 0x41) as bv32
    else if 0x61 <= c <= 0x7A then (c - 0x61 + 26) as bv32
    else if 0x30 <= c <= 0x39 then (c - 0x30 + 52) as bv32
    else if c == 0x2B then 62
    else if c == 0x2F then 63
    else if c == PAD then 65
    else 64
  }

  lemma TablesInverse(v: bv32)
    requires v < 64
    ensures DecodeChar(EncodeChar(v)) == v && EncodeChar(v) != PAD
  {
  }

  // ----- what encoding and decoding mean -----

  /** The `k`-th sextet, counted from the low end, of a group of bits. */
  function Sextet(e: bv32, k: nat): (v: bv32)
    requires k < 4
    ensures v < 64
  {
    if k == 0 then e & 0x3F
    else if k == 1 then (e >> 6) & 0x3F
    else if k == 2 then (e >> 12) & 0x3F
    else (e >> 18) & 0x3F
  }

  function Group(a: Byte, b: Byte, c: Byte): bv32 {
    ((a as bv32) << 16) | ((b as bv32) << 8) | (c as bv32)
  }

  /** Three bytes become four characters. */
  function Quad(a: Byte, b: Byte, c: Byte): (q: seq<Byte>)
    ensures |q| == 4
  {
    var e := Group(a, b, c);
    [EncodeChar(Sextet(e, 3)), EncodeChar(Sextet(e, 2)), EncodeChar(Sextet(e, 1)), EncodeChar(Sextet(e, 0))]
  }

  function EncodeGroups(x: seq<Byte>): seq<Byte>
    requires |x| % 3 == 0
  {
    if x == [] then [] else var n := |x|; EncodeGroups(x[..n - 3]) + Quad(x[n - 3], x[n - 2], x[n - 1])
  }

  /** The last one or two bytes are padded with zero bits and the missing characters with `=`. */
  function EncodeRest(x: seq<Byte>): seq<Byte>
    requires |x| < 3
  {
    if |x| == 0 then []
    else if |x| == 1 then Quad(x[0], 0, 0)[..2] + [PAD, PAD]
    else Quad(x[0], x[1], 0)[..3] + [PAD]
  }

  function Encode(x: seq<Byte>): seq<Byte> {
    var n := |x| - |x| % 3;
    EncodeGroups(x[..n]) + EncodeRest(x[n..])
  }

  /** The value of an alphabet character. */
  type Six = v: bv32 | v < 64

  /** Four sextets make three bytes. */
  function Triple(v0: Six, v1: Six, v2: Six, v3: Six): (t: seq<Byte>)
    ensures |t| == 3
  {
    [((v0 << 2) | (v1 >> 4)) as bv8, (((v1 & 0xF) << 4) | (v2 >> 2)) as bv8, (((v2 & 0x3) << 6) | v3) as bv8]
  }

  /** The values of the alphabet characters of a text; all others are skipped. */
  function Values(s: seq<Byte>): (v: seq<Six>)
    ensures |v| <= |s|
  {
    if s == [] then []
    else
      var d := DecodeChar(s[|s| - 1]);
      Values(s[..|s| - 1]) + if d < 64 then [d] else []
  }

  /** The sextets that belong to complete groups of four. */
  function Whole(v: seq<Six>): (w: seq<Six>)
    ensures |w| % 4 == 0 && |w| == |v| / 4 * 4
  {
    v[..|v| - |v| % 4]
  }

  function DecodeGroups(v: seq<Six>): seq<Byte>
    requires |v| % 4 == 0
  {
    if v == [] then []
    else var n := |v|; DecodeGroups(v[..n - 4]) + Triple(v[n - 4], v[n - 3], v[n - 2], v[n - 1])
  }

  datatype Decoded = Decoded(bytes: seq<Byte>, error: bool)

  /** The position of the first padding character among the first `size` ones. */
  function FirstPad(s: seq<Byte>, size: nat): (p: nat)
    requires size <= |s|
    ensures p <= size && PAD !in s[..p] && (p < size ==> s[p] == PAD)
  {
    if size == 0 then 0
    else
      var p := FirstPad(s, size - 1);
      if p < size - 1 || s[size - 1] == PAD then p
      else (assert s[..size] == s[..size - 1] + [s[size - 1]]; size)
  }

  /** What the first padding character makes of an incomplete group: three sextets are two bytes, two sextets are
      one byte if another `=` follows, and anything else is an error. */
  function Last(v: seq<Six>, next: Byte): (d: Decoded)
    ensures |d.bytes| <= 2
  {
    var n := |v|;
    if n % 4 == 3 then Decoded(Triple(v[n - 3], v[n - 2], v[n - 1], 0)[..2], false)
    else if n % 4 == 2 && next == PAD then Decoded(Triple(v[n - 2], v[n - 1], 0, 0)[..1], false)
    else Decoded([], true)
  }

  /** The bytes of the complete groups, and what becomes of the rest: without padding there must be none. */
  function Finished(v: seq<Six>, padded: bool, next: Byte): Decoded {
    if padded then Decoded(DecodeGroups(Whole(v)) + Last(v, next).bytes, Last(v, next).error)
    else Decoded(DecodeGroups(Whole(v)), |v| % 4 != 0)
  }

  /** The decoder looks at the character behind the first padding character where two sextets are left over, even if that is
      beyond `size`; then, and only then, it must be there. */
  predicate Readable(s: seq<Byte>, size: nat) {
    && size <= |s|
    && var p := FirstPad(s, size); p < size && |Values(s[..p])| % 4 == 2 ==> p + 1 < |s|
  }

  function CharAt(s: seq<Byte>, i: nat): Byte {
    if i < |s| then s[i] else 0
  }

  /** Decoding ends at the first padding character, or else at the end. */
  function Decode(s: seq<Byte>, size: nat): Decoded
    requires Readable(s, size)
  {
    var p := FirstPad(s, size);
    Finished(Values(s[..p]), p < size, CharAt(s, p + 1))
  }

  // ----- the encoder -----

  /** Adding twice the part above `mask` shifts it left by two bits. */
  function Lift(e: bv32, mask: bv32): bv32 {
    (e & mask) | ((e & !mask) << 2)
  }

  lemma AddingLifts18(e: bv32)
    ensures var once := e + (e & !0x3FFFF); once + (once & !0x3FFFF) == Lift(e, 0x3FFFF)
  {
  }

  lemma AddingLifts12(e: bv32)
    ensures var once := e + (e & !0xFFF); once + (once & !0xFFF) == Lift(e, 0xFFF)
  {
  }

  lemma AddingLifts6(e: bv32)
    ensures var once := e + (e & !0x3F); once + (once & !0x3F) == Lift(e, 0x3F)
  {
  }

  lemma LiftedGroups(e: bv32)
    requires e < 0x100_0000
    ensures var s := Lift(Lift(Lift(e, 0x3FFFF), 0xFFF), 0x3F);
      && s >> 24 == Sextet(e, 3) && (s >> 16) & 0xFF == Sextet(e, 2)
      && (s >> 8) & 0xFF == Sextet(e, 1) && s & 0xFF == Sextet(e, 0)
  {
  }

  /** Four sextets, one in each byte of the result. */
  method Spread24(e: bv32) returns (ebuf: bv32)
    requires e < 0x100_0000
    ensures ebuf == Lift(Lift(Lift(e, 0x3FFFF), 0xFFF), 0x3F)
  {
    ebuf := e;
    AddingLifts18(ebuf);
    ebuf := ebuf + (ebuf & !0x3FFFF);
    ebuf := ebuf + (ebuf & !0x3FFFF);
    AddingLifts12(ebuf);
    ebuf := ebuf + (ebuf & !0xFFF);
    ebuf := ebuf + (ebuf & !0xFFF);
    AddingLifts6(ebuf);
    ebuf := ebuf + (ebuf & !0x3F);
    ebuf := ebuf + (ebuf & !0x3F);
  }

  lemma GroupSmall(a: Byte, b: Byte, c: Byte)
    ensures Group(a, b, c) < 0x100_0000
  {
  }

  method GroupChars(a: Byte, b: Byte, c: Byte) returns (c0: Byte, c1: Byte, c2: Byte, c3: Byte)
    ensures [c0, c1, c2, c3] == Quad(a, b, c)
  {
    GroupSmall(a, b, c);
    LiftedGroups(Group(a, b, c));
    var ebuf := Spread24(Group(a, b, c));
    c0 := EncodeChar(ebuf >> 24);
    c1 := EncodeChar((ebuf >> 16) & 0xFF);
    c2 := EncodeChar((ebuf >> 8) & 0xFF);
    c3 := EncodeChar(ebuf & 0xFF);
  }

  lemma LiftedPair(a: Byte, b: Byte)
    ensures var e := ((a as bv32) << 10) | ((b as bv32) << 2);
      var s := Lift(Lift(e, 0xFFF), 0x3F);
      && (s >> 16) & 0xFF == Sextet(Group(a, b, 0), 3) && (s >> 8) & 0xFF == Sextet(Group(a, b, 0), 2)
      && s & 0xFF == Sextet(Group(a, b, 0), 1)
  {
  }

  method Spread18(e: bv32) returns (ebuf: bv32)
    ensures ebuf == Lift(Lift(e, 0xFFF), 0x3F)
  {
    ebuf := e;
    AddingLifts12(ebuf);
    ebuf := ebuf + (ebuf & !0xFFF);
    ebuf := ebuf + (ebuf & !0xFFF);
    AddingLifts6(ebuf);
    ebuf := ebuf + (ebuf & !0x3F);
    ebuf := ebuf + (ebuf & !0x3F);
  }

  /** The 18-bit group made of two last bytes. */
  method PairChars(a: Byte, b: Byte) returns (c0: Byte, c1: Byte, c2: Byte)
    ensures [c0, c1, c2, PAD] == EncodeRest([a, b])
  {
    LiftedPair(a, b);
    var ebuf := Spread18(((a as bv32) << 10) | ((b as bv32) << 2));
    c0 := EncodeChar((ebuf >> 16) & 0xFF);
    c1 := EncodeChar((ebuf >> 8) & 0xFF);
    c2 := EncodeChar(ebuf & 0xFF);
  }

  lemma LiftedSingle(a: Byte)
    ensures var s := Lift((a as bv32) << 4, 0x3F);
      && (s >> 8) & 0xFF == Sextet(Group(a, 0, 0), 3) && s & 0xFF == Sextet(Group(a, 0, 0), 2)
  {
  }

  /** The 12-bit group made of one last byte. */
  method SingleChars(a: Byte) returns (c0: Byte, c1: Byte)
    ensures [c0, c1, PAD, PAD] == EncodeRest([a])
  {
    LiftedSingle(a);
    var ebuf: bv32 := (a as bv32) << 4;
    AddingLifts6(ebuf);
    ebuf := ebuf + (ebuf & !0x3F);
    ebuf := ebuf + (ebuf & !0x3F);
    c0 := EncodeChar((ebuf >> 8) & 0xFF);
    c1 := EncodeChar(ebuf & 0xFF);
  }

  method Emit(out: array<Byte>, s: nat, c0: Byte, c1: Byte, c2: Byte, c3: Byte)
    requires s + 4 <= out.Length
    modifies out
    ensures out[..s + 4] == old(out[..s]) + [c0, c1, c2, c3] && out[s + 4..] == old(out[s + 4..])
  {
    out[s], out[s + 1], out[s + 2], out[s + 3] := c0, c1, c2, c3;
  }

  lemma {:induction false} EncodeGroupsLength(x: seq<Byte>)
    requires |x| % 3 == 0
    ensures |EncodeGroups(x)| == |x| / 3 * 4
  {
    if x != [] { EncodeGroupsLength(x[..|x| - 3]); }
  }

  /** Four characters for every three bytes or part of three bytes. */
  lemma EncodeLength(x: seq<Byte>)
    ensures |Encode(x)| == (|x| + 2) / 3 * 4
  {
    var n := |x| - |x| % 3;
    EncodeGroupsLength(x[..n]);
    RestLength(x[n..]);
    hide EncodeGroups, EncodeRest;
    StartedTriples(|x| / 3, |x| % 3);
  }

  lemma RestLength(rest: seq<Byte>)
    requires |rest| < 3
    ensures |EncodeRest(rest)| == if rest == [] then 0 else 4
  {
  }

  lemma StartedTriples(q: nat, r: nat)
    requires r < 3
    ensures (3 * q + r + 2) / 3 == q + if r == 0 then 0 else 1
  {
  }

  /** The characters of the first `i` triples. */
  function FirstGroups(x: seq<Byte>, i: nat): seq<Byte>
    requires 3 * i <= |x|
  {
    EncodeGroups(x[..3 * i])
  }

  lemma FirstGroupsNext(x: seq<Byte>, i: nat)
    requires 3 * i + 3 <= |x|
    ensures FirstGroups(x, i + 1) == FirstGroups(x, i) + Quad(x[3 * i], x[3 * i + 1], x[3 * i + 2])
  {
    assert x[..3 * (i + 1)][..3 * i] == x[..3 * i];
  }

  method EncodeOne(x: seq<Byte>, i: nat, out: array<Byte>)
    requires 3 * i + 3 <= |x| && out.Length >= 4 * i + 4 && out[..4 * i] == FirstGroups(x, i)
    modifies out
    ensures out[..4 * i + 4] == FirstGroups(x, i + 1) && out[4 * i + 4..] == old(out[4 * i + 4..])
  {
    var c0, c1, c2, c3 := GroupChars(x[3 * i], x[3 * i + 1], x[3 * i + 2]);
    FirstGroupsNext(x, i);
    hide FirstGroups, Quad;
    Emit(out, 4 * i, c0, c1, c2, c3);
  }

  method EncodeWhole(x: seq<Byte>, nw: nat, out: array<Byte>)
    requires 3 * nw <= |x| && out.Length >= 4 * nw
    modifies out
    ensures out[..4 * nw] == FirstGroups(x, nw) && out[4 * nw..] == old(out[4 * nw..])
  {
    ghost var was := out[..];
    for i := 0 to nw
      invariant out[..4 * i] == FirstGroups(x, i)
      invariant out[4 * i..] == was[4 * i..]
    {
      hide FirstGroups;
      assert out[4 * i + 4..] == out[4 * i..][4..];
      EncodeOne(x, i, out);
    }
  }

  method EncodeTail(rest: seq<Byte>, out: array<Byte>, s: nat) returns (e: nat)
    requires |rest| < 3 && (if rest == [] then s else s + 4) <= out.Length
    modifies out
    ensures e == s + |EncodeRest(rest)| <= out.Length
    ensures out[..e] == old(out[..s]) + EncodeRest(rest) && out[e..] == old(out[e..])
  {
    e := s;
    if |rest| == 2 {
      var c0, c1, c2 := PairChars(rest[0], rest[1]);
      assert rest == [rest[0], rest[1]];
      Emit(out, s, c0, c1, c2, PAD);
      e := s + 4;
    } else if |rest| == 1 {
      var c0, c1 := SingleChars(rest[0]);
      assert rest == [rest[0]];
      Emit(out, s, c0, c1, PAD, PAD);
      e := s + 4;
    }
  }

  /** `base64_encode`: fills the front of the buffer with the encoded text and returns its length. */
  method Base64Encode(x: seq<Byte>, out: array<Byte>) returns (s: nat)
    requires out.Length >= (|x| + 2) / 3 * 4
    modifies out
    ensures s == |Encode(x)| <= out.Length && out[..s] == Encode(x) && out[s..] == old(out[s..])
  {
    ghost var was := out[..];
    EncodeLength(x);
    var nw := |x| / 3;
    assert 3 * nw == |x| - |x| % 3;
    EncodeWhole(x, nw, out);
    ghost var mid := out[..];
    s := EncodeTail(x[3 * nw..], out, 4 * nw);
    assert mid[s..] == mid[4 * nw..][s - 4 * nw..];
    assert was[s..] == was[4 * nw..][s - 4 * nw..];
  }

  // ----- the decoder -----

  /** The accumulator holds, in its low bytes, the last `ac` sextets; what is above them is left over from earlier
      groups. */
  ghost predicate Accumulated(b: bv32, v: seq<Six>, ac: nat) {
    var n := |v|;
    && ac == n % 4
    && (ac == 1 ==> b & 0xFF == v[n - 1])
    && (ac == 2 ==> b & 0xFFFF == Packed2(v[n - 2], v[n - 1]))
    && (ac == 3 ==> b & 0xFF_FFFF == Packed3(v[n - 3], v[n - 2], v[n - 1]))
  }

  function Packed2(v0: bv32, v1: bv32): bv32 { (v0 << 8) | v1 }

  function Packed3(v0: bv32, v1: bv32, v2: bv32): bv32 { (v0 << 16) | (v1 << 8) | v2 }

  function Packed4(v0: bv32, v1: bv32, v2: bv32, v3: bv32): bv32 { (v0 << 24) | (v1 << 16) | (v2 << 8) | v3 }

  lemma Push1(b: bv32, x: bv32)
    requires x < 64
    ensures ((b << 8) | x) & 0xFF == x
  {
  }

  lemma Push2(b: bv32, v: bv32, x: bv32)
    requires x < 64 && b & 0xFF == v
    ensures ((b << 8) | x) & 0xFFFF == Packed2(v, x)
  {
  }

  lemma Push3(b: bv32, v0: bv32, v1: bv32, x: bv32)
    requires x < 64 && b & 0xFFFF == Packed2(v0, v1)
    ensures ((b << 8) | x) & 0xFF_FFFF == Packed3(v0, v1, x)
  {
  }

  lemma Push4(b: bv32, v0: bv32, v1: bv32, v2: bv32, x: bv32)
    requires x < 64 && b & 0xFF_FFFF == Packed3(v0, v1, v2)
    ensures (b << 8) | x == Packed4(v0, v1, v2, x)
  {
  }

  /** One more sextet in the accumulator; the fourth completes a group. */
  lemma Accumulate(b: bv32, v: seq<Six>, ac: nat, x: Six)
    requires Accumulated(b, v, ac)
    ensures ac < 3 ==> Accumulated((b << 8) | x, v + [x], ac + 1)
    ensures ac == 3 ==> var n := |v|; (b << 8) | x == Packed4(v[n - 3], v[n - 2], v[n - 1], x)
  {
    var n := |v|;
    if ac == 0 { Push1(b, x); }
    else if ac == 1 { Push2(b, v[n - 1], x); }
    else if ac == 2 { Push3(b, v[n - 2], v[n - 1], x); }
    else { Push4(b, v[n - 3], v[n - 2], v[n - 1], x); }
  }

  /** Move everything above `mask` down by two bits. */
  function Lower(b: bv32, mask: bv32): bv32 {
    (b & mask) | ((b & !mask) >> 2)
  }

  lemma Squeeze4(v0: Six, v1: Six, v2: Six, v3: Six)
    ensures var s := Lower(Lower(Lower(Packed4(v0, v1, v2, v3), 0x3F), 0xFFF), 0x3FFFF);
      [((s >> 16) & 0xFF) as bv8, ((s >> 8) & 0xFF) as bv8, (s & 0xFF) as bv8] == Triple(v0, v1, v2, v3)
  {
  }

  lemma Squeeze3(b: bv32, v0: Six, v1: Six, v2: Six)
    requires b & 0xFF_FFFF == Packed3(v0, v1, v2)
    ensures var s := Lower(Lower(b, 0x3F), 0xFFF) >> 2;
      [((s >> 8) & 0xFF) as bv8, (s & 0xFF) as bv8] == Triple(v0, v1, v2, 0)[..2]
  {
  }

  lemma Squeeze2(b: bv32, v0: Six, v1: Six)
    requires b & 0xFFFF == Packed2(v0, v1)
    ensures var s := Lower(b, 0x3F) >> 4; [(s & 0xFF) as bv8] == Triple(v0, v1, 0, 0)[..1]
  {
  }

  lemma {:induction false} GroupsLength(v: seq<Six>, q: nat)
    requires |v| == 4 * q
    ensures |DecodeGroups(v)| == 3 * q
  {
    if v != [] { GroupsLength(v[..|v| - 4], q - 1); }
  }

  lemma GroupsNext(v: seq<Six>, x: Six)
    ensures |v| % 4 != 3 ==> Whole(v + [x]) == Whole(v)
    ensures |v| % 4 == 3 ==> var n := |v|;
      DecodeGroups(Whole(v + [x])) == DecodeGroups(Whole(v)) + Triple(v[n - 3], v[n - 2], v[n - 1], x)
  {
    if |v| % 4 == 3 {
      assert Whole(v + [x]) == v + [x];
      assert (v + [x])[..|v| - 3] == Whole(v);
    }
  }

  lemma {:induction false} FirstPadAt(s: seq<Byte>, size: nat, p: nat)
    requires p <= size <= |s| && PAD !in s[..p] && (p < size ==> s[p] == PAD)
    ensures FirstPad(s, size) == p
  {
    if size > 0 {
      if p < size {
        if p < size - 1 { FirstPadAt(s, size - 1, p); } else { FirstPadAt(s, size - 1, size - 1); }
      } else {
        assert PAD !in s[..size - 1] by { assert s[..size - 1] == s[..size][..size - 1]; }
        FirstPadAt(s, size - 1, size - 1);
        assert s[size - 1] == s[..size][size - 1];
      }
    }
  }

  lemma ValuesNext(s: seq<Byte>, i: nat)
    requires i < |s| && PAD !in s[..i] && s[i] != PAD
    ensures PAD !in s[..i + 1]
    ensures Values(s[..i + 1]) == Values(s[..i]) + if DecodeChar(s[i]) == 64 then [] else [DecodeChar(s[i])]
  {
    assert s[..i + 1] == s[..i] + [s[i]];
    assert s[..i + 1][..i] == s[..i];
  }

  lemma DecodedGroups(s: seq<Byte>, size: nat)
    requires Readable(s, size)
    ensures |Values(s[..FirstPad(s, size)])| / 4 * 3 <= |Decode(s, size).bytes|
  {
    GroupsLength(Whole(Values(s[..FirstPad(s, size)])), |Values(s[..FirstPad(s, size)])| / 4);
    hide Values, FirstPad, DecodeGroups;
  }

  lemma GroupsMonotone(m: nat, n: nat)
    requires m <= n
    ensures m / 4 * 3 <= n / 4 * 3
  {
  }

  /** How much is written before the padding, and in all. */
  lemma DecodedLength(s: seq<Byte>, size: nat, i: nat)
    requires Readable(s, size) && i <= FirstPad(s, size)
    ensures PAD !in s[..i] && |Values(s[..i])| / 4 * 3 <= |Decode(s, size).bytes|
  {
    DecodedGroups(s, size);
    var p := FirstPad(s, size);
    assert p <= |s| && PAD !in s[..p];
    hide *;
    assert s[..i] == s[..p][..i];
    ValuesMonotone(s[..p], i);
    GroupsMonotone(|Values(s[..i])|, |Values(s[..p])|);
  }

  lemma {:induction false} ValuesMonotone(s: seq<Byte>, i: nat)
    requires i <= |s|
    ensures |Values(s[..i])| <= |Values(s)|
  {
    if i < |s| {
      assert s[..|s| - 1][..i] == s[..i];
      ValuesMonotone(s[..|s| - 1], i);
    } else {
      assert s[..i] == s;
    }
  }

  method Put(out: array<Byte>, s: nat, bytes: seq<Byte>)
    requires s + |bytes| <= out.Length && |bytes| <= 3
    modifies out
    ensures out[..s + |bytes|] == old(out[..s]) + bytes && out[s + |bytes|..] == old(out[s + |bytes|..])
  {
    if |bytes| > 0 { out[s] := bytes[0]; }
    if |bytes| > 1 { out[s + 1] := bytes[1]; }
    if |bytes| > 2 { out[s + 2] := bytes[2]; }
  }

  /** The bytes of a full accumulator. */
  method GroupBytes(b: bv32, ghost v0: Six, ghost v1: Six, ghost v2: Six, ghost v3: Six)
    returns (b': bv32, bytes: seq<Byte>)
    requires b == Packed4(v0, v1, v2, v3)
    ensures bytes == Triple(v0, v1, v2, v3)
  {
    Squeeze4(v0, v1, v2, v3);
    b' := Lower(b, 0x3F);
    b' := Lower(b', 0xFFF);
    b' := Lower(b', 0x3FFFF);
    bytes := [((b' >> 16) & 0xFF) as bv8, ((b' >> 8) & 0xFF) as bv8, (b' & 0xFF) as bv8];
  }

  /** The two bytes of three sextets. */
  method TwoBytes(b: bv32, ghost v0: Six, ghost v1: Six, ghost v2: Six) returns (bytes: seq<Byte>)
    requires b & 0xFF_FFFF == Packed3(v0, v1, v2)
    ensures bytes == Triple(v0, v1, v2, 0)[..2]
  {
    Squeeze3(b, v0, v1, v2);
    var c := Lower(b, 0x3F);
    c := Lower(c, 0xFFF);
    c := c >> 2;
    return [((c >> 8) & 0xFF) as bv8, (c & 0xFF) as bv8];
  }

  /** The byte of two sextets. */
  method OneByte(b: bv32, ghost v0: Six, ghost v1: Six) returns (bytes: seq<Byte>)
    requires b & 0xFFFF == Packed2(v0, v1)
    ensures bytes == Triple(v0, v1, 0, 0)[..1]
  {
    Squeeze2(b, v0, v1);
    var c := Lower(b, 0x3F);
    c := c >> 4;
    return [(c & 0xFF) as bv8];
  }

  lemma LeftOver(b: bv32, v: seq<Six>, ac: nat)
    requires Accumulated(b, v, ac)
    ensures ac == |v| % 4
    ensures ac == 2 ==> b & 0xFFFF == Packed2(v[|v| - 2], v[|v| - 1])
    ensures ac == 3 ==> b & 0xFF_FFFF == Packed3(v[|v| - 3], v[|v| - 2], v[|v| - 1])
  {
  }

  /** What is written at the first padding character, in position `i`. */
  method LastBytes(b: bv32, ac: nat, x: seq<Byte>, i: nat, ghost v: seq<Six>) returns (bytes: seq<Byte>, error: bool)
    requires Accumulated(b, v, ac) && (|v| % 4 == 2 ==> i + 1 < |x|)
    ensures Decoded(bytes, error) == Last(v, CharAt(x, i + 1))
  {
    LeftOver(b, v, ac);
    hide Accumulated, Packed2, Packed3, Triple;
    bytes, error := [], false;
    if ac == 3 {
      bytes := TwoBytes(b, v[|v| - 3], v[|v| - 2], v[|v| - 1]);
    } else if ac == 2 && x[i + 1] == PAD {
      bytes := OneByte(b, v[|v| - 2], v[|v| - 1]);
    } else {
      error := true;
    }
  }

  /** What is in the buffer once the sextets `v` have been read. */
  ghost predicate Written(out: array<Byte>, s: nat, v: seq<Six>)
    reads out
  {
    s == |v| / 4 * 3 <= out.Length && out[..s] == DecodeGroups(Whole(v))
  }

  /** One alphabet character: the accumulator takes it in, and gives out three bytes when it is full. */
  method Consume(b: bv32, ac: nat, s: nat, d: Six, out: array<Byte>, ghost v: seq<Six>)
    returns (b': bv32, ac': nat, s': nat)
    requires Accumulated(b, v, ac) && Written(out, s, v) && |v + [d]| / 4 * 3 <= out.Length
    modifies out
    ensures Accumulated(b', v + [d], ac') && Written(out, s', v + [d]) && s <= s'
    ensures out[s'..] == old(out[s'..])
  {
    Accumulate(b, v, ac, d);
    GroupsNext(v, d);
    b', ac', s' := (b << 8) | d, ac + 1, s;
    if ac' == 4 {
      var bytes;
      b', bytes := GroupBytes(b', v[|v| - 3], v[|v| - 2], v[|v| - 1], d);
      Put(out, s, bytes);
      s' := s + 3;
      ac' := 0;
    }
  }

  /** The first `i` characters are decoded, there was no padding among them, and what is behind the text in the buffer is
      as it was. */
  ghost predicate Decoding(x: seq<Byte>, size: nat, i: nat, b: bv32, ac: nat, s: nat, out: array<Byte>, v: seq<Six>, was: seq<Byte>)
    reads out
  {
    && Readable(x, size) && i <= FirstPad(x, size) && PAD !in x[..i] && v == Values(x[..i])
    && Accumulated(b, v, ac) && Written(out, s, v)
    && |Decode(x, size).bytes| <= out.Length == |was| && out[s..] == was[s..]
  }

  lemma SameTail(a: seq<Byte>, b: seq<Byte>, s: nat, s': nat)
    requires s <= s' <= |a| == |b| && a[s..] == b[s..]
    ensures a[s'..] == b[s'..]
  {
    assert a[s'..] == a[s..][s' - s..] && b[s'..] == b[s..][s' - s..];
  }

  lemma DecodeWithoutPad(x: seq<Byte>, size: nat)
    requires size <= |x| && PAD !in x[..size]
    ensures Readable(x, size)
    ensures var v := Values(x[..size]); Decode(x, size) == Decoded(DecodeGroups(Whole(v)), |v| % 4 != 0)
  {
    FirstPadAt(x, size, size);
  }

  lemma DecodingStarts(x: seq<Byte>, size: nat, out: array<Byte>)
    requires Readable(x, size) && |Decode(x, size).bytes| <= out.Length
    ensures size <= |x| && Decoding(x, size, 0, 0, 0, 0, out, [], out[..])
  {
    hide FirstPad, Decode;
  }

  lemma DecodingEnds(x: seq<Byte>, size: nat, b: bv32, ac: nat, s: nat, out: array<Byte>, v: seq<Six>, was: seq<Byte>)
    requires Decoding(x, size, size, b, ac, s, out, v, was)
    ensures s <= out.Length == |was| && Decode(x, size) == Decoded(out[..s], ac != 0) && out[s..] == was[s..]
  {
    DecodeWithoutPad(x, size);
    LeftOver(b, v, ac);
    hide Accumulated, Decode, DecodeGroups, Values;
  }

  /** The first padding character ends the decoding. */
  method Finish(x: seq<Byte>, size: nat, i: nat, b: bv32, ac: nat, s: nat, out: array<Byte>, ghost v: seq<Six>, ghost was: seq<Byte>)
    returns (s': nat, flag: bool)
    requires Decoding(x, size, i, b, ac, s, out, v, was) && i < size && x[i] == PAD
    modifies out
    ensures s' <= out.Length == |was| && Decode(x, size) == Decoded(out[..s'], flag) && out[s'..] == was[s'..]
  {
    ghost var before := out[..];
    FirstPadAt(x, size, i);
    var bytes, error := LastBytes(b, ac, x, i, v);
    Put(out, s, bytes);
    SameTail(before, was, s, s + |bytes|);
    return s + |bytes|, error;
  }

  /** One character that is not padding: taken in, or skipped. */
  method TakeChar(x: seq<Byte>, size: nat, i: nat, b: bv32, ac: nat, s: nat, out: array<Byte>, ghost v: seq<Six>, ghost was: seq<Byte>)
    returns (b': bv32, ac': nat, s': nat, ghost v': seq<Six>)
    requires Decoding(x, size, i, b, ac, s, out, v, was) && i < size && x[i] != PAD
    modifies out
    ensures Decoding(x, size, i + 1, b', ac', s', out, v', was)
  {
    ghost var before := out[..];
    RoomForNext(x, size, i);
    hide Values, FirstPad, Readable, Decode, Accumulated;
    b', ac', s', v' := b, ac, s, v;
    var d := DecodeChar(x[i]);
    if d != 64 {
      b', ac', s' := Consume(b, ac, s, d, out, v);
      SameTail(before, was, s, s');
      v' := v + [d];
    }
  }

  /** `base64_decode`: the decoded bytes go to the front of the buffer. */
  method Base64Decode(x: seq<Byte>, size: nat, out: array<Byte>) returns (s: nat, flag: bool)
    requires Readable(x, size) && |Decode(x, size).bytes| <= out.Length
    modifies out
    ensures s <= out.Length && Decode(x, size) == Decoded(out[..s], flag) && out[s..] == old(out[s..])
  {
    hide *;
    ghost var was := out[..];
    var b: bv32, ac: nat := 0, 0;
    ghost var v: seq<Six> := [];
    s := 0;
    DecodingStarts(x, size, out);
    for i := 0 to size
      invariant Decoding(x, size, i, b, ac, s, out, v, was)
    {
      if x[i] == PAD {
        s, flag := Finish(x, size, i, b, ac, s, out, v, was);
        return;
      }
      b, ac, s, v := TakeChar(x, size, i, b, ac, s, out, v, was);
    }
    flag := ac != 0;
    DecodingEnds(x, size, b, ac, s, out, v, was);
  }

  lemma RoomForNext(x: seq<Byte>, size: nat, i: nat)
    requires Readable(x, size) && i < size && i <= FirstPad(x, size) && PAD !in x[..i] && x[i] != PAD
    ensures i + 1 <= FirstPad(x, size) && PAD !in x[..i + 1]
    ensures Values(x[..i + 1]) == Values(x[..i]) + if DecodeChar(x[i]) == 64 then [] else [DecodeChar(x[i])]
    ensures |Values(x[..i + 1])| / 4 * 3 <= |Decode(x, size).bytes|
  {
    ValuesNext(x, i);
    DecodedLength(x, size, i + 1);
  }
}
