/** What a number in JSON text stands for (section 6 of RFC 8259), written as sign, whole part, fraction and exponent. */
module JsonNumberLaws {
  import opened JsonTree
  import opened JsonNumber

  const DIGITS := "0123456789"

  /** Digits are the characters of the table, with their places as values. */
  lemma DigitTable(c: char)
    ensures IsDigit(c) <==> c in DIGITS
    ensures forall k | 0 <= k < 10 :: IsDigit(DIGITS[k]) && DigitValue(DIGITS[k]) == k
  {
    if IsDigit(c) { assert DIGITS[c as int - '0' as int] == c; }
  }

  predicate Numeral(t: string) {
    forall k | 0 <= k < |t| :: IsDigit(t[k])
  }

  /** What decimal digits are worth: each place ten times the next. */
  function Worth(t: string): nat
    requires Numeral(t)
  {
    if t == [] then 0 else Worth(t[..|t| - 1]) * 10 + DigitValue(t[|t| - 1])
  }

  /** Digits `t` read after `u` are read as one number. */
  lemma {:induction false} DigitsWorth(s: string, i: nat, u: string, t: string)
    requires Numeral(u) && Numeral(t) && Numeral(u + t) && Occurs(s, i, t)
    ensures forall k | i <= k < i + |t| :: IsDigit(At(s, k))
    ensures DigitsValue(s, i, i + |t|, Worth(u)) == Worth(u + t)
    decreases |t|
  {
    if t == [] {
      assert u + t == u;
    } else {
      OccursAt(s, i, t, 0);
      assert t == [t[0]] + t[1..];
      OccursSplit(s, i, [t[0]], t[1..]);
      assert u + t == (u + [t[0]]) + t[1..] && (u + [t[0]])[..|u|] == u;
      DigitsWorth(s, i + 1, u + [t[0]], t[1..]);
    }
  }

  /** Digits end where no digit follows. */
  lemma NumeralEnds(s: string, i: nat, t: string)
    requires Numeral(t) && Occurs(s, i, t) && !IsDigit(At(s, i + |t|))
    ensures DigitsEnd(s, i) == i + |t|
  {
    forall k | i <= k < i + |t| ensures IsDigit(At(s, k)) { OccursAt(s, i, t, k - i); }
    DigitsEndAt(s, i, i + |t|);
  }

  /** Digits read alone. */
  lemma NumeralRead(s: string, i: nat, t: string, j: nat)
    requires Numeral(t) && Occurs(s, i, t) && j == i + |t| && !IsDigit(At(s, j))
    ensures DigitsEnd(s, i) == j && (forall k | i <= k < j :: IsDigit(At(s, k))) && DigitsValue(s, i, j, 0) == Worth(t)
  {
    NumeralEnds(s, i, t);
    DigitsWorth(s, i, [], t);
    hide DigitsEnd, DigitsValue, Occurs;
    assert [] + t == t && Worth([]) == 0;
  }

  lemma FirstDigit(s: string, i: nat, t: string)
    requires Numeral(t) && t != [] && Occurs(s, i, t)
    ensures At(s, i) == t[0] && IsDigit(At(s, i))
  {
    OccursAt(s, i, t, 0);
  }

  function Minus(negative: bool): string {
    if negative then "-" else ""
  }

  // ----- the four parts -----

  /** The whole part is a zero, digits, both, or nothing at all: `parse_number` takes all of these. */
  predicate ProperWhole(z: string, w: string) {
    (z == "" || z == "0") && Numeral(w) && (w != [] ==> w[0] != '0')
  }

  /** The character `c` does not go on with a sign and a whole part. */
  predicate WholeStops(c: char, neg: bool, z: string, w: string) {
    if w != [] then !IsDigit(c) else !('1' <= c <= '9') && (z == "" ==> c != '0') && (z == "" && !neg ==> c != '-')
  }

  lemma WholeFrom(s: string, i: nat, neg: bool, a: nat, b: nat, c: nat, n: nat)
    requires (At(s, i) == '-' <==> neg) && a == (if neg then i + 1 else i) && b == (if At(s, a) == '0' then a + 1 else a)
    requires b <= c
    requires if '1' <= At(s, b) <= '9'
             then DigitsEnd(s, b) == c && (forall k | b <= k < c :: IsDigit(At(s, k))) && DigitsValue(s, b, c, 0) == n
             else c == b && n == 0
    ensures ParseWhole(s, i) == (neg, n, c)
  {
    hide DigitsEnd, DigitsValue;
  }

  /** Where the parts of the sign and the whole part stand. */
  lemma WholePlaces(s: string, i: nat, neg: bool, z: string, w: string, a: nat, b: nat, c: nat)
    requires ProperWhole(z, w) && a == i + |Minus(neg)| && b == a + |z| && c == b + |w|
    requires Occurs(s, i, Minus(neg)) && Occurs(s, a, z) && Occurs(s, b, w) && WholeStops(At(s, c), neg, z, w)
    ensures (At(s, i) == '-' <==> neg) && a == (if neg then i + 1 else i) && b == (if At(s, a) == '0' then a + 1 else a)
    ensures if w == [] then !('1' <= At(s, b) <= '9') else '1' <= At(s, b) <= '9'
  {
    if neg { OccursAt(s, i, "-", 0); }
    if z != "" { OccursAt(s, a, z, 0); }
    if w != [] { FirstDigit(s, b, w); }
    hide Occurs;
  }

  lemma WholeRead(s: string, i: nat, neg: bool, z: string, w: string, a: nat, b: nat, c: nat)
    requires ProperWhole(z, w) && a == i + |Minus(neg)| && b == a + |z| && c == b + |w|
    requires Occurs(s, i, Minus(neg)) && Occurs(s, a, z) && Occurs(s, b, w) && WholeStops(At(s, c), neg, z, w)
    ensures ParseWhole(s, i) == (neg, Worth(w), c)
  {
    hide DigitsEnd, DigitsValue, Occurs, ParseWhole, Minus, Numeral;
    WholePlaces(s, i, neg, z, w, a, b, c);
    if w != [] { NumeralRead(s, b, w, c); }
    WholeFrom(s, i, neg, a, b, c, Worth(w));
  }

  function FractionText(f: string): string {
    if f == [] then "" else "." + f
  }

  /** The text does not go on at `c` with a fraction. */
  predicate FractionStops(s: string, c: nat, f: string) {
    if f == [] then !(At(s, c) == '.' && IsDigit(At(s, c + 1))) else !IsDigit(At(s, c))
  }

  lemma FractionFrom(s: string, c: nat, whole: nat, d: nat, n: nat)
    requires At(s, c) == '.' && IsDigit(At(s, c + 1)) && c + 1 <= d
    requires DigitsEnd(s, c + 1) == d && (forall k | c + 1 <= k < d :: IsDigit(At(s, k))) && DigitsValue(s, c + 1, d, whole) == n
    ensures ParseFraction(s, c, whole) == (n, c + 1 - d, d)
  {
    hide DigitsEnd, DigitsValue;
  }

  lemma FractionSpelled(s: string, c: nat, w: string, f: string, all: string, d: nat)
    requires Numeral(w) && Numeral(f) && Numeral(all) && all == w + f && f != [] && Occurs(s, c, "." + f)
    requires d == c + 1 + |f| && !IsDigit(At(s, d))
    ensures ParseFraction(s, c, Worth(w)) == (Worth(all), -|f|, d)
  {
    hide Numeral, DigitsEnd, DigitsValue, Occurs, Worth, ParseFraction, IsDigit;
    OccursSplit(s, c, ".", f);
    OccursAt(s, c, ".", 0);
    FirstDigit(s, c + 1, f);
    NumeralEnds(s, c + 1, f);
    DigitsWorth(s, c + 1, w, f);
    FractionFrom(s, c, Worth(w), d, Worth(all));
  }

  lemma FractionRead(s: string, c: nat, w: string, f: string, all: string, d: nat)
    requires Numeral(w) && Numeral(f) && Numeral(all) && all == w + f && Occurs(s, c, FractionText(f))
    requires d == c + |FractionText(f)| && FractionStops(s, d, f)
    ensures ParseFraction(s, c, Worth(w)) == (Worth(all), -|f|, d)
  {
    hide DigitsEnd, DigitsValue, Occurs, Worth, IsDigit;
    if f == [] { assert all == w; } else { FractionSpelled(s, c, w, f, all, d); }
  }

  datatype Exponent = NoExponent | Exponent(mark: char, sign: string, digits: string)

  predicate ProperExponent(x: Exponent) {
    x.Exponent? ==>
      (x.mark == 'e' || x.mark == 'E') && (x.sign == "" || x.sign == "+" || x.sign == "-") && Numeral(x.digits)
  }

  function ExponentText(x: Exponent): string {
    if x.NoExponent? then "" else [x.mark] + (x.sign + x.digits)
  }

  function ExponentWorth(x: Exponent): int
    requires ProperExponent(x)
  {
    if x.NoExponent? then 0 else if x.sign == "-" then -(Worth(x.digits) as int) else Worth(x.digits)
  }

  /** The character `c` does not go on with an exponent. */
  predicate ExponentStops(c: char, x: Exponent) {
    if x.NoExponent? then c != 'e' && c != 'E'
    else !IsDigit(c) && (x.sign == "" && x.digits == [] ==> c != '+' && c != '-')
  }

  lemma SignRead(s: string, d: nat, x: Exponent, e: nat) returns (b: nat)
    requires x.Exponent? && ProperExponent(x) && Occurs(s, d, ExponentText(x))
    requires e == d + |ExponentText(x)| && ExponentStops(At(s, e), x)
    ensures b == d + 1 + |x.sign| && e == b + |x.digits| && Occurs(s, b, x.digits)
    ensures At(s, d) == x.mark && if x.sign == "" then At(s, d + 1) != '+' && At(s, d + 1) != '-' else At(s, d + 1) == x.sign[0]
  {
    b := d + 1 + |x.sign|;
    OccursSplit(s, d, [x.mark], x.sign + x.digits);
    OccursSplit(s, d + 1, x.sign, x.digits);
    OccursAt(s, d, [x.mark], 0);
    if x.digits != [] { FirstDigit(s, b, x.digits); }
    if x.sign != "" { OccursAt(s, d + 1, x.sign, 0); }
  }

  lemma ExponentFrom(s: string, d: nat, neg: bool, e: nat, f: nat, n: nat)
    requires (At(s, d) == 'e' || At(s, d) == 'E') && (At(s, d + 1) == '-' <==> neg) && e <= f
    requires e == if neg || At(s, d + 1) == '+' then d + 2 else d + 1
    requires DigitsEnd(s, e) == f && (forall k | e <= k < f :: IsDigit(At(s, k))) && DigitsValue(s, e, f, 0) == n
    ensures ParseExponent(s, d) == (Signed(neg, n), f)
  {
    hide DigitsEnd, DigitsValue;
  }

  lemma ExponentRead(s: string, d: nat, x: Exponent, e: nat)
    requires ProperExponent(x) && Occurs(s, d, ExponentText(x)) && e == d + |ExponentText(x)| && ExponentStops(At(s, e), x)
    ensures ParseExponent(s, d) == (ExponentWorth(x), e)
  {
    hide Numeral, DigitsEnd, DigitsValue, Occurs, Worth, IsDigit;
    if x.Exponent? {
      var b := SignRead(s, d, x, e);
      NumeralRead(s, b, x.digits, e);
      ExponentFrom(s, d, x.sign == "-", b, e, Worth(x.digits));
    }
  }

  // ----- whole numbers -----

  /** From `i` to `e` the text spells a number, and does not go on with it: sign, whole part, fraction and exponent. */
  predicate Spells(s: string, i: nat, e: nat, neg: bool, z: string, w: string, f: string, x: Exponent) {
    var a := i + |Minus(neg)|;
    var b := a + |z|;
    var c := b + |w|;
    var d := c + |FractionText(f)|;
    && ProperWhole(z, w) && Numeral(f) && ProperExponent(x) && e == d + |ExponentText(x)|
    && Occurs(s, i, Minus(neg)) && Occurs(s, a, z) && Occurs(s, b, w) && WholeStops(At(s, c), neg, z, w)
    && Occurs(s, c, FractionText(f)) && FractionStops(s, d, f)
    && Occurs(s, d, ExponentText(x)) && ExponentStops(At(s, e), x)
  }

  /** All the digits, scaled by the exponent less the number of fraction digits. */
  function NumberValue(neg: bool, w: string, f: string, x: Exponent): Json
    requires Numeral(w) && Numeral(f) && ProperExponent(x)
  {
    var n: int := Worth(w + f);
    Num(if neg then -n else n, ExponentWorth(x) - |f|)
  }

  lemma NumberFrom(s: string, i: nat, neg: bool, whole: nat, c: nat, all: nat, scale: int, d: nat, exponent: int, e: nat)
    requires ParseWhole(s, i) == (neg, whole, c) && ParseFraction(s, c, whole) == (all, scale, d)
    requires ParseExponent(s, d) == (exponent, e)
    ensures ParseNumber(s, i) == (Num(Signed(neg, all), scale + exponent), e)
  {
    hide ParseWhole, ParseFraction, ParseExponent, Signed;
  }

  /** A spelled number is read as its value, and to its end. */
  lemma NumberSpelled(s: string, i: nat, e: nat, neg: bool, z: string, w: string, f: string, x: Exponent)
    requires Spells(s, i, e, neg, z, w, f, x)
    ensures ParseNumber(s, i) == (NumberValue(neg, w, f, x), e)
  {
    var all := w + f;
    var a := i + |Minus(neg)|;
    var b := a + |z|;
    var c := b + |w|;
    var d := c + |FractionText(f)|;
    hide Occurs, Worth, WholeStops, FractionStops, ExponentStops, ParseNumber, Minus, FractionText, ExponentText, ExponentWorth,
      ProperExponent;
    WholeRead(s, i, neg, z, w, a, b, c);
    FractionRead(s, c, w, f, all, d);
    ExponentRead(s, d, x, e);
    NumberFrom(s, i, neg, Worth(w), c, Worth(all), -|f|, d, ExponentWorth(x), e);
  }

  lemma DigitsText(s: string, i: nat) returns (t: string, j: nat)
    requires i <= |s|
    ensures i <= j <= |s| && j == DigitsEnd(s, i) && j == i + |t|
    ensures Numeral(t) && Occurs(s, i, t) && !IsDigit(At(s, j)) && (if IsDigit(At(s, i)) then t != [] && t[0] == At(s, i) else t == [])
  {
    j := DigitsEnd(s, i);
    t := s[i..j];
    DigitsAreDigits(s, i);
    if IsDigit(At(s, i)) { assert j == DigitsEnd(s, i + 1); }
    forall k | 0 <= k < j - i ensures IsDigit(s[i..j][k]) { assert IsDigit(At(s, i + k)); }
  }

  lemma OneOccurs(s: string, i: nat, c: char)
    requires i < |s| && s[i] == c
    ensures Occurs(s, i, [c])
  {
    assert s[i..i + 1] == [c];
  }

  lemma NothingOccurs(s: string, i: nat)
    requires i <= |s|
    ensures Occurs(s, i, "")
  {
  }

  lemma WholeOf(s: string, i: nat) returns (neg: bool, z: string, w: string, a: nat, b: nat, c: nat)
    requires i <= |s|
    ensures ProperWhole(z, w) && a == i + |Minus(neg)| && b == a + |z| && c == b + |w| && c <= |s|
    ensures Occurs(s, i, Minus(neg)) && Occurs(s, a, z) && Occurs(s, b, w) && WholeStops(At(s, c), neg, z, w)
    ensures neg <==> At(s, i) == '-'
  {
    neg := At(s, i) == '-';
    a := if neg then i + 1 else i;
    if neg { OneOccurs(s, i, '-'); } else { NothingOccurs(s, i); }
    z := if At(s, a) == '0' then "0" else "";
    b := a + |z|;
    if z != "" { OneOccurs(s, a, '0'); } else { NothingOccurs(s, a); }
    if '1' <= At(s, b) <= '9' {
      w, c := DigitsText(s, b);
    } else {
      w, c := "", b;
      NothingOccurs(s, b);
    }
    hide DigitsEnd, Occurs;
  }

  lemma FractionOf(s: string, c: nat) returns (f: string, d: nat)
    requires c <= |s|
    ensures Numeral(f) && d == c + |FractionText(f)| && d <= |s| && Occurs(s, c, FractionText(f)) && FractionStops(s, d, f)
  {
    if At(s, c) == '.' && IsDigit(At(s, c + 1)) {
      f, d := DigitsText(s, c + 1);
      OneOccurs(s, c, '.');
      OccursSplit(s, c, ".", f);
    } else {
      f, d := "", c;
      NothingOccurs(s, c);
    }
    hide DigitsEnd, Occurs;
  }

  lemma SignOf(s: string, i: nat) returns (sign: string)
    requires i <= |s|
    ensures Occurs(s, i, sign) && i + |sign| <= |s|
    ensures sign == if At(s, i) == '+' then "+" else if At(s, i) == '-' then "-" else ""
  {
    sign := if At(s, i) == '+' then "+" else if At(s, i) == '-' then "-" else "";
    if sign != "" { OneOccurs(s, i, sign[0]); } else { NothingOccurs(s, i); }
  }

  lemma MarkedOccurs(s: string, d: nat, mark: char, sign: string, digits: string)
    requires Occurs(s, d, [mark]) && Occurs(s, d + 1, sign) && Occurs(s, d + 1 + |sign|, digits)
    ensures Occurs(s, d, [mark] + (sign + digits)) && |[mark] + (sign + digits)| == 1 + |sign| + |digits|
  {
    hide Occurs;
    OccursSplit(s, d + 1, sign, digits);
    OccursSplit(s, d, [mark], sign + digits);
  }

  lemma ExponentOf(s: string, d: nat) returns (x: Exponent, e: nat)
    requires d <= |s|
    ensures ProperExponent(x) && Occurs(s, d, ExponentText(x)) && e == d + |ExponentText(x)| && e <= |s|
    ensures ExponentStops(At(s, e), x)
  {
    hide DigitsEnd, Occurs, Numeral;
    if At(s, d) == 'e' || At(s, d) == 'E' {
      var sign := SignOf(s, d + 1);
      var b := d + 1 + |sign|;
      var digits;
      digits, e := DigitsText(s, b);
      x := Exponent(s[d], sign, digits);
      OneOccurs(s, d, s[d]);
      MarkedOccurs(s, d, s[d], sign, digits);
    } else {
      x, e := NoExponent, d;
      NothingOccurs(s, d);
    }
  }

  /** And whatever is read as a number spells it. */
  lemma NumberOf(s: string, i: nat) returns (e: nat, neg: bool, z: string, w: string, f: string, x: Exponent)
    requires i <= |s|
    ensures Spells(s, i, e, neg, z, w, f, x)
    ensures ParseNumber(s, i) == (NumberValue(neg, w, f, x), e)
  {
    hide Occurs, ParseNumber, Worth, WholeStops, FractionStops, ExponentStops, FractionText, ExponentText, Minus, ProperExponent,
      Numeral, ExponentWorth;
    var a, b, c, d;
    neg, z, w, a, b, c := WholeOf(s, i);
    f, d := FractionOf(s, c);
    x, e := ExponentOf(s, d);
    NumberSpelled(s, i, e, neg, z, w, f, x);
  }

  // ----- printed integers -----

  lemma ZeroWorth()
    ensures Worth("0") == 0
  {
    assert "0"[..0] == [];
  }

  lemma {:induction false} DigitsWorthBack(n: nat)
    ensures Numeral(Digits(n)) && Worth(Digits(n)) == n
  {
    if n > 0 {
      var t := Digits(n);
      assert t == Digits(n / 10) + [DigitChar(n % 10)] && t[..|t| - 1] == Digits(n / 10);
      DigitsWorthBack(n / 10);
    }
  }

  /** A printed integer is a minus sign where it is negative, and its digits without a leading zero. */
  lemma IntText(n: int) returns (w: string)
    ensures PrintInt(n) == Minus(n < 0) + w && Numeral(w) && w != [] && (w[0] == '0' ==> w == "0")
    ensures Worth(w) == if n < 0 then -n else n
  {
    if n == 0 {
      w := "0";
      ZeroWorth();
    } else {
      w := Digits(if n < 0 then -n else n);
      DigitsWorthBack(if n < 0 then -n else n);
    }
    hide Digits, Worth;
    assert "" + w == w;
  }
}
