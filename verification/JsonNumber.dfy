/** Integers in JSON text: `parse_number` with the digits kept exact, and `print_number` for the int range. */
module JsonNumber {
  import opened JsonTree

  const INT_MIN := -0x8000_0000
  const INT_MAX := 0x7fff_ffff

  /** Past a run of digits. */
  function DigitsEnd(s: string, i: nat): (j: nat)
    ensures i <= j && (i <= |s| ==> j <= |s|) && !IsDigit(At(s, j))
    decreases |s| - i
  {
    if IsDigit(At(s, i)) then DigitsEnd(s, i + 1) else i
  }

  /** The digits from `i` to `j`, read after `acc`. */
  function DigitsValue(s: string, i: nat, j: nat, acc: nat): nat
    requires forall k | i <= k < j :: IsDigit(At(s, k))
    decreases j - i
  {
    if i < j then DigitsValue(s, i + 1, j, acc * 10 + DigitValue(At(s, i))) else acc
  }

  lemma {:induction false} DigitsAreDigits(s: string, i: nat)
    ensures forall k | i <= k < DigitsEnd(s, i) :: IsDigit(At(s, k))
    decreases |s| - i
  {
    if IsDigit(At(s, i)) { DigitsAreDigits(s, i + 1); }
  }

  function Signed(negative: bool, n: nat): int {
    if negative then -(n as int) else n
  }

  /** Sign and whole part, and the position behind them. */
  function ParseWhole(s: string, i: nat): (r: (bool, nat, nat))
    ensures i <= r.2 && (i <= |s| ==> r.2 <= |s|)
    ensures At(s, i) == '-' || IsDigit(At(s, i)) ==> i < r.2
  {
    var neg := At(s, i) == '-';
    var a := if neg then i + 1 else i;
    var b := if At(s, a) == '0' then a + 1 else a;
    if '1' <= At(s, b) <= '9' then
      DigitsAreDigits(s, b);
      (neg, DigitsValue(s, b, DigitsEnd(s, b), 0), DigitsEnd(s, b))
    else (neg, 0, b)
  }

  /** The digits of the fraction, read after the whole part, minus their count, and the position behind them. */
  function ParseFraction(s: string, c: nat, whole: nat): (r: (nat, int, nat))
    ensures c <= r.2 && (c <= |s| ==> r.2 <= |s|)
  {
    if At(s, c) == '.' && IsDigit(At(s, c + 1)) then
      DigitsAreDigits(s, c + 1);
      var d := DigitsEnd(s, c + 1);
      (DigitsValue(s, c + 1, d, whole), c + 1 - d, d)
    else (whole, 0, c)
  }

  /** Sign, whole part and fraction. */
  function ParseDecimal(s: string, i: nat): (r: (int, int, nat))
    ensures i <= r.2 && (i <= |s| ==> r.2 <= |s|)
    ensures At(s, i) == '-' || IsDigit(At(s, i)) ==> i < r.2
  {
    var (neg, whole, c) := ParseWhole(s, i);
    var (all, scale, d) := ParseFraction(s, c, whole);
    (Signed(neg, all), scale, d)
  }

  /** The exponent, 0 where there is none, and the position behind it. */
  function ParseExponent(s: string, d: nat): (r: (int, nat))
    ensures d <= r.1 && (d <= |s| ==> r.1 <= |s|)
  {
    if At(s, d) != 'e' && At(s, d) != 'E' then (0, d)
    else
      var neg := At(s, d + 1) == '-';
      var e := if At(s, d + 1) == '+' || neg then d + 2 else d + 1;
      var f := DigitsEnd(s, e);
      DigitsAreDigits(s, e);
      var n := DigitsValue(s, e, f, 0);
      (Signed(neg, n), f)
  }

  /** `parse_number`: an optional sign, an optional zero, digits, a fraction and an exponent, each part optional.
      What is left out is the final multiplication by a power of ten in floating point. */
  function ParseNumber(s: string, i: nat): (r: (Json, nat))
    ensures r.0.Num?
  {
    var (mantissa, scale, d) := ParseDecimal(s, i);
    var (subscale, f) := ParseExponent(s, d);
    (Num(mantissa, scale + subscale), f)
  }

  /** Decimal digits of a positive number. */
  function Digits(n: nat): (t: string)
    ensures n > 0 ==> |t| > 0 && '1' <= t[0] <= '9'
    ensures forall k | 0 <= k < |t| :: IsDigit(t[k])
  {
    if n == 0 then [] else Digits(n / 10) + [DigitChar(n % 10)]
  }

  /** `%d`. */
  function PrintInt(n: int): (t: string)
    ensures |t| > 0 && (t[0] == '-' || IsDigit(t[0]))
  {
    if n == 0 then "0" else if n < 0 then "-" + Digits(-n) else Digits(n)
  }

  /** No number goes on with this character. */
  predicate EndsNumber(c: char) {
    !IsDigit(c) && c != '.' && c != 'e' && c != 'E'
  }

  lemma {:induction false} DigitsValueAppend(s: string, i: nat, j: nat, k: nat, acc: nat)
    requires i <= j <= k && forall l | i <= l < k :: IsDigit(At(s, l))
    ensures DigitsValue(s, i, k, acc) == DigitsValue(s, j, k, DigitsValue(s, i, j, acc))
    decreases j - i
  {
    if i < j { DigitsValueAppend(s, i + 1, j, k, acc * 10 + DigitValue(At(s, i))); }
  }

  lemma LastDigit(s: string, i: nat, j: nat, n: nat)
    requires i <= j && (forall k | i <= k < j :: IsDigit(At(s, k))) && DigitsValue(s, i, j, 0) == n / 10
    requires At(s, j) == DigitChar(n % 10)
    ensures forall k | i <= k < j + 1 :: IsDigit(At(s, k))
    ensures DigitsValue(s, i, j + 1, 0) == n
  {
    DigitsValueAppend(s, i, j, j + 1, 0);
    assert DigitsValue(s, j + 1, j + 1, n / 10 * 10 + n % 10) == n;
  }

  /** Reading the digits of a number gives the number. */
  lemma {:induction false} DigitsReadBack(s: string, i: nat, n: nat)
    requires Occurs(s, i, Digits(n))
    ensures forall k | i <= k < i + |Digits(n)| :: IsDigit(At(s, k))
    ensures DigitsValue(s, i, i + |Digits(n)|, 0) == n
  {
    if n > 0 {
      var front := Digits(n / 10);
      assert Digits(n) == front + [DigitChar(n % 10)];
      hide Digits, DigitsValue, Occurs;
      OccursSplit(s, i, front, [DigitChar(n % 10)]);
      DigitsReadBack(s, i, n / 10);
      OccursAt(s, i + |front|, [DigitChar(n % 10)], 0);
      LastDigit(s, i, i + |front|, n);
    }
  }

  lemma {:induction false} DigitsEndAt(s: string, i: nat, j: nat)
    requires i <= j && (forall k | i <= k < j :: IsDigit(At(s, k))) && !IsDigit(At(s, j))
    ensures DigitsEnd(s, i) == j
    decreases j - i
  {
    if i < j { DigitsEndAt(s, i + 1, j); }
  }

  lemma IntLayout(s: string, i: nat, n: int, m: nat, b: nat)
    requires n != 0 && Occurs(s, i, PrintInt(n)) && m == (if n < 0 then -n else n) && b == (if n < 0 then i + 1 else i)
    ensures (At(s, i) == '-') == (n < 0) && Occurs(s, b, Digits(m)) && '1' <= At(s, b) <= '9'
    ensures i + |PrintInt(n)| == b + |Digits(m)|
  {
    OccursAt(s, i, PrintInt(n), 0);
    if n < 0 { OccursSplit(s, i, "-", Digits(m)); }
    OccursAt(s, b, Digits(m), 0);
  }

  lemma ZeroParsed(s: string, i: nat)
    requires Occurs(s, i, "0") && EndsNumber(At(s, i + 1))
    ensures ParseNumber(s, i) == (Num(0, 0), i + 1)
  {
    OccursAt(s, i, "0", 0);
    hide Occurs, DigitsEnd, DigitsValue;
  }

  /** A printed integer parses to itself and to its end, whatever ends the number there. */
  lemma NumberRoundTrip(s: string, i: nat, n: int)
    requires Occurs(s, i, PrintInt(n)) && EndsNumber(At(s, i + |PrintInt(n)|))
    ensures ParseNumber(s, i) == (Num(n, 0), i + |PrintInt(n)|)
  {
    if n == 0 {
      ZeroParsed(s, i);
    } else {
      var m: nat := if n < 0 then -n else n;
      var b := if n < 0 then i + 1 else i;
      hide Digits, DigitsValue, PrintInt, Occurs, DigitsEnd, ParseNumber;
      IntLayout(s, i, n, m, b);
      DigitsReadBack(s, b, m);
      DigitsEndAt(s, b, b + |Digits(m)|);
      IntParsed(s, i, n, m, b, b + |Digits(m)|);
    }
  }

  /** What `parse_number` makes of a sign and digits. */
  lemma IntParsed(s: string, i: nat, n: int, m: nat, b: nat, c: nat)
    requires m == (if n < 0 then -n else n) && b == (if n < 0 then i + 1 else i) && b <= c
    requires (At(s, i) == '-') == (n < 0) && '1' <= At(s, b) <= '9' && DigitsEnd(s, b) == c && EndsNumber(At(s, c))
    requires (forall k | b <= k < c :: IsDigit(At(s, k))) && DigitsValue(s, b, c, 0) == m
    ensures ParseNumber(s, i) == (Num(n, 0), c)
  {
    hide DigitsValue, DigitsEnd;
  }
}
