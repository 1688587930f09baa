/** `pow2gt`, by which the print buffer grows: smearing the highest bit downwards gives the least power of two that is
    not below its argument. */
module PowerOfTwo {

  function Pow2(k: nat): (p: nat)
    ensures p > 0
  {
    if k == 0 then 1 else 2 * Pow2(k - 1)
  }

  /** Bitwise or of non-negative integers. */
  function Or(a: nat, b: nat): nat {
    if a == 0 && b == 0 then 0
    else 2 * Or(a / 2, b / 2) + if a % 2 == 1 || b % 2 == 1 then 1 else 0
  }

  /** `x >> n` */
  function Shift(x: nat, n: nat): nat
    decreases n
  {
    if n == 0 then x else Shift(x / 2, n - 1)
  }

  /** `x |= x >> n` */
  function Smear(x: nat, n: nat): nat {
    Or(x, Shift(x, n))
  }

  /** `pow2gt`, for arguments from 1 on. */
  function Pow2Gt(x: nat): nat
    requires x >= 1
  {
    Smear(Smear(Smear(Smear(Smear(x - 1, 1), 2), 4), 8), 16) + 1
  }

  // ----- shifting -----

  lemma {:induction false} ShiftShift(x: nat, i: nat, j: nat)
    ensures Shift(Shift(x, i), j) == Shift(x, i + j)
    decreases i
  {
    if i > 0 { ShiftShift(x / 2, i - 1, j); }
  }

  lemma {:induction false} ShiftOnes(w: nat, n: nat)
    ensures Shift(Pow2(w) - 1, n) == if n <= w then Pow2(w - n) - 1 else 0
    decreases n
  {
    if n > 0 {
      if w > 0 {
        assert (Pow2(w) - 1) / 2 == Pow2(w - 1) - 1;
        ShiftOnes(w - 1, n - 1);
      } else {
        ShiftOnes(0, n - 1);
      }
    }
  }

  /** Shifting right distributes over or. */
  lemma {:induction false} OrShift(a: nat, b: nat, j: nat)
    ensures Shift(Or(a, b), j) == Or(Shift(a, j), Shift(b, j))
    decreases j
  {
    if j > 0 {
      assert Or(a, b) / 2 == Or(a / 2, b / 2);
      OrShift(a / 2, b / 2, j - 1);
    }
  }

  lemma {:induction false} OrZero(a: nat)
    ensures Or(a, 0) == a
  {
    if a > 0 { OrZero(a / 2); }
  }

  /** Or with `m` ones completes a number whose upper bits are all ones. */
  lemma {:induction false} OrOnes(a: nat, m: nat, j: nat)
    requires Shift(a, m) == Pow2(j) - 1
    ensures Or(a, Pow2(m) - 1) == Pow2(j + m) - 1
    decreases m
  {
    if m == 0 {
      OrZero(a);
    } else {
      var b := Pow2(m) - 1;
      assert b / 2 == Pow2(m - 1) - 1 && b % 2 == 1;
      OrOnes(a / 2, m - 1, j);
    }
  }

  // ----- smearing -----

  /** The number of bits. */
  function Width(x: nat): nat {
    if x == 0 then 0 else 1 + Width(x / 2)
  }

  /** The top `m` bits of `x`, which has `w` bits, are ones: all of them where `m` exceeds `w`. */
  predicate TopOnes(x: nat, w: nat, m: nat) {
    if m <= w then Shift(x, w - m) == Pow2(m) - 1 else x == Pow2(w) - 1
  }

  lemma {:induction false} WidthTop(x: nat)
    ensures TopOnes(x, Width(x), 1) && x < Pow2(Width(x)) && (x > 0 ==> Pow2(Width(x) - 1) <= x)
  {
    if x > 1 { WidthTop(x / 2); }
  }

  /** Each smearing step doubles the number of ones at the top. */
  lemma SmearDoubles(x: nat, w: nat, m: nat)
    requires m > 0 && TopOnes(x, w, m)
    ensures TopOnes(Smear(x, m), w, 2 * m)
  {
    if 2 * m <= w {
      OrShift(x, Shift(x, m), w - 2 * m);
      ShiftShift(x, m, w - 2 * m);
      ShiftShift(x, w - 2 * m, m);
      OrOnes(Shift(x, w - 2 * m), m, m);
    } else if m <= w {
      ShiftShift(x, w - m, 2 * m - w);
      ShiftOnes(m, 2 * m - w);
      OrOnes(x, w - m, m);
    } else {
      ShiftOnes(w, m);
      OrZero(x);
    }
  }

  lemma {:induction false} Pow2Grows(i: nat, j: nat)
    ensures i <= j ==> Pow2(i) <= Pow2(j)
    ensures i < j ==> Pow2(i) < Pow2(j)
    decreases j
  {
    if i < j { Pow2Grows(i, j - 1); }
  }

  lemma LeastPower(x: nat, w: nat, k: nat)
    requires 1 <= x && (w > 0 ==> Pow2(w - 1) < x) && x <= Pow2(k)
    ensures Pow2(w) <= Pow2(k)
  {
    Pow2Grows(w, k);
    if k < w { Pow2Grows(k, w - 1); }
  }

  /** For every argument that fits in 32 bits the result is a power of two, not below the argument, and no smaller
      power of two is; so up to 2^30 it fits in a signed int. */
  lemma Pow2GtIsLeast(x: nat) returns (w: nat)
    requires 1 <= x <= Pow2(32)
    ensures Pow2Gt(x) == Pow2(w) >= x
    ensures forall k: nat :: Pow2(k) >= x ==> Pow2(k) >= Pow2(w)
  {
    w := Width(x - 1);
    WidthTop(x - 1);
    hide Smear, Width, TopOnes, Pow2;
    SmearAll(x - 1, w);
    forall k: nat | Pow2(k) >= x ensures Pow2(k) >= Pow2(w) { LeastPower(x, w, k); }
  }

  lemma SmearAll(y: nat, w: nat)
    requires TopOnes(y, w, 1) && (w > 0 ==> Pow2(w - 1) <= y) && y < Pow2(32)
    ensures Smear(Smear(Smear(Smear(Smear(y, 1), 2), 4), 8), 16) == Pow2(w) - 1
  {
    if w > 32 { Pow2Grows(32, w - 1); }
    assert w <= 32;
    hide Smear, Pow2;
    var a := Smear(y, 1);
    SmearDoubles(y, w, 1);
    var b := Smear(a, 2);
    SmearDoubles(a, w, 2);
    var c := Smear(b, 4);
    SmearDoubles(b, w, 4);
    var d := Smear(c, 8);
    SmearDoubles(c, w, 8);
    SmearDoubles(d, w, 16);
    SmearedOut(Smear(d, 16), w);
  }

  lemma SmearedOut(x: nat, w: nat)
    requires TopOnes(x, w, 32) && w <= 32
    ensures x == Pow2(w) - 1
  {
  }
}
