/** The probe sequence of the inode hash: from a home slot, jump five slots at a time around a table whose size is
    not a multiple of five. */
module ProbeOrbit {

  const HASH_TABLE_OFFSET := 5

  /** Table sizes on which the stride works. */
  predicate GoodSize(n: int) {
    n > HASH_TABLE_OFFSET && n % HASH_TABLE_OFFSET != 0
  }

  function Jump(p: nat, n: nat): (q: nat)
    requires GoodSize(n) && p < n
    ensures q < n
  {
    (p + HASH_TABLE_OFFSET) % n
  }

  /** The slot probed after `k` jumps from `h`. */
  function Probe(h: nat, k: nat, n: nat): (p: nat)
    requires GoodSize(n) && h < n
    ensures p < n
  {
    if k == 0 then h else Jump(Probe(h, k - 1, n), n)
  }

  lemma {:induction false} ProbeAdds(h: nat, i: nat, j: nat, n: nat)
    requires GoodSize(n) && h < n
    ensures Probe(Probe(h, i, n), j, n) == Probe(h, i + j, n)
  {
    if j > 0 {
      ProbeAdds(h, i, j - 1, n);
    }
  }

  /** `t` laps around a table of size `n`: the product, kept linear for the prover. */
  function Laps(t: nat, n: nat): (r: nat)
    ensures r >= t || n == 0
  {
    if t == 0 then 0 else Laps(t - 1, n) + n
  }

  lemma {:induction false} LapsMonotone(s: nat, t: nat, n: nat)
    requires s < t
    ensures Laps(s, n) + n <= Laps(t, n)
  {
    if s < t - 1 { LapsMonotone(s, t - 1, n); }
  }

  lemma {:induction false} LapsAdd(s: nat, t: nat, n: nat)
    ensures Laps(s + t, n) == Laps(s, n) + Laps(t, n)
  {
    if t > 0 { LapsAdd(s, t - 1, n); }
  }

  lemma LapsSmall(n: nat)
    ensures Laps(1, n) == n && Laps(2, n) == 2 * n && Laps(3, n) == 3 * n && Laps(4, n) == 4 * n && Laps(5, n) == 5 * n
  {
    assert Laps(2, n) == Laps(1, n) + n;
    assert Laps(3, n) == Laps(2, n) + n;
    assert Laps(4, n) == Laps(3, n) + n;
  }

  /** A jump goes five slots on, or five slots on and one lap back. */
  lemma JumpCases(p: nat, n: nat)
    requires GoodSize(n) && p < n
    ensures Jump(p, n) == if p + 5 < n then p + 5 else p + 5 - n
  {
    if p + 5 >= n { ModOneLap(p + 5, n); }
  }

  lemma ModOneLap(a: nat, n: nat)
    requires 0 < n <= a < 2 * n
    ensures a % n == a - n
  {
    assert a == (a - n) + 1 * n;
  }

  /** After `k` jumps the probe has gone `5 * k` slots and some whole number of laps. */
  lemma {:induction false} ProbeLaps(h: nat, k: nat, n: nat) returns (laps: nat)
    requires GoodSize(n) && h < n
    ensures Probe(h, k, n) + Laps(laps, n) == h + 5 * k
  {
    if k == 0 {
      laps := 0;
    } else {
      laps := ProbeLaps(h, k - 1, n);
      JumpCases(Probe(h, k - 1, n), n);
      if Probe(h, k - 1, n) + 5 >= n {
        laps := laps + 1;
      }
    }
  }

  lemma NotFiveTimes(n: nat, t: nat, d: nat)
    requires GoodSize(n) && 0 < t < 5
    ensures Laps(t, n) != 5 * d
  {
    LapsSmall(n);
  }

  /** The first `n` probes are all different. */
  lemma ProbeInjective(h: nat, i: nat, j: nat, n: nat)
    requires GoodSize(n) && h < n && i < n && j < n && Probe(h, i, n) == Probe(h, j, n)
    ensures i == j
  {
    if i < j {
      ProbeDistinct(h, i, j, n);
    } else if j < i {
      ProbeDistinct(h, j, i, n);
    }
  }

  lemma ProbeDistinct(h: nat, i: nat, j: nat, n: nat)
    requires GoodSize(n) && h < n && i < j < n
    ensures Probe(h, i, n) != Probe(h, j, n)
  {
    hide Probe, Laps;
    var a := ProbeLaps(h, i, n);
    var b := ProbeLaps(h, j, n);
    LapsApart(a, b, j - i, n);
  }

  /** No whole number of laps is five times less than a lap's slots. */
  lemma LapsApart(a: nat, b: nat, d: nat, n: nat)
    requires GoodSize(n) && 0 < d < n
    ensures Laps(b, n) != Laps(a, n) + 5 * d
  {
    hide Laps;
    if b < a {
      LapsMonotone(b, a, n);
    } else if a < b {
      LapsAdd(a, b - a, n);
      LapsSmall(n);
      if b - a > 5 { LapsMonotone(5, b - a, n); }
      if b - a < 5 { NotFiveTimes(n, b - a, d); }
    }
  }

  /** Some of the distances `y`, `y` and a lap, ..., `y` and four laps is a multiple of five. */
  lemma FiveDivides(y: nat, n: nat) returns (j: nat, k: nat)
    requires GoodSize(n) && y < n
    ensures j < 5 && k < n && 5 * k == y + Laps(j, n)
  {
    j, k := FiveDividesParts(n / 5, n % 5, y / 5, y % 5);
    LapsSmall(n);
  }

  lemma FiveDividesParts(a: nat, r: nat, b: nat, s: nat) returns (j: nat, k: nat)
    requires 0 < r < 5 && s < 5
    ensures j < 5 && 5 * k == 5 * b + s + Laps(j, 5 * a + r)
  {
    LapsSmall(5 * a + r);
    if s == 0 {
      j, k := 0, b;
    } else if s + r == 5 {
      j, k := 1, b + a + 1;
    } else if s + 2 * r == 5 || s + 2 * r == 10 {
      j, k := 2, b + 2 * a + (if s + 2 * r == 5 then 1 else 2);
    } else if s + 3 * r == 5 || s + 3 * r == 10 || s + 3 * r == 15 {
      j, k := 3, b + 3 * a + (if s + 3 * r == 5 then 1 else if s + 3 * r == 10 then 2 else 3);
    } else {
      j, k := 4, b + 4 * a + (if s + 4 * r == 5 then 1 else if s + 4 * r == 10 then 2 else if s + 4 * r == 15 then 3 else 4);
    }
  }

  /** The first `n` probes visit every slot. */
  lemma ProbeSurjective(h: nat, x: nat, n: nat) returns (k: nat)
    requires GoodSize(n) && h < n && x < n
    ensures k < n && Probe(h, k, n) == x
  {
    hide Probe, Laps;
    var lap := if x < h then 1 else 0;
    var y := if x < h then x + n - h else x - h;
    var j;
    j, k := FiveDivides(y, n);
    var laps := ProbeLaps(h, k, n);
    LapsSmall(n);
    LapsAdd(j, lap, n);
    assert Probe(h, k, n) + Laps(laps, n) == x + Laps(j + lap, n);
    if laps < j + lap {
      LapsMonotone(laps, j + lap, n);
    } else if laps > j + lap {
      LapsMonotone(j + lap, laps, n);
    }
  }
}
