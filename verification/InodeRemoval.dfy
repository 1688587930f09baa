/** Removal from the inode hash: the slot of the deleted digest and the whole run of live slots behind it are
    cleared, and then the run is inserted again.  Clearing a whole run is harmless, because every probe path that
    crosses it also ends in it. */
module InodeRemoval {
  import opened ProbeOrbit
  import opened InodeTable

  /** Slot `x` and the `r` slots that follow it on the stride are live, and the next one is empty. */
  ghost predicate RunFrom(t: Table, x: nat, r: nat) {
    && GoodSize(|t|) && x < |t| && r + 1 < |t|
    && (forall j: nat | j <= r :: t[Probe(x, j, |t|)].Live())
    && !t[Probe(x, r + 1, |t|)].Live()
  }

  ghost predicate InRun(x: nat, r: nat, y: nat, n: nat)
    requires GoodSize(n) && x < n
  {
    exists j: nat :: j <= r && y == Probe(x, j, n)
  }

  /** The table with slot `x` and the `r` slots behind it emptied. */
  ghost function ClearedRun(t: Table, x: nat, r: nat): (t': Table)
    requires GoodSize(|t|) && x < |t|
    ensures |t'| == |t|
  {
    seq(|t|, y requires 0 <= y < |t| => if InRun(x, r, y, |t|) then EMPTY else t[y])
  }

  /** Whether the digest is still missing after the deleted slot was dropped and the first `k` saved entries of the
      run were put back. */
  ghost predicate Missing(t: Table, x: nat, r: nat, k: nat, d: Digest)
    requires GoodSize(|t|) && x < |t|
  {
    exists j: nat :: (j == 0 || k < j <= r) && t[Probe(x, j, |t|)].digest == d
  }

  ghost function Restored(t: Table, m: Inodes, x: nat, r: nat, k: nat): Inodes
    requires GoodSize(|t|) && x < |t|
  {
    map d | d in m && !Missing(t, x, r, k, d) :: m[d]
  }

  /** Two paths that meet stay together. */
  lemma PathsMerge(h: nat, i: nat, x: nat, j: nat, l: nat, n: nat)
    requires GoodSize(n) && h < n && x < n && Probe(h, i, n) == Probe(x, j, n)
    ensures Probe(h, i + l, n) == Probe(x, j + l, n)
  {
    ProbeAdds(h, i, l, n);
    ProbeAdds(x, j, l, n);
  }

  /** A path that crosses the run cannot leave it: it would have to pass the empty slot behind it. */
  lemma CrossingPathEndsInRun(t: Table, x: nat, r: nat, d: Digest, i: nat, k: nat, j: nat)
    requires RunFrom(t, x, r) && i <= k && j <= r
    requires Path(t, d, i) == Probe(x, j, |t|) && LivePath(t, d, k)
    ensures InRun(x, r, Path(t, d, k), |t|)
  {
    var h := Home(d, |t|);
    PathsMerge(h, i, x, j, k - i, |t|);
    PathsMerge(h, i, x, j, r + 1 - j, |t|);
    assert Path(t, d, k) == Probe(x, j + (k - i), |t|);
    assert Path(t, d, i + (r + 1 - j)) == Probe(x, r + 1, |t|);
  }

  lemma ClearedReachable(t: Table, m: Inodes, x: nat, r: nat, y: nat)
    requires Represents(t, m) && RunFrom(t, x, r) && y < |t| && ClearedRun(t, x, r)[y].Live()
    ensures Reachable(ClearedRun(t, x, r), y)
  {
    var t' := ClearedRun(t, x, r);
    assert !InRun(x, r, y, |t|) && t'[y] == t[y];
    assert SlotOk(t, m, y);
    var d := t[y].digest;
    var k: nat :| k < |t| && Path(t, d, k) == y && LivePath(t, d, k);
    forall i: nat | i <= k ensures t'[Path(t', d, i)].Live() {
      assert t[Path(t, d, i)].Live();
      if InRun(x, r, Path(t, d, i), |t|) {
        var j: nat :| j <= r && Path(t, d, i) == Probe(x, j, |t|);
        CrossingPathEndsInRun(t, x, r, d, i, k, j);
      }
    }
    assert Path(t', d, k) == y && LivePath(t', d, k);
  }

  lemma KeptOutsideRun(t: Table, m: Inodes, x: nat, r: nat, y: nat)
    requires Represents(t, m) && RunFrom(t, x, r) && y < |t| && t[y].Live()
    ensures Missing(t, x, r, 0, t[y].digest) <==> InRun(x, r, y, |t|)
  {
    forall j: nat | j <= r ensures t[Probe(x, j, |t|)].digest == t[y].digest <==> y == Probe(x, j, |t|) {
      assert t[Probe(x, j, |t|)].Live() && StoredOnce(t, Probe(x, j, |t|), y);
    }
    if InRun(x, r, y, |t|) {
      var j: nat :| j <= r && y == Probe(x, j, |t|);
      assert j == 0 || 0 < j <= r;
    }
  }

  /** Clearing the run loses exactly the digests stored in it. */
  lemma ClearedRepresents(t: Table, m: Inodes, x: nat, r: nat)
    requires Represents(t, m) && RunFrom(t, x, r)
    ensures Represents(ClearedRun(t, x, r), Restored(t, m, x, r, 0))
  {
    var t' := ClearedRun(t, x, r);
    var m' := Restored(t, m, x, r, 0);
    forall y: nat ensures SlotOk(t', m', y) {
      if y < |t'| && t'[y].Live() {
        assert !InRun(x, r, y, |t|) && SlotOk(t, m, y);
        KeptOutsideRun(t, m, x, r, y);
        ClearedReachable(t, m, x, r, y);
      }
    }
    forall y: nat, z: nat ensures StoredOnce(t', y, z) {
      assert StoredOnce(t, y, z);
    }
    forall d ensures KeyOk(t', m', d) {
      if d in m' {
        assert KeyOk(t, m, d);
        var y: nat :| y < |t| && t[y].Live() && t[y].digest == d;
        KeptOutsideRun(t, m, x, r, y);
        assert t'[y] == t[y];
      }
    }
  }

  lemma MissingStep(t: Table, x: nat, r: nat, k: nat, d: Digest)
    requires GoodSize(|t|) && x < |t| && k < r
    ensures Missing(t, x, r, k, d) <==> Missing(t, x, r, k + 1, d) || d == t[Probe(x, k + 1, |t|)].digest
  {
    if Missing(t, x, r, k, d) {
      var j: nat :| (j == 0 || k < j <= r) && t[Probe(x, j, |t|)].digest == d;
      assert j == k + 1 || j == 0 || k + 1 < j <= r;
    }
  }

  lemma NoLongerMissing(t: Table, m: Inodes, x: nat, r: nat, k: nat)
    requires Represents(t, m) && RunFrom(t, x, r) && k < r
    ensures !Missing(t, x, r, k + 1, t[Probe(x, k + 1, |t|)].digest)
  {
    var p := Probe(x, k + 1, |t|);
    forall j: nat | j == 0 || k + 1 < j <= r ensures t[Probe(x, j, |t|)].digest != t[p].digest {
      ProbeDistinct(x, if j == 0 then 0 else k + 1, if j == 0 then k + 1 else j, |t|);
      assert t[Probe(x, j, |t|)].Live() && t[p].Live() && StoredOnce(t, Probe(x, j, |t|), p);
    }
  }

  /** Putting the next saved entry back restores exactly its digest. */
  lemma RestoredStep(t: Table, m: Inodes, x: nat, r: nat, k: nat)
    requires Represents(t, m) && RunFrom(t, x, r) && k < r
    ensures var e := t[Probe(x, k + 1, |t|)];
      && e.Live() && e.digest !in Restored(t, m, x, r, k)
      && Restored(t, m, x, r, k + 1) == Restored(t, m, x, r, k)[e.digest := e.inode]
  {
    var p := Probe(x, k + 1, |t|);
    var e := t[p];
    assert e.Live() && SlotOk(t, m, p);
    NoLongerMissing(t, m, x, r, k);
    forall d ensures Missing(t, x, r, k, d) <==> Missing(t, x, r, k + 1, d) || d == e.digest {
      MissingStep(t, x, r, k, d);
    }
  }

  /** Once the whole run is back, only the deleted digest is gone. */
  lemma RestoredAll(t: Table, m: Inodes, x: nat, r: nat)
    requires Represents(t, m) && RunFrom(t, x, r)
    ensures t[x].digest in m && Restored(t, m, x, r, r) == m - {t[x].digest}
  {
    assert Probe(x, 0, |t|) == x && t[Probe(x, 0, |t|)].Live() && SlotOk(t, m, x);
    assert forall d :: Missing(t, x, r, r, d) <==> d == t[x].digest;
  }

  /** The run behind `x` is determined by the table. */
  lemma RunUnique(t: Table, x: nat, r: nat, s: nat)
    requires RunFrom(t, x, r) && RunFrom(t, x, s)
    ensures r == s
  {
  }

  lemma ClearFirst(t: Table, x: nat)
    requires GoodSize(|t|) && x < |t|
    ensures ClearedRun(t, x, 0) == t[x := EMPTY]
  {
    assert Probe(x, 0, |t|) == x;
  }

  /** Clearing one more slot of the run; the slot was still untouched. */
  lemma ClearNext(t: Table, x: nat, k: nat)
    requires GoodSize(|t|) && x < |t| && k + 1 < |t|
    ensures var p := Probe(x, k + 1, |t|);
      ClearedRun(t, x, k)[p] == t[p] && ClearedRun(t, x, k + 1) == ClearedRun(t, x, k)[p := EMPTY]
  {
    var n := |t|;
    var p := Probe(x, k + 1, n);
    if InRun(x, k, p, n) {
      var j: nat :| j <= k && p == Probe(x, j, n);
      ProbeDistinct(x, j, k + 1, n);
    }
    forall y: nat | y < n ensures InRun(x, k + 1, y, n) <==> InRun(x, k, y, n) || y == p {
      if InRun(x, k + 1, y, n) {
        var j: nat :| j <= k + 1 && y == Probe(x, j, n);
        assert j <= k || y == p;
      }
    }
  }

  lemma RestoredSmaller(t: Table, m: Inodes, x: nat, r: nat, k: nat)
    requires GoodSize(|t|) && x < |t|
    ensures |Restored(t, m, x, r, k)| <= |m|
  {
    SubsetSize(Restored(t, m, x, r, k).Keys, m.Keys);
    assert |Restored(t, m, x, r, k).Keys| == |Restored(t, m, x, r, k)| && |m.Keys| == |m|;
  }

  /** How many live slots follow the slot of `d` on the stride. */
  ghost predicate ChainBehind(t: Table, d: Digest, r: nat) {
    exists x: nat :: x < |t| && t[x].Live() && t[x].digest == d && RunFrom(t, x, r)
  }

  /** A digest has one chain behind it. */
  lemma ChainUnique(t: Table, m: Inodes, d: Digest, x: nat, r: nat)
    requires Represents(t, m) && x < |t| && t[x].Live() && t[x].digest == d && RunFrom(t, x, r)
    ensures ChainBehind(t, d, r) && forall s: nat | ChainBehind(t, d, s) :: s == r
  {
    forall s: nat | ChainBehind(t, d, s) ensures s == r {
      var y: nat :| y < |t| && t[y].Live() && t[y].digest == d && RunFrom(t, y, s);
      assert StoredOnce(t, x, y);
      RunUnique(t, x, r, s);
    }
  }
}
