/** What the slots of the inode hash mean: when a table stands for a finite map from digest to inode, and why
    insertion at the end of a probe path and removal of a whole probe run keep it that way. */
module InodeTable {
  import opened ProbeOrbit

  type Byte = b: int | 0 <= b < 256
  const DIGEST_LENGTH := 32
  type Digest = d: seq<Byte> | |d| == DIGEST_LENGTH witness seq(DIGEST_LENGTH, _ => 0)

  /** A slot; `inode == 0` marks it empty. */
  datatype Entry = Entry(inode: nat, digest: Digest) {
    predicate Live() { inode != 0 }
  }

  const NO_DIGEST: Digest := seq(DIGEST_LENGTH, _ => 0)
  const EMPTY := Entry(0, NO_DIGEST)

  type Table = seq<Entry>
  type Inodes = map<Digest, nat>

  /** The first eight bytes of the digest as an unsigned little-endian integer, reduced to a slot. */
  function Home(d: Digest, n: nat): (h: nat)
    requires n > 0
    ensures h < n
  {
    (d[0] + 0x100 * d[1] + 0x1_0000 * d[2] + 0x100_0000 * d[3] + 0x1_0000_0000 * d[4] + 0x100_0000_0000 * d[5]
     + 0x1_0000_0000_0000 * d[6] + 0x100_0000_0000_0000 * d[7]) % n
  }

  /** The bytes from `k` to the eighth, the least significant one first. */
  function Number(d: Digest, k: nat): nat
    requires k <= 8
    decreases 8 - k
  {
    if k == 8 then 0 else d[k] + 0x100 * Number(d, k + 1)
  }

  lemma HomeIsNumber(d: Digest, n: nat)
    requires n > 0
    ensures Home(d, n) == Number(d, 0) % n
  {
    assert Number(d, 6) == d[6] as int + 0x100 * (d[7] as int);
    assert Number(d, 4) == d[4] as int + 0x100 * (d[5] as int) + 0x1_0000 * Number(d, 6);
    assert Number(d, 2) == d[2] as int + 0x100 * (d[3] as int) + 0x1_0000 * Number(d, 4);
    assert Number(d, 0) == d[0] as int + 0x100 * (d[1] as int) + 0x1_0000 * Number(d, 2);
  }

  /** The `k`-th slot on the probe path of a digest. */
  function Path(t: Table, d: Digest, k: nat): (x: nat)
    requires GoodSize(|t|)
    ensures x < |t|
  {
    Probe(Home(d, |t|), k, |t|)
  }

  /** The path of `d` passes over live slots only, up to and including its `k`-th slot. */
  ghost predicate LivePath(t: Table, d: Digest, k: nat)
    requires GoodSize(|t|)
  {
    forall i: nat | i <= k :: t[Path(t, d, i)].Live()
  }

  /** A search for the entry's digest gets to slot `x` without meeting an empty slot. */
  ghost predicate Reachable(t: Table, x: nat)
    requires GoodSize(|t|) && x < |t|
  {
    exists k: nat :: k < |t| && Path(t, t[x].digest, k) == x && LivePath(t, t[x].digest, k)
  }

  /** The table holds exactly the pairs of `m`, each once and each where a search finds it. */
  ghost predicate Represents(t: Table, m: Inodes) {
    && GoodSize(|t|)
    && (forall x: nat :: SlotOk(t, m, x))
    && (forall x: nat, y: nat :: StoredOnce(t, x, y))
    && (forall d :: KeyOk(t, m, d))
  }

  ghost predicate SlotOk(t: Table, m: Inodes, x: nat)
    requires GoodSize(|t|)
  {
    x < |t| && t[x].Live() ==> t[x].digest in m && m[t[x].digest] == t[x].inode && Reachable(t, x)
  }

  predicate StoredOnce(t: Table, x: nat, y: nat) {
    x < |t| && y < |t| && t[x].Live() && t[y].Live() && t[x].digest == t[y].digest ==> x == y
  }

  ghost predicate KeyOk(t: Table, m: Inodes, d: Digest) {
    d in m ==> Stored(t, d)
  }

  ghost predicate Stored(t: Table, d: Digest) {
    exists x: nat :: x < |t| && t[x].Live() && t[x].digest == d
  }

  lemma EmptyTable(n: nat)
    requires GoodSize(n)
    ensures Represents(seq(n, _ => EMPTY), map[])
  {
  }

  // ----- an empty slot always exists -----

  function Digests(t: Table, n: nat): (s: set<Digest>)
    requires n <= |t|
  {
    if n == 0 then {} else Digests(t, n - 1) + {t[n - 1].digest}
  }

  lemma {:induction false} DigestFrom(t: Table, n: nat, d: Digest) returns (x: nat)
    requires n <= |t| && d in Digests(t, n)
    ensures x < n && t[x].digest == d
  {
    if d == t[n - 1].digest { x := n - 1; } else { x := DigestFrom(t, n - 1, d); }
  }

  lemma {:induction false} DigestsCount(t: Table, keys: set<Digest>, n: nat)
    requires n <= |t|
    requires forall x: nat | x < n :: t[x].digest in keys
    requires forall x: nat, y: nat | x < y < n :: t[x].digest != t[y].digest
    ensures |Digests(t, n)| == n && Digests(t, n) <= keys
  {
    if n > 0 {
      DigestsCount(t, keys, n - 1);
      if t[n - 1].digest in Digests(t, n - 1) {
        var x := DigestFrom(t, n - 1, t[n - 1].digest);
      }
    }
  }

  /** With fewer keys than slots, some slot is empty (pigeonhole). */
  lemma HasEmptySlot(t: Table, m: Inodes) returns (x: nat)
    requires Represents(t, m) && |m| < |t|
    ensures x < |t| && !t[x].Live()
  {
    if forall y: nat | y < |t| :: t[y].Live() {
      forall y: nat | y < |t| ensures t[y].digest in m.Keys { assert SlotOk(t, m, y); }
      forall y: nat, z: nat | y < z < |t| ensures t[y].digest != t[z].digest { assert StoredOnce(t, y, z); }
      DigestsCount(t, m.Keys, |t|);
      SubsetSize(Digests(t, |t|), m.Keys);
    }
    x :| x < |t| && !t[x].Live();
  }

  lemma {:induction false} SubsetSize<A>(a: set<A>, b: set<A>)
    requires a <= b
    ensures |a| <= |b|
  {
    if a != {} {
      var x :| x in a;
      SubsetSize(a - {x}, b - {x});
    }
  }

  /** Every probe path meets an empty slot within one tour of the table. */
  lemma PathMeetsEmpty(t: Table, m: Inodes, h: nat) returns (k: nat)
    requires Represents(t, m) && |m| < |t| && h < |t|
    ensures k < |t| && !t[Probe(h, k, |t|)].Live()
  {
    var x := HasEmptySlot(t, m);
    k := ProbeSurjective(h, x, |t|);
  }

  // ----- searching -----

  /** The search for `d` is still going after `k` probes. */
  ghost predicate Passed(t: Table, d: Digest, k: nat)
    requires GoodSize(|t|)
  {
    forall i: nat | i < k :: t[Path(t, d, i)].Live() && t[Path(t, d, i)].digest != d
  }

  /** A search that runs into an empty slot is right to give up. */
  lemma StoppedMeansAbsent(t: Table, m: Inodes, d: Digest, k: nat)
    requires Represents(t, m) && Passed(t, d, k) && !t[Path(t, d, k)].Live()
    ensures d !in m
  {
    assert KeyOk(t, m, d);
    forall x: nat | x < |t| && t[x].Live() ensures t[x].digest != d {
      assert SlotOk(t, m, x);
    }
  }

  // ----- insertion -----

  lemma PathUpdated(t: Table, x: nat, e: Entry, d: Digest, k: nat)
    requires GoodSize(|t|) && x < |t| && e.Live() && LivePath(t, d, k)
    ensures LivePath(t[x := e], d, k)
  {
    var t' := t[x := e];
    forall i: nat | i <= k ensures t'[Path(t', d, i)].Live() {
      assert t[Path(t, d, i)].Live() && Path(t', d, i) == Path(t, d, i);
    }
  }

  /** Placing an absent digest into the first empty slot of its path adds one pair to the map. */
  lemma InsertRepresents(t: Table, m: Inodes, e: Entry, k: nat)
    requires Represents(t, m) && e.Live() && k < |t|
    requires Passed(t, e.digest, k) && !t[Path(t, e.digest, k)].Live()
    ensures e.digest !in m && Represents(t[Path(t, e.digest, k) := e], m[e.digest := e.inode])
  {
    StoppedMeansAbsent(t, m, e.digest, k);
    var x := Path(t, e.digest, k);
    var t' := t[x := e];
    var m' := m[e.digest := e.inode];
    forall y: nat ensures SlotOk(t', m', y) {
      if y < |t'| && t'[y].Live() {
        if y == x {
          assert LivePath(t', e.digest, k) by {
            forall i: nat | i <= k ensures t'[Path(t', e.digest, i)].Live() {
              assert i < k ==> t[Path(t, e.digest, i)].Live();
            }
          }
        } else {
          assert SlotOk(t, m, y);
          var j: nat :| j < |t| && Path(t, t[y].digest, j) == y && LivePath(t, t[y].digest, j);
          PathUpdated(t, x, e, t[y].digest, j);
        }
      }
    }
    forall y: nat, z: nat ensures StoredOnce(t', y, z) {
      assert StoredOnce(t, y, z) && SlotOk(t, m, y) && SlotOk(t, m, z);
    }
    forall d ensures KeyOk(t', m', d) {
      if d == e.digest {
        assert t'[x].digest == d;
      } else if d in m {
        assert KeyOk(t, m, d);
        var y: nat :| y < |t| && t[y].Live() && t[y].digest == d;
        assert t'[y].Live() && t'[y].digest == d;
      }
    }
  }
}
