/** The inode hash: open addressing over an array of entries, kept less than half full.

    Every method is one section of the source under its read-write lock, so a run of the driver is a sequence of
    calls; `Insert` itself is two such sections, and `InsertLocked` makes no use of what the first one found. */
module InodeHash {
  import opened ProbeOrbit
  import opened InodeModel
  import opened InodeRemoval
  import opened InodeTable

  const PRIMES := 13       // how many sizes there are; the table of sizes ends in a zero
  const MAX_CHAIN := 100
  const INT_MAX := 0x7fff_ffff

  /** The table of sizes. */
  function Prime(i: nat): nat {
    match i
    case 0 => 4099
    case 1 => 8209
    case 2 => 16411
    case 3 => 32771
    case 4 => 65537
    case 5 => 131101
    case 6 => 262147
    case 7 => 524309
    case 8 => 1048583
    case 9 => 2097169
    case 10 => 4194319
    case 11 => 8388617
    case 12 => 16777259
    case _ => 0
  }

  /** All sizes suit the stride, and each is larger than the one before by more than one. */
  lemma PrimesGood(i: nat)
    requires i < PRIMES
    ensures GoodSize(Prime(i)) && (i + 1 < PRIMES ==> Prime(i) + 1 < Prime(i + 1))
  {
  }

  lemma PrimesEnd(i: nat)
    requires i <= PRIMES
    ensures Prime(i) > 0 <==> i < PRIMES
  {
  }

  datatype Outcome = Done(inode: nat) | Aborted

  class InodeHash {
    var entries: array<Entry>
    var serial: nat
    var size: int
    var used: int
    var sizeIdx: int
    ghost var t: Table       // the contents of the array
    ghost var m: Inodes      // what they stand for

    ghost predicate Valid()
      reads this, entries
    {
      && 1 <= sizeIdx <= PRIMES && size == entries.Length == Prime(sizeIdx - 1)
      && used == |m| && used * 2 < size && 1 <= serial
      && entries[..] == t && Represents(t, m)
      && InodesFresh(m, serial)
    }

    /** The map and the counter that callers see. */
    ghost function State(): Model
      reads this
    {
      Model(m, serial)
    }

    constructor ()
      ensures Valid() && fresh(entries) && State() == CREATED
    {
      PrimesGood(0);
      sizeIdx := 1;
      size := Prime(0);
      serial := 1;
      used := 0;
      m := map[];
      entries := new Entry[Prime(0)](_ => EMPTY);
      t := seq(Prime(0), _ => EMPTY);
      EmptyTable(Prime(0));
    }

    /** The inode of a digest; 0 stands for the null pointer. */
    method Find(d: Digest) returns (inode: nat)
      requires Valid()
      ensures inode == if d in m then m[d] else 0
    {
      var x, k := FindSlot(entries, d, m);
      inode := entries[x].inode;
    }

    /** Replace the array by one of the next size. */
    method Grow() returns (ok: bool)
      requires Valid()
      modifies this
      ensures ok <==> old(sizeIdx) < PRIMES
      ensures ok ==> Valid() && State() == old(State()) && used == old(used)
      ensures ok ==> fresh(entries) && size > old(size) + 1
    {
      hide Represents, InodesFresh, Prime, GoodSize;
      PrimesEnd(sizeIdx);
      var newSize := Prime(sizeIdx);
      if newSize <= 0 {
        return false;
      }
      PrimesGood(sizeIdx - 1);
      PrimesGood(sizeIdx);
      var b := Rehash(entries, newSize, m);
      entries, size, sizeIdx, t := b, newSize, sizeIdx + 1, b[..];
      assert Prime(sizeIdx - 1) == newSize;
      return true;
    }

    /** Find or store a digest in a table that has room for one more. */
    method Store(d: Digest) returns (inode: nat)
      requires Valid() && (used + 1) * 2 < size
      modifies this, entries
      ensures Valid() && entries == old(entries)
      ensures State() == Step(old(State()), Call.Insert(d)) && inode == m[d]
    {
      hide Represents, InodesFresh, Prime, GoodSize;
      var isNew;
      isNew, inode := FindOrPlace(entries, d, serial, m);
      t := entries[..];
      if isNew {
        FreshStep(Model(m, serial), Call.Insert(d));
        m, serial, used := m[d := serial], serial + 1, used + 1;
      }
    }

    /** The part of `inode_hash_insert` under the write lock; it does not matter what happened since the search
        under the read lock. */
    method InsertLocked(d: Digest) returns (r: Outcome)
      requires Valid() && serial < INT_MAX
      modifies this, entries
      ensures r.Aborted? <==> (old(used) + 1) * 2 >= old(size) && old(sizeIdx) == PRIMES
      ensures r.Done? ==> Valid() && (entries == old(entries) || fresh(entries))
      ensures r.Done? ==> State() == Step(old(State()), Call.Insert(d)) && r.inode == m[d]
    {
      if (used + 1) * 2 >= size {
        var ok := Grow();
        if !ok { return Aborted; }
      }
      var inode := Store(d);
      r := Done(inode);
    }

    method Insert(d: Digest) returns (r: Outcome)
      requires Valid() && serial < INT_MAX
      modifies this, entries
      ensures r.Aborted? <==>
        d !in old(m) && (old(used) + 1) * 2 >= old(size) && old(sizeIdx) == PRIMES
      ensures r.Done? ==> Valid() && (entries == old(entries) || fresh(entries))
      ensures r.Done? ==> State() == Step(old(State()), Call.Insert(d)) && r.inode == m[d]
    {
      var found := Find(d);
      if found != 0 { return Done(found); }
      r := InsertLocked(d);
    }

    /** Remove a digest.  The chain behind it is saved, cleared and inserted again; more than a hundred saved entries
        make the source abort. */
    method Delete(d: Digest) returns (aborted: bool)
      requires Valid()
      modifies this, entries
      ensures !aborted ==> Valid() && State() == Step(old(State()), Call.Delete(d)) && entries == old(entries)
      ensures d !in old(m) ==> !aborted && t == old(t)
      ensures d in old(m) ==> exists r: nat :: ChainBehind(old(t), d, r)
      ensures d in old(m) ==> forall r: nat | ChainBehind(old(t), d, r) :: aborted <==> r > MAX_CHAIN
    {
      hide Represents, InodesFresh, Prime, GoodSize, RunFrom, ChainBehind, Path, Passed;
      var x, k := FindSlot(entries, d, m);
      if !entries[x].Live() {
        NothingToRemove(m, d);
        return false;
      }
      FreshStep(Model(m, serial), Call.Delete(d));
      SizeWithout(m, d);
      aborted := TakeOut(entries, d, x, m);
      if !aborted {
        t, m, used := entries[..], m - {d}, used - 1;
      }
    }
  }

  lemma NothingToRemove(m: Inodes, d: Digest)
    requires d !in m
    ensures m - {d} == m
  {
  }

  lemma SizeWithout(m: Inodes, d: Digest)
    requires d in m
    ensures |m - {d}| == |m| - 1
  {
    assert (m - {d}).Keys == m.Keys - {d};
    assert |m.Keys - {d}| == |m.Keys| - 1;
    assert |(m - {d}).Keys| == |m - {d}| && |m.Keys| == |m|;
  }

  /** Follow the probe path of `d` to the slot that holds it, or to the first empty slot; `e` says that there is one. */
  method FollowPath(a: array<Entry>, d: Digest, ghost e: nat) returns (x: nat, ghost k: nat)
    requires GoodSize(a.Length) && e < a.Length && !a[Path(a[..], d, e)].Live()
    ensures x < a.Length && k < a.Length && x == Path(a[..], d, k) && Passed(a[..], d, k)
    ensures !a[x].Live() || a[x].digest == d
  {
    ghost var t := a[..];
    x := Home(d, a.Length);
    k := 0;
    while a[x].Live() && a[x].digest != d
      invariant x < a.Length && k <= e && x == Path(t, d, k)
      invariant Passed(t, d, k)
      decreases e - k
    {
      assert a[x] == t[x];
      x := (x + HASH_TABLE_OFFSET) % a.Length;
      k := k + 1;
    }
  }

  method FindSlot(a: array<Entry>, d: Digest, ghost m: Inodes) returns (x: nat, ghost k: nat)
    requires Represents(a[..], m) && |m| < a.Length
    ensures x < a.Length && k < a.Length && x == Path(a[..], d, k) && Passed(a[..], d, k)
    ensures !a[x].Live() || a[x].digest == d
    ensures d in m <==> a[x].Live()
    ensures d in m ==> m[d] == a[x].inode
  {
    ghost var e := PathMeetsEmpty(a[..], m, Home(d, a.Length));
    x, k := FollowPath(a, d, e);
    FoundExactly(a[..], m, d, k);
  }

  /** Where a search ends tells whether the digest is in the map, and with which inode. */
  lemma FoundExactly(t: Table, m: Inodes, d: Digest, k: nat)
    requires Represents(t, m) && Passed(t, d, k)
    requires !t[Path(t, d, k)].Live() || t[Path(t, d, k)].digest == d
    ensures d in m <==> t[Path(t, d, k)].Live()
    ensures d in m ==> m[d] == t[Path(t, d, k)].inode
  {
    assert SlotOk(t, m, Path(t, d, k));
    if !t[Path(t, d, k)].Live() { StoppedMeansAbsent(t, m, d, k); }
  }

  /** Put an entry whose digest is absent into the first empty slot of its path.  The source aborts when it meets the
      same digest on the way; that cannot happen. */
  method Place(a: array<Entry>, e: Entry, ghost m: Inodes)
    requires Represents(a[..], m) && |m| < a.Length && e.Live() && e.digest !in m
    modifies a
    ensures Represents(a[..], m[e.digest := e.inode])
  {
    var x, k := FindSlot(a, e.digest, m);
    if a[x].Live() {
      assert false;  // abort()
    }
    InsertRepresents(a[..], m, e, k);
    ghost var t := a[..];
    a[x] := e;
    assert a[..] == t[x := e];
  }

  /** The last loop of `inode_hash_insert`. */
  method FindOrPlace(a: array<Entry>, d: Digest, serial: nat, ghost m: Inodes) returns (isNew: bool, inode: nat)
    requires Represents(a[..], m) && |m| < a.Length && serial != 0
    modifies a
    ensures isNew <==> d !in m
    ensures inode == if isNew then serial else m[d]
    ensures Represents(a[..], if isNew then m[d := serial] else m)
  {
    var x, k := FindSlot(a, d, m);
    isNew := !a[x].Live();
    if isNew {
      InsertRepresents(a[..], m, Entry(serial, d), k);
      ghost var t := a[..];
      a[x] := Entry(serial, d);
      assert a[..] == t[x := Entry(serial, d)];
    }
    inode := a[x].inode;
  }

  ghost predicate StoredBefore(t: Table, i: nat, d: Digest) {
    exists x: nat :: x < i && x < |t| && t[x].Live() && t[x].digest == d
  }

  /** What has been copied after `i` slots of `t`. */
  ghost predicate CopiedUpTo(t: Table, m: Inodes, i: nat, acc: Inodes) {
    && (forall d | d in acc :: d in m && acc[d] == m[d] && StoredBefore(t, i, d))
    && (forall x: nat | x < i && x < |t| && t[x].Live() :: t[x].digest in acc)
  }

  lemma NotCopiedYet(t: Table, m: Inodes, i: nat)
    requires Represents(t, m) && i < |t| && t[i].Live()
    ensures t[i].digest in m && m[t[i].digest] == t[i].inode && !StoredBefore(t, i, t[i].digest)
  {
    assert SlotOk(t, m, i);
    forall x: nat | x < i && t[x].Live() ensures t[x].digest != t[i].digest { assert StoredOnce(t, x, i); }
  }

  lemma CopiedSmaller(t: Table, m: Inodes, i: nat, acc: Inodes)
    requires CopiedUpTo(t, m, i, acc)
    ensures |acc| <= |m|
  {
    assert acc.Keys <= m.Keys;
    SubsetSize(acc.Keys, m.Keys);
    assert |acc.Keys| == |acc| && |m.Keys| == |m|;
  }

  lemma CopiedStep(t: Table, m: Inodes, i: nat, acc: Inodes)
    requires i < |t| && CopiedUpTo(t, m, i, acc)
    requires t[i].Live() ==>
      t[i].digest in m && m[t[i].digest] == t[i].inode && !StoredBefore(t, i, t[i].digest)
    ensures t[i].Live() ==> t[i].digest !in acc && CopiedUpTo(t, m, i + 1, acc[t[i].digest := t[i].inode])
    ensures !t[i].Live() ==> CopiedUpTo(t, m, i + 1, acc)
  {
    forall d | StoredBefore(t, i, d) ensures StoredBefore(t, i + 1, d) {
      var x: nat :| x < i && x < |t| && t[x].Live() && t[x].digest == d;
    }
    if t[i].Live() { assert StoredBefore(t, i + 1, t[i].digest); }
  }

  lemma CopiedAll(t: Table, m: Inodes, acc: Inodes)
    requires Represents(t, m) && CopiedUpTo(t, m, |t|, acc)
    ensures acc == m
  {
    forall d | d in m ensures d in acc { assert KeyOk(t, m, d); }
  }

  /** Re-insert everything into a new array. */
  method Rehash(a: array<Entry>, newSize: nat, ghost m: Inodes) returns (b: array<Entry>)
    requires Represents(a[..], m) && GoodSize(newSize) && |m| < newSize
    ensures fresh(b) && b.Length == newSize && Represents(b[..], m)
  {
    b := new Entry[newSize](_ => EMPTY);
    EmptyTable(newSize);
    assert b[..] == seq(newSize, _ => EMPTY);
    ghost var t := a[..];
    ghost var acc: Inodes := map[];
    for i := 0 to a.Length
      invariant fresh(b) && a[..] == t
      invariant Represents(b[..], acc) && CopiedUpTo(t, m, i, acc)
    {
      assert a[i] == t[i];
      if t[i].Live() { NotCopiedYet(t, m, i); }
      CopiedStep(t, m, i, acc);
      CopiedSmaller(t, m, i, acc);
      if a[i].Live() {
        Place(b, a[i], acc);
        acc := acc[t[i].digest := t[i].inode];
      }
    }
    CopiedAll(t, m, acc);
  }

  /** The number of live slots behind slot `x`. */
  method CountChain(a: array<Entry>, x: nat, ghost m: Inodes) returns (r: nat)
    requires Represents(a[..], m) && |m| < a.Length && x < a.Length && a[x].Live()
    ensures RunFrom(a[..], x, r)
  {
    ghost var t := a[..];
    ghost var e := PathMeetsEmpty(t, m, x);
    var j := (x + HASH_TABLE_OFFSET) % a.Length;
    r := 0;
    assert Probe(x, 1, a.Length) == Jump(Probe(x, 0, a.Length), a.Length);
    while a[j].Live()
      invariant r + 1 <= e && j == Probe(x, r + 1, a.Length)
      invariant forall i: nat | i <= r :: t[Probe(x, i, a.Length)].Live()
      decreases e - r
    {
      assert a[j] == t[j];
      j := (j + HASH_TABLE_OFFSET) % a.Length;
      r := r + 1;
    }
  }

  lemma RunSlot(t: Table, x: nat, r: nat, k: nat)
    requires RunFrom(t, x, r) && k <= r
    ensures k + 1 < |t| && (t[Probe(x, k + 1, |t|)].Live() <==> k < r)
    ensures Probe(x, k + 1, |t|) == Jump(Probe(x, k, |t|), |t|) && Probe(x, 0, |t|) == x
  {
    assert Probe(x, k + 1, |t|) == Jump(Probe(x, k, |t|), |t|);
  }

  /** After `k` slots of the run: `a` is the table without them, `saved` has them, and `j` is the next one. */
  ghost predicate Saving(a: Table, saved: Table, t: Table, x: nat, r: nat, k: nat, j: nat) {
    && RunFrom(t, x, r) && k <= r == |saved| && |a| == |t| && j == Probe(x, k + 1, |t|)
    && a == ClearedRun(t, x, k) && a[j] == t[j]
    && forall i: nat | i < k :: saved[i] == t[Probe(x, i + 1, |t|)]
  }

  lemma SavingStart(t: Table, saved: Table, x: nat, r: nat)
    requires RunFrom(t, x, r) && |saved| == r
    ensures Saving(t[x := EMPTY], saved, t, x, r, 0, Jump(x, |t|))
  {
    ClearFirst(t, x);
    RunSlot(t, x, r, 0);
    ClearNext(t, x, 0);
  }

  lemma SavingStep(a: Table, saved: Table, t: Table, x: nat, r: nat, k: nat, j: nat)
    requires Saving(a, saved, t, x, r, k, j) && k < r
    ensures Saving(a[j := EMPTY], saved[k := a[j]], t, x, r, k + 1, Jump(j, |t|))
  {
    RunSlot(t, x, r, k);
    RunSlot(t, x, r, k + 1);
    ClearNext(t, x, k);
    ClearNext(t, x, k + 1);
    hide ClearedRun, Probe, RunFrom;
  }

  lemma SavingOn(a: Table, saved: Table, t: Table, x: nat, r: nat, k: nat, j: nat)
    requires Saving(a, saved, t, x, r, k, j)
    ensures j < |a| && (a[j].Live() <==> k < r)
    ensures k == r ==> a == ClearedRun(t, x, r) && forall i: nat | i < r :: saved[i] == t[Probe(x, i + 1, |t|)]
  {
    RunSlot(t, x, r, k);
  }

  /** Empty slot `x` and the `r` slots behind it, keeping a copy of the latter. */
  method SaveChain(a: array<Entry>, x: nat, r: nat) returns (saved: array<Entry>)
    requires RunFrom(a[..], x, r)
    modifies a
    ensures fresh(saved) && saved.Length == r && a[..] == ClearedRun(old(a[..]), x, r)
    ensures forall i: nat | i < r :: saved[i] == old(a[..])[Probe(x, i + 1, a.Length)]
  {
    ghost var t := a[..];
    assert GoodSize(|t|);
    hide *;
    saved := new Entry[r](_ => EMPTY);
    SavingStart(t, saved[..], x, r);
    a[x] := EMPTY;
    var k: nat, j: nat := 0, Jump(x, a.Length);
    assert a[..] == t[x := EMPTY];
    SavingOn(a[..], saved[..], t, x, r, k, j);
    while a[j].Live()
      invariant k <= r && j < a.Length && Saving(a[..], saved[..], t, x, r, k, j)
      invariant a[j].Live() <==> k < r
      decreases r - k
    {
      SavingStep(a[..], saved[..], t, x, r, k, j);
      ghost var front, kept := a[..], saved[..];
      saved[k] := a[j];
      a[j] := EMPTY;
      assert a[..] == front[j := EMPTY] && saved[..] == kept[k := front[j]];
      k := k + 1;
      j := Jump(j, a.Length);
      SavingOn(a[..], saved[..], t, x, r, k, j);
    }
    SavingOn(a[..], saved[..], t, x, r, k, j);
  }

  method RestoreOne(a: array<Entry>, e: Entry, ghost t: Table, ghost m: Inodes, ghost x: nat, ghost r: nat, ghost k: nat)
    requires Represents(t, m) && RunFrom(t, x, r) && k < r && |m| < a.Length && e == t[Probe(x, k + 1, |t|)]
    requires Represents(a[..], Restored(t, m, x, r, k))
    modifies a
    ensures Represents(a[..], Restored(t, m, x, r, k + 1))
  {
    RestoredStep(t, m, x, r, k);
    RestoredSmaller(t, m, x, r, k);
    hide Represents, Restored, RunFrom, Probe;
    Place(a, e, Restored(t, m, x, r, k));
  }

  /** The chain is cleared with slot `x`, and put back without it. */
  method Reinsert(a: array<Entry>, x: nat, r: nat, ghost m: Inodes)
    requires Represents(a[..], m) && |m| < a.Length && RunFrom(a[..], x, r)
    modifies a
    ensures Represents(a[..], m - {old(a[x]).digest})
  {
    ghost var t := a[..];
    assert GoodSize(|t|) && x < |t| && r + 1 < |t|;
    hide *;
    var saved := SaveChain(a, x, r);
    ClearedRepresents(t, m, x, r);
    for k := 0 to r
      invariant Represents(a[..], Restored(t, m, x, r, k))
      invariant forall i: nat | i < r :: saved[i] == t[Probe(x, i + 1, |t|)]
    {
      RestoreOne(a, saved[k], t, m, x, r, k);
    }
    RestoredAll(t, m, x, r);
  }

  /** The body of `inode_hash_delete` once the digest was found in slot `x`. */
  method TakeOut(a: array<Entry>, d: Digest, x: nat, ghost m: Inodes) returns (aborted: bool)
    requires Represents(a[..], m) && |m| < a.Length && x < a.Length && a[x].Live() && a[x].digest == d
    modifies a
    ensures !aborted ==> Represents(a[..], m - {d})
    ensures exists r: nat :: ChainBehind(old(a[..]), d, r)
    ensures forall r: nat | ChainBehind(old(a[..]), d, r) :: aborted <==> r > MAX_CHAIN
  {
    hide Represents, RunFrom, ChainBehind;
    var r := CountChain(a, x, m);
    ChainUnique(a[..], m, d, x, r);
    aborted := r > MAX_CHAIN;
    if !aborted { Reinsert(a, x, r, m); }
  }
}
