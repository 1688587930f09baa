/** What the inode hash promises its callers, over whole runs: a finite map from digest to inode and a counter. */
module InodeModel {
  import opened InodeTable

  datatype Model = Model(inodes: Inodes, serial: nat)

  /** The sections that change the hash, each atomic under the write lock. */
  datatype Call = Insert(d: Digest) | Delete(d: Digest)

  const CREATED := Model(map[], 1)

  function Step(s: Model, c: Call): Model {
    match c
    case Insert(d) => if d in s.inodes then s else Model(s.inodes[d := s.serial], s.serial + 1)
    case Delete(d) => s.(inodes := s.inodes - {d})
  }

  /** The state after the first `k` calls. */
  function StateAfter(calls: seq<Call>, k: nat): Model
    requires k <= |calls|
  {
    if k == 0 then CREATED else Step(StateAfter(calls, k - 1), calls[k - 1])
  }

  /** Inode numbers are handed out from a counter: below it, not zero, and never to two digests. */
  ghost predicate InodesFresh(m: Inodes, serial: nat) {
    && (forall d | d in m :: 1 <= m[d] < serial)
    && (forall d, e | d in m && e in m && m[d] == m[e] :: d == e)
  }

  lemma FreshStep(s: Model, c: Call)
    requires InodesFresh(s.inodes, s.serial) && 1 <= s.serial
    ensures var s' := Step(s, c); InodesFresh(s'.inodes, s'.serial) && s.serial <= s'.serial
  {
  }

  lemma {:induction false} AlwaysFresh(calls: seq<Call>, k: nat)
    requires k <= |calls|
    ensures InodesFresh(StateAfter(calls, k).inodes, StateAfter(calls, k).serial) && 1 <= StateAfter(calls, k).serial
  {
    if k > 0 {
      AlwaysFresh(calls, k - 1);
      FreshStep(StateAfter(calls, k - 1), calls[k - 1]);
    }
  }

  /** A digest keeps its inode through whatever happens to others, for as long as it is not deleted itself. */
  lemma {:induction false} KeepsInode(calls: seq<Call>, i: nat, j: nat, d: Digest)
    requires i <= j <= |calls| && d in StateAfter(calls, i).inodes
    requires forall k | i <= k < j :: calls[k] != Delete(d)
    ensures d in StateAfter(calls, j).inodes && StateAfter(calls, j).inodes[d] == StateAfter(calls, i).inodes[d]
    decreases j - i
  {
    if i < j {
      KeepsInode(calls, i, j - 1, d);
    }
  }

  lemma {:induction false} SerialGrows(calls: seq<Call>, i: nat, j: nat)
    requires i <= j <= |calls|
    ensures StateAfter(calls, i).serial <= StateAfter(calls, j).serial
    decreases j - i
  {
    if i < j {
      SerialGrows(calls, i, j - 1);
    }
  }

  /** An inode number is never reused: if it is in use at two moments, it is in use for the same digest, which was
      not deleted in between.  In particular a digest that is deleted and inserted again gets a new number. */
  lemma {:induction false} NeverReused(calls: seq<Call>, i: nat, j: nat, d: Digest, e: Digest)
    requires i <= j <= |calls| && d in StateAfter(calls, i).inodes && e in StateAfter(calls, j).inodes
    requires StateAfter(calls, i).inodes[d] == StateAfter(calls, j).inodes[e]
    ensures d == e && forall k | i <= k < j :: calls[k] != Delete(d)
    decreases j - i
  {
    AlwaysFresh(calls, i);
    if i < j {
      SerialGrows(calls, i, j - 1);
      NeverReused(calls, i, j - 1, d, e);
    }
  }

  /** A digest is known exactly since it was inserted, as long as it was not deleted after that. */
  lemma {:induction false} KnownExactly(calls: seq<Call>, k: nat, d: Digest)
    requires k <= |calls|
    ensures d in StateAfter(calls, k).inodes <==> exists j :: 0 <= j < k && calls[j] == Insert(d) && Undeleted(calls, j, k, d)
  {
    if k > 0 {
      var n := k - 1;
      KnownExactly(calls, n, d);
      hide StateAfter;
      StateNext(calls, n);
      if j :| 0 <= j < n && calls[j] == Insert(d) && Undeleted(calls, j, n, d) {
        assert calls[n] != Delete(d) ==> Undeleted(calls, j, k, d);
      }
      if calls[n] == Insert(d) { assert Undeleted(calls, n, k, d); }
      assert forall j | 0 <= j < n && Undeleted(calls, j, k, d) :: Undeleted(calls, j, n, d) && calls[n] != Delete(d);
    }
  }

  ghost predicate Undeleted(calls: seq<Call>, j: nat, k: nat, d: Digest)
    requires k <= |calls|
  {
    forall i | j <= i < k :: calls[i] != Delete(d)
  }

  lemma StateNext(calls: seq<Call>, k: nat)
    requires k < |calls|
    ensures StateAfter(calls, k + 1) == Step(StateAfter(calls, k), calls[k])
  {
  }

  /** How many of the first `k` calls inserted a digest that was not there. */
  function Created(calls: seq<Call>, k: nat): nat
    requires k <= |calls|
  {
    if k == 0 then 0
    else
      Created(calls, k - 1) +
        match calls[k - 1]
        case Insert(d) => if d in StateAfter(calls, k - 1).inodes then 0 else 1
        case Delete(_) => 0
  }

  /** Numbers are handed out from 1 on without a gap: each new digest gets the number of insertions of new digests so far. */
  lemma {:induction false} NumberedInOrder(calls: seq<Call>, k: nat)
    requires k <= |calls|
    ensures StateAfter(calls, k).serial == 1 + Created(calls, k)
    ensures k > 0 && Created(calls, k) > Created(calls, k - 1) ==>
      calls[k - 1].Insert? && calls[k - 1].d in StateAfter(calls, k).inodes
      && StateAfter(calls, k).inodes[calls[k - 1].d] == Created(calls, k)
  {
    if k > 0 {
      NumberedInOrder(calls, k - 1);
    }
  }
}
