/** When the total is the sum of the sizes in the table, and when the quota holds. */
module TotalSafety {
  import opened FileNode
  import opened FileNodes
  import opened TotalSize

  // ----- the total at rest -----

  /** No thread is between a change of a size, or of the table, and the change of the total that belongs to it. */
  ghost predicate AtRest(s: State) {
    forall i | 0 <= i < |s.pcs| :: Debt(s.pcs[i]) == 0 && !s.pcs[i].Leaving? && !s.pcs[i].Subtracting?
  }

  /** The sizes of the files in the table, the others counting nothing. */
  ghost function InTable(s: State): (t: seq<int>)
    ensures |t| == |s.sizes| && forall f :: 0 <= f < |t| ==> t[f] == if f in s.table then s.sizes[f] else 0
  {
    seq(|s.sizes|, f requires 0 <= f < |s.sizes| => if f in s.table then s.sizes[f] else 0)
  }

  /** How much removed files have changed since the removal read their size. */
  ghost function Late(s: State): (t: seq<int>)
    requires |s.removed| == |s.sizes|
    ensures |t| == |s.sizes| && forall f :: 0 <= f < |t| ==> t[f] == if f in s.table then 0 else s.sizes[f] - s.removed[f]
  {
    seq(|s.sizes|, f requires 0 <= f < |s.sizes| => if f in s.table then 0 else s.sizes[f] - s.removed[f])
  }

  lemma {:induction false} SumSplits(a: seq<int>, b: seq<int>, c: seq<int>, d: seq<int>)
    requires |a| == |b| == |c| == |d| && forall i :: 0 <= i < |a| ==> a[i] == b[i] + c[i] + d[i]
    ensures Sum(a) == Sum(b) + Sum(c) + Sum(d)
  {
    if a != [] {
      var n := |a| - 1;
      SumSplits(a[..n], b[..n], c[..n], d[..n]);
    }
  }

  lemma CountedAtRest(s: State, f: nat)
    requires Accounted(s) && AtRest(s) && f < |s.sizes|
    ensures s.counted[f] == Whole(s, f)
  {
    assert FileCounted(s, f);
    hide Sum;
  }

  /** In every interleaving, at rest, the total is the sum of the sizes of the files in the table if and only if the changes
      that files saw after a removal had read their size, and what opens with `O_TRUNC` cut off, cancel out. */
  lemma TotalAtRest(run: seq<State>, k: nat)
    requires Run(run) && k < |run| && AtRest(run[k])
    ensures |run[k].removed| == |run[k].sizes|
    ensures run[k].total == Sum(InTable(run[k])) + Sum(Late(run[k])) + Sum(run[k].dropped)
    ensures run[k].total == Sum(InTable(run[k])) <==> Sum(Late(run[k])) + Sum(run[k].dropped) == 0
  {
    hide AtRest, FileCounted, Sum;
    RunInv(run, k);
    var s := run[k];
    forall f | 0 <= f < |s.sizes| ensures s.counted[f] == InTable(s)[f] + Late(s)[f] + s.dropped[f] {
      CountedAtRest(s, f);
    }
    SumSplits(s.counted, InTable(s), Late(s), s.dropped);
  }

  // ----- opens with O_TRUNC -----

  /** Thread `j`, which holds the mutex of a file and keeps it, sets the size from above 0 to 0. */
  ghost predicate EmptiedBy(s: State, s': State, j: nat) {
    && j < |s.pcs| && j < |s'.pcs| && s.pcs[j].Locked? && s'.pcs[j] == s.pcs[j]
    && s.pcs[j].f < |s.sizes| && s.pcs[j].f < |s'.sizes| && s.sizes[s.pcs[j].f] > 0 == s'.sizes[s.pcs[j].f]
  }

  ghost predicate Emptied(s: State, s': State) {
    exists j: nat :: EmptiedBy(s, s', j)
  }

  /** In the step after `k` a file that is not empty is opened with `O_TRUNC`. */
  ghost predicate EmptiesAt(run: seq<State>, k: nat) {
    k + 1 < |run| && Emptied(run[k], run[k + 1])
  }

  predicate Cuts(s: State, i: nat, a: Action) {
    a.Empty? && i < |s.pcs| && s.pcs[i].Locked? && s.pcs[i].f < |s.sizes| && s.sizes[s.pcs[i].f] > 0
  }

  lemma EmptiedOnlyBy(s: State, i: nat, a: Action, j: nat)
    requires Enabled(s, i, a) && MutexOk(s) && PcsOk(s) && FilesOk(s)
    ensures EmptiedBy(s, Apply(s, i, a), j) <==> i == j && Cuts(s, i, a)
  {
    assert PcOk(s, s.pcs[i]);
    if j < |s.pcs| && s.pcs[j].Locked? {
      assert Holds(s.pcs[j], s.pcs[j].f);
      assert Holds(s.pcs[i], s.pcs[j].f) ==> i == j;
    }
  }

  lemma EmptiedExactly(s: State, i: nat, a: Action)
    requires Enabled(s, i, a) && Inv(s)
    ensures Emptied(s, Apply(s, i, a)) <==> Cuts(s, i, a)
  {
    FilesFit(s);
    hide Inv, Apply, Enabled, EmptiedBy, Cuts;
    forall j: nat ensures EmptiedBy(s, Apply(s, i, a), j) <==> i == j && Cuts(s, i, a) { EmptiedOnlyBy(s, i, a, j); }
    assert EmptiedBy(s, Apply(s, i, a), i) <==> Cuts(s, i, a);
  }

  lemma DroppedStep(s: State, i: nat, a: Action)
    requires Enabled(s, i, a) && FilesOk(s)
    ensures Sum(Apply(s, i, a).dropped) >= Sum(s.dropped) >= 0
    ensures Sum(Apply(s, i, a).dropped) == Sum(s.dropped) <==> !Cuts(s, i, a)
  {
    hide Sum;
    SumNonNegative(s.dropped);
    if a.Create? {
      SumAppend(s.dropped, 0);
    } else if a.Empty? {
      var f := s.pcs[i].f;
      SumUpdate(s.dropped, f, s.dropped[f] + s.sizes[f]);
    }
  }

  lemma FilesFit(s: State)
    requires Inv(s)
    ensures MutexOk(s) && PcsOk(s) && FilesOk(s)
  {
  }

  lemma DroppedNext(s: State, s': State)
    requires Inv(s) && Next(s, s')
    ensures Sum(s'.dropped) >= Sum(s.dropped) >= 0
    ensures Sum(s'.dropped) == Sum(s.dropped) <==> !Emptied(s, s')
  {
    FilesFit(s);
    hide Inv, Apply, Enabled, Emptied, Sum, Cuts, FilesOk, MutexOk, PcsOk;
    var i: nat, a: Action :| Enabled(s, i, a) && s' == Apply(s, i, a);
    DroppedStep(s, i, a);
    EmptiedExactly(s, i, a);
  }

  /** What was cut off is nothing if and only if no file that was not empty was ever opened with `O_TRUNC`. */
  lemma {:induction false} DroppedExactly(run: seq<State>, k: nat)
    requires Run(run) && k < |run|
    ensures Sum(run[k].dropped) >= 0
    ensures Sum(run[k].dropped) == 0 <==> forall j: nat | j < k :: !EmptiesAt(run, j)
  {
    hide Inv, Next, Emptied;
    if k == 0 {
      assert Init(run[0]);
    } else {
      hide Sum, Init;
      DroppedExactly(run, k - 1);
      RunInv(run, k - 1);
      assert StepAt(run, k - 1);
      DroppedNext(run[k - 1], run[k]);
      assert EmptiesAt(run, k - 1) <==> Emptied(run[k - 1], run[k]);
    }
  }

  // ----- removals that overlap with no other use -----

  /** No file is being removed while a thread works on it or is going to. */
  ghost predicate Apart(s: State) {
    forall i, j, f | 0 <= i < |s.pcs| && 0 <= j < |s.pcs| && Takes(s.pcs[i], f) :: !Uses(s.pcs[j], f)
  }

  ghost predicate Taken(pcs: seq<Pc>, f: nat) {
    exists i :: 0 <= i < |pcs| && Takes(pcs[i], f)
  }

  /** A removal is alone with its file, and what it has read stays right. */
  ghost predicate TakersOk(s: State) {
    && (forall i, j, f | 0 <= i < |s.pcs| && 0 <= j < |s.pcs| && Takes(s.pcs[i], f) && Takes(s.pcs[j], f) :: i == j)
    && (forall i | 0 <= i < |s.pcs| :: TakerOk(s, s.pcs[i]))
  }

  predicate TakerOk(s: State, pc: Pc) {
    pc.Leaving? || pc.Subtracting? ==>
      && pc.f < |s.removed| && pc.f < |s.sizes| && s.removed[pc.f] == 0
      && (pc.Subtracting? ==> pc.size == s.sizes[pc.f])
  }

  ghost predicate UsersOk(s: State) {
    forall i, f | 0 <= i < |s.pcs| && Uses(s.pcs[i], f) :: f in s.table
  }

  ghost predicate GoneOk(s: State) {
    && |s.removed| == |s.sizes|
    && forall f | 0 <= f < |s.sizes| && f !in s.table :: s.sizes[f] == s.removed[f] || Taken(s.pcs, f)
  }

  lemma ThreadsFit(s: State)
    requires Inv(s)
    ensures PcsOk(s)
  {
  }

  lemma UsersStep(s: State, i: nat, a: Action)
    requires Enabled(s, i, a) && Inv(s) && UsersOk(s) && Apart(Apply(s, i, a))
    ensures UsersOk(Apply(s, i, a))
  {
    var s' := Apply(s, i, a);
    assert a.TakeOut? ==> Takes(s'.pcs[i], a.f);
    assert forall f | Holds(s.pcs[i], f) :: Uses(s.pcs[i], f);
    forall j, f | 0 <= j < |s'.pcs| && Uses(s'.pcs[j], f) ensures f in s'.table {
      assert j != i ==> Uses(s.pcs[j], f);
      assert s.pcs[i] == Pinned(f) ==> Uses(s.pcs[i], f);
    }
  }

  lemma TakersUnique(s: State, i: nat, a: Action)
    requires Enabled(s, i, a) && PcsOk(s) && TakersOk(s)
    ensures
      var s' := Apply(s, i, a);
      forall j, f | 0 <= j < |s'.pcs| && j != i && Takes(s'.pcs[j], f) :: s'.pcs[j] == s.pcs[j] && !Takes(s'.pcs[i], f)
  {
    var s' := Apply(s, i, a);
    forall j, f | 0 <= j < |s'.pcs| && j != i && Takes(s'.pcs[j], f) ensures !Takes(s'.pcs[i], f) {
      assert PcOk(s, s.pcs[j]) && Takes(s.pcs[j], f);
      assert !Takes(s.pcs[i], f);
    }
  }

  lemma TakerStep(s: State, i: nat, a: Action, j: nat)
    requires Enabled(s, i, a) && Inv(s) && UsersOk(s) && TakersOk(s) && j < |s.pcs|
    ensures TakerOk(Apply(s, i, a), Apply(s, i, a).pcs[j])
  {
    assert PcOk(s, s.pcs[i]) && PcOk(s, s.pcs[j]) && TakerOk(s, s.pcs[j]);
    if !s.pcs[i].Idle? && Uses(s.pcs[i], s.pcs[i].f) { assert s.pcs[i].f in s.table; }
    if s.pcs[i].Subtracting? && j != i { assert Takes(s.pcs[i], s.pcs[i].f) && !Takes(s.pcs[j], s.pcs[i].f); }
  }

  lemma TakersStep(s: State, i: nat, a: Action)
    requires Enabled(s, i, a) && Inv(s) && UsersOk(s) && TakersOk(s)
    ensures TakersOk(Apply(s, i, a))
  {
    TakersUnique(s, i, a);
    var s' := Apply(s, i, a);
    assert |s'.pcs| == |s.pcs|;
    hide Apply, Enabled, Inv, UsersOk, TakerOk, Takes;
    forall j | 0 <= j < |s'.pcs| ensures TakerOk(s', s'.pcs[j]) {
      TakerStep(s, i, a, j);
    }
  }

  lemma GoneFile(s: State, i: nat, a: Action, f: nat)
    requires Enabled(s, i, a) && PcsOk(s) && UsersOk(s) && TakersOk(s) && GoneOk(s)
    requires var s' := Apply(s, i, a); f < |s'.sizes| && |s'.removed| == |s'.sizes| && f !in s'.table
    ensures var s' := Apply(s, i, a); s'.sizes[f] == s'.removed[f] || Taken(s'.pcs, f)
  {
    var s' := Apply(s, i, a);
    assert PcOk(s, s.pcs[i]) && TakerOk(s, s.pcs[i]);
    if f in s.table {
      assert Takes(s'.pcs[i], f);
    } else {
      assert !Uses(s.pcs[i], f);
      if Taken(s.pcs, f) {
        var j :| 0 <= j < |s.pcs| && Takes(s.pcs[j], f);
        assert j != i ==> Takes(s'.pcs[j], f);
        assert j == i && a.ReadSize? ==> Takes(s'.pcs[j], f);
      }
    }
  }

  lemma GoneStep(s: State, i: nat, a: Action)
    requires Enabled(s, i, a) && PcsOk(s) && UsersOk(s) && TakersOk(s) && GoneOk(s)
    ensures GoneOk(Apply(s, i, a))
  {
    var s' := Apply(s, i, a);
    assert |s'.removed| == |s'.sizes|;
    hide Apply, Enabled, PcsOk, UsersOk, TakersOk, Taken;
    forall f | 0 <= f < |s'.sizes| && f !in s'.table ensures s'.sizes[f] == s'.removed[f] || Taken(s'.pcs, f) {
      GoneFile(s, i, a, f);
    }
  }

  /** Where no removal overlaps with another use of its file the total at rest is right if and only if no file that was not
      empty was ever opened with `O_TRUNC`. */
  lemma TotalWithoutOverlap(run: seq<State>, k: nat)
    requires Run(run) && k < |run| && AtRest(run[k]) && forall j | 0 <= j < |run| :: Apart(run[j])
    ensures run[k].total == Sum(InTable(run[k])) + Sum(run[k].dropped)
    ensures run[k].total == Sum(InTable(run[k])) <==> forall j: nat | j < k :: !EmptiesAt(run, j)
  {
    hide Sum, EmptiesAt, UsersOk;
    GoneInRun(run, k);
    TotalAtRest(run, k);
    SumZero(Late(run[k]));
    DroppedExactly(run, k);
  }

  lemma NothingGone(s: State)
    requires Init(s)
    ensures UsersOk(s) && TakersOk(s) && GoneOk(s)
  {
  }

  lemma {:induction false} GoneInRun(run: seq<State>, k: nat)
    requires Run(run) && k < |run| && forall j | 0 <= j < |run| :: Apart(run[j])
    ensures UsersOk(run[k]) && TakersOk(run[k]) && GoneOk(run[k])
  {
    hide Inv, Init, Apply, Enabled, Apart, UsersOk, TakersOk, GoneOk, PcsOk;
    if k == 0 {
      NothingGone(run[0]);
    } else {
      GoneInRun(run, k - 1);
      RunInv(run, k - 1);
      assert StepAt(run, k - 1);
      var i: nat, a: Action :| Enabled(run[k - 1], i, a) && run[k] == Apply(run[k - 1], i, a);
      UsersStep(run[k - 1], i, a);
      TakersStep(run[k - 1], i, a);
      ThreadsFit(run[k - 1]);
      GoneStep(run[k - 1], i, a);
    }
  }

  // ----- the size of one file -----

  /** Every size that a file has or was granted is within the quota. */
  ghost predicate SizesFit(s: State) {
    && (forall f | 0 <= f < |s.sizes| :: s.sizes[f] <= s.quota)
    && (forall i | 0 <= i < |s.pcs| && s.pcs[i].Granted? :: s.pcs[i].size <= s.quota)
  }

  /** No file is counted with less than nothing. */
  lemma CountedNonNegative(s: State, f: nat)
    requires Inv(s) && UsersOk(s) && TakersOk(s) && GoneOk(s) && f < |s.sizes|
    ensures s.counted[f] >= 0
  {
    hide Sum;
    assert FileCounted(s, f);
    if i: nat :| i < |s.pcs| && Holds(s.pcs[i], f) {
      assert PcOk(s, s.pcs[i]) && Uses(s.pcs[i], f);
    } else if Taken(s.pcs, f) {
      var i :| 0 <= i < |s.pcs| && Takes(s.pcs[i], f);
      assert TakerOk(s, s.pcs[i]);
    }
  }

  /** A file that is locked, with nothing owed, is counted at least with its size, and so is the total. */
  lemma TotalCovers(s: State, i: nat)
    requires Inv(s) && UsersOk(s) && TakersOk(s) && GoneOk(s) && i < |s.pcs| && s.pcs[i].Locked? && s.pcs[i].f < |s.sizes|
    ensures s.sizes[s.pcs[i].f] <= s.total
  {
    var f := s.pcs[i].f;
    assert FileCounted(s, f) && Holds(s.pcs[i], f) && Uses(s.pcs[i], f);
    hide Sum, FileCounted;
    forall g | 0 <= g < |s.counted| ensures s.counted[g] >= 0 { CountedNonNegative(s, g); }
    SumAtLeast(s.counted, f);
  }

  /** The check of the quota admits no size beyond the quota if and only if the total is at least the size of the file. */
  lemma GrantsFitExactly(s: State, i: nat)
    requires |s.removed| == |s.dropped| == |s.counted| == |s.sizes|
    requires i < |s.pcs| && s.pcs[i].Locked? && s.pcs[i].f < |s.sizes| && s.sizes[s.pcs[i].f] <= s.quota
    ensures (forall n | Enabled(s, i, Grant(n)) :: n <= s.quota) <==> s.sizes[s.pcs[i].f] <= s.total
  {
    var f := s.pcs[i].f;
    if s.total < s.sizes[f] {
      assert Enabled(s, i, Grant(s.quota - s.total + s.sizes[f]));
    }
  }

  lemma SizesStep(s: State, i: nat, a: Action)
    requires Enabled(s, i, a) && PcsOk(s) && SizesFit(s) && s.quota >= 0
    requires s.pcs[i].Locked? && s.pcs[i].f < |s.sizes| ==> s.sizes[s.pcs[i].f] <= s.total
    ensures SizesFit(Apply(s, i, a))
  {
    assert PcOk(s, s.pcs[i]);
  }

  lemma QuotaPositive(run: seq<State>, k: nat)
    requires Run(run) && k < |run|
    ensures run[k].quota >= 0
  {
    if k > 0 {
      hide Apply, Enabled, Init;
      QuotaPositive(run, k - 1);
      assert StepAt(run, k - 1);
      var i: nat, a: Action :| Enabled(run[k - 1], i, a) && run[k] == Apply(run[k - 1], i, a);
      SameQuota(run[k - 1], i, a);
    }
  }

  /** Where no removal overlaps with another use of its file, no file ever passes the quota, and no such size is granted. */
  lemma {:induction false} SizesWithinQuota(run: seq<State>, k: nat)
    requires Run(run) && k < |run| && forall j | 0 <= j < |run| :: Apart(run[j])
    ensures SizesFit(run[k])
  {
    if k > 0 {
      hide Inv, Init, Apply, Enabled, Apart, SizesFit, UsersOk, TakersOk, GoneOk, PcsOk;
      SizesWithinQuota(run, k - 1);
      RunInv(run, k - 1);
      GoneInRun(run, k - 1);
      QuotaPositive(run, k - 1);
      assert StepAt(run, k - 1);
      var s := run[k - 1];
      var i: nat, a: Action :| Enabled(s, i, a) && run[k] == Apply(s, i, a);
      ThreadsFit(s);
      if i < |s.pcs| && s.pcs[i].Locked? && s.pcs[i].f < |s.sizes| { TotalCovers(s, i); }
      SizesStep(s, i, a);
    }
  }

  /** So the doubling of the capacity for a size that was granted stays in the int range. */
  lemma DoublingStays(run: seq<State>, k: nat, i: nat, r: nat)
    requires Run(run) && k < |run| && forall j | 0 <= j < |run| :: Apart(run[j])
    requires i < |run[k].pcs| && run[k].pcs[i].Granted? && run[k].quota <= LARGEST && IsCapacity(r) && r <= LARGEST
    ensures run[k].pcs[i].size >= 0 && Doubled(r, run[k].pcs[i].size) <= LARGEST < INT_MAX
  {
    hide Run, Apart, Inv, Doubled, IsCapacity;
    SizesWithinQuota(run, k);
    RunInv(run, k);
    ThreadsFit(run[k]);
    assert PcOk(run[k], run[k].pcs[i]);
    DoublingFits(r, run[k].pcs[i].size);
  }

  // ----- the quota -----

  /** The total as it will be once all growths that were granted are done. */
  ghost function Promised(s: State): int {
    s.total + Sum(Over(s.pcs, Outstanding))
  }

  lemma TotalBelowPromised(s: State)
    requires PcsOk(s)
    ensures s.total <= Promised(s)
  {
    assert forall i | 0 <= i < |s.pcs| :: PcOk(s, s.pcs[i]);
    SumNonNegative(Over(s.pcs, Outstanding));
  }

  /** Only a grant raises what is promised. */
  lemma PromisedStep(s: State, i: nat, a: Action)
    requires Enabled(s, i, a) && PcsOk(s)
    ensures a.Grant? ==> Promised(Apply(s, i, a)) == Promised(s) + (a.size - s.sizes[s.pcs[i].f])
    ensures !a.Grant? ==> Promised(Apply(s, i, a)) <= Promised(s)
    ensures a.SetSize? || a.Raise? ==> Promised(Apply(s, i, a)) == Promised(s)
  {
    hide Sum, Over;
    assert PcOk(s, s.pcs[i]);
    if !a.Create? { OverUpdate(s.pcs, Outstanding, i, Apply(s, i, a).pcs[i]); }
  }

  ghost predicate Quiet(s: State, s': State) {
    exists i: nat, a: Action :: Enabled(s, i, a) && !a.Grant? && s' == Apply(s, i, a)
  }

  ghost predicate QuietAt(path: seq<State>, k: nat) {
    k + 1 < |path| ==> Quiet(path[k], path[k + 1])
  }

  /** A continuation from `s` in which no growth is granted. */
  ghost predicate QuietFrom(s: State, path: seq<State>) {
    |path| > 0 && path[0] == s && forall k: nat :: QuietAt(path, k)
  }

  lemma QuietNext(s: State, s': State)
    requires Inv(s) && Quiet(s, s')
    ensures Inv(s') && Promised(s') <= Promised(s) && s'.quota == s.quota
  {
    hide Apply, Promised, Accounted, MutexOk, FilesOk;
    var i: nat, a: Action :| Enabled(s, i, a) && !a.Grant? && s' == Apply(s, i, a);
    PromisedStep(s, i, a);
    SameQuota(s, i, a);
    assert Next(s, s') by { assert Enabled(s, i, a); }
    NextInv(s, s');
  }

  lemma SameQuota(s: State, i: nat, a: Action)
    requires Enabled(s, i, a)
    ensures Apply(s, i, a).quota == s.quota
  {
  }

  lemma {:induction false} QuietBounded(s: State, path: seq<State>, k: nat)
    requires Inv(s) && QuietFrom(s, path) && k < |path|
    ensures Inv(path[k]) && Promised(path[k]) <= Promised(s) && path[k].quota == s.quota
  {
    hide Inv, Promised, Quiet;
    if k > 0 {
      QuietBounded(s, path, k - 1);
      assert QuietAt(path, k - 1);
      QuietNext(path[k - 1], path[k]);
    }
  }

  /** Threads whose growth is granted and not finished. */
  predicate Growing(pc: Pc) {
    pc.Granted? || pc.Grown?
  }

  lemma FinishStep(s: State, i: nat) returns (s': State)
    requires Inv(s) && i < |s.pcs| && Growing(s.pcs[i])
    ensures Quiet(s, s') && Inv(s') && Promised(s') == Promised(s)
    ensures |s'.pcs| == |s.pcs| && forall j | 0 <= j < |s.pcs| && j != i :: s'.pcs[j] == s.pcs[j]
    ensures if s.pcs[i].Granted? then s'.pcs[i].Grown? else s'.pcs[i].Locked?
  {
    assert PcOk(s, s.pcs[i]);
    var a := if s.pcs[i].Granted? then SetSize else Raise;
    assert |s.removed| == |s.sizes|;
    assert Enabled(s, i, a);
    s' := Apply(s, i, a);
    PromisedStep(s, i, a);
    hide Inv, Promised, Apply;
    QuietNext(s, s');
  }

  lemma JoinPaths(s: State, p: seq<State>, q: seq<State>)
    requires QuietFrom(s, p) && QuietFrom(p[|p| - 1], q)
    ensures QuietFrom(s, p + q[1..])
    ensures (p + q[1..])[|p + q[1..]| - 1] == q[|q| - 1]
  {
    hide Quiet;
    var r := p + q[1..];
    forall k: nat ensures QuietAt(r, k) {
      if k + 1 < |p| {
        assert QuietAt(p, k);
      } else if k + 1 < |r| {
        assert QuietAt(q, k + 1 - |p|);
      }
    }
  }

  /** The threads from `i` on finish their growths, one after the other. */
  lemma {:induction false} FinishFrom(s: State, i: nat) returns (path: seq<State>)
    requires Inv(s) && i <= |s.pcs| && forall j | 0 <= j < i :: !Growing(s.pcs[j])
    ensures QuietFrom(s, path) && path[|path| - 1].total == Promised(s)
    decreases |s.pcs| - i, if i < |s.pcs| && s.pcs[i].Granted? then 2 else if i < |s.pcs| && s.pcs[i].Grown? then 1 else 0
  {
    hide Inv, Quiet, Promised;
    if i == |s.pcs| {
      path := [s];
      AllFinished(s);
    } else if Growing(s.pcs[i]) {
      var s' := FinishStep(s, i);
      var rest := FinishFrom(s', i);
      assert QuietFrom(s, [s, s']) by {
        forall k: nat ensures QuietAt([s, s'], k) {}
      }
      JoinPaths(s, [s, s'], rest);
      path := [s, s'] + rest[1..];
    } else {
      path := FinishFrom(s, i + 1);
    }
  }

  lemma AllFinished(s: State)
    requires forall j | 0 <= j < |s.pcs| :: !Growing(s.pcs[j])
    ensures s.total == Promised(s)
  {
    SumZero(Over(s.pcs, Outstanding));
  }

  /** Exactly when the quota is safe: without further grants the total can never exceed the quota if and only if the total
      together with all growths that were granted, and are not done, is within it. */
  lemma QuotaSafeExactly(run: seq<State>, k: nat)
    requires Run(run) && k < |run|
    ensures Promised(run[k]) <= run[k].quota <==>
      forall path: seq<State> | QuietFrom(run[k], path) :: path[|path| - 1].total <= run[k].quota
  {
    hide Inv, Run, Promised, QuietAt;
    var s := run[k];
    RunInv(run, k);
    forall path: seq<State> | Promised(s) <= s.quota && QuietFrom(s, path) ensures path[|path| - 1].total <= s.quota {
      QuietBounded(s, path, |path| - 1);
      BelowPromised(path[|path| - 1]);
    }
    var finish := FinishFrom(s, 0);
  }

  lemma BelowPromised(s: State)
    requires Inv(s)
    ensures s.total <= Promised(s)
  {
    TotalBelowPromised(s);
  }

  ghost predicate OneGrows(s: State) {
    forall i, j | 0 <= i < |s.pcs| && 0 <= j < |s.pcs| && Growing(s.pcs[i]) && Growing(s.pcs[j]) :: i == j
  }

  /** A grant that finds nobody growing promises no more than the quota. */
  lemma LoneGrant(s: State, i: nat, a: Action)
    requires Enabled(s, i, a) && a.Grant? && OneGrows(Apply(s, i, a))
    ensures Promised(Apply(s, i, a)) <= s.quota
  {
    var s' := Apply(s, i, a);
    hide Sum;
    assert Growing(s'.pcs[i]);
    forall j | 0 <= j < |s.pcs| ensures !Growing(s.pcs[j]) {
      assert j != i ==> s'.pcs[j] == s.pcs[j];
    }
    AllFinished(s);
    OverUpdate(s.pcs, Outstanding, i, s'.pcs[i]);
  }

  /** Where no two growths overlap the quota holds; shrinking and removing may overlap with anything. */
  lemma {:induction false} QuotaWithoutOverlap(run: seq<State>, k: nat)
    requires Run(run) && k < |run| && forall j | 0 <= j < |run| :: OneGrows(run[j])
    ensures run[k].total <= Promised(run[k]) <= run[k].quota
  {
    hide Inv, OneGrows, Apply, Enabled, Promised;
    RunInv(run, k);
    if k == 0 {
      assert Init(run[0]);
      AllFinished(run[0]);
    } else {
      QuotaWithoutOverlap(run, k - 1);
      RunInv(run, k - 1);
      assert StepAt(run, k - 1);
      var s := run[k - 1];
      var i: nat, a: Action :| Enabled(s, i, a) && run[k] == Apply(s, i, a);
      ThreadsFit(s);
      PromisedStep(s, i, a);
      SameQuota(s, i, a);
      if a.Grant? { LoneGrant(s, i, a); }
      BelowPromised(run[k]);
    }
  }
}
