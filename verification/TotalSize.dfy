/** The total size of all files when operations do overlap: every file has a mutex, the total is changed by atomic
    additions, and the quota is checked some time before the total is raised.

    Files are numbered from 0.  A step is one atomic operation on the total, one operation on the file table, or what
    happens between two of them under the mutex of a file; a removal reads the size of the file without that mutex, and an
    open with `O_TRUNC` sets it to 0 and leaves the total alone. */
module TotalSize {
  import opened FileNodes

  datatype Pc =
    | Idle
    | Pinned(f: nat)                         // the file was found in the table
    | Locked(f: nat)                         // its mutex is held
    | Granted(f: nat, size: int, diff: int)  // growing: the quota check has passed
    | Grown(f: nat, diff: int)               // the size is set, the total not yet raised
    | Lowered(f: nat, size: int, diff: int)  // shrinking: the total is lowered, the size not yet set
    | Leaving(f: nat)                        // removing: the file is out of the table
    | Subtracting(f: nat, size: int)         // its size is read, the total not yet lowered

  datatype State = State(
    quota: int,
    sizes: seq<int>,        // of all files ever created
    removed: seq<int>,      // what a removal took from the total
    dropped: seq<int>,      // what opens with `O_TRUNC` cut off
    counted: seq<int>,      // each file's part of the total
    table: set<nat>,
    total: int,
    pcs: seq<Pc>
  )

  datatype Action =
    | Create | Pin(f: nat) | Lock | Unlock | Grant(size: int) | SetSize | Raise | Lower(size: int) | SetSmaller
    | Empty | TakeOut(f: nat) | ReadSize | Subtract

  /** The mutex of the file is held. */
  predicate Holds(pc: Pc, f: nat) {
    (pc.Locked? || pc.Granted? || pc.Grown? || pc.Lowered?) && pc.f == f
  }

  /** The thread works on the file, or is going to. */
  predicate Uses(pc: Pc, f: nat) {
    Holds(pc, f) || pc == Pinned(f)
  }

  predicate Takes(pc: Pc, f: nat) {
    (pc.Leaving? || pc.Subtracting?) && pc.f == f
  }

  ghost predicate Enabled(s: State, i: nat, a: Action) {
    && i < |s.pcs| && |s.removed| == |s.dropped| == |s.counted| == |s.sizes|
    && var pc := s.pcs[i];
       match a
       case Create => pc.Idle?
       case Pin(f) => pc.Idle? && f in s.table
       case Lock => pc.Pinned? && forall j | 0 <= j < |s.pcs| :: !Holds(s.pcs[j], pc.f)
       case Unlock => pc.Locked?
       case Grant(n) => pc.Locked? && pc.f < |s.sizes| && n > s.sizes[pc.f] && s.total + (n - s.sizes[pc.f]) <= s.quota
       case SetSize => pc.Granted? && pc.f < |s.sizes|
       case Raise => pc.Grown? && pc.f < |s.counted|
       case Lower(n) => pc.Locked? && pc.f < |s.sizes| && 0 <= n < s.sizes[pc.f]
       case SetSmaller => pc.Lowered? && pc.f < |s.sizes|
       case Empty => pc.Locked? && pc.f < |s.sizes|
       case TakeOut(f) => pc.Idle? && f in s.table
       case ReadSize => pc.Leaving? && pc.f < |s.sizes|
       case Subtract => pc.Subtracting? && pc.f < |s.removed|
  }

  ghost function Apply(s: State, i: nat, a: Action): State
    requires Enabled(s, i, a)
  {
    var pc := s.pcs[i];
    match a
    case Create =>
      s.(sizes := s.sizes + [0], removed := s.removed + [0], dropped := s.dropped + [0], counted := s.counted + [0],
         table := s.table + {|s.sizes|})
    case Pin(f) => s.(pcs := s.pcs[i := Pinned(f)])
    case Lock => s.(pcs := s.pcs[i := Locked(pc.f)])
    case Unlock => s.(pcs := s.pcs[i := Idle])
    case Grant(n) => s.(pcs := s.pcs[i := Granted(pc.f, n, n - s.sizes[pc.f])])
    case SetSize => s.(sizes := s.sizes[pc.f := pc.size], pcs := s.pcs[i := Grown(pc.f, pc.diff)])
    case Raise =>
      s.(total := s.total + pc.diff, counted := s.counted[pc.f := s.counted[pc.f] + pc.diff], pcs := s.pcs[i := Locked(pc.f)])
    case Lower(n) =>
      var d := s.sizes[pc.f] - n;
      s.(total := s.total - d, counted := s.counted[pc.f := s.counted[pc.f] - d], pcs := s.pcs[i := Lowered(pc.f, n, d)])
    case SetSmaller => s.(sizes := s.sizes[pc.f := pc.size], pcs := s.pcs[i := Locked(pc.f)])
    case Empty => s.(sizes := s.sizes[pc.f := 0], dropped := s.dropped[pc.f := s.dropped[pc.f] + s.sizes[pc.f]])
    case TakeOut(f) => s.(table := s.table - {f}, pcs := s.pcs[i := Leaving(f)])
    case ReadSize => s.(pcs := s.pcs[i := Subtracting(pc.f, s.sizes[pc.f])])
    case Subtract =>
      s.(removed := s.removed[pc.f := s.removed[pc.f] + pc.size], counted := s.counted[pc.f := s.counted[pc.f] - pc.size],
         total := s.total - pc.size, pcs := s.pcs[i := Idle])
  }

  ghost predicate Next(s: State, s': State) {
    exists i: nat, a: Action :: Enabled(s, i, a) && s' == Apply(s, i, a)
  }

  ghost predicate Init(s: State) {
    s.sizes == [] && s.removed == [] && s.dropped == [] && s.counted == [] && s.table == {} && s.total == 0 <= s.quota
    && forall i | 0 <= i < |s.pcs| :: s.pcs[i] == Idle
  }

  ghost predicate StepAt(run: seq<State>, k: nat) {
    k + 1 < |run| ==> Next(run[k], run[k + 1])
  }

  ghost predicate Run(run: seq<State>) {
    |run| > 0 && Init(run[0]) && forall k: nat :: StepAt(run, k)
  }

  // ----- sums over threads -----

  /** How much the total lags behind a thread's file. */
  function Debt(pc: Pc): int {
    match pc
    case Grown(_, d) => d
    case Lowered(_, _, d) => d
    case _ => 0
  }

  /** How much a thread is going to add to the total. */
  function Outstanding(pc: Pc): int {
    match pc
    case Granted(_, _, d) => d
    case Grown(_, d) => d
    case _ => 0
  }

  function Over(pcs: seq<Pc>, amount: Pc -> int): (d: seq<int>)
    ensures |d| == |pcs| && forall i :: 0 <= i < |d| ==> d[i] == amount(pcs[i])
  {
    seq(|pcs|, i requires 0 <= i < |pcs| => amount(pcs[i]))
  }

  lemma OverUpdate(pcs: seq<Pc>, amount: Pc -> int, i: nat, pc: Pc)
    requires i < |pcs|
    ensures Sum(Over(pcs[i := pc], amount)) == Sum(Over(pcs, amount)) - amount(pcs[i]) + amount(pc)
  {
    SumUpdate(Over(pcs, amount), i, amount(pc));
    assert Over(pcs[i := pc], amount) == Over(pcs, amount)[i := amount(pc)];
  }

  lemma SumAppend(s: seq<int>, v: int)
    ensures Sum(s + [v]) == Sum(s) + v
  {
    assert (s + [v])[..|s|] == s;
  }

  lemma {:induction false} SumZero(d: seq<int>)
    requires forall i | 0 <= i < |d| :: d[i] == 0
    ensures Sum(d) == 0
  {
    if d != [] { SumZero(d[..|d| - 1]); }
  }

  // ----- the invariant -----

  /** A file is counted with its size, less what a removal took, with what was cut off, and less what the thread that holds
      its mutex has still to account for. */
  ghost predicate FileCounted(s: State, f: nat)
    requires f < |s.sizes| && |s.removed| == |s.dropped| == |s.counted| == |s.sizes|
  {
    && (forall i | 0 <= i < |s.pcs| && Holds(s.pcs[i], f) :: s.counted[f] == Whole(s, f) - Debt(s.pcs[i]))
    && ((forall i | 0 <= i < |s.pcs| :: !Holds(s.pcs[i], f)) ==> s.counted[f] == Whole(s, f))
  }

  function Whole(s: State, f: nat): int
    requires f < |s.sizes| && |s.removed| == |s.dropped| == |s.sizes|
  {
    s.sizes[f] - s.removed[f] + s.dropped[f]
  }

  /** The total is the sum of what the files are counted with. */
  ghost predicate Accounted(s: State) {
    && |s.removed| == |s.dropped| == |s.counted| == |s.sizes|
    && s.total == Sum(s.counted)
    && forall f: nat | f < |s.sizes| :: FileCounted(s, f)
  }

  ghost predicate MutexOk(s: State) {
    forall i, j, f | 0 <= i < |s.pcs| && 0 <= j < |s.pcs| && Holds(s.pcs[i], f) && Holds(s.pcs[j], f) :: i == j
  }

  predicate PcOk(s: State, pc: Pc) {
    && (!pc.Idle? ==> pc.f < |s.sizes|)
    && (pc.Granted? ==> pc.size >= 0 && pc.diff == pc.size - s.sizes[pc.f] > 0)
    && (pc.Grown? ==> 0 < pc.diff <= s.sizes[pc.f])
    && (pc.Lowered? ==> pc.size >= 0 && pc.diff == s.sizes[pc.f] - pc.size > 0)
    && (pc.Subtracting? ==> pc.size >= 0)
    && (pc.Leaving? || pc.Subtracting? ==> pc.f !in s.table)
  }

  ghost predicate PcsOk(s: State) {
    forall i | 0 <= i < |s.pcs| :: PcOk(s, s.pcs[i])
  }

  /** Files in the table have nothing taken from the total yet. */
  ghost predicate FilesOk(s: State) {
    && (forall f | 0 <= f < |s.sizes| :: s.sizes[f] >= 0)
    && (forall f | 0 <= f < |s.dropped| :: s.dropped[f] >= 0)
    && (forall f | f in s.table :: f < |s.sizes| && f < |s.removed| && s.removed[f] == 0)
  }

  ghost predicate Inv(s: State) {
    Accounted(s) && MutexOk(s) && PcsOk(s) && FilesOk(s)
  }

  lemma InitInv(s: State)
    requires Init(s)
    ensures Inv(s)
  {
  }

  lemma CountedStep(s: State, i: nat, a: Action)
    requires Enabled(s, i, a) && s.total == Sum(s.counted) && PcOk(s, s.pcs[i])
    ensures Apply(s, i, a).total == Sum(Apply(s, i, a).counted)
  {
    hide Sum;
    var s' := Apply(s, i, a);
    if a.Create? {
      SumAppend(s.counted, 0);
    } else if a.Raise? || a.Lower? || a.Subtract? {
      SumUpdate(s.counted, s.pcs[i].f, s'.counted[s.pcs[i].f]);
    }
  }

  /** A file that the acting thread does not hold, before or after. */
  lemma OtherCounted(s: State, i: nat, a: Action, f: nat)
    requires Enabled(s, i, a) && PcOk(s, s.pcs[i]) && f < |s.sizes| && FileCounted(s, f)
    requires !Holds(s.pcs[i], f) && !Holds(Apply(s, i, a).pcs[i], f)
    ensures FileCounted(Apply(s, i, a), f)
  {
    var s' := Apply(s, i, a);
    assert s'.counted[f] - Whole(s', f) == s.counted[f] - Whole(s, f);
    assert forall j | 0 <= j < |s.pcs| && j != i :: s'.pcs[j] == s.pcs[j];
  }

  lemma HeldCounted(s: State, i: nat, a: Action, f: nat)
    requires Enabled(s, i, a) && MutexOk(s) && PcOk(s, s.pcs[i]) && f < |s.sizes| && FileCounted(s, f)
    requires Holds(s.pcs[i], f) || Holds(Apply(s, i, a).pcs[i], f)
    ensures FileCounted(Apply(s, i, a), f)
  {
    var s' := Apply(s, i, a);
    var pc, pc' := s.pcs[i], s'.pcs[i];
    forall j | 0 <= j < |s.pcs| && j != i ensures !Holds(s'.pcs[j], f) {
      assert s'.pcs[j] == s.pcs[j];
    }
    assert s.counted[f] == Whole(s, f) - (if Holds(pc, f) then Debt(pc) else 0);
    assert s'.counted[f] == Whole(s', f) - (if Holds(pc', f) then Debt(pc') else 0);
  }

  lemma AccountedStep(s: State, i: nat, a: Action)
    requires Accounted(s) && MutexOk(s) && PcsOk(s) && Enabled(s, i, a)
    ensures Accounted(Apply(s, i, a))
  {
    assert PcOk(s, s.pcs[i]);
    CountedStep(s, i, a);
    NewCounted(s, i, a);
    var s' := Apply(s, i, a);
    assert |s'.removed| == |s'.dropped| == |s'.counted| == |s'.sizes|;
    hide Sum, Apply, Enabled, FileCounted, Holds, MutexOk, PcsOk;
    forall f: nat | f < |s'.sizes| ensures FileCounted(s', f) {
      if f < |s.sizes| {
        if Holds(s.pcs[i], f) || Holds(s'.pcs[i], f) { HeldCounted(s, i, a, f); } else { OtherCounted(s, i, a, f); }
      }
    }
  }

  lemma NewCounted(s: State, i: nat, a: Action)
    requires Accounted(s) && Enabled(s, i, a) && PcsOk(s)
    ensures
      var s' := Apply(s, i, a);
      && i < |s'.pcs| && |s'.removed| == |s'.dropped| == |s'.counted| == |s'.sizes|
      && (forall f: nat | |s.sizes| <= f < |s'.sizes| :: FileCounted(s', f))
  {
    hide Sum;
    var s' := Apply(s, i, a);
    forall f: nat, j | |s.sizes| <= f < |s'.sizes| && 0 <= j < |s'.pcs| ensures !Holds(s'.pcs[j], f) {
      assert PcOk(s, s.pcs[j]);
    }
  }

  lemma MutexStep(s: State, i: nat, a: Action)
    requires MutexOk(s) && Enabled(s, i, a)
    ensures MutexOk(Apply(s, i, a))
  {
  }

  /** The acting thread, and any other. */
  lemma ActorOk(s: State, i: nat, a: Action)
    requires FilesOk(s) && Enabled(s, i, a) && PcOk(s, s.pcs[i])
    ensures PcOk(Apply(s, i, a), Apply(s, i, a).pcs[i])
  {
  }

  lemma OtherOk(s: State, i: nat, a: Action, j: nat)
    requires MutexOk(s) && Enabled(s, i, a) && j < |s.pcs| && j != i && PcOk(s, s.pcs[i]) && PcOk(s, s.pcs[j])
    ensures PcOk(Apply(s, i, a), s.pcs[j])
  {
    if !s.pcs[j].Idle? && !s.pcs[i].Idle? && Holds(s.pcs[j], s.pcs[j].f) {
      assert Holds(s.pcs[i], s.pcs[i].f) ==> s.pcs[i].f != s.pcs[j].f;
    }
  }

  lemma PcsStep(s: State, i: nat, a: Action)
    requires MutexOk(s) && PcsOk(s) && FilesOk(s) && Enabled(s, i, a)
    ensures PcsOk(Apply(s, i, a))
  {
    assert PcOk(s, s.pcs[i]);
    ActorOk(s, i, a);
    var s' := Apply(s, i, a);
    assert |s'.pcs| == |s.pcs| && forall j | 0 <= j < |s.pcs| && j != i :: s'.pcs[j] == s.pcs[j];
    hide PcOk, Apply, Enabled, MutexOk, FilesOk;
    forall j | 0 <= j < |s'.pcs| && j != i ensures PcOk(s', s'.pcs[j]) {
      OtherOk(s, i, a, j);
    }
  }

  lemma FilesStep(s: State, i: nat, a: Action)
    requires Enabled(s, i, a) && PcOk(s, s.pcs[i]) && FilesOk(s)
    ensures FilesOk(Apply(s, i, a))
  {
  }

  lemma NextInv(s: State, s': State)
    requires Inv(s) && Next(s, s')
    ensures Inv(s')
  {
    hide Apply;
    var i: nat, a: Action :| Enabled(s, i, a) && s' == Apply(s, i, a);
    AccountedStep(s, i, a);
    assert PcOk(s, s.pcs[i]);
    MutexStep(s, i, a);
    PcsStep(s, i, a);
    FilesStep(s, i, a);
  }

  lemma {:induction false} RunInv(run: seq<State>, k: nat)
    requires Run(run) && k < |run|
    ensures Inv(run[k])
  {
    hide Inv, Init, Next;
    if k == 0 {
      InitInv(run[0]);
    } else {
      RunInv(run, k - 1);
      assert StepAt(run, k - 1);
      NextInv(run[k - 1], run[k]);
    }
  }
}
