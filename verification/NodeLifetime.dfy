/** Who may free a file node: lookups, creations, puts and removals by any number of threads, interleaved at the level of
    single atomic operations and lock operations on the file table.

    What a caller does with a file it holds does not matter here, so a holder may give its count back, drop the
    pointer without doing so (the early return of the removal), or go on to the removal at any time: the values of the
    link and open counters that the removal reads are arbitrary. */
module NodeLifetime {

  type Fnode = nat

  datatype Pc =
    | Idle
      // file_nodes_get_node, under the read lock
    | Reading(f: Fnode) | Spotted(f: Fnode) | Counted(f: Fnode) | Missed
      // outside the locks, with a counted pointer
    | Using(f: Fnode)
      // file_nodes_maybe_remove: counters read, then under the write lock
    | Checked(f: Fnode) | Writing(f: Fnode) | Missing(f: Fnode) | Out(f: Fnode) | Last(f: Fnode) | Spare(f: Fnode) | Done
      // file_nodes_create_node, under the write lock; `Stuck` has returned at the quota without unlocking
    | Making | Made(f: Fnode) | Stuck

  datatype State = State(
    refs: map<Fnode, int>,     // allocated nodes with their reference counters
    table: set<Fnode>,
    serial: Fnode,
    kept: multiset<Fnode>,     // the node of each early return that did not give its count back
    pcs: seq<Pc>
  )

  datatype Action =
    | BeginRead(f: Fnode) | Spot | Miss | CountUp | EndRead | EndMiss
    | Put | Keep | Check | Lock | Lookup | DropMissing | Drop | Free | Reclaim | Unlock
    | LockCreate | Create | Refuse | UnlockCreate

  predicate InRead(pc: Pc) {
    pc.Reading? || pc.Spotted? || pc.Counted? || pc.Missed?
  }

  predicate InWrite(pc: Pc) {
    pc.Writing? || pc.Missing? || pc.Out? || pc.Last? || pc.Spare? || pc.Done? || pc.Making? || pc.Made? || pc.Stuck?
  }

  /** The lock is granted to a reader while there is no writer, and to a writer while there is nobody. */
  ghost predicate NoWriter(pcs: seq<Pc>) {
    forall j | 0 <= j < |pcs| :: !InWrite(pcs[j])
  }

  ghost predicate NoReader(pcs: seq<Pc>) {
    forall j | 0 <= j < |pcs| :: !InRead(pcs[j])
  }

  /** A counted pointer. */
  predicate HasCount(pc: Pc) {
    pc.Counted? || pc.Using? || pc.Checked? || pc.Writing? || pc.Missing? || pc.Out? || pc.Made?
  }

  /** Any pointer that may still be used. */
  predicate HasPointer(pc: Pc) {
    HasCount(pc) || pc.Spotted? || pc.Last? || pc.Spare?
  }

  predicate Holds(pc: Pc, f: Fnode) {
    HasCount(pc) && pc.f == f
  }

  predicate Points(pc: Pc, f: Fnode) {
    HasPointer(pc) && pc.f == f
  }

  ghost predicate Enabled(s: State, i: nat, a: Action) {
    && i < |s.pcs|
    && var pc := s.pcs[i];
       match a
       case BeginRead(_) => pc.Idle? && NoWriter(s.pcs)
       case Spot => pc.Reading? && pc.f in s.table
       case Miss => pc.Reading? && pc.f !in s.table
       case CountUp => pc.Spotted? && pc.f in s.refs
       case EndRead => pc.Counted?
       case EndMiss => pc.Missed?
       case Put => pc.Using? && pc.f in s.refs
       case Keep => pc.Using?
       case Check => pc.Using? && pc.f in s.refs
       case Lock => pc.Checked? && NoWriter(s.pcs) && NoReader(s.pcs)
       case Lookup => pc.Writing? && pc.f in s.refs
       case DropMissing => pc.Missing? && pc.f in s.refs
       case Drop => pc.Out? && pc.f in s.refs
       case Free => pc.Last? && pc.f in s.refs
       case Reclaim => pc.Spare? && pc.f in s.refs
       case Unlock => pc.Done?
       case LockCreate => pc.Idle? && NoWriter(s.pcs) && NoReader(s.pcs)
       case Create => pc.Making?
       case Refuse => pc.Making?
       case UnlockCreate => pc.Made?
  }

  /** Where the acting thread stands afterwards. */
  function PcAfter(s: State, pc: Pc, a: Action): Pc {
    match a
    case BeginRead(f) => Reading(f)
    case Spot => if pc.Reading? then Spotted(pc.f) else Idle
    case Miss => Missed
    case CountUp => if pc.Spotted? then Counted(pc.f) else Idle
    case EndRead => if pc.Counted? then Using(pc.f) else Idle
    case Check => if pc.Using? then Checked(pc.f) else Idle
    case Lock => if pc.Checked? then Writing(pc.f) else Idle
    case Lookup => if pc.Writing? then (if pc.f in s.table then Out(pc.f) else Missing(pc.f)) else Idle
    case DropMissing => Done
    case Drop => if pc.Out? then (if pc.f in s.refs && s.refs[pc.f] <= 1 then Last(pc.f) else Spare(pc.f)) else Idle
    case Free => Done
    case Reclaim => Done
    case LockCreate => Making
    case Create => Made(s.serial)
    case Refuse => Stuck
    case UnlockCreate => if pc.Made? then Using(pc.f) else Idle
    case _ => Idle
  }

  function RefsAfter(s: State, pc: Pc, a: Action): map<Fnode, int> {
    if a.Create? then s.refs[s.serial := 1]
    else if HasPointer(pc) && pc.f in s.refs then
      if a.CountUp? then s.refs[pc.f := s.refs[pc.f] + 1]
      else if a.Put? || a.DropMissing? || a.Drop? then s.refs[pc.f := s.refs[pc.f] - 1]
      else if a.Free? then s.refs - {pc.f}
      else s.refs
    else s.refs
  }

  function TableAfter(s: State, pc: Pc, a: Action): set<Fnode> {
    if a.Create? then s.table + {s.serial} else if a.Lookup? && pc.Writing? then s.table - {pc.f} else s.table
  }

  function KeptAfter(s: State, pc: Pc, a: Action): multiset<Fnode> {
    if a.Keep? && pc.Using? then s.kept + multiset{pc.f} else s.kept
  }

  ghost function Apply(s: State, i: nat, a: Action): State
    requires Enabled(s, i, a)
  {
    var pc := s.pcs[i];
    State(RefsAfter(s, pc, a), TableAfter(s, pc, a), if a.Create? then s.serial + 1 else s.serial, KeptAfter(s, pc, a),
          s.pcs[i := PcAfter(s, pc, a)])
  }

  ghost predicate Next(s: State, s': State) {
    exists i: nat, a: Action :: Enabled(s, i, a) && s' == Apply(s, i, a)
  }

  ghost predicate Init(s: State) {
    s.refs == map[] && s.table == {} && s.serial == 1 && s.kept == multiset{} && forall i | 0 <= i < |s.pcs| :: s.pcs[i] == Idle
  }

  ghost predicate StepAt(run: seq<State>, k: nat) {
    k + 1 < |run| ==> Next(run[k], run[k + 1])
  }

  ghost predicate Run(run: seq<State>) {
    |run| > 0 && Init(run[0]) && forall k: nat :: StepAt(run, k)
  }

  // ----- counting -----

  function Holders(pcs: seq<Pc>, f: Fnode): nat {
    if pcs == [] then 0 else Holders(pcs[..|pcs| - 1], f) + if Holds(pcs[|pcs| - 1], f) then 1 else 0
  }

  lemma {:induction false} HoldersUpdate(pcs: seq<Pc>, f: Fnode, i: nat, pc: Pc)
    requires i < |pcs|
    ensures Holders(pcs[i := pc], f) == Holders(pcs, f) - (if Holds(pcs[i], f) then 1 else 0) + (if Holds(pc, f) then 1 else 0)
  {
    var n := |pcs| - 1;
    if i == n {
      assert pcs[i := pc][..n] == pcs[..n];
    } else {
      assert pcs[i := pc][..n] == pcs[..n][i := pc];
      HoldersUpdate(pcs[..n], f, i, pc);
    }
  }

  /** Two threads that hold the same node count as two. */
  lemma {:induction false} TwoHolders(pcs: seq<Pc>, f: Fnode, i: nat, j: nat)
    requires i < j < |pcs| && Holds(pcs[i], f) && Holds(pcs[j], f)
    ensures Holders(pcs, f) >= 2
  {
    var n := |pcs| - 1;
    if j < n { TwoHolders(pcs[..n], f, i, j); } else { OneHolder(pcs[..n], f, i); }
  }

  lemma {:induction false} OneHolder(pcs: seq<Pc>, f: Fnode, i: nat)
    requires i < |pcs| && Holds(pcs[i], f)
    ensures Holders(pcs, f) >= 1
  {
    var n := |pcs| - 1;
    if i < n { OneHolder(pcs[..n], f, i); }
  }

  lemma {:induction false} NoHolders(pcs: seq<Pc>, f: Fnode)
    requires forall i | 0 <= i < |pcs| :: !Holds(pcs[i], f)
    ensures Holders(pcs, f) == 0
  {
    if pcs != [] { NoHolders(pcs[..|pcs| - 1], f); }
  }

  // ----- the invariant -----

  ghost predicate LockOk(pcs: seq<Pc>) {
    forall i, j | 0 <= i < |pcs| && 0 <= j < |pcs| && InWrite(pcs[i]) && (InWrite(pcs[j]) || InRead(pcs[j])) :: i == j
  }

  /** The reference counter is the number of threads with a counted pointer, plus the number of early returns that kept
      their count. */
  ghost predicate CountersExact(s: State) {
    forall f | f in s.refs :: s.refs[f] == Holders(s.pcs, f) + s.kept[f]
  }

  ghost predicate TableOk(s: State) {
    && (forall f | f in s.table :: f in s.refs)
    && (forall f | f in s.refs :: f < s.serial)
    && (forall f | f in s.kept :: f < s.serial)
  }

  /** What one thread's place says about the nodes. */
  predicate PcOk(s: State, pc: Pc) {
    && (HasPointer(pc) ==> pc.f in s.refs)
    && (pc.Spotted? ==> pc.f in s.table)
    && (pc.Missing? || pc.Out? || pc.Last? || pc.Spare? ==> pc.f !in s.table)
  }

  ghost predicate PcsOk(s: State) {
    forall i | 0 <= i < |s.pcs| :: PcOk(s, s.pcs[i])
  }

  /** The thread that is about to free a node is the only one with a pointer to it. */
  ghost predicate LastIsAlone(pcs: seq<Pc>) {
    forall i, j | 0 <= i < |pcs| && 0 <= j < |pcs| && pcs[i].Last? && Points(pcs[j], pcs[i].f) :: i == j
  }

  ghost predicate Inv(s: State) {
    LockOk(s.pcs) && CountersExact(s) && TableOk(s) && PcsOk(s) && LastIsAlone(s.pcs)
  }

  lemma InitInv(s: State)
    requires Init(s)
    ensures Inv(s)
  {
  }

  // ----- what a step does -----

  /** Only the acting thread moves; it enters a lock only when that is free for it. */
  ghost predicate ThreadMoves(s: State, s': State, i: nat, pc: Pc, pc': Pc) {
    && i < |s.pcs| && s.pcs[i] == pc && s'.pcs == s.pcs[i := pc']
    && (InWrite(pc') ==> InWrite(pc) || (NoWriter(s.pcs) && NoReader(s.pcs)))
    && (InRead(pc') ==> InRead(pc) || NoWriter(s.pcs))
  }

  /** Nodes appear by creation and disappear when the last holder frees them; a counter follows its holders, unless one
      keeps its count. */
  ghost predicate NodesMove(s: State, s': State, pc: Pc, pc': Pc) {
    && (forall f | f in s.refs && f in s'.refs ::
          s'.refs[f] - s'.kept[f] == s.refs[f] - s.kept[f] + (if Holds(pc', f) then 1 else 0) - (if Holds(pc, f) then 1 else 0))
    && (forall f | f in s'.kept && f !in s.kept :: Holds(pc, f))
    && (s'.serial != s.serial ==> s'.kept == s.kept)
    && (forall f | f in s'.refs && f !in s.refs :: f == s.serial && s'.refs[f] == 1 && s'.serial == s.serial + 1 && pc' == Made(f))
    && (forall f | f in s.refs && f !in s'.refs :: pc == Last(f) && pc' == Done)
    && s.serial <= s'.serial
  }

  /** The table gains what is created, under the write lock, and loses what is taken out, under the write lock. */
  ghost predicate TableMoves(s: State, s': State, pc: Pc, pc': Pc) {
    && (forall f | f in s'.table && f !in s.table :: f == s.serial && f in s'.refs)
    && (forall f | f in s.table && f !in s'.table :: pc == Writing(f) && pc' == Out(f))
  }

  /** A pointer comes from the table, from creation or from before. */
  predicate PointerFrom(s: State, pc: Pc, pc': Pc) {
    HasPointer(pc') ==>
      || (HasPointer(pc) && pc.f == pc'.f)
      || (pc'.Spotted? && pc'.f in s.table)
      || (pc'.Made? && pc'.f == s.serial)
  }

  lemma StepThread(s: State, i: nat, a: Action)
    requires Enabled(s, i, a)
    ensures var s' := Apply(s, i, a);
      i < |s'.pcs| && ThreadMoves(s, s', i, s.pcs[i], s'.pcs[i]) && PointerFrom(s, s.pcs[i], s'.pcs[i])
  {
    hide RefsAfter, TableAfter, KeptAfter;
  }

  lemma StepCounter(s: State, i: nat, a: Action, f: Fnode)
    requires Enabled(s, i, a) && TableOk(s) && f in s.refs && f in Apply(s, i, a).refs
    ensures
      var s' := Apply(s, i, a);
      var pc, pc' := s.pcs[i], s'.pcs[i];
      s'.refs[f] - s'.kept[f] == s.refs[f] - s.kept[f] + (if Holds(pc', f) then 1 else 0) - (if Holds(pc, f) then 1 else 0)
  {
    hide TableAfter;
  }

  lemma StepDomain(s: State, i: nat, a: Action)
    requires Enabled(s, i, a) && TableOk(s)
    ensures
      var s' := Apply(s, i, a);
      var pc, pc' := s.pcs[i], s'.pcs[i];
      && (forall f | f in s'.refs && f !in s.refs :: f == s.serial && s'.refs[f] == 1 && s'.serial == s.serial + 1 && pc' == Made(f))
      && (forall f | f in s.refs && f !in s'.refs :: pc == Last(f) && pc' == Done)
  {
    hide TableAfter, KeptAfter;
  }

  lemma StepNodes(s: State, i: nat, a: Action)
    requires Enabled(s, i, a) && TableOk(s)
    ensures var s' := Apply(s, i, a);
      i < |s'.pcs| && NodesMove(s, s', s.pcs[i], s'.pcs[i])
  {
    hide TableAfter, RefsAfter, PcAfter;
    StepDomain(s, i, a);
    var s' := Apply(s, i, a);
    var pc, pc' := s.pcs[i], s'.pcs[i];
    forall f | f in s.refs && f in s'.refs
      ensures s'.refs[f] - s'.kept[f] == s.refs[f] - s.kept[f] + (if Holds(pc', f) then 1 else 0) - (if Holds(pc, f) then 1 else 0)
    {
      StepCounter(s, i, a, f);
    }
  }

  lemma StepTable(s: State, i: nat, a: Action)
    requires Enabled(s, i, a)
    ensures var s' := Apply(s, i, a);
      i < |s'.pcs| && TableMoves(s, s', s.pcs[i], s'.pcs[i])
  {
    hide KeptAfter;
  }

  /** What the acting thread knows afterwards. */
  lemma StepPc(s: State, i: nat, a: Action)
    requires Enabled(s, i, a) && TableOk(s) && PcOk(s, s.pcs[i])
    ensures PcOk(Apply(s, i, a), Apply(s, i, a).pcs[i])
  {
    hide KeptAfter;
  }

  lemma StepLast(s: State, i: nat, a: Action)
    requires Enabled(s, i, a)
    ensures
      var pc' := Apply(s, i, a).pcs[i];
      pc'.Last? && !s.pcs[i].Last? ==> s.pcs[i] == Out(pc'.f) && pc'.f in s.refs && s.refs[pc'.f] <= 1
  {
    hide RefsAfter, TableAfter, KeptAfter;
  }

  // ----- the invariant is kept -----

  lemma LockStep(s: State, s': State, i: nat, pc: Pc, pc': Pc)
    requires LockOk(s.pcs) && ThreadMoves(s, s', i, pc, pc')
    ensures LockOk(s'.pcs)
  {
  }

  lemma CountersStep(s: State, s': State, i: nat, pc: Pc, pc': Pc)
    requires CountersExact(s) && TableOk(s) && PcsOk(s) && ThreadMoves(s, s', i, pc, pc') && NodesMove(s, s', pc, pc')
    ensures CountersExact(s')
  {
    forall f | f in s'.refs ensures s'.refs[f] == Holders(s'.pcs, f) + s'.kept[f] {
      HoldersUpdate(s.pcs, f, i, pc');
      if f !in s.refs { NoHolders(s.pcs, f); }
    }
  }

  lemma TableStep(s: State, s': State, pc: Pc, pc': Pc)
    requires TableOk(s) && PcOk(s, pc) && NodesMove(s, s', pc, pc') && TableMoves(s, s', pc, pc')
    ensures TableOk(s')
  {
  }

  lemma PcsStep(s: State, s': State, i: nat, pc: Pc, pc': Pc)
    requires LockOk(s.pcs) && TableOk(s) && PcsOk(s) && LastIsAlone(s.pcs) && PcOk(s', pc')
    requires ThreadMoves(s, s', i, pc, pc') && NodesMove(s, s', pc, pc') && TableMoves(s, s', pc, pc')
    ensures PcsOk(s')
  {
    forall j | 0 <= j < |s'.pcs| ensures PcOk(s', s'.pcs[j]) {
      if j != i {
        assert PcOk(s, s.pcs[j]) && s'.pcs[j] == s.pcs[j];
      }
    }
  }

  lemma AloneStep(s: State, s': State, i: nat, pc: Pc, pc': Pc)
    requires Inv(s) && ThreadMoves(s, s', i, pc, pc') && PointerFrom(s, pc, pc')
    requires pc'.Last? && !pc.Last? ==> pc == Out(pc'.f) && pc'.f in s.refs && s.refs[pc'.f] <= 1
    ensures LastIsAlone(s'.pcs)
  {
    forall j, k | 0 <= j < |s'.pcs| && 0 <= k < |s'.pcs| && s'.pcs[j].Last? && Points(s'.pcs[k], s'.pcs[j].f)
      ensures j == k
    {
      if j != k { AloneTogether(s, s', i, pc, pc', j, k); }
    }
  }

  lemma AloneTogether(s: State, s': State, i: nat, pc: Pc, pc': Pc, j: nat, k: nat)
    requires Inv(s) && ThreadMoves(s, s', i, pc, pc') && PointerFrom(s, pc, pc')
    requires pc'.Last? && !pc.Last? ==> pc == Out(pc'.f) && pc'.f in s.refs && s.refs[pc'.f] <= 1
    requires j < |s.pcs| && k < |s.pcs| && j != k && s'.pcs[j].Last?
    ensures !Points(s'.pcs[k], s'.pcs[j].f)
  {
    assert PcOk(s, s.pcs[j]) && PcOk(s, s.pcs[k]);
    if j == i && !pc.Last? && Holds(s.pcs[k], pc'.f) {
      if i < k { TwoHolders(s.pcs, pc'.f, i, k); } else { TwoHolders(s.pcs, pc'.f, k, i); }
    }
  }

  lemma NextInv(s: State, s': State)
    requires Inv(s) && Next(s, s')
    ensures Inv(s')
  {
    hide Apply;
    var i: nat, a: Action :| Enabled(s, i, a) && s' == Apply(s, i, a);
    assert PcOk(s, s.pcs[i]);
    StepThread(s, i, a);
    StepNodes(s, i, a);
    StepTable(s, i, a);
    StepPc(s, i, a);
    StepLast(s, i, a);
    var pc, pc' := s.pcs[i], s'.pcs[i];
    LockStep(s, s', i, pc, pc');
    CountersStep(s, s', i, pc, pc');
    TableStep(s, s', pc, pc');
    PcsStep(s, s', i, pc, pc');
    AloneStep(s, s', i, pc, pc');
  }

  lemma {:induction false} RunInv(run: seq<State>, k: nat)
    requires Run(run) && k < |run|
    ensures Inv(run[k])
  {
    if k == 0 {
      InitInv(run[0]);
    } else {
      RunInv(run, k - 1);
      assert StepAt(run, k - 1);
      NextInv(run[k - 1], run[k]);
    }
  }
}
