/** What holds of file nodes in every interleaving of lookups, creations, puts and removals. */
module NodeSafety {
  import opened NodeLifetime

  /** In every interleaving, every pointer that a thread may still use points to an allocated node. */
  lemma PointersStayValid(run: seq<State>, k: nat)
    requires Run(run) && k < |run|
    ensures forall i, f | 0 <= i < |run[k].pcs| && Points(run[k].pcs[i], f) :: f in run[k].refs
  {
    RunInv(run, k);
    forall i, f | 0 <= i < |run[k].pcs| && Points(run[k].pcs[i], f) ensures f in run[k].refs {
      assert PcOk(run[k], run[k].pcs[i]);
    }
  }

  /** The reference counter of an allocated node is the number of threads that hold a counted pointer to it, plus the number
      of removals of it that returned early: it is right if and only if none did. */
  lemma CountersExactInRun(run: seq<State>, k: nat, f: Fnode)
    requires Run(run) && k < |run| && f in run[k].refs
    ensures run[k].refs[f] == Holders(run[k].pcs, f) + run[k].kept[f]
    ensures run[k].refs[f] == Holders(run[k].pcs, f) <==> f !in run[k].kept
  {
    RunInv(run, k);
  }

  /** A removal that takes a node out of the table frees it if and only if it is the only holder and no removal of the node
      has ever returned early; otherwise the node is put aside and stays allocated. */
  lemma FreedExactly(run: seq<State>, k: nat, i: nat, f: Fnode)
    requires Run(run) && k < |run| && Enabled(run[k], i, Drop) && run[k].pcs[i] == Out(f)
    ensures
      var pc' := Apply(run[k], i, Drop).pcs[i];
      && (pc' == Last(f) <==> Holders(run[k].pcs, f) == 1 && f !in run[k].kept)
      && (pc' != Last(f) ==> pc' == Spare(f))
  {
    RunInv(run, k);
    OneHolder(run[k].pcs, f, i);
  }

  /** Thread 0 creates a node, uses it, and returns early from its removal. */
  function Early(n: nat): State {
    if n <= 1 then State(map[], {}, 1, multiset{}, [if n == 0 then Idle else Making])
    else if n <= 3 then State(map[1 := 1], {1}, 2, multiset{}, [if n == 2 then Made(1) else Using(1)])
    else State(map[1 := 1], {1}, 2, multiset{1}, [Idle])
  }

  lemma EarlyStep(n: nat)
    requires n < 4
    ensures Next(Early(n), Early(n + 1))
  {
    var a := if n == 0 then LockCreate else if n == 1 then Create else if n == 2 then UnlockCreate else Keep;
    assert Enabled(Early(n), 0, a);
    assert Apply(Early(n), 0, a) == Early(n + 1);
  }

  /** There is a run after which nobody holds a node and its reference counter is 1. */
  lemma EarlyReturnCounted() returns (run: seq<State>)
    ensures Run(run) && |run| > 0
    ensures var s := run[|run| - 1]; 1 in s.refs && s.refs[1] == 1 && Holders(s.pcs, 1) == 0
  {
    run := seq(5, n requires 0 <= n < 5 => Early(n));
    assert Init(run[0]) && run[4] == Early(4);
    NoHolders(run[4].pcs, 1);
    forall k: nat ensures StepAt(run, k) {
      hide Next, Early;
      if k < 4 { EarlyStep(k); }
    }
  }

  /** `file_node_free` in the removal runs only when no other thread has any pointer to the node, and the node is no
      longer in the table. */
  lemma FreedUnheld(run: seq<State>, k: nat, i: nat, f: Fnode)
    requires Run(run) && k < |run| && i < |run[k].pcs| && run[k].pcs[i] == Last(f)
    ensures f !in run[k].table && forall j | 0 <= j < |run[k].pcs| && Points(run[k].pcs[j], f) :: j == i
  {
    RunInv(run, k);
    assert PcOk(run[k], run[k].pcs[i]);
  }

  /** A lookup counts a node only while the node is in the table. */
  lemma CountedInTable(run: seq<State>, k: nat, i: nat)
    requires Run(run) && k < |run| && i < |run[k].pcs| && run[k].pcs[i].Spotted?
    ensures run[k].pcs[i].f in run[k].table
  {
    RunInv(run, k);
    assert PcOk(run[k], run[k].pcs[i]);
  }

  /** What thread `i` can do next; `f` is any file number. */
  ghost predicate GoesOn(s: State, i: nat, f: Fnode)
    requires i < |s.pcs|
  {
    match s.pcs[i]
    case Idle =>
      && (Enabled(s, i, BeginRead(f)) <==> NoWriter(s.pcs))
      && (Enabled(s, i, LockCreate) <==> NoWriter(s.pcs) && NoReader(s.pcs))
    case Reading(g) => (Enabled(s, i, Spot) <==> g in s.table) && (Enabled(s, i, Miss) <==> g !in s.table)
    case Spotted(_) => Enabled(s, i, CountUp)
    case Counted(_) => Enabled(s, i, EndRead)
    case Missed => Enabled(s, i, EndMiss)
    case Using(_) => Enabled(s, i, Put) && Enabled(s, i, Keep) && Enabled(s, i, Check)
    case Checked(_) => Enabled(s, i, Lock) <==> NoWriter(s.pcs) && NoReader(s.pcs)
    case Writing(_) => Enabled(s, i, Lookup)
    case Missing(_) => Enabled(s, i, DropMissing)
    case Out(_) => Enabled(s, i, Drop)
    case Last(_) => Enabled(s, i, Free)
    case Spare(_) => Enabled(s, i, Reclaim)
    case Done => Enabled(s, i, Unlock)
    case Making => Enabled(s, i, Create) && Enabled(s, i, Refuse)
    case Made(_) => Enabled(s, i, UnlockCreate)
    case Stuck => forall a :: !Enabled(s, i, a)
  }

  /** No thread is ever stopped by a missing node: it waits for the lock exactly as long as somebody is in its way, and
      stops for good only after the creation at the quota. */
  lemma NeverBlockedOnMemory(run: seq<State>, k: nat, i: nat, f: Fnode)
    requires Run(run) && k < |run| && i < |run[k].pcs|
    ensures GoesOn(run[k], i, f)
  {
    hide *;
    RunPcOk(run, k, i);
    CanGoOn(run[k], i, f);
  }

  lemma RunPcOk(run: seq<State>, k: nat, i: nat)
    requires Run(run) && k < |run| && i < |run[k].pcs|
    ensures PcOk(run[k], run[k].pcs[i])
  {
    RunInv(run, k);
  }

  lemma CanGoOn(s: State, i: nat, f: Fnode)
    requires i < |s.pcs| && PcOk(s, s.pcs[i])
    ensures GoesOn(s, i, f)
  {
    hide NoWriter, NoReader;
  }

  ghost predicate CanStep(s: State, i: nat) {
    exists a: Action :: Enabled(s, i, a)
  }

  /** No deadlock but that one: while some thread is at work and none is stuck at the quota, some thread that is at work can
      go on. */
  lemma NoDeadlock(run: seq<State>, k: nat, i: nat) returns (j: nat)
    requires Run(run) && k < |run| && i < |run[k].pcs| && run[k].pcs[i] != Idle && Stuck !in run[k].pcs
    ensures j < |run[k].pcs| && run[k].pcs[j] != Idle && CanStep(run[k], j)
  {
    var s := run[k];
    j := i;
    if s.pcs[i].Checked? && !NoWriter(s.pcs) {
      j :| j < |s.pcs| && InWrite(s.pcs[j]);
    } else if s.pcs[i].Checked? && !NoReader(s.pcs) {
      j :| j < |s.pcs| && InRead(s.pcs[j]);
    }
    assert s.pcs[j].Checked? ==> NoWriter(s.pcs) && NoReader(s.pcs);
    NeverBlockedOnMemory(run, k, j, 0);
    hide Run, Enabled, NoWriter, NoReader;
    SomeStep(s, j);
  }

  lemma SomeStep(s: State, j: nat)
    requires j < |s.pcs| && GoesOn(s, j, 0) && !s.pcs[j].Idle? && !s.pcs[j].Stuck?
    requires s.pcs[j].Checked? ==> NoWriter(s.pcs) && NoReader(s.pcs)
    ensures CanStep(s, j)
  {
    hide Enabled, NoWriter, NoReader;
    match s.pcs[j]
    case Reading(g) => assert Enabled(s, j, if g in s.table then Spot else Miss);
    case Spotted(_) => assert Enabled(s, j, CountUp);
    case Counted(_) => assert Enabled(s, j, EndRead);
    case Missed => assert Enabled(s, j, EndMiss);
    case Using(_) => assert Enabled(s, j, Put);
    case Checked(_) => assert Enabled(s, j, Lock);
    case Writing(_) => assert Enabled(s, j, Lookup);
    case Missing(_) => assert Enabled(s, j, DropMissing);
    case Out(_) => assert Enabled(s, j, Drop);
    case Last(_) => assert Enabled(s, j, Free);
    case Spare(_) => assert Enabled(s, j, Reclaim);
    case Done => assert Enabled(s, j, Unlock);
    case Making => assert Enabled(s, j, Create);
    case Made(_) => assert Enabled(s, j, UnlockCreate);
  }

  /** A node is in the table from its creation until a removal takes it out, and allocated from its creation until the
      removal that was its last holder frees it; a created node is new and counted once. */
  lemma TableExactly(run: seq<State>, k: nat, i: nat, a: Action, f: Fnode)
    requires Run(run) && k < |run| && Enabled(run[k], i, a)
    ensures
      var s, s' := run[k], Apply(run[k], i, a);
      && i < |s'.pcs|
      && (f in s'.table <==> (f in s.table && !(s.pcs[i] == Writing(f) && a == Lookup)) || s'.pcs[i] == Made(f))
      && (f in s'.refs <==> (f in s.refs && !(s.pcs[i] == Last(f) && a == Free)) || s'.pcs[i] == Made(f))
      && (s'.pcs[i] == Made(f) ==> s.pcs[i] == Making && f !in s.refs && f !in s.table && s'.refs[f] == 1)
  {
    RunInv(run, k);
    StepNodes(run[k], i, a);
    hide Run, Holders, LastIsAlone, LockOk, CountersExact, KeptAfter;
    assert PcOk(run[k], run[k].pcs[i]);
  }

  /** Where a step leads, and whose counter it changes. */
  ghost predicate Leads(s: State, s': State, pc: Pc, pc': Pc, a: Action) {
    match pc
    case Idle => if a.BeginRead? then pc' == Reading(a.f) else pc' == Making
    case Reading(f) => pc' == if f in s.table then Spotted(f) else Missed
    case Spotted(f) => pc' == Counted(f) && f in s.refs && s'.refs == s.refs[f := s.refs[f] + 1]
    case Counted(f) => pc' == Using(f)
    case Missed => pc' == Idle
    case Using(f) =>
      if a.Check? then pc' == Checked(f)
      else pc' == Idle && (a.Put? ==> f in s.refs && s'.refs == s.refs[f := s.refs[f] - 1]) && (a.Keep? ==> s'.refs == s.refs)
    case Checked(f) => pc' == Writing(f)
    case Writing(f) => pc' == if f in s.table then Out(f) else Missing(f)
    case Missing(f) => pc' == Done && f in s.refs && s'.refs == s.refs[f := s.refs[f] - 1]
    case Out(f) => f in s.refs && pc' == (if s.refs[f] <= 1 then Last(f) else Spare(f)) && s'.refs == s.refs[f := s.refs[f] - 1]
    case Last(f) => pc' == Done && s'.refs == s.refs - {f}
    case Spare(_) => pc' == Done && s'.refs == s.refs
    case Done => pc' == Idle
    case Making => if a.Create? then pc' == Made(s.serial) && s'.refs == s.refs[s.serial := 1] else pc' == Stuck && s'.refs == s.refs
    case Made(f) => pc' == Using(f)
    case Stuck => false
  }

  /** A lookup or a removal's search finds the node exactly while it is in the table, a removal that does not find it gives
      its count back, and a removal that does frees it exactly where its count was the last. */
  lemma FoundExactly(s: State, i: nat, a: Action)
    requires Enabled(s, i, a)
    ensures i < |Apply(s, i, a).pcs| && Leads(s, Apply(s, i, a), s.pcs[i], Apply(s, i, a).pcs[i], a)
  {
    hide TableAfter, KeptAfter, NoWriter, NoReader;
  }

  /** Serial numbers are not used again: a node that is gone stays gone. */
  lemma GoneForGood(s: State, s': State, f: Fnode)
    requires Inv(s) && Next(s, s') && f < s.serial && f !in s.refs
    ensures f < s'.serial && f !in s'.refs
  {
    var i: nat, a: Action :| Enabled(s, i, a) && s' == Apply(s, i, a);
    StepNodes(s, i, a);
  }

  /** So no node is freed twice, and no thread ever sees a freed node again under its number. */
  lemma {:induction false} FreedOnce(run: seq<State>, k: nat, l: nat, f: Fnode)
    requires Run(run) && k <= l < |run| && f < run[k].serial && f !in run[k].refs
    ensures f < run[l].serial && f !in run[l].refs
    decreases l
  {
    if k < l {
      FreedOnce(run, k, l - 1, f);
      RunInv(run, l - 1);
      assert StepAt(run, l - 1);
      GoneForGood(run[l - 1], run[l], f);
    }
  }

  lemma StuckStep(s: State, s': State, i: nat)
    requires Inv(s) && Next(s, s') && i < |s.pcs| && s.pcs[i] == Stuck
    ensures i < |s'.pcs| && s'.pcs[i] == Stuck && s'.table == s.table
  {
    var j: nat, a: Action :| Enabled(s, j, a) && s' == Apply(s, j, a);
    assert InWrite(s.pcs[i]);
  }

  /** The creation that meets the node quota returns with the write lock held: for the rest of the run no other thread is
      inside the lock, none can take it, and the table stays as it is. */
  lemma {:induction false} QuotaKeepsTheLock(run: seq<State>, k: nat, l: nat, i: nat)
    requires Run(run) && k <= l < |run| && i < |run[k].pcs| && run[k].pcs[i] == Stuck
    ensures i < |run[l].pcs| && run[l].pcs[i] == Stuck && run[l].table == run[k].table
    ensures forall j | 0 <= j < |run[l].pcs| && (InWrite(run[l].pcs[j]) || InRead(run[l].pcs[j])) :: j == i
    ensures forall j: nat, a | Enabled(run[l], j, a) :: !a.BeginRead? && !a.Lock? && !a.LockCreate?
    decreases l
  {
    hide Next, Init;
    if k < l {
      QuotaKeepsTheLock(run, k, l - 1, i);
      assert StepAt(run, l - 1);
      RunInv(run, l - 1);
      StuckStep(run[l - 1], run[l], i);
    }
    RunInv(run, l);
    assert InWrite(run[l].pcs[i]);
  }
}
