/** Runs of `TotalSize` that pass the quota, with the total or with one file, or leave the total wrong. */
module TotalRaces {
  import opened TotalSafety
  import opened TotalSize

  /** Two threads, a quota of 10, and no file removed or cut off so far. */
  function Scene(sizes: seq<int>, counted: seq<int>, table: set<nat>, total: int, p: Pc, q: Pc): State {
    State(10, sizes, seq(|sizes|, _ => 0), seq(|sizes|, _ => 0), counted, table, total, [p, q])
  }

  // ----- two growths that overlap -----

  /** Both threads grow a new file by 10 and check the quota before either raises the total. */
  function Overrun(n: nat): State {
    if n == 0 then Scene([], [], {}, 0, Idle, Idle)
    else if n == 1 then Scene([0], [0], {0}, 0, Idle, Idle)
    else if n == 2 then Scene([0, 0], [0, 0], {0, 1}, 0, Idle, Idle)
    else if n == 3 then Scene([0, 0], [0, 0], {0, 1}, 0, Pinned(0), Idle)
    else if n == 4 then Scene([0, 0], [0, 0], {0, 1}, 0, Pinned(0), Pinned(1))
    else if n == 5 then Scene([0, 0], [0, 0], {0, 1}, 0, Locked(0), Pinned(1))
    else if n == 6 then Scene([0, 0], [0, 0], {0, 1}, 0, Locked(0), Locked(1))
    else if n == 7 then Scene([0, 0], [0, 0], {0, 1}, 0, Granted(0, 10, 10), Locked(1))
    else if n == 8 then Scene([0, 0], [0, 0], {0, 1}, 0, Granted(0, 10, 10), Granted(1, 10, 10))
    else if n == 9 then Scene([10, 0], [0, 0], {0, 1}, 0, Grown(0, 10), Granted(1, 10, 10))
    else if n == 10 then Scene([10, 10], [0, 0], {0, 1}, 0, Grown(0, 10), Grown(1, 10))
    else if n == 11 then Scene([10, 10], [10, 0], {0, 1}, 10, Locked(0), Grown(1, 10))
    else Scene([10, 10], [10, 10], {0, 1}, 20, Locked(0), Locked(1))
  }

  lemma OverrunCreates(n: nat)
    requires n < 3
    ensures Next(Overrun(n), Overrun(n + 1))
  {
    var a := if n <= 1 then Create else Pin(0);
    assert Enabled(Overrun(n), 0, a);
    assert Apply(Overrun(n), 0, a) == Overrun(n + 1);
  }

  lemma OverrunLocks(n: nat)
    requires n < 3
    ensures Next(Overrun(n + 3), Overrun(n + 4))
  {
    var i, a := if n == 1 then 0 else 1, if n == 0 then Pin(1) else Lock;
    assert Enabled(Overrun(n + 3), i, a);
    assert Apply(Overrun(n + 3), i, a) == Overrun(n + 4);
  }

  lemma OverrunChecks(n: nat)
    requires n < 2
    ensures Next(Overrun(n + 6), Overrun(n + 7))
  {
    assert Enabled(Overrun(n + 6), n, Grant(10));
    assert Apply(Overrun(n + 6), n, Grant(10)) == Overrun(n + 7);
  }

  lemma OverrunGrows(n: nat)
    requires n < 2
    ensures Next(Overrun(n + 8), Overrun(n + 9))
  {
    assert Enabled(Overrun(n + 8), n, SetSize);
    assert Apply(Overrun(n + 8), n, SetSize) == Overrun(n + 9);
  }

  lemma OverrunRaises(n: nat)
    requires n < 2
    ensures Next(Overrun(n + 10), Overrun(n + 11))
  {
    assert Enabled(Overrun(n + 10), n, Raise);
    assert Apply(Overrun(n + 10), n, Raise) == Overrun(n + 11);
  }

  lemma OverrunStep(n: nat)
    requires n < 12
    ensures Next(Overrun(n), Overrun(n + 1))
  {
    hide Next;
    if n < 3 { OverrunCreates(n); }
    else if n < 6 { OverrunLocks(n - 3); }
    else if n < 8 { OverrunChecks(n - 6); }
    else if n < 10 { OverrunGrows(n - 8); }
    else { OverrunRaises(n - 10); }
  }

  /** Where two growths overlap both can pass the check: a total of 20 under a quota of 10. */
  lemma QuotaOverrun() returns (run: seq<State>)
    ensures Run(run) && run[|run| - 1].total == 20 && run[|run| - 1].quota == 10
  {
    run := seq(13, n requires 0 <= n < 13 => Overrun(n));
    assert Init(run[0]) && run[12] == Overrun(12);
    forall k: nat ensures StepAt(run, k) {
      hide Next, Overrun;
      if k < 12 { OverrunStep(k); }
    }
  }

  // ----- a removal of a file that is going to grow -----

  /** Thread 1 removes a file that thread 0 is going to grow. */
  function Leak(n: nat): State {
    if n == 0 then Scene([], [], {}, 0, Idle, Idle)
    else if n == 1 then Scene([0], [0], {0}, 0, Idle, Idle)
    else if n == 2 then Scene([0], [0], {0}, 0, Pinned(0), Idle)
    else if n == 3 then Scene([0], [0], {}, 0, Pinned(0), Leaving(0))
    else if n == 4 then Scene([0], [0], {}, 0, Pinned(0), Subtracting(0, 0))
    else if n == 5 then Scene([0], [0], {}, 0, Pinned(0), Idle)
    else if n == 6 then Scene([0], [0], {}, 0, Locked(0), Idle)
    else if n == 7 then Scene([0], [0], {}, 0, Granted(0, 10, 10), Idle)
    else if n == 8 then Scene([10], [0], {}, 0, Grown(0, 10), Idle)
    else if n == 9 then Scene([10], [10], {}, 10, Locked(0), Idle)
    else Scene([10], [10], {}, 10, Idle, Idle)
  }

  lemma LeakRemoves(n: nat)
    requires n < 5
    ensures Next(Leak(n), Leak(n + 1))
  {
    var i := if n < 2 then 0 else 1;
    var a := if n == 0 then Create else if n == 1 then Pin(0) else if n == 2 then TakeOut(0) else if n == 3 then ReadSize else Subtract;
    assert Enabled(Leak(n), i, a);
    assert Apply(Leak(n), i, a) == Leak(n + 1);
  }

  lemma LeakGrows(n: nat)
    requires n < 5
    ensures Next(Leak(n + 5), Leak(n + 6))
  {
    var a := if n == 0 then Lock else if n == 1 then Grant(10) else if n == 2 then SetSize else if n == 3 then Raise else Unlock;
    assert Enabled(Leak(n + 5), 0, a);
    assert Apply(Leak(n + 5), 0, a) == Leak(n + 6);
  }

  /** A file that grows after its removal is counted for ever: no file is left, nobody is at work, and the total is 10. */
  lemma RemovedFileCounted() returns (run: seq<State>)
    ensures Run(run)
    ensures var s := run[|run| - 1]; s.table == {} && s.total == 10 && forall i | 0 <= i < |s.pcs| :: s.pcs[i] == Idle
  {
    run := seq(11, n requires 0 <= n < 11 => Leak(n));
    assert Init(run[0]) && run[10] == Leak(10);
    forall k: nat ensures StepAt(run, k) {
      hide Next, Leak;
      if k < 5 { LeakRemoves(k); } else if k < 10 { LeakGrows(k - 5); }
    }
  }

  // ----- an open with O_TRUNC -----

  /** Thread 0 creates a file and grows it to 10. */
  function Filled(n: nat): State {
    if n == 0 then Scene([], [], {}, 0, Idle, Idle)
    else if n <= 4 then
      Scene([0], [0], {0}, 0, if n == 1 then Idle else if n == 2 then Pinned(0) else if n == 3 then Locked(0) else Granted(0, 10, 10),
            Idle)
    else if n == 5 then Scene([10], [0], {0}, 0, Grown(0, 10), Idle)
    else Scene([10], [10], {0}, 10, Locked(0), Idle)
  }

  lemma FilledStep(n: nat)
    requires n < 6
    ensures Next(Filled(n), Filled(n + 1))
  {
    var a := if n == 0 then Create else if n == 1 then Pin(0) else if n == 2 then Lock else if n == 3 then Grant(10)
      else if n == 4 then SetSize else Raise;
    assert Enabled(Filled(n), 0, a);
    assert Apply(Filled(n), 0, a) == Filled(n + 1);
  }

  /** And then cuts it off, as an open with `O_TRUNC` does. */
  function CutOff(n: nat): State {
    if n <= 6 then Filled(n)
    else Scene([0], [10], {0}, 10, if n == 7 then Locked(0) else Idle, Idle).(dropped := [10])
  }

  lemma CutOffStep(n: nat)
    requires n < 8
    ensures Next(CutOff(n), CutOff(n + 1))
  {
    if n < 6 {
      FilledStep(n);
    } else {
      var a := if n == 6 then Empty else Unlock;
      assert Enabled(CutOff(n), 0, a);
      assert Apply(CutOff(n), 0, a) == CutOff(n + 1);
    }
  }

  /** Nothing was removed, nobody is at work, the one file is empty, and the total is 10. */
  lemma CutOffCounted() returns (run: seq<State>)
    ensures Run(run) && forall j | 0 <= j < |run| :: Apart(run[j])
    ensures
      var s := run[|run| - 1];
      s.table == {0} && s.sizes == [0] && s.total == 10 && forall i | 0 <= i < |s.pcs| :: s.pcs[i] == Idle
  {
    run := seq(9, n requires 0 <= n < 9 => CutOff(n));
    assert Init(run[0]) && run[8] == CutOff(8);
    forall j | 0 <= j < |run| ensures Apart(run[j]) {
      assert forall i | 0 <= i < |CutOff(j).pcs| :: !CutOff(j).pcs[i].Leaving? && !CutOff(j).pcs[i].Subtracting?;
    }
    forall k: nat ensures StepAt(run, k) {
      hide Next, CutOff;
      if k < 8 { CutOffStep(k); }
    }
  }

  // ----- a file beyond the quota -----

  /** Thread 1 removes the full file while thread 0 is going to shrink it: the size leaves the total twice, and the next
      file may grow by as much beyond the quota. */
  function Oversized(n: nat): State {
    if n <= 6 then Filled(n)
    else if n == 7 then Scene([10], [10], {}, 10, Locked(0), Leaving(0))
    else if n == 8 then Scene([10], [10], {}, 10, Locked(0), Subtracting(0, 10))
    else if n == 9 then Scene([10], [0], {}, 0, Locked(0), Idle).(removed := [10])
    else if n == 10 then Scene([10], [-10], {}, -10, Lowered(0, 0, 10), Idle).(removed := [10])
    else if n <= 12 then Scene([0], [-10], {}, -10, if n == 11 then Locked(0) else Idle, Idle).(removed := [10])
    else if n <= 16 then
      Scene([0, 0], [-10, 0], {1}, -10,
            if n == 13 then Idle else if n == 14 then Pinned(1) else if n == 15 then Locked(1) else Granted(1, 20, 20), Idle)
        .(removed := [10, 0])
    else Scene([0, 20], [-10, 0], {1}, -10, Grown(1, 20), Idle).(removed := [10, 0])
  }

  lemma OversizedRemoves(n: nat)
    requires n < 3
    ensures Next(Oversized(n + 6), Oversized(n + 7))
  {
    var a := if n == 0 then TakeOut(0) else if n == 1 then ReadSize else Subtract;
    assert Enabled(Oversized(n + 6), 1, a);
    assert Apply(Oversized(n + 6), 1, a) == Oversized(n + 7);
  }

  lemma OversizedShrinks(n: nat)
    requires n < 4
    ensures Next(Oversized(n + 9), Oversized(n + 10))
  {
    var a := if n == 0 then Lower(0) else if n == 1 then SetSmaller else if n == 2 then Unlock else Create;
    assert Enabled(Oversized(n + 9), 0, a);
    assert Apply(Oversized(n + 9), 0, a) == Oversized(n + 10);
  }

  lemma OversizedGrows(n: nat)
    requires n < 4
    ensures Next(Oversized(n + 13), Oversized(n + 14))
  {
    var a := if n == 0 then Pin(1) else if n == 1 then Lock else if n == 2 then Grant(20) else SetSize;
    assert Enabled(Oversized(n + 13), 0, a);
    assert Apply(Oversized(n + 13), 0, a) == Oversized(n + 14);
  }

  lemma OversizedStep(n: nat)
    requires n < 17
    ensures Next(Oversized(n), Oversized(n + 1))
  {
    hide Next;
    if n < 6 { FilledStep(n); }
    else if n < 9 { OversizedRemoves(n - 6); }
    else if n < 13 { OversizedShrinks(n - 9); }
    else { OversizedGrows(n - 13); }
  }

  /** There is a run with a quota of 10 after which a file of 20 is in the table. */
  lemma OversizedFile() returns (run: seq<State>)
    ensures Run(run)
    ensures var s := run[|run| - 1]; s.quota == 10 && 1 in s.table && |s.sizes| > 1 && s.sizes[1] == 20
  {
    run := seq(18, n requires 0 <= n < 18 => Oversized(n));
    assert Init(run[0]) && run[17] == Oversized(17);
    forall k: nat ensures StepAt(run, k) {
      hide Next, Oversized;
      if k < 17 { OversizedStep(k); }
    }
  }
}
