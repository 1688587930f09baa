/** What the operations log guarantees over whole runs. */
module ContestLogSafety {
  import opened Snapshot
  import opened SnapshotSafety
  import opened ContestLog

  /** At every moment no thread touches freed memory, the stored size is the text's length, and whenever no append
      is between taking the mutex and publishing, the log is everything appended so far, in mutex order. */
  lemma LogAlwaysComplete(run: seq<LogState>, k: nat)
    requires LogRun(run) && k < |run|
    ensures Safe(run[k].slot)
    ensures run[k].slot.current.At? && run[k].slot.current.addr in run[k].slot.heap
    ensures var log := run[k].slot.heap[run[k].slot.current.addr].content;
      && log.size == |log.text|
      && log.text <= Concat(run[k].order)
      && (!Pending(run[k]) ==> log.text == Concat(run[k].order))
  {
    LogRunInv(run, k);
    InvSafe(run[k].slot);
  }

  /** What a pointer leads to; the fallback is never used where a theorem looks. */
  ghost function LogAt(s: LogState, p: Ref): Log {
    if p.At? && p.addr in s.slot.heap then s.slot.heap[p.addr].content else Log("", 0)
  }

  ghost function Published(s: LogState): Log {
    LogAt(s, s.slot.current)
  }

  lemma GrowthStep(run: seq<LogState>, k: nat)
    requires LogRun(run) && k + 1 < |run|
    ensures Published(run[k]).text <= Published(run[k + 1]).text
  {
    LogRunInv(run, k);
    assert LogStepAt(run, k);
    LogNextInv(run[k], run[k + 1]);
  }

  /** The published log only grows. */
  lemma {:induction false} LogAppendOnly(run: seq<LogState>, m: nat, n: nat)
    requires LogRun(run) && m <= n < |run|
    ensures Published(run[m]).text <= Published(run[n]).text
    decreases n - m
  {
    if m < n {
      LogAppendOnly(run, m, n - 1);
      GrowthStep(run, n - 1);
    }
  }

  /** A thread that has a pointer either loaded it in this step, or reads through it what it read before. */
  lemma HoldingStep(s: LogState, s': LogState, j: nat, b: Addr)
    requires LogInv(s) && LogNext(s, s') && HoldsAt(s'.slot, j, b)
    ensures b in s'.slot.heap
    ensures LogAt(s', At(b)) == if HoldsAt(s.slot, j, b) then LogAt(s, At(b)) else Published(s)
  {
    var i: nat, e: Event :| LogEnabled(s, i, e) && s' == LogApply(s, i, e);
    SlotStep(s, i, e);
    if s'.slot != s.slot {
      var k: nat, a: Action<Log> :| Enabled(s.slot, k, a) && s'.slot == Apply(s.slot, k, a);
      HoldStep(s.slot, k, a, j, b);
      ReadersStep(s.slot, k, a, b);
    }
  }

  lemma HoldingInRun(run: seq<LogState>, k: nat, j: nat, b: Addr)
    requires LogRun(run) && k + 1 < |run| && HoldsAt(run[k + 1].slot, j, b)
    ensures b in run[k + 1].slot.heap
    ensures LogAt(run[k + 1], At(b)) == if HoldsAt(run[k].slot, j, b) then LogAt(run[k], At(b)) else Published(run[k])
  {
    LogRunInv(run, k);
    assert LogStepAt(run, k);
    HoldingStep(run[k], run[k + 1], j, b);
  }

  /** Thread `j` loads the pointer in the step after `m` and still holds it at `n`. */
  ghost predicate TakenAndHeld(run: seq<LogState>, m: nat, n: nat, j: nat, b: Addr) {
    && m < n < |run| && !HoldsAt(run[m].slot, j, b)
    && forall k | m < k <= n :: HoldsAt(run[k].slot, j, b)
  }

  /** What a reader sees is the log that was current when it loaded the pointer. */
  lemma {:induction false} ReaderSees(run: seq<LogState>, m: nat, n: nat, j: nat, b: Addr)
    requires LogRun(run) && TakenAndHeld(run, m, n, j, b)
    ensures b in run[n].slot.heap && LogAt(run[n], At(b)) == Published(run[m])
    decreases n - m
  {
    assert HoldsAt(run[n].slot, j, b);
    HoldingInRun(run, n - 1, j, b);
    if m < n - 1 {
      ReaderSees(run, m, n - 1, j, b);
      assert HoldsAt(run[n - 1].slot, j, b);
    }
  }

  /** Of two snapshots of the log, whoever took them and however long they are kept, the one taken earlier is a
      prefix of the one taken later. */
  lemma EarlierSnapshotIsPrefix(run: seq<LogState>, m1: nat, n1: nat, j1: nat, b1: Addr, m2: nat, n2: nat, j2: nat, b2: Addr)
    requires LogRun(run) && TakenAndHeld(run, m1, n1, j1, b1) && TakenAndHeld(run, m2, n2, j2, b2) && m1 <= m2
    ensures b1 in run[n1].slot.heap && b2 in run[n2].slot.heap
    ensures run[n1].slot.heap[b1].content.text <= run[n2].slot.heap[b2].content.text
  {
    ReaderSees(run, m1, n1, j1, b1);
    ReaderSees(run, m2, n2, j2, b2);
    LogAppendOnly(run, m1, m2);
  }

  lemma LogCarryNext(s: LogState, s': LogState, j: nat, p: Ref)
    requires LogInv(s) && LogNext(s, s') && CarriesAt(s'.slot, j, p)
    ensures
      || CarriesAt(s.slot, j, p)
      || (j < |s.slot.pcs| && s.slot.pcs[j] == Guarded && s.slot.current == p && p.At?)
  {
    assert s.slot.current.At?;
    hide LogInv, LogApply, LogEnabled, Next, CarriesAt;
    var i: nat, e: Event :| LogEnabled(s, i, e) && s' == LogApply(s, i, e);
    SlotStep(s, i, e);
    if s'.slot != s.slot { CarryNext(s.slot, s'.slot, j, p); }
  }

  /** A reader always gets a log, and it is the one that was current at a moment inside its own read lock. */
  lemma {:induction false} ReaderHasLog(run: seq<LogState>, n: nat, j: nat, p: Ref) returns (m: nat)
    requires LogRun(run) && n < |run| && CarriesAt(run[n].slot, j, p)
    ensures p.At? && TakenAndHeld(run, m, n, j, p.addr)
    ensures m < |run| && j < |run[m].slot.pcs| && run[m].slot.pcs[j] == Guarded && run[m].slot.current == p
    ensures p.addr in run[n].slot.heap && LogAt(run[n], p) == Published(run[m])
  {
    hide LogNext, LogInv;
    m := LoadedLog(run, n, j, p);
    ReaderSees(run, m, n, j, p.addr);
  }

  lemma {:induction false} LoadedLog(run: seq<LogState>, n: nat, j: nat, p: Ref) returns (m: nat)
    requires LogRun(run) && n < |run| && CarriesAt(run[n].slot, j, p)
    ensures p.At? && TakenAndHeld(run, m, n, j, p.addr)
    ensures m < |run| && j < |run[m].slot.pcs| && run[m].slot.pcs[j] == Guarded && run[m].slot.current == p
  {
    hide LogNext, LogInv;
    if n > 0 {
      LogRunInv(run, n - 1);
      assert LogStepAt(run, n - 1);
      LogCarryNext(run[n - 1], run[n], j, p);
      m := n - 1;
      if CarriesAt(run[n - 1].slot, j, p) { m := LoadedLog(run, n - 1, j, p); }
    }
  }

  /** What thread `i` can do next; `q` is a free address and `t` a text to append. */
  ghost predicate LogGoesOn(s: LogState, i: nat, q: Addr, t: string)
    requires i < |s.slot.pcs|
  {
    match s.slot.pcs[i]
    case Idle =>
      && (LogEnabled(s, i, Lock(t)) <==> s.mutex.Unlocked? && t != "")
      && (LogEnabled(s, i, Compose(q)) <==> s.mutex == Held(i))
      && (LogEnabled(s, i, Move(EnterGuard)) <==> s.mutex != Held(i))
    case Guarded => LogEnabled(s, i, Move(LoadPointer))
    case Loaded(_) => LogEnabled(s, i, Move(CountReader))
    case Counted(_) => LogEnabled(s, i, Move(LeaveGuard))
    case Reading(_) => LogEnabled(s, i, Move(Unlock))
    case Prepared(_) => LogEnabled(s, i, Move(Exchange))
    case Draining(_) => LogEnabled(s, i, Move(PassGuard)) <==> Unplayed(s.slot, InGuard)
    case Unflagging(_) => LogEnabled(s, i, Release)
    case Waiting(p) => p.At? && (LogEnabled(s, i, Move(PassReaders)) <==> Unplayed(s.slot, HoldsRef(p.addr)))
    case Freeing(_) => LogEnabled(s, i, Move(Free))
    case _ => false
  }

  /** Appends wait for the mutex, for readers under the guard and for readers of the old log, and for nothing else; readers
      never wait. */
  lemma LogWaitsExactly(run: seq<LogState>, k: nat, i: nat, q: Addr, t: string)
    requires LogRun(run) && k < |run| && i < |run[k].slot.pcs| && q !in run[k].slot.heap
    ensures LogGoesOn(run[k], i, q, t)
  {
    hide *;
    LogRunInv(run, k);
    LogCanGoOn(run[k], i, q, t);
  }

  lemma LogCanGoOn(s: LogState, i: nat, q: Addr, t: string)
    requires LogInv(s) && i < |s.slot.pcs| && q !in s.slot.heap
    ensures LogGoesOn(s, i, q, t)
  {
    MutexFacts(s, i);
    hide *;
    InvSafe(s.slot);
    ThreadFacts(s.slot, i);
    CanGoOn(s.slot, i, q, Extended(s.slot.heap[s.slot.current.addr].content, s.text));
    SlotGoesOn(s, i, q, t);
  }

  lemma MutexFacts(s: LogState, i: nat)
    requires LogInv(s) && i < |s.slot.pcs|
    ensures Inv(s.slot) && !s.slot.flagged && InHeap(s.slot, s.slot.current) && s.slot.current.At?
    ensures !s.slot.pcs[i].Updating? && !s.slot.pcs[i].Fetching?
  {
  }

  lemma SlotGoesOn(s: LogState, i: nat, q: Addr, t: string)
    requires i < |s.slot.pcs| && !s.slot.flagged && InHeap(s.slot, s.slot.current) && s.slot.current.At?
    requires !s.slot.pcs[i].Updating? && !s.slot.pcs[i].Fetching?
    requires GoesOn(s.slot, i, q, Extended(s.slot.heap[s.slot.current.addr].content, s.text))
    ensures LogGoesOn(s, i, q, t)
  {
    hide Unplayed, Enabled, Extended;
  }
}
