/** The operations log of a contest: `contest_log_append` publishes a longer copy of the current log through the
    snapshot protocol, with a mutex in place of the update flag.

    The slot inside is the machine of `Snapshot`, so its memory safety carries over; what is new here is that the
    sequence of published logs only ever grows. */
module ContestLog {
  import opened Snapshot

  datatype Log = Log(text: string, size: nat)

  datatype Mutex = Unlocked | Held(owner: nat)

  datatype LogState = LogState(
    slot: State<Log>,
    mutex: Mutex,
    text: string,            // what the holder of the mutex was asked to append
    order: seq<string>       // all texts whose append has acquired the mutex, in that order
  )

  datatype Event =
    | Lock(text: string)
    | Compose(q: Addr)       // build the longer log, still private
    | Move(a: Action<Log>)   // a step of a reader, or of `contest_log_set`
    | Release                // the mutex is given back once the guard was seen at zero

  function Extended(log: Log, text: string): Log {
    Log(log.text + text, log.size + |text|)
  }

  ghost predicate LogEnabled(s: LogState, i: nat, e: Event) {
    && i < |s.slot.pcs|
    && match e
       case Lock(t) => s.slot.pcs[i].Idle? && s.mutex.Unlocked? && t != ""
       case Compose(q) =>
         && s.mutex == Held(i) && s.slot.pcs[i].Idle?
         && s.slot.current.At? && InHeap(s.slot, s.slot.current)
         && Enabled(s.slot, i, Prepare(q, Extended(s.slot.heap[s.slot.current.addr].content, s.text)))
       case Move(a) =>
         && Enabled(s.slot, i, a)
         && !(a.TryFlag? || a.CopySession? || a.Prepare? || a.ClearFlag?)
         && (a.EnterGuard? ==> s.mutex != Held(i))
       case Release => Enabled(s.slot, i, ClearFlag)
  }

  ghost function LogApply(s: LogState, i: nat, e: Event): LogState
    requires LogEnabled(s, i, e)
  {
    match e
    case Lock(t) => s.(mutex := Held(i), text := t, order := s.order + [t])
    case Compose(q) =>
      s.(slot := Apply(s.slot, i, Prepare(q, Extended(s.slot.heap[s.slot.current.addr].content, s.text))))
    case Move(a) => s.(slot := Apply(s.slot, i, a))
    case Release => s.(slot := Apply(s.slot, i, ClearFlag), mutex := Unlocked)
  }

  ghost predicate LogNext(s: LogState, s': LogState) {
    exists i: nat, e: Event :: LogEnabled(s, i, e) && s' == LogApply(s, i, e)
  }

  ghost predicate LogInit(s: LogState) {
    && Init(s.slot) && !s.slot.flagged && s.slot.current.At?
    && s.slot.heap[s.slot.current.addr].content == Log("", 0)
    && s.mutex.Unlocked? && s.order == []
  }

  ghost predicate LogStepAt(run: seq<LogState>, k: nat) {
    k + 1 < |run| ==> LogNext(run[k], run[k + 1])
  }

  ghost predicate LogRun(run: seq<LogState>) {
    |run| > 0 && LogInit(run[0]) && forall k: nat :: LogStepAt(run, k)
  }

  function Concat(texts: seq<string>): string {
    if texts == [] then "" else Concat(texts[..|texts| - 1]) + texts[|texts| - 1]
  }

  // ----- the invariant -----

  predicate InAppend(pc: Pc) {
    pc.Prepared? || pc.Draining? || pc.Unflagging?
  }

  /** The holder of the mutex is inside `contest_log_append`, and nobody else is. */
  ghost predicate MutexExact(s: LogState) {
    && !s.slot.flagged && InHeap(s.slot, s.slot.current) && s.slot.current.At?
    && (s.mutex.Held? ==> s.mutex.owner < |s.slot.pcs| && (s.slot.pcs[s.mutex.owner].Idle? || InAppend(s.slot.pcs[s.mutex.owner])))
    && (forall i | 0 <= i < |s.slot.pcs| && InAppend(s.slot.pcs[i]) :: s.mutex == Held(i))
    && (forall i | 0 <= i < |s.slot.pcs| :: !s.slot.pcs[i].Updating? && !s.slot.pcs[i].Fetching?)
  }

  /** The append that has the mutex but has not exchanged the pointer yet. */
  predicate Pending(s: LogState) {
    s.mutex.Held? && s.mutex.owner < |s.slot.pcs| && (s.slot.pcs[s.mutex.owner].Idle? || s.slot.pcs[s.mutex.owner].Prepared?)
  }

  ghost function CurrentLog(s: LogState): Log
    requires MutexExact(s)
  {
    s.slot.heap[s.slot.current.addr].content
  }

  /** Nothing is lost and nothing is reordered: the current log is the concatenation of all appended texts, in the
      order in which the appends took the mutex, except for the one still under way. */
  ghost predicate ContentExact(s: LogState)
    requires MutexExact(s)
  {
    && CurrentLog(s).size == |CurrentLog(s).text|
    && (if Pending(s) then |s.order| > 0 && s.order[|s.order| - 1] == s.text
                      && CurrentLog(s).text == Concat(s.order[..|s.order| - 1])
        else CurrentLog(s).text == Concat(s.order))
    && (forall i | 0 <= i < |s.slot.pcs| && s.slot.pcs[i].Prepared? ::
          s.slot.pcs[i].q in s.slot.heap && s.slot.heap[s.slot.pcs[i].q].content == Extended(CurrentLog(s), s.text))
  }

  ghost predicate LogInv(s: LogState) {
    Inv(s.slot) && MutexExact(s) && ContentExact(s)
  }

  lemma LogInitInv(s: LogState)
    requires LogInit(s)
    ensures LogInv(s)
  {
    InitInv(s.slot);
  }

  /** Every step of the log is a step of its slot, or leaves the slot alone. */
  lemma SlotStep(s: LogState, i: nat, e: Event)
    requires LogEnabled(s, i, e)
    ensures LogApply(s, i, e).slot == s.slot || Next(s.slot, LogApply(s, i, e).slot)
  {
    var s' := LogApply(s, i, e);
    match e {
      case Lock(_) =>
      case Compose(q) =>
        var a := Prepare(q, Extended(s.slot.heap[s.slot.current.addr].content, s.text));
        assert Enabled(s.slot, i, a) && s'.slot == Apply(s.slot, i, a);
      case Move(a) =>
        assert Enabled(s.slot, i, a) && s'.slot == Apply(s.slot, i, a);
      case Release =>
        assert Enabled(s.slot, i, ClearFlag) && s'.slot == Apply(s.slot, i, ClearFlag);
    }
  }

  /** What a step does to the thread that takes it. */
  ghost predicate LogMoves(s: LogState, s': LogState, i: nat, e: Event) {
    var before, after := s.slot.pcs, s'.slot.pcs;
    && i < |before| && |after| == |before| && after == before[i := after[i]]
    && s'.slot.flagged == s.slot.flagged
    && s'.order == (if e.Lock? then s.order + [e.text] else s.order)
    && s'.text == (if e.Lock? then e.text else s.text)
    && s'.mutex == (if e.Lock? then Held(i) else if e.Release? then Unlocked else s.mutex)
    && match e
       case Lock(_) => before[i].Idle? && after[i].Idle? && s.mutex.Unlocked? && s'.slot == s.slot
       case Compose(q) => s.mutex == Held(i) && before[i].Idle? && after[i] == Prepared(q) && s'.slot.current == s.slot.current
       case Release => before[i].Unflagging? && (after[i].Idle? || after[i].Waiting?) && s'.slot.current == s.slot.current
       case Move(a) =>
         if a.Exchange? then before[i].Prepared? && after[i].Draining? && s'.slot.current == At(before[i].q)
         else s'.slot.current == s.slot.current && ReaderOrSetterMoves(before[i], after[i], a, s.mutex == Held(i))
  }

  /** The moves other than `Exchange`: towards the release of the mutex, or outside the append altogether. */
  predicate ReaderOrSetterMoves(before: Pc, after: Pc, a: Action<Log>, holder: bool) {
    if a.PassGuard? then before.Draining? && after.Unflagging?
    else
      || after == before
      || (!InAppend(before) && !InAppend(after) && !after.Updating? && !after.Fetching? && !(before.Idle? && holder))
  }

  /** What a step does to a snapshot that it neither allocates nor frees. */
  ghost predicate ContentMoves(s: LogState, s': LogState, i: nat, e: Event, b: Addr) {
    b in s.slot.heap && !(i < |s.slot.pcs| && s.slot.pcs[i] == Freeing(At(b))) ==>
      b in s'.slot.heap && s'.slot.heap[b].content == s.slot.heap[b].content
  }

  lemma LogMovesStep(s: LogState, i: nat, e: Event)
    requires LogEnabled(s, i, e) && !s.slot.flagged
    ensures LogMoves(s, LogApply(s, i, e), i, e)
  {
    match e {
      case Lock(_) =>
      case Compose(q) => GuardStep(s.slot, i, Prepare(q, Extended(s.slot.heap[s.slot.current.addr].content, s.text)));
      case Move(a) => SlotMovesStep(s, i, a);
      case Release => GuardStep(s.slot, i, ClearFlag);
    }
  }

  lemma SlotMovesStep(s: LogState, i: nat, a: Action<Log>)
    requires LogEnabled(s, i, Move(a)) && !s.slot.flagged
    ensures LogMoves(s, LogApply(s, i, Move(a)), i, Move(a))
  {
    GuardStep(s.slot, i, a);
  }

  lemma ContentMovesStep(s: LogState, i: nat, e: Event, b: Addr)
    requires LogEnabled(s, i, e)
    ensures ContentMoves(s, LogApply(s, i, e), i, e, b)
  {
    var s' := LogApply(s, i, e);
    if b in s.slot.heap && b in s'.slot.heap {
      match e {
        case Lock(_) =>
        case Compose(q) =>
        case Move(a) => ReadersStep(s.slot, i, a, b);
        case Release => ReadersStep(s.slot, i, ClearFlag, b);
      }
    }
  }

  lemma MutexStep(s: LogState, s': LogState, i: nat, e: Event)
    requires MutexExact(s) && LogMoves(s, s', i, e) && InHeap(s'.slot, s'.slot.current)
    ensures MutexExact(s')
  {
  }

  /** The composed log of the append under way stays what it was composed to be. */
  lemma ComposedStep(s: LogState, s': LogState, i: nat, e: Event, j: nat)
    requires Inv(s.slot) && MutexExact(s) && ContentExact(s) && LogMoves(s, s', i, e)
    requires j < |s'.slot.pcs| && s'.slot.pcs[j].Prepared?
    requires ContentMoves(s, s', i, e, s'.slot.pcs[j].q)
    requires e.Compose? ==> e.q in s'.slot.heap && s'.slot.heap[e.q].content == Extended(CurrentLog(s), s.text)
    ensures s'.slot.pcs[j].q in s'.slot.heap
    ensures s'.slot.heap[s'.slot.pcs[j].q].content == Extended(CurrentLog(s), s'.text)
  {
    var q := s'.slot.pcs[j].q;
    if !(e.Compose? && i == j) {
      assert s.slot.pcs[j] == Prepared(q) && Owns(s.slot.pcs[j], q);
      assert s.slot.pcs[i] == Freeing(At(q)) ==> Owns(s.slot.pcs[i], q);
    }
  }

  /** Publishing the composed log is the only step that changes what is current, and it appends exactly one text. */
  lemma CurrentStep(s: LogState, s': LogState, i: nat, e: Event)
    requires Inv(s.slot) && MutexExact(s) && ContentExact(s) && LogMoves(s, s', i, e) && MutexExact(s')
    requires ContentMoves(s, s', i, e, s.slot.current.addr) && ContentMoves(s, s', i, e, s'.slot.current.addr)
    ensures CurrentLog(s') == if e == Move(Exchange) then Extended(CurrentLog(s), s.text) else CurrentLog(s)
  {
    var c := s.slot.current.addr;
    assert s.slot.pcs[i] == Freeing(At(c)) ==> Owns(s.slot.pcs[i], c);
  }

  lemma OrderStep(s: LogState, s': LogState, i: nat, e: Event)
    requires MutexExact(s) && ContentExact(s) && LogMoves(s, s', i, e) && MutexExact(s')
    requires CurrentLog(s') == if e == Move(Exchange) then Extended(CurrentLog(s), s.text) else CurrentLog(s)
    requires forall j | 0 <= j < |s'.slot.pcs| && s'.slot.pcs[j].Prepared? ::
      && s'.slot.pcs[j].q in s'.slot.heap
      && s'.slot.heap[s'.slot.pcs[j].q].content == Extended(CurrentLog(s), s'.text)
    ensures ContentExact(s')
  {
    if e == Move(Exchange) {
      assert Concat(s.order) == Concat(s.order[..|s.order| - 1]) + s.order[|s.order| - 1];
    } else if e.Lock? {
      assert s'.order[..|s'.order| - 1] == s.order;
    }
  }

  /** One step of a run: the invariant is kept, and the current log stays or grows by one text. */
  lemma LogNextInv(s: LogState, s': LogState)
    requires LogInv(s) && LogNext(s, s')
    ensures LogInv(s')
    ensures CurrentLog(s').text == CurrentLog(s).text || CurrentLog(s').text == CurrentLog(s).text + s.text
  {
    var i: nat, e: Event :| LogEnabled(s, i, e) && s' == LogApply(s, i, e);
    SlotStep(s, i, e);
    LogMovesStep(s, i, e);
    forall b ensures ContentMoves(s, s', i, e, b) { ContentMovesStep(s, i, e, b); }
    KeepsInv(s, s', i, e);
  }

  lemma KeepsInv(s: LogState, s': LogState, i: nat, e: Event)
    requires LogInv(s) && LogMoves(s, s', i, e) && (s'.slot == s.slot || Next(s.slot, s'.slot))
    requires forall b :: ContentMoves(s, s', i, e, b)
    requires e.Compose? ==> e.q in s'.slot.heap && s'.slot.heap[e.q].content == Extended(CurrentLog(s), s.text)
    ensures LogInv(s')
    ensures CurrentLog(s') == CurrentLog(s) || CurrentLog(s') == Extended(CurrentLog(s), s.text)
  {
    if s'.slot != s.slot { NextInv(s.slot, s'.slot); }
    MutexStep(s, s', i, e);
    assert ContentMoves(s, s', i, e, s.slot.current.addr) && ContentMoves(s, s', i, e, s'.slot.current.addr);
    CurrentStep(s, s', i, e);
    forall j: nat | j < |s'.slot.pcs| && s'.slot.pcs[j].Prepared?
      ensures s'.slot.pcs[j].q in s'.slot.heap
      ensures s'.slot.heap[s'.slot.pcs[j].q].content == Extended(CurrentLog(s), s'.text)
    {
      assert ContentMoves(s, s', i, e, s'.slot.pcs[j].q);
      ComposedStep(s, s', i, e, j);
    }
    OrderStep(s, s', i, e);
  }

  lemma {:induction false} LogRunInv(run: seq<LogState>, k: nat)
    requires LogRun(run) && k < |run|
    ensures LogInv(run[k])
  {
    if k == 0 {
      LogInitInv(run[0]);
    } else {
      LogRunInv(run, k - 1);
      assert LogStepAt(run, k - 1);
      LogNextInv(run[k - 1], run[k]);
    }
  }
}
