/** What the publication protocol guarantees over whole runs. */
module SnapshotSafety {
  import opened Snapshot

  /** Memory safety of the protocol: in every interleaving of any number of readers and setters, with or without
      the update flag. */
  lemma SafeInEveryRun<T(!new)>(run: seq<State<T>>)
    requires Run(run)
    ensures forall k | 0 <= k < |run| :: Safe(run[k])
  {
    forall k | 0 <= k < |run| ensures Safe(run[k]) {
      RunInv(run, k);
      InvSafe(run[k]);
    }
  }

  /** While a thread keeps hold of a snapshot, what it reads there does not change. */
  lemma HeldContentStep<T(!new)>(s: State<T>, s': State<T>, j: nat, b: Addr)
    requires Inv(s) && Next(s, s') && j < |s.pcs| && j < |s'.pcs|
    requires Holds(s.pcs[j], b) && Holds(s'.pcs[j], b)
    ensures b in s.heap && b in s'.heap && s'.heap[b].content == s.heap[b].content
  {
    var i: nat, a: Action<T> :| Enabled(s, i, a) && s' == Apply(s, i, a);
    HoldStep(s, i, a, j, b);
    ReadersStep(s, i, a, b);
  }

  /** What is stored at an address; nothing where nothing is allocated. */
  function ContentAt<T>(s: State<T>, b: Addr): seq<T> {
    if b in s.heap then [s.heap[b].content] else []
  }

  lemma HeldContentInRun<T(!new)>(run: seq<State<T>>, k: nat, j: nat, b: Addr)
    requires Run(run) && k + 1 < |run| && HoldsAt(run[k], j, b) && HoldsAt(run[k + 1], j, b)
    ensures ContentAt(run[k], b) == ContentAt(run[k + 1], b) != []
  {
    RunInv(run, k);
    assert StepAt(run, k);
    HeldContentStep(run[k], run[k + 1], j, b);
  }

  lemma {:induction false} ReadersSeeOneSnapshot<T(!new)>(run: seq<State<T>>, m: nat, n: nat, j: nat, b: Addr)
    requires Run(run) && m < n < |run|
    requires forall k | m <= k <= n :: HoldsAt(run[k], j, b)
    ensures ContentAt(run[n], b) == ContentAt(run[m], b) != []
    decreases n - m
  {
    assert HoldsAt(run[n], j, b) && HoldsAt(run[n - 1], j, b);
    HeldContentInRun(run, n - 1, j, b);
    if m < n - 1 {
      ReadersSeeOneSnapshot(run, m, n - 1, j, b);
    }
  }

  // ----- what a reader gets -----

  /** A thread between loading the pointer and giving it back. */
  predicate Carries(pc: Pc, p: Ref) {
    (pc.Loaded? || pc.Counted? || pc.Reading?) && pc.p == p
  }

  predicate CarriesAt<T>(s: State<T>, j: nat, p: Ref) {
    j < |s.pcs| && Carries(s.pcs[j], p)
  }

  /** In the step after `m`, under the guard, thread `j` gets the pointer that is current then, and keeps it up to `n`. */
  ghost predicate LoadedAt<T(!new)>(run: seq<State<T>>, m: nat, n: nat, j: nat, p: Ref) {
    && m < n < |run| && j < |run[m].pcs| && run[m].pcs[j] == Guarded && run[m].current == p
    && j < |run[m + 1].pcs| && run[m + 1].pcs[j] == Loaded(p)
    && forall k: nat | m < k <= n :: CarriesAt(run[k], j, p)
  }

  lemma CarryStep<T(!new)>(s: State<T>, i: nat, a: Action<T>, j: nat, p: Ref)
    requires Enabled(s, i, a) && CarriesAt(Apply(s, i, a), j, p)
    ensures CarriesAt(s, j, p) || (j < |s.pcs| && s.pcs[j] == Guarded && s.current == p && Apply(s, i, a).pcs[j] == Loaded(p))
  {
  }

  /** Whoever has a pointer has the one that was current at some moment inside its own read lock. */
  lemma {:induction false} ReaderHasCurrent<T(!new)>(run: seq<State<T>>, n: nat, j: nat, p: Ref) returns (m: nat)
    requires Run(run) && n < |run| && CarriesAt(run[n], j, p)
    ensures LoadedAt(run, m, n, j, p)
  {
    hide Next;
    if n > 0 {
      assert StepAt(run, n - 1);
      CarryNext(run[n - 1], run[n], j, p);
      if CarriesAt(run[n - 1], j, p) {
        m := ReaderHasCurrent(run, n - 1, j, p);
      } else {
        m := n - 1;
      }
    }
  }

  lemma CarryNext<T(!new)>(s: State<T>, s': State<T>, j: nat, p: Ref)
    requires Next(s, s') && CarriesAt(s', j, p)
    ensures CarriesAt(s, j, p) || (j < |s.pcs| && s.pcs[j] == Guarded && s.current == p && s'.pcs[j] == Loaded(p))
  {
    hide Apply, Enabled, CarriesAt;
    var i: nat, a: Action<T> :| Enabled(s, i, a) && s' == Apply(s, i, a);
    CarryStep(s, i, a, j, p);
  }

  /** A slot that is not empty at the start is never empty: only then can a reader get a null pointer. */
  lemma {:induction false} StaysFilled<T(!new)>(run: seq<State<T>>, k: nat)
    requires Run(run) && k < |run| && run[0].current.At?
    ensures run[k].current.At?
  {
    if k > 0 {
      hide Apply, Enabled, Init;
      StaysFilled(run, k - 1);
      assert StepAt(run, k - 1);
      var i: nat, a: Action<T> :| Enabled(run[k - 1], i, a) && run[k] == Apply(run[k - 1], i, a);
      FilledStep(run[k - 1], i, a);
    }
  }

  lemma FilledStep<T(!new)>(s: State<T>, i: nat, a: Action<T>)
    requires Enabled(s, i, a) && s.current.At?
    ensures Apply(s, i, a).current.At?
  {
  }

  /** What a reader sees is what the slot held when it loaded the pointer. */
  lemma ReaderSeesCurrent<T(!new)>(run: seq<State<T>>, n: nat, j: nat, p: Ref) returns (m: nat)
    requires Run(run) && n < |run| && CarriesAt(run[n], j, p)
    ensures LoadedAt(run, m, n, j, p)
    ensures p == Null ==> run[m].current == Null && run[0].current == Null
    ensures p.At? ==> ContentAt(run[n], p.addr) == ContentAt(run[m], run[m].current.addr) != []
  {
    hide Next, Init;
    m := ReaderHasCurrent(run, n, j, p);
    if run[0].current.At? { StaysFilled(run, m); }
    if p.At? { CurrentKept(run, m, n, j, p.addr); }
  }

  lemma CurrentKept<T(!new)>(run: seq<State<T>>, m: nat, n: nat, j: nat, b: Addr)
    requires Run(run) && LoadedAt(run, m, n, j, At(b))
    ensures ContentAt(run[n], b) == ContentAt(run[m], b) != []
  {
    hide Next, Init;
    assert forall k: nat | m < k <= n :: CarriesAt(run[k], j, At(b)) && HoldsAt(run[k], j, b);
    RunInv(run, m);
    assert StepAt(run, m);
    LoadKeeps(run[m], run[m + 1], j, b);
    if m + 1 < n { ReadersSeeOneSnapshot(run, m + 1, n, j, b); }
  }

  lemma LoadKeeps<T(!new)>(s: State<T>, s': State<T>, j: nat, b: Addr)
    requires Inv(s) && Next(s, s') && j < |s.pcs| && j < |s'.pcs|
    requires s.pcs[j] == Guarded && s.current == At(b) && s'.pcs[j] == Loaded(At(b))
    ensures ContentAt(s', b) == ContentAt(s, b) != []
  {
    assert b in s.heap;
    hide Apply, Enabled, Inv;
    var i: nat, a: Action<T> :| Enabled(s, i, a) && s' == Apply(s, i, a);
    LoadStep(s, i, a, j, b);
  }

  lemma LoadStep<T(!new)>(s: State<T>, i: nat, a: Action<T>, j: nat, b: Addr)
    requires Enabled(s, i, a) && j < |s.pcs| && j < |Apply(s, i, a).pcs|
    requires s.pcs[j] == Guarded && Apply(s, i, a).pcs[j] == Loaded(At(b))
    ensures Apply(s, i, a).heap == s.heap
  {
  }

  // ----- what a setter publishes -----

  predicate HasPrepared<T>(s: State<T>, j: nat, q: Addr) {
    j < |s.pcs| && s.pcs[j] == Prepared(q)
  }

  /** What was fetched is what the new snapshot holds. */
  lemma FetchedIsHeld<T(!new)>(s: State<T>, i: nat, q: Addr, c: T)
    requires Enabled(s, i, Prepare(q, c))
    ensures HasPrepared(Apply(s, i, Prepare(q, c)), i, q) && ContentAt(Apply(s, i, Prepare(q, c)), q) == [c]
    ensures q !in s.heap
  {
  }

  /** Nobody changes a snapshot between its allocation and its publication, and publishing makes it the current one. */
  lemma PreparedStep<T(!new)>(s: State<T>, i: nat, a: Action<T>, j: nat, q: Addr)
    requires Inv(s) && Enabled(s, i, a) && HasPrepared(s, j, q)
    ensures
      var s' := Apply(s, i, a);
      && ContentAt(s', q) == ContentAt(s, q) != []
      && (HasPrepared(s', j, q) || (j < |s'.pcs| && s'.pcs[j] == Draining(s.current) && s'.current == At(q)))
  {
    assert Owns(s.pcs[j], q);
    OwnsStep(s, i, a, q);
    assert Owns(s.pcs[i], q) ==> i == j;
    ReadersStep(s, i, a, q);
  }

  lemma PreparedNext<T(!new)>(s: State<T>, s': State<T>, j: nat, q: Addr)
    requires Inv(s) && Next(s, s') && HasPrepared(s, j, q)
    ensures ContentAt(s', q) == ContentAt(s, q) != []
    ensures HasPrepared(s', j, q) || (j < |s'.pcs| && s'.pcs[j] == Draining(s.current) && s'.current == At(q))
  {
    hide Apply, Enabled, Inv, HasPrepared;
    var i: nat, a: Action<T> :| Enabled(s, i, a) && s' == Apply(s, i, a);
    PreparedStep(s, i, a, j, q);
  }

  /** A setter that has fetched a snapshot and goes on publishes exactly that, and takes over the one that was current. */
  lemma {:induction false} SetterPublishes<T(!new)>(run: seq<State<T>>, m: nat, n: nat, j: nat, q: Addr)
    requires Run(run) && m <= n && n + 1 < |run| && !HasPrepared(run[n + 1], j, q)
    requires forall k | m <= k <= n :: HasPrepared(run[k], j, q)
    ensures run[n + 1].current == At(q) && ContentAt(run[n + 1], q) == ContentAt(run[m], q) != []
    ensures j < |run[n + 1].pcs| && run[n + 1].pcs[j] == Draining(run[n].current)
  {
    hide Next, Init, Inv;
    RunInv(run, n);
    assert StepAt(run, n) && HasPrepared(run[n], j, q);
    PreparedNext(run[n], run[n + 1], j, q);
    PreparedKept(run, m, n, j, q);
  }

  lemma {:induction false} PreparedKept<T(!new)>(run: seq<State<T>>, m: nat, n: nat, j: nat, q: Addr)
    requires Run(run) && m <= n < |run| && forall k | m <= k <= n :: HasPrepared(run[k], j, q)
    ensures ContentAt(run[n], q) == ContentAt(run[m], q)
    decreases n
  {
    hide Next, Init, Inv;
    if m < n {
      PreparedKept(run, m, n - 1, j, q);
      RunInv(run, n - 1);
      assert StepAt(run, n - 1) && HasPrepared(run[n - 1], j, q);
      PreparedNext(run[n - 1], run[n], j, q);
    }
  }

  // ----- who can go on -----

  ghost predicate Unplayed<T(!new)>(s: State<T>, r: Role) {
    forall j | 0 <= j < |s.pcs| :: !Plays(s.pcs[j], r)
  }

  /** What thread `i` can do next; `q` is a free address and `c` some content. */
  ghost predicate GoesOn<T(!new)>(s: State<T>, i: nat, q: Addr, c: T)
    requires i < |s.pcs|
  {
    match s.pcs[i]
    case Idle => Enabled(s, i, EnterGuard) && Enabled(s, i, TryFlag) && (Enabled(s, i, Prepare(q, c)) <==> !s.flagged)
    case Guarded => Enabled(s, i, LoadPointer)
    case Loaded(_) => Enabled(s, i, CountReader)
    case Counted(_) => Enabled(s, i, LeaveGuard)
    case Reading(_) => Enabled(s, i, Unlock)
    case Updating => Enabled(s, i, CopySession)
    case Fetching => Enabled(s, i, Prepare(q, c)) <==> s.flagged
    case Prepared(_) => Enabled(s, i, Exchange)
    case Draining(_) => Enabled(s, i, PassGuard) <==> Unplayed(s, InGuard)
    case Unflagging(_) => Enabled(s, i, ClearFlag)
    case Waiting(p) => p.At? && (Enabled(s, i, PassReaders) <==> Unplayed(s, HoldsRef(p.addr)))
    case Freeing(_) => Enabled(s, i, Free)
  }

  /** No thread is ever stopped, except that a setter waits for the guard exactly as long as some thread is under it, and
      for the old snapshot exactly as long as some thread is counted there. */
  lemma WaitsExactly<T(!new)>(run: seq<State<T>>, k: nat, i: nat, q: Addr, c: T)
    requires Run(run) && k < |run| && i < |run[k].pcs| && q !in run[k].heap
    ensures GoesOn(run[k], i, q, c)
  {
    hide *;
    RunInv(run, k);
    InvSafe(run[k]);
    ThreadFacts(run[k], i);
    CanGoOn(run[k], i, q, c);
  }

  lemma CanGoOn<T(!new)>(s: State<T>, i: nat, q: Addr, c: T)
    requires i < |s.pcs| && q !in s.heap && InHeap(s, Touches(s.pcs[i]))
    requires s.pcs[i].Waiting? || s.pcs[i].Freeing? ==> s.pcs[i].prev.At?
    requires s.guard == 0 <==> Unplayed(s, InGuard)
    requires s.pcs[i].Waiting? ==> (s.heap[s.pcs[i].prev.addr].readers == 0 <==> Unplayed(s, HoldsRef(s.pcs[i].prev.addr)))
    ensures GoesOn(s, i, q, c)
  {
    hide Unplayed;
  }

  lemma ThreadFacts<T(!new)>(s: State<T>, i: nat)
    requires Inv(s) && Safe(s) && i < |s.pcs|
    ensures InHeap(s, Touches(s.pcs[i])) && (s.pcs[i].Waiting? || s.pcs[i].Freeing? ==> s.pcs[i].prev.At?)
    ensures s.guard == 0 <==> Unplayed(s, InGuard)
    ensures s.pcs[i].Waiting? ==> (s.heap[s.pcs[i].prev.addr].readers == 0 <==> Unplayed(s, HoldsRef(s.pcs[i].prev.addr)))
  {
    hide Plays, Count;
    assert InHeap(s, Touches(s.pcs[i])) && (s.pcs[i].Waiting? || s.pcs[i].Freeing? ==> s.pcs[i].prev.At?);
    hide Inv, Safe, OneOwner, RetirementOrdered, OneUpdater;
    CountZero(s.pcs, InGuard);
    if s.pcs[i].Waiting? { CountZero(s.pcs, HoldsRef(s.pcs[i].prev.addr)); }
  }

  /** A setter that finds the flag set gives up, one that takes it goes on only with a session, and every other step leads one
      place on; the session comes and goes by itself. */
  lemma StepsLead<T(!new)>(s: State<T>, i: nat, a: Action<T>)
    requires Enabled(s, i, a)
    ensures
      var s' := Apply(s, i, a);
      && |s'.pcs| == |s.pcs| && (forall j | 0 <= j < |s.pcs| && j != i :: s'.pcs[j] == s.pcs[j])
      && s'.session == (if a.SetSession? then a.there else s.session)
      && (a.SetSession? || a.Spin? ==> s'.pcs[i] == s.pcs[i])
      && (!a.SetSession? && !a.Spin? ==> StageAfter(s, s.pcs[i], s'.pcs[i], a))
    ensures Enabled(s, i, SetSession(!s.session))
  {
  }

  ghost predicate StageAfter<T(!new)>(s: State<T>, pc: Pc, pc': Pc, a: Action<T>) {
    match pc
    case Idle => if a.EnterGuard? then pc' == Guarded else if a.TryFlag? then pc' == (if s.update then Idle else Updating) else pc'.Prepared?
    case Guarded => pc' == Loaded(s.current)
    case Loaded(p) => pc' == Counted(p)
    case Counted(p) => pc' == Reading(p)
    case Reading(_) => pc' == Idle
    case Updating => pc' == if s.session then Fetching else Idle
    case Fetching => pc'.Prepared?
    case Prepared(_) => pc' == Draining(s.current)
    case Draining(p) => pc' == Unflagging(p)
    case Unflagging(p) => pc' == if p.Null? then Idle else Waiting(p)
    case Waiting(p) => pc' == Freeing(p)
    case Freeing(_) => pc' == Idle
  }

  /** Setters that take the flag exclude one another from the moment they take it until they clear it, even though
      the flag is cleared before the old snapshot is drained and freed. */
  lemma UpdatersExcludeEachOther<T(!new)>(run: seq<State<T>>, k: nat, i: nat, j: nat)
    requires Run(run) && k < |run| && run[k].flagged
    requires i < |run[k].pcs| && j < |run[k].pcs| && InUpdate(run[k].pcs[i]) && InUpdate(run[k].pcs[j])
    ensures i == j && run[k].update
  {
    RunInv(run, k);
  }

  /** The flag is set and nobody is left to clear it. */
  predicate Stuck<T>(s: State<T>) {
    s.flagged && s.update && forall i | 0 <= i < |s.pcs| :: !InUpdate(s.pcs[i])
  }

  /** What leaves the flag stuck is exactly the early return of a thread that has taken it and finds no session. */
  lemma StuckExactlyWithoutSession<T(!new)>(s: State<T>, i: nat, a: Action<T>)
    requires Inv(s) && Enabled(s, i, a) && s.flagged && !Stuck(s)
    ensures Stuck(Apply(s, i, a)) <==> a.CopySession? && !s.session
  {
    var s' := Apply(s, i, a);
    assert s'.pcs == s.pcs[i := s'.pcs[i]] by { GuardStep(s, i, a); }
    if a.CopySession? {
      assert InUpdate(s.pcs[i]);
    } else if s.update {
      var j :| 0 <= j < |s.pcs| && InUpdate(s.pcs[j]);
      assert InUpdate(s'.pcs[j]) || a.ClearFlag?;
    } else {
      assert s'.update ==> InUpdate(s'.pcs[i]);
    }
  }

  /** From then on the slot is never updated again. */
  lemma {:induction false} StuckForever<T(!new)>(run: seq<State<T>>, m: nat, n: nat)
    requires Run(run) && m <= n < |run| && Stuck(run[m])
    ensures Stuck(run[n]) && run[n].current == run[m].current
    decreases n - m
  {
    if m < n {
      StuckForever(run, m, n - 1);
      assert StepAt(run, n - 1);
      StuckStep(run[n - 1], run[n]);
    }
  }

  lemma StuckStep<T(!new)>(s: State<T>, s': State<T>)
    requires Stuck(s) && Next(s, s')
    ensures Stuck(s') && s'.current == s.current
  {
    var i: nat, a: Action<T> :| Enabled(s, i, a) && s' == Apply(s, i, a);
    assert !InUpdate(s.pcs[i]);
    GuardStep(s, i, a);
    FlagStep(s, i, a);
  }

  /** In the step after `k` a thread that has taken the flag finds no session and returns. */
  ghost predicate ReturnsEarly<T(!new)>(run: seq<State<T>>, k: nat) {
    && k + 1 < |run| && !run[k].session
    && exists i: nat :: i < |run[k].pcs| && i < |run[k + 1].pcs| && run[k].pcs[i].Updating? && run[k + 1].pcs[i].Idle?
  }

  lemma ReturnStep<T(!new)>(run: seq<State<T>>, k: nat)
    requires Run(run) && k + 1 < |run| && run[k].flagged && !Stuck(run[k])
    ensures Stuck(run[k + 1]) <==> ReturnsEarly(run, k)
    ensures run[k + 1].flagged
  {
    RunInv(run, k);
    assert StepAt(run, k);
    var s := run[k];
    var i: nat, a: Action<T> :| Enabled(s, i, a) && run[k + 1] == Apply(s, i, a);
    StuckExactlyWithoutSession(s, i, a);
    GuardStep(s, i, a);
    assert forall j: nat | j < |s.pcs| && s.pcs[j].Updating? && run[k + 1].pcs[j].Idle? :: j == i;
    assert a.CopySession? && !s.session ==> s.pcs[i].Updating? && run[k + 1].pcs[i].Idle?;
  }

  /** Over whole runs: the flag is stuck if and only if some thread that had taken it has found no session.  As long as there
      is one whenever a setter looks, the flag is never stuck. */
  lemma {:induction false} StuckExactly<T(!new)>(run: seq<State<T>>, k: nat)
    requires Run(run) && k < |run| && run[0].flagged
    ensures Stuck(run[k]) <==> exists j: nat :: j < k && ReturnsEarly(run, j)
    ensures run[k].flagged
  {
    hide ReturnsEarly, Next;
    if k > 0 {
      StuckExactly(run, k - 1);
      if Stuck(run[k - 1]) {
        StuckForever(run, k - 1, k);
      } else {
        ReturnStep(run, k - 1);
      }
    }
  }

  /** One thread, no session yet. */
  function Alone(update: bool, pc: Pc): State<int> {
    State(map[], Null, 0, update, [pc], true, false)
  }

  /** There is such a run. */
  lemma StuckReached() returns (run: seq<State<int>>)
    ensures Run(run) && Stuck(run[|run| - 1])
  {
    run := [Alone(false, Idle), Alone(true, Updating), Alone(true, Idle)];
    assert Enabled(run[0], 0, TryFlag) && Apply(run[0], 0, TryFlag) == run[1];
    assert Enabled(run[1], 0, CopySession) && Apply(run[1], 0, CopySession) == run[2];
    forall k: nat ensures StepAt(run, k) {
      assert k == 0 || k == 1 || k + 1 >= |run|;
    }
  }
}
