/** The publication protocol shared by every cached object (contest info, session, log, problem info,
    statement, runs, run info, source, messages, test data, top session, contest list).

    A slot holds a pointer to the current snapshot, a guard counter and an update flag; every snapshot
    carries its own reader counter.  The protocol is a state machine: any number of threads, each taking
    one atomic operation per step, under sequential consistency.  A weak compare-exchange that fails, for
    whatever reason, leaves the state alone, so it is the `Spin` action.

    Addresses may be reused: `Prepare` only asks that the new address is not allocated at the moment. */
module Snapshot {

  type Addr = nat

  /** The pointer stored in a slot; some slots start out as a null pointer. */
  datatype Ref = Null | At(addr: Addr)

  /** An allocated snapshot: what was fetched, and how many readers have announced themselves. */
  datatype Cell<T> = Cell(content: T, readers: int)

  /** Where a thread stands.  A thread that nests two critical sections is two threads here. */
  datatype Pc =
    | Idle
      // read_lock and read_unlock
    | Guarded                  // guard incremented
    | Loaded(p: Ref)           // pointer loaded, not counted yet
    | Counted(p: Ref)          // reader counter incremented
    | Reading(p: Ref)          // guard decremented: the caller may use the snapshot
      // try_write_lock and set
    | Updating                 // the exchange on the update flag returned 0
    | Fetching                 // a copy of the session was made
    | Prepared(q: Addr)        // new snapshot fetched, still private
    | Draining(prev: Ref)       // pointer exchanged, spinning on the guard
    | Unflagging(prev: Ref)    // guard was seen to be 0
    | Waiting(prev: Ref)       // update flag cleared, spinning on the old reader counter
    | Freeing(prev: Ref)       // old reader counter was seen to be 0

  datatype State<T> = State(
    heap: map<Addr, Cell<T>>,
    current: Ref,
    guard: int,
    update: bool,
    pcs: seq<Pc>,
    flagged: bool,             // whether setters of this slot take the update flag first
    session: bool              // whether the session that setters need is there
  )

  datatype Action<T> =
    | EnterGuard | LoadPointer | CountReader | LeaveGuard | Unlock
    | TryFlag | CopySession | Prepare(q: Addr, content: T) | Exchange
    | PassGuard | ClearFlag | PassReaders | Free
    | SetSession(there: bool)  // the session lives in a slot of its own
    | Spin

  predicate InHeap<T>(s: State<T>, p: Ref) {
    p.At? ==> p.addr in s.heap
  }

  ghost predicate Enabled<T(!new)>(s: State<T>, i: nat, a: Action<T>) {
    && i < |s.pcs|
    && var pc := s.pcs[i];
       match a
       case EnterGuard => pc.Idle?
       case LoadPointer => pc.Guarded?
       case CountReader => pc.Loaded? && InHeap(s, pc.p)
       case LeaveGuard => pc.Counted?
       case Unlock => pc.Reading? && InHeap(s, pc.p)
       case TryFlag => pc.Idle?
       case CopySession => pc.Updating?
       case Prepare(q, _) => (if s.flagged then pc.Fetching? else pc.Idle?) && q !in s.heap
       case Exchange => pc.Prepared?
       case PassGuard => pc.Draining? && s.guard == 0
       case ClearFlag => pc.Unflagging?
       case PassReaders => pc.Waiting? && pc.prev.At? && InHeap(s, pc.prev) && s.heap[pc.prev.addr].readers == 0
       case Free => pc.Freeing? && pc.prev.At? && InHeap(s, pc.prev)
       case SetSession(_) => true
       case Spin => true
  }

  function AddReaders<T>(heap: map<Addr, Cell<T>>, p: Ref, d: int): map<Addr, Cell<T>>
    requires p.At? ==> p.addr in heap
  {
    if p.Null? then heap
    else heap[p.addr := Cell(heap[p.addr].content, heap[p.addr].readers + d)]
  }

  ghost function Apply<T(!new)>(s: State<T>, i: nat, a: Action<T>): State<T>
    requires Enabled(s, i, a)
  {
    var pc := s.pcs[i];
    match a
    case EnterGuard => s.(guard := s.guard + 1, pcs := s.pcs[i := Guarded])
    case LoadPointer => s.(pcs := s.pcs[i := Loaded(s.current)])
    case CountReader => s.(heap := AddReaders(s.heap, pc.p, 1), pcs := s.pcs[i := Counted(pc.p)])
    case LeaveGuard => s.(guard := s.guard - 1, pcs := s.pcs[i := Reading(pc.p)])
    case Unlock => s.(heap := AddReaders(s.heap, pc.p, -1), pcs := s.pcs[i := Idle])
    case TryFlag => s.(update := true, pcs := s.pcs[i := if s.update then Idle else Updating])
    case CopySession => s.(pcs := s.pcs[i := if s.session then Fetching else Idle])
    case Prepare(q, c) => s.(heap := s.heap[q := Cell(c, 0)], pcs := s.pcs[i := Prepared(q)])
    case Exchange => s.(current := At(pc.q), pcs := s.pcs[i := Draining(s.current)])
    case PassGuard => s.(pcs := s.pcs[i := Unflagging(pc.prev)])
    case ClearFlag => s.(update := false, pcs := s.pcs[i := if pc.prev.Null? then Idle else Waiting(pc.prev)])
    case PassReaders => s.(pcs := s.pcs[i := Freeing(pc.prev)])
    case Free => s.(heap := s.heap - {pc.prev.addr}, pcs := s.pcs[i := Idle])
    case SetSession(there) => s.(session := there)
    case Spin => s
  }

  ghost predicate Next<T(!new)>(s: State<T>, s': State<T>) {
    exists i: nat, a: Action<T> :: Enabled(s, i, a) && s' == Apply(s, i, a)
  }

  /** A slot starts idle, holding nothing or one snapshot nobody reads yet. */
  ghost predicate Init<T(!new)>(s: State<T>) {
    && s.guard == 0 && !s.update
    && (forall i | 0 <= i < |s.pcs| :: s.pcs[i] == Idle)
    && match s.current
       case Null => s.heap == map[]
       case At(a) => s.heap.Keys == {a} && s.heap[a].readers == 0
  }

  ghost predicate StepAt<T(!new)>(run: seq<State<T>>, k: nat) {
    k + 1 < |run| ==> Next(run[k], run[k + 1])
  }

  ghost predicate Run<T(!new)>(run: seq<State<T>>) {
    |run| > 0 && Init(run[0]) && forall k: nat :: StepAt(run, k)
  }

  // ----- counting threads -----

  /** The two sets of threads that the protocol counts. */
  datatype Role = InGuard | HoldsRef(addr: Addr)

  predicate Plays(pc: Pc, r: Role) {
    match r
    case InGuard => pc.Guarded? || pc.Loaded? || pc.Counted?
    case HoldsRef(a) => (pc.Counted? || pc.Reading?) && pc.p == At(a)
  }

  function Count(pcs: seq<Pc>, r: Role): nat {
    if pcs == [] then 0 else Count(pcs[..|pcs| - 1], r) + if Plays(pcs[|pcs| - 1], r) then 1 else 0
  }

  lemma {:induction false} CountUpdate(pcs: seq<Pc>, r: Role, i: nat, pc: Pc)
    requires i < |pcs|
    ensures Count(pcs[i := pc], r)
         == Count(pcs, r) - (if Plays(pcs[i], r) then 1 else 0) + (if Plays(pc, r) then 1 else 0)
  {
    var n := |pcs| - 1;
    if i == n {
      assert pcs[i := pc][..n] == pcs[..n];
    } else {
      assert pcs[i := pc][..n] == pcs[..n][i := pc];
      CountUpdate(pcs[..n], r, i, pc);
    }
  }

  /** A counter at zero means that nobody plays the role. */
  lemma {:induction false} CountZero(pcs: seq<Pc>, r: Role)
    ensures Count(pcs, r) == 0 <==> forall i | 0 <= i < |pcs| :: !Plays(pcs[i], r)
  {
    if pcs != [] {
      var n := |pcs| - 1;
      CountZero(pcs[..n], r);
      if Count(pcs, r) == 0 {
        forall i | 0 <= i < |pcs| ensures !Plays(pcs[i], r) {
          if i < n { assert !Plays(pcs[..n][i], r); }
        }
      }
    }
  }

  // ----- the invariant -----

  /** A thread owns a snapshot from the moment it allocates it until it publishes it, and again
      from the moment its exchange takes the snapshot out of the slot until it frees it. */
  predicate Owns(pc: Pc, a: Addr) {
    || (pc.Prepared? && pc.q == a)
    || ((pc.Draining? || pc.Unflagging? || pc.Waiting? || pc.Freeing?) && pc.prev == At(a))
  }

  /** A thread has loaded the pointer to a snapshot and not given it back. */
  predicate Holds(pc: Pc, b: Addr) {
    (pc.Loaded? || pc.Counted? || pc.Reading?) && pc.p == At(b)
  }

  predicate InUpdate(pc: Pc) {
    pc.Updating? || pc.Fetching? || pc.Prepared? || pc.Draining? || pc.Unflagging?
  }

  ghost predicate CountersExact<T(!new)>(s: State<T>) {
    && s.guard == Count(s.pcs, InGuard)
    && forall a | a in s.heap :: s.heap[a].readers == Count(s.pcs, HoldsRef(a))
  }

  /** Every allocated snapshot is the current one or has an owner, never both, and never two owners. */
  ghost predicate OneOwner<T(!new)>(s: State<T>) {
    && InHeap(s, s.current)
    && (forall i, a | 0 <= i < |s.pcs| && Owns(s.pcs[i], a) :: a in s.heap && s.current != At(a))
    && (forall i, j, a | 0 <= i < |s.pcs| && 0 <= j < |s.pcs| && Owns(s.pcs[i], a) && Owns(s.pcs[j], a) :: i == j)
    && (forall a | a in s.heap :: s.current == At(a) || exists i :: 0 <= i < |s.pcs| && Owns(s.pcs[i], a))
  }

  /** Whether `holder`'s pointer is still protected from `owner`: a loaded pointer that is not counted yet can only be
      retired by a thread that has still to see the guard at zero, a counted one only by a thread that has still to
      see the reader counter at zero. */
  predicate RetiresLate(holder: Pc, owner: Pc) {
    owner.Draining? || (!holder.Loaded? && (owner.Unflagging? || owner.Waiting?))
  }

  ghost predicate RetirementOrdered<T(!new)>(s: State<T>) {
    forall j, b | 0 <= j < |s.pcs| && Holds(s.pcs[j], b) ::
      && b in s.heap
      && forall k | 0 <= k < |s.pcs| && Owns(s.pcs[k], b) :: RetiresLate(s.pcs[j], s.pcs[k])
  }

  /** In a slot whose setters take the flag, one thread at a time is between taking and clearing it. */
  ghost predicate OneUpdater<T(!new)>(s: State<T>) {
    s.flagged ==>
      && (forall i | 0 <= i < |s.pcs| && InUpdate(s.pcs[i]) :: s.update)
      && (forall i, j | 0 <= i < |s.pcs| && 0 <= j < |s.pcs| && InUpdate(s.pcs[i]) && InUpdate(s.pcs[j]) :: i == j)
  }

  ghost predicate NonNullOwner<T(!new)>(s: State<T>) {
    forall i | 0 <= i < |s.pcs| && (s.pcs[i].Waiting? || s.pcs[i].Freeing?) :: s.pcs[i].prev.At?
  }

  ghost predicate Inv<T(!new)>(s: State<T>) {
    CountersExact(s) && OneOwner(s) && RetirementOrdered(s) && OneUpdater(s) && NonNullOwner(s)
  }

  lemma InitInv<T(!new)>(s: State<T>)
    requires Init(s)
    ensures Inv(s)
  {
    CountZero(s.pcs, InGuard);
    forall a | a in s.heap ensures Count(s.pcs, HoldsRef(a)) == 0 {
      CountZero(s.pcs, HoldsRef(a));
    }
  }

  /** Only the acting thread's program counter changes, and with it the guard. */
  lemma GuardStep<T(!new)>(s: State<T>, i: nat, a: Action<T>)
    requires Enabled(s, i, a)
    ensures var s' := Apply(s, i, a);
      && i < |s'.pcs| && s'.pcs == s.pcs[i := s'.pcs[i]]
      && s'.guard - s.guard == (if Plays(s'.pcs[i], InGuard) then 1 else 0) - (if Plays(s.pcs[i], InGuard) then 1 else 0)
  {
    if a.Spin? || a.SetSession? { assert s.pcs == s.pcs[i := s.pcs[i]]; }
  }

  /** A reader counter follows the acting thread's role. */
  lemma ReadersStep<T(!new)>(s: State<T>, i: nat, a: Action<T>, b: Addr)
    requires Enabled(s, i, a) && b in s.heap && b in Apply(s, i, a).heap
    requires !(a.Prepare? && a.q == b)
    ensures var s' := Apply(s, i, a);
      && i < |s'.pcs| && s'.heap[b].content == s.heap[b].content
      && s'.heap[b].readers - s.heap[b].readers
           == (if Plays(s'.pcs[i], HoldsRef(b)) then 1 else 0) - (if Plays(s.pcs[i], HoldsRef(b)) then 1 else 0)
  {
  }

  lemma CountersStep<T(!new)>(s: State<T>, i: nat, a: Action<T>)
    requires CountersExact(s) && RetirementOrdered(s) && Enabled(s, i, a)
    ensures CountersExact(Apply(s, i, a))
  {
    var s' := Apply(s, i, a);
    GuardStep(s, i, a);
    CountUpdate(s.pcs, InGuard, i, s'.pcs[i]);
    forall b | b in s'.heap ensures s'.heap[b].readers == Count(s'.pcs, HoldsRef(b)) {
      CountUpdate(s.pcs, HoldsRef(b), i, s'.pcs[i]);
      if a.Prepare? && a.q == b {
        CountZero(s.pcs, HoldsRef(b));
      } else {
        ReadersStep(s, i, a, b);
      }
    }
  }

  /** How ownership moves: only `Prepare`, `Exchange` and `Free` matter, and all of them keep the rest. */
  ghost predicate OwnershipMoves<T(!new)>(s: State<T>, s': State<T>, i: nat, a: Action<T>, b: Addr) {
    && i < |s.pcs| && i < |s'.pcs| && s'.pcs == s.pcs[i := s'.pcs[i]]
    && (a.Prepare? ==> a.q !in s.heap && !Owns(s.pcs[i], b))
    && (a.Exchange? ==> s.pcs[i].Prepared?)
    && (a.Free? ==> s.pcs[i].Freeing?)
    && (b in s'.heap <==> (b in s.heap && !(a.Free? && s.pcs[i] == Freeing(At(b)))) || (a.Prepare? && a.q == b))
    && s'.current == (if a.Exchange? then At(s.pcs[i].q) else s.current)
    && (Owns(s'.pcs[i], b) <==>
         if a.Prepare? then a.q == b
         else if a.Exchange? then s.current == At(b)
         else !a.Free? && Owns(s.pcs[i], b))
  }

  lemma OwnsStep<T(!new)>(s: State<T>, i: nat, a: Action<T>, b: Addr)
    requires Enabled(s, i, a)
    ensures OwnershipMoves(s, Apply(s, i, a), i, a, b)
  {
    if a.Spin? || a.SetSession? { assert s.pcs == s.pcs[i := s.pcs[i]]; }
  }

  lemma OwnedOnce<T(!new)>(s: State<T>, s': State<T>, i: nat, a: Action<T>, j: nat, b: Addr)
    requires OneOwner(s) && OwnershipMoves(s, s', i, a, b)
    requires j < |s.pcs| && Owns(s'.pcs[j], b)
    ensures b in s'.heap && s'.current != At(b)
    ensures forall k | 0 <= k < |s'.pcs| && Owns(s'.pcs[k], b) :: j == k
  {
    assert s.pcs[i] == Freeing(At(b)) ==> Owns(s.pcs[i], b);
    if a.Exchange? { assert Owns(s.pcs[i], s.pcs[i].q); }
  }

  lemma OwnedOrCurrent<T(!new)>(s: State<T>, s': State<T>, i: nat, a: Action<T>, b: Addr)
    requires OneOwner(s) && OwnershipMoves(s, s', i, a, b) && b in s'.heap
    ensures s'.current == At(b) || exists j :: 0 <= j < |s'.pcs| && Owns(s'.pcs[j], b)
  {
    if s'.current != At(b) && !Owns(s'.pcs[i], b) {
      var j :| 0 <= j < |s.pcs| && Owns(s.pcs[j], b);
      assert Owns(s'.pcs[j], b);
    }
  }

  lemma OwnerStep<T(!new)>(s: State<T>, s': State<T>, i: nat, a: Action<T>)
    requires OneOwner(s) && forall b :: OwnershipMoves(s, s', i, a, b)
    ensures OneOwner(s')
  {
    assert OwnershipMoves(s, s', i, a, 0);
    forall j, b | 0 <= j < |s'.pcs| && Owns(s'.pcs[j], b)
      ensures b in s'.heap && s'.current != At(b)
    {
      OwnedOnce(s, s', i, a, j, b);
    }
    forall j, k, b | 0 <= j < |s'.pcs| && 0 <= k < |s'.pcs| && Owns(s'.pcs[j], b) && Owns(s'.pcs[k], b)
      ensures j == k
    {
      OwnedOnce(s, s', i, a, j, b);
    }
    forall b | b in s'.heap
      ensures s'.current == At(b) || exists j :: 0 <= j < |s'.pcs| && Owns(s'.pcs[j], b)
    {
      OwnedOrCurrent(s, s', i, a, b);
    }
    if s'.current.At? {
      assert OwnershipMoves(s, s', i, a, s'.current.addr);
      if a.Exchange? { assert Owns(s.pcs[i], s.pcs[i].q); }
      assert s.pcs[i] == Freeing(s'.current) ==> Owns(s.pcs[i], s'.current.addr);
    }
  }

  /** The critical steps: the guard at zero leaves no uncounted pointer, the counter at zero no counted one. */
  lemma NobodyLeft<T(!new)>(s: State<T>, i: nat, a: Action<T>, b: Addr)
    requires CountersExact(s) && Enabled(s, i, a)
    ensures a.PassGuard? ==> forall j | 0 <= j < |s.pcs| :: s.pcs[j] != Loaded(At(b))
    ensures a.PassReaders? && s.pcs[i] == Waiting(At(b)) ==> forall j | 0 <= j < |s.pcs| :: !Plays(s.pcs[j], HoldsRef(b))
  {
    CountZero(s.pcs, InGuard);
    CountZero(s.pcs, HoldsRef(b));
    if a.PassGuard? {
      forall j | 0 <= j < |s.pcs| ensures s.pcs[j] != Loaded(At(b)) {
        assert !Plays(s.pcs[j], InGuard);
      }
    }
  }

  /** A thread newly holds only the current snapshot, and what is held stays allocated. */
  lemma HoldStep<T(!new)>(s: State<T>, i: nat, a: Action<T>, j: nat, b: Addr)
    requires OneOwner(s) && RetirementOrdered(s) && Enabled(s, i, a)
    requires j < |s.pcs| && Holds(Apply(s, i, a).pcs[j], b)
    ensures b in Apply(s, i, a).heap && b in s.heap
    ensures Holds(s.pcs[j], b) || (i == j && s.current == At(b) && a.LoadPointer?)
  {
    OwnsStep(s, i, a, b);
    assert i != j && Holds(s.pcs[j], b) && Owns(s.pcs[i], b) ==> RetiresLate(s.pcs[j], s.pcs[i]);
  }

  /** How an owner advances through the stages of `set`. */
  ghost predicate StageMoves<T(!new)>(s: State<T>, s': State<T>, i: nat, a: Action<T>, b: Addr) {
    && i < |s.pcs| && i < |s'.pcs|
    && (Owns(s'.pcs[i], b) ==>
         || (a.Prepare? && b !in s.heap)
         || s'.pcs[i].Draining?
         || (a.PassGuard? && s.pcs[i].Draining? && s'.pcs[i].Unflagging?)
         || (a.ClearFlag? && s.pcs[i].Unflagging? && s'.pcs[i].Waiting?)
         || (a.PassReaders? && s.pcs[i] == Waiting(At(b)))
         || s'.pcs[i] == s.pcs[i])
    && (Holds(s'.pcs[i], b) && !s'.pcs[i].Loaded? ==> Holds(s.pcs[i], b))
    && (s'.pcs[i].Loaded? ==> s'.pcs[i] == s.pcs[i] || s.pcs[i].Guarded?)
  }

  lemma StageStep<T(!new)>(s: State<T>, i: nat, a: Action<T>, b: Addr)
    requires Enabled(s, i, a)
    ensures StageMoves(s, Apply(s, i, a), i, a, b)
  {
  }

  lemma RetiresLateStep<T(!new)>(s: State<T>, s': State<T>, i: nat, a: Action<T>, j: nat, k: nat, b: Addr)
    requires OneOwner(s) && RetirementOrdered(s)
    requires OwnershipMoves(s, s', i, a, b) && StageMoves(s, s', i, a, b)
    requires a.PassGuard? ==> forall j | 0 <= j < |s.pcs| :: s.pcs[j] != Loaded(At(b))
    requires a.PassReaders? && s.pcs[i] == Waiting(At(b)) ==> forall j | 0 <= j < |s.pcs| :: !Plays(s.pcs[j], HoldsRef(b))
    requires j < |s.pcs| && k < |s.pcs| && Holds(s'.pcs[j], b) && Owns(s'.pcs[k], b)
    requires b in s.heap && (Holds(s.pcs[j], b) || (i == j && s.current == At(b) && a.LoadPointer?))
    ensures RetiresLate(s'.pcs[j], s'.pcs[k])
  {
  }

  lemma RetirementStep<T(!new)>(s: State<T>, i: nat, a: Action<T>)
    requires CountersExact(s) && OneOwner(s) && RetirementOrdered(s) && Enabled(s, i, a)
    ensures RetirementOrdered(Apply(s, i, a))
  {
    var s' := Apply(s, i, a);
    assert s'.pcs == s.pcs[i := s'.pcs[i]] by { OwnsStep(s, i, a, 0); }
    forall j, b | 0 <= j < |s'.pcs| && Holds(s'.pcs[j], b)
      ensures b in s'.heap
      ensures forall k | 0 <= k < |s'.pcs| && Owns(s'.pcs[k], b) :: RetiresLate(s'.pcs[j], s'.pcs[k])
    {
      HoldStep(s, i, a, j, b);
      forall k | 0 <= k < |s'.pcs| && Owns(s'.pcs[k], b) ensures RetiresLate(s'.pcs[j], s'.pcs[k]) {
        OwnsStep(s, i, a, b);
        StageStep(s, i, a, b);
        NobodyLeft(s, i, a, b);
        RetiresLateStep(s, s', i, a, j, k, b);
      }
    }
  }

  /** How the update flag moves. */
  ghost predicate FlagMoves<T(!new)>(s: State<T>, s': State<T>, i: nat, a: Action<T>) {
    && i < |s.pcs| && i < |s'.pcs| && s'.pcs == s.pcs[i := s'.pcs[i]] && s'.flagged == s.flagged
    && (s.flagged && InUpdate(s'.pcs[i]) && !InUpdate(s.pcs[i]) ==> !s.update && s'.update)
    && (s.update && !s'.update ==> InUpdate(s.pcs[i]) && !InUpdate(s'.pcs[i]))
    && (s'.pcs[i].Waiting? || s'.pcs[i].Freeing? ==>
          s'.pcs[i].prev.At? || s'.pcs[i] == s.pcs[i] || s.pcs[i] == Waiting(s'.pcs[i].prev))
  }

  lemma FlagStep<T(!new)>(s: State<T>, i: nat, a: Action<T>)
    requires Enabled(s, i, a)
    ensures FlagMoves(s, Apply(s, i, a), i, a)
  {
    if a.Spin? || a.SetSession? { assert s.pcs == s.pcs[i := s.pcs[i]]; }
  }

  lemma UpdaterStep<T(!new)>(s: State<T>, s': State<T>, i: nat, a: Action<T>)
    requires OneUpdater(s) && NonNullOwner(s) && FlagMoves(s, s', i, a)
    ensures OneUpdater(s') && NonNullOwner(s')
  {
  }

  lemma NextInv<T(!new)>(s: State<T>, s': State<T>)
    requires Inv(s) && Next(s, s')
    ensures Inv(s')
  {
    var i: nat, a: Action<T> :| Enabled(s, i, a) && s' == Apply(s, i, a);
    CountersStep(s, i, a);
    forall b ensures OwnershipMoves(s, s', i, a, b) { OwnsStep(s, i, a, b); }
    OwnerStep(s, s', i, a);
    RetirementStep(s, i, a);
    FlagStep(s, i, a);
    UpdaterStep(s, s', i, a);
  }

  lemma {:induction false} RunInv<T(!new)>(run: seq<State<T>>, k: nat)
    requires Run(run) && k < |run|
    ensures Inv(run[k])
  {
    if k == 0 {
      InitInv(run[0]);
    } else {
      RunInv(run, k - 1);
      assert StepAt(run, k - 1);
      NextInv(run[k - 1], run[k]);
    }
  }

  // ----- what the protocol guarantees -----

  /** The snapshot a thread is entitled to dereference, count on, drain or free. */
  function Touches(pc: Pc): Ref {
    match pc
    case Loaded(p) => p
    case Counted(p) => p
    case Reading(p) => p
    case Prepared(q) => At(q)
    case Draining(prev) => prev
    case Unflagging(prev) => prev
    case Waiting(prev) => prev
    case Freeing(prev) => prev
    case _ => Null
  }

  ghost predicate Safe<T(!new)>(s: State<T>) {
      // nobody touches freed memory, in particular nobody frees twice
    && (forall i | 0 <= i < |s.pcs| :: InHeap(s, Touches(s.pcs[i])))
      // a snapshot about to be freed is neither current nor held by any reader, counted or not
    && (forall i, j, a | 0 <= i < |s.pcs| && 0 <= j < |s.pcs| && s.pcs[i] == Freeing(At(a)) ::
          s.current != At(a) && !Holds(s.pcs[j], a))
      // every allocated snapshot is current or in the hands of exactly one setter: nothing leaks
    && (forall a | a in s.heap && s.current != At(a) :: exists i :: 0 <= i < |s.pcs| && Owns(s.pcs[i], a))
    && (forall a, i, j | 0 <= i < |s.pcs| && 0 <= j < |s.pcs| && Owns(s.pcs[i], a) && Owns(s.pcs[j], a) :: i == j)
      // the counters count threads
    && s.guard == Count(s.pcs, InGuard)
    && (forall a | a in s.heap :: s.heap[a].readers == Count(s.pcs, HoldsRef(a)))
  }

  lemma InvSafe<T(!new)>(s: State<T>)
    requires Inv(s)
    ensures Safe(s)
  {
    forall i | 0 <= i < |s.pcs| ensures InHeap(s, Touches(s.pcs[i])) {
      if Touches(s.pcs[i]).At? {
        var a := Touches(s.pcs[i]).addr;
        assert Holds(s.pcs[i], a) || Owns(s.pcs[i], a);
      }
    }
    forall i, j, a | 0 <= i < |s.pcs| && 0 <= j < |s.pcs| && s.pcs[i] == Freeing(At(a))
      ensures s.current != At(a) && !Holds(s.pcs[j], a)
    {
      assert Owns(s.pcs[i], a);
      assert Holds(s.pcs[j], a) ==> RetiresLate(s.pcs[j], s.pcs[i]);
    }
  }

  predicate HoldsAt<T>(s: State<T>, j: nat, b: Addr) {
    j < |s.pcs| && Holds(s.pcs[j], b)
  }
}
