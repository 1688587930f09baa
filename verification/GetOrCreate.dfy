/** Get-or-create under a read-write lock, interleaved: any number of threads search under the read lock and, where that
    misses, search again under the write lock and create.  What one section finds in the array is what `SortedIndex` and
    `DirectIndex` prove about it: the object of the id, or nothing. */
module GetOrCreate {

  type Obj = nat

  datatype Pc =
    | Idle
    | Called(id: int)
      // under the read lock
    | Searching(id: int) | Hit(id: int, obj: Obj) | Miss(id: int)
      // between the locks
    | Missed(id: int)
      // under the write lock
    | Rechecking(id: int) | Absent(id: int) | Present(id: int, obj: Obj)
      // unlocked, about to return
    | Got(id: int, obj: Obj)

  /** A call took effect: it found its object or created it. */
  datatype Event = Event(thread: nat, id: int, obj: Obj)

  datatype State = State(index: map<int, Obj>, next: Obj, log: seq<Event>, pcs: seq<Pc>)

  datatype Action =
    | Call(id: int) | LockRead | Search | UnlockRead | LockWrite | Recheck | Create | UnlockWrite | Return

  predicate InRead(pc: Pc) {
    pc.Searching? || pc.Hit? || pc.Miss?
  }

  predicate InWrite(pc: Pc) {
    pc.Rechecking? || pc.Absent? || pc.Present?
  }

  ghost predicate NoWriter(pcs: seq<Pc>) {
    forall j | 0 <= j < |pcs| :: !InWrite(pcs[j])
  }

  ghost predicate NoReader(pcs: seq<Pc>) {
    forall j | 0 <= j < |pcs| :: !InRead(pcs[j])
  }

  ghost predicate Enabled(s: State, i: nat, a: Action) {
    && i < |s.pcs|
    && var pc := s.pcs[i];
       match a
       case Call(_) => pc.Idle?
       case LockRead => pc.Called? && NoWriter(s.pcs)
       case Search => pc.Searching?
       case UnlockRead => pc.Hit? || pc.Miss?
       case LockWrite => pc.Missed? && NoWriter(s.pcs) && NoReader(s.pcs)
       case Recheck => pc.Rechecking?
       case Create => pc.Absent?
       case UnlockWrite => pc.Present?
       case Return => pc.Got?
  }

  ghost function Apply(s: State, i: nat, a: Action): State
    requires Enabled(s, i, a)
  {
    var pc := s.pcs[i];
    match a
    case Call(id) => s.(pcs := s.pcs[i := Called(id)])
    case LockRead => s.(pcs := s.pcs[i := Searching(pc.id)])
    case Search =>
      if pc.id in s.index then
        s.(log := s.log + [Event(i, pc.id, s.index[pc.id])], pcs := s.pcs[i := Hit(pc.id, s.index[pc.id])])
      else s.(pcs := s.pcs[i := Miss(pc.id)])
    case UnlockRead => s.(pcs := s.pcs[i := if pc.Hit? then Got(pc.id, pc.obj) else Missed(pc.id)])
    case LockWrite => s.(pcs := s.pcs[i := Rechecking(pc.id)])
    case Recheck =>
      if pc.id in s.index then
        s.(log := s.log + [Event(i, pc.id, s.index[pc.id])], pcs := s.pcs[i := Present(pc.id, s.index[pc.id])])
      else s.(pcs := s.pcs[i := Absent(pc.id)])
    case Create =>
      s.(index := s.index[pc.id := s.next], next := s.next + 1, log := s.log + [Event(i, pc.id, s.next)],
         pcs := s.pcs[i := Present(pc.id, s.next)])
    case UnlockWrite => s.(pcs := s.pcs[i := Got(pc.id, pc.obj)])
    case Return => s.(pcs := s.pcs[i := Idle])
  }

  ghost predicate Next(s: State, s': State) {
    exists i: nat, a: Action :: Enabled(s, i, a) && s' == Apply(s, i, a)
  }

  ghost predicate Init(s: State) {
    s.index == map[] && s.log == [] && forall i | 0 <= i < |s.pcs| :: s.pcs[i] == Idle
  }

  ghost predicate StepAt(run: seq<State>, k: nat) {
    k + 1 < |run| ==> Next(run[k], run[k + 1])
  }

  ghost predicate Run(run: seq<State>) {
    |run| > 0 && Init(run[0]) && forall k: nat :: StepAt(run, k)
  }

  // ----- the invariant -----

  ghost predicate LockOk(pcs: seq<Pc>) {
    forall i, j | 0 <= i < |pcs| && 0 <= j < |pcs| && InWrite(pcs[i]) && (InWrite(pcs[j]) || InRead(pcs[j])) :: i == j
  }

  /** Different ids have different objects. */
  ghost predicate IndexOk(s: State) {
    && (forall id | id in s.index :: s.index[id] < s.next)
    && (forall id, jd | id in s.index && jd in s.index && s.index[id] == s.index[jd] :: id == jd)
  }

  /** Every call that took effect got the object that its id has now and will keep. */
  ghost predicate LogOk(s: State) {
    forall x | 0 <= x < |s.log| :: s.log[x].id in s.index && s.index[s.log[x].id] == s.log[x].obj
  }

  ghost predicate PcOk(s: State, i: nat, pc: Pc) {
    && (pc.Absent? ==> pc.id !in s.index)
    && (pc.Hit? || pc.Present? || pc.Got? ==> Event(i, pc.id, pc.obj) in s.log)
  }

  ghost predicate PcsOk(s: State) {
    forall i | 0 <= i < |s.pcs| :: PcOk(s, i, s.pcs[i])
  }

  ghost predicate Inv(s: State) {
    LockOk(s.pcs) && IndexOk(s) && LogOk(s) && PcsOk(s)
  }

  lemma InitInv(s: State)
    requires Init(s)
    ensures Inv(s)
  {
  }

  // ----- what a step does -----

  ghost predicate ThreadMoves(s: State, s': State, i: nat, pc: Pc, pc': Pc) {
    && i < |s.pcs| && s.pcs[i] == pc && s'.pcs == s.pcs[i := pc']
    && (InWrite(pc') ==> InWrite(pc) || (NoWriter(s.pcs) && NoReader(s.pcs)))
    && (InRead(pc') ==> InRead(pc) || NoWriter(s.pcs))
  }

  /** Under the write lock an absent id gets a new object; nothing else changes the index. */
  ghost predicate IndexMoves(s: State, s': State, pc: Pc) {
    if pc.Absent? then s'.index == s.index[pc.id := s.next] && s'.next == s.next + 1
    else s'.index == s.index && s'.next == s.next
  }

  /** The log grows by what the acting thread found or created. */
  ghost predicate LogMoves(s: State, s': State, i: nat, pc': Pc) {
    s'.log == s.log ||
    ((pc'.Hit? || pc'.Present?) && s'.log == s.log + [Event(i, pc'.id, pc'.obj)]
     && pc'.id in s'.index && s'.index[pc'.id] == pc'.obj)
  }

  lemma StepFacts(s: State, i: nat, a: Action)
    requires Enabled(s, i, a)
    ensures var s' := Apply(s, i, a);
      i < |s'.pcs| && ThreadMoves(s, s', i, s.pcs[i], s'.pcs[i]) && IndexMoves(s, s', s.pcs[i])
      && LogMoves(s, s', i, s'.pcs[i])
  {
  }

  lemma StepPc(s: State, i: nat, a: Action)
    requires Enabled(s, i, a) && PcOk(s, i, s.pcs[i])
    ensures PcOk(Apply(s, i, a), i, Apply(s, i, a).pcs[i])
  {
  }

  lemma LockStep(s: State, s': State, i: nat, pc: Pc, pc': Pc)
    requires LockOk(s.pcs) && ThreadMoves(s, s', i, pc, pc')
    ensures LockOk(s'.pcs)
  {
  }

  lemma IndexStep(s: State, s': State, i: nat, pc: Pc, pc': Pc)
    requires IndexOk(s) && LogOk(s) && PcOk(s, i, pc) && IndexMoves(s, s', pc) && LogMoves(s, s', i, pc')
    ensures IndexOk(s') && LogOk(s')
  {
  }

  lemma PcsStep(s: State, s': State, i: nat, pc: Pc, pc': Pc)
    requires LockOk(s.pcs) && PcsOk(s) && ThreadMoves(s, s', i, pc, pc') && IndexMoves(s, s', pc) && LogMoves(s, s', i, pc')
    requires PcOk(s', i, pc')
    ensures PcsOk(s')
  {
    forall j | 0 <= j < |s'.pcs| ensures PcOk(s', j, s'.pcs[j]) {
      if j != i { assert s'.pcs[j] == s.pcs[j] && PcOk(s, j, s.pcs[j]); }
    }
  }

  lemma NextInv(s: State, s': State)
    requires Inv(s) && Next(s, s')
    ensures Inv(s')
  {
    var i: nat, a: Action :| Enabled(s, i, a) && s' == Apply(s, i, a);
    assert PcOk(s, i, s.pcs[i]);
    StepFacts(s, i, a);
    StepPc(s, i, a);
    var pc, pc' := s.pcs[i], s'.pcs[i];
    hide Apply, Enabled;
    LockStep(s, s', i, pc, pc');
    IndexStep(s, s', i, pc, pc');
    PcsStep(s, s', i, pc, pc');
  }

  lemma {:induction false} RunInv(run: seq<State>, k: nat)
    requires Run(run) && k < |run|
    ensures Inv(run[k])
  {
    hide Inv, Next, Init;
    if k == 0 {
      InitInv(run[0]);
    } else {
      RunInv(run, k - 1);
      assert StepAt(run, k - 1);
      NextInv(run[k - 1], run[k]);
    }
  }

  // ----- results -----

  /** Growth never changes the object of an id that is there. */
  lemma IndexKeeps(s: State, s': State)
    requires Inv(s) && Next(s, s')
    ensures forall id | id in s.index :: id in s'.index && s'.index[id] == s.index[id]
    ensures |s.log| <= |s'.log| && s'.log[..|s.log|] == s.log
  {
    var i: nat, a: Action :| Enabled(s, i, a) && s' == Apply(s, i, a);
    assert PcOk(s, i, s.pcs[i]);
    StepFacts(s, i, a);
  }

  lemma {:induction false} ObjectsStay(run: seq<State>, k: nat, l: nat, id: int)
    requires Run(run) && k <= l < |run| && id in run[k].index
    ensures id in run[l].index && run[l].index[id] == run[k].index[id]
    decreases l
  {
    hide Inv, Next, Init;
    if k < l {
      ObjectsStay(run, k, l - 1, id);
      RunInv(run, l - 1);
      assert StepAt(run, l - 1);
      IndexKeeps(run[l - 1], run[l]);
    }
  }

  /** Linearizability: in the order in which calls take effect, each between its call and its return, two calls get the
      same object exactly when they ask for the same id; and what a call is about to return is what it got then. */
  lemma CallsAgree(run: seq<State>, k: nat, x: nat, y: nat)
    requires Run(run) && k < |run| && x < |run[k].log| && y < |run[k].log|
    ensures run[k].log[x].id == run[k].log[y].id <==> run[k].log[x].obj == run[k].log[y].obj
    ensures forall i | 0 <= i < |run[k].pcs| && run[k].pcs[i].Got? ::
              Event(i, run[k].pcs[i].id, run[k].pcs[i].obj) in run[k].log
  {
    RunInv(run, k);
    forall i | 0 <= i < |run[k].pcs| && run[k].pcs[i].Got?
      ensures Event(i, run[k].pcs[i].id, run[k].pcs[i].obj) in run[k].log
    {
      assert PcOk(run[k], i, run[k].pcs[i]);
    }
  }

  /** Two threads about to return for the same id return the same object, also when both missed it at first. */
  lemma ReturnsAgree(run: seq<State>, k: nat, i: nat, j: nat)
    requires Run(run) && k < |run| && i < |run[k].pcs| && j < |run[k].pcs|
    requires run[k].pcs[i].Got? && run[k].pcs[j].Got?
    ensures run[k].pcs[i].id == run[k].pcs[j].id <==> run[k].pcs[i].obj == run[k].pcs[j].obj
  {
    RunInv(run, k);
    assert PcOk(run[k], i, run[k].pcs[i]) && PcOk(run[k], j, run[k].pcs[j]);
  }

  /** While a thread holds the lock to read, the array stands still, so that its search may be seen as one step. */
  lemma StandsStillForReaders(s: State, s': State, i: nat)
    requires Inv(s) && Next(s, s') && i < |s.pcs| && InRead(s.pcs[i])
    ensures s'.index == s.index
  {
    var j: nat, a: Action :| Enabled(s, j, a) && s' == Apply(s, j, a);
    StepFacts(s, j, a);
  }

  predicate Effective(pc: Pc) {
    pc.Hit? || pc.Present? || pc.Got?
  }

  /** A call takes effect once: the log grows exactly in the step in which the acting thread gets its object, and from
      there only its return leads back. */
  lemma EffectOnce(s: State, i: nat, a: Action)
    requires Enabled(s, i, a)
    ensures
      var s' := Apply(s, i, a);
      && |s'.pcs| == |s.pcs|
      && (|s'.log| == |s.log| + 1 <==> !Effective(s.pcs[i]) && Effective(s'.pcs[i]))
      && (Effective(s.pcs[i]) && !Effective(s'.pcs[i]) <==> a.Return?)
      && (s.pcs[i].Idle? ==> !Effective(s'.pcs[i]))
  {
  }

  /** What is in the index was put there by a call for that id, and every id with an effect is there. */
  lemma {:induction false} IndexIsLogged(run: seq<State>, k: nat, id: int)
    requires Run(run) && k < |run|
    ensures id in run[k].index <==> exists x :: 0 <= x < |run[k].log| && run[k].log[x].id == id
    decreases k
  {
    hide Inv, Next;
    if k == 0 {
      assert Init(run[0]);
    } else {
      IndexIsLogged(run, k - 1, id);
      RunInv(run, k - 1);
      assert StepAt(run, k - 1);
      LoggedStep(run[k - 1], run[k], id);
    }
  }

  lemma LoggedStep(s: State, s': State, id: int)
    requires Inv(s) && Next(s, s')
    requires id in s.index <==> exists x :: 0 <= x < |s.log| && s.log[x].id == id
    ensures id in s'.index <==> exists x :: 0 <= x < |s'.log| && s'.log[x].id == id
  {
    NextInv(s, s');
    IndexKeeps(s, s');
    var i: nat, a: Action :| Enabled(s, i, a) && s' == Apply(s, i, a);
    StepFacts(s, i, a);
    AbsentLogged(s, i, a);
    hide Apply, Enabled, Inv, Next;
    if x :| 0 <= x < |s.log| && s.log[x].id == id { assert s'.log[x] == s.log[x]; }
    if id in s'.index && id !in s.index { assert s'.log[|s.log|].id == id; }
  }

  lemma AbsentLogged(s: State, i: nat, a: Action)
    requires Enabled(s, i, a)
    ensures Inv(Apply(s, i, a)) ==> LogOk(Apply(s, i, a))
    ensures s.pcs[i].Absent? ==> Apply(s, i, a).log == s.log + [Event(i, s.pcs[i].id, s.next)]
  {
  }

  // ----- progress -----

  /** The thread waits for the lock: to read while somebody writes, to write while somebody reads or writes. */
  ghost predicate Blocked(s: State, i: nat)
    requires i < |s.pcs|
  {
    || (s.pcs[i].Called? && !NoWriter(s.pcs))
    || (s.pcs[i].Missed? && !(NoWriter(s.pcs) && NoReader(s.pcs)))
  }

  ghost predicate CanStep(s: State, i: nat) {
    exists a: Action :: !a.Call? && Enabled(s, i, a)
  }

  /** What the thread does next, unless it has to wait. */
  function Turn(pc: Pc): Action {
    match pc
    case Idle => Return
    case Called(_) => LockRead
    case Searching(_) => Search
    case Hit(_, _) => UnlockRead
    case Miss(_) => UnlockRead
    case Missed(_) => LockWrite
    case Rechecking(_) => Recheck
    case Absent(_) => Create
    case Present(_, _) => UnlockWrite
    case Got(_, _) => Return
  }

  /** A call can go on exactly when it does not wait for the lock, and a thread without a call may call for any id. */
  lemma WaitsExactly(s: State, i: nat, id: int)
    requires i < |s.pcs|
    ensures s.pcs[i].Idle? <==> Enabled(s, i, Call(id))
    ensures CanStep(s, i) <==> !s.pcs[i].Idle? && !Blocked(s, i)
  {
    hide NoWriter, NoReader, Apply;
    if !s.pcs[i].Idle? && !Blocked(s, i) {
      assert Enabled(s, i, Turn(s.pcs[i]));
    }
  }

  /** There is no deadlock: as long as some call is under way, some call can go on. */
  lemma NoDeadlock(s: State, i: nat) returns (j: nat)
    requires i < |s.pcs| && !s.pcs[i].Idle?
    ensures j < |s.pcs| && CanStep(s, j)
  {
    j := i;
    if Blocked(s, i) {
      if !NoWriter(s.pcs) { j :| j < |s.pcs| && InWrite(s.pcs[j]); } else { j :| j < |s.pcs| && InRead(s.pcs[j]); }
    }
    hide NoWriter, NoReader;
    WaitsExactly(s, j, 0);
  }

  /** How many steps of its own a call has left at most. */
  function StepsLeft(pc: Pc): nat {
    match pc
    case Idle => 0
    case Called(_) => 8
    case Searching(_) => 7
    case Miss(_) => 6
    case Missed(_) => 5
    case Rechecking(_) => 4
    case Absent(_) => 3
    case Hit(_, _) => 2
    case Present(_, _) => 2
    case Got(_, _) => 1
  }

  /** Every step brings its call nearer to the end, through the search under the read lock and, where that misses, the one
      under the write lock, for the same id and, once there is one, with the same object, and leaves all other calls where
      they are; so a call ends after at most eight steps of its own. */
  lemma StepsEnd(s: State, i: nat, a: Action)
    requires Enabled(s, i, a) && !a.Call?
    ensures
      var s' := Apply(s, i, a);
      && |s'.pcs| == |s.pcs| && (forall j | 0 <= j < |s.pcs| && j != i :: s'.pcs[j] == s.pcs[j])
      && StepsLeft(s'.pcs[i]) < StepsLeft(s.pcs[i])
      && (s'.pcs[i].Idle? <==> s.pcs[i].Got?)
      && (s'.pcs[i].Searching? <==> s.pcs[i].Called?) && (s'.pcs[i].Missed? <==> s.pcs[i].Miss?)
      && (s'.pcs[i].Rechecking? <==> s.pcs[i].Missed?)
      && (!s'.pcs[i].Idle? ==> s'.pcs[i].id == s.pcs[i].id)
      && (Effective(s.pcs[i]) && !s'.pcs[i].Idle? ==> Effective(s'.pcs[i]) && s'.pcs[i].obj == s.pcs[i].obj)
  {
  }

  /** A call whose id is in the index when it searches has its object from there, without the write lock; and whoever
      creates an object has found none. */
  lemma SearchesExactly(s: State, i: nat, a: Action)
    requires Inv(s) && Enabled(s, i, a)
    ensures
      var s' := Apply(s, i, a);
      && (s.pcs[i].Searching? || s.pcs[i].Rechecking? ==>
            s'.index == s.index && (Effective(s'.pcs[i]) <==> s.pcs[i].id in s.index))
      && (Effective(s'.pcs[i]) && !Effective(s.pcs[i]) && InRead(s.pcs[i]) ==> s'.pcs[i].Hit?)
      && (s'.index != s.index ==> s.pcs[i].Absent? && s.pcs[i].id !in s.index && s'.index.Keys == s.index.Keys + {s.pcs[i].id})
  {
    assert PcOk(s, i, s.pcs[i]);
  }
}
