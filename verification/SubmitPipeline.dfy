/** File operations by any number of threads and one submit thread, interleaved: opening, creating, unlinking and releasing
    files, and the submit thread's sequence of taking an item, copying the file, submitting it and removing its
    directory entry.

    A step is one section under a lock or one atomic operation; the sections of a creation are one step, because nobody
    else can name the new file before its entry is in the directory.  Reference counters are not needed here: a thread
    keeps the number of the file it has pinned, and that the node is then still allocated is the subject of NodeLifetime.
    Thread 0 is the submit thread. */
module SubmitPipeline {

  type Fnode = nat
  type Handle = nat

  datatype Key = Key(dir: int, name: string)

  datatype Item = Item(dir: int, fnode: Fnode)

  datatype Pc =
    | Idle
      // ejf_open, ejf_create and ejf_mknod
    | Looking | Found(f: Fnode) | Pinned(f: Fnode)
      // ejf_unlink, and from `Cut` on also the submit thread
    | Cutting | Cut(f: Fnode) | Grabbed(f: Fnode) | Dropped(f: Fnode) | SeenUnlinked(f: Fnode) | SeenClosed(f: Fnode)
      // ejf_release
    | Closing(h: Handle, dir: int) | Reached(h: Handle, dir: int) | Queued(h: Handle, dir: int)
      // thread_submit
    | Taken(item: Item) | Listed(item: Item) | Reading(item: Item) | Copied(item: Item) | Sent(item: Item)

  datatype State = State(
    entries: map<Key, Fnode>,
    table: set<Fnode>,
    nlink: map<Fnode, int>,
    opencnt: map<Fnode, int>,
    open: map<Handle, Fnode>,    // handles not yet given back
    closing: set<Handle>,        // those whose release has begun
    queue: seq<Item>,
    sent: seq<Fnode>,            // every submission so far
    serial: Fnode,
    overtaken: set<Fnode>,       // files taken out of the table while somebody had them open or was opening them
    kept: set<Fnode>,            // files whose removal saw a positive open counter and gave up
    failed: multiset<Fnode>,     // the file of each release that failed
    pcs: seq<Pc>
  )

  datatype Action =
    | BeginOpen | Lookup(k: Key) | LookupFails | Create(k: Key) | CreateOnly(k: Key) | Pin | OpenFails | OpenDone(h: Handle)
    | BeginUnlink | Unlink(k: Key) | UnlinkFails | Grab | DropLink | ReadLinks | ReadOpens | TakeOut
    | BeginRelease(h: Handle, dir: int) | Reach | Enqueue | ReleaseFails | CloseDone
    | Take | Skip | List | Fetch | Copy | Send | CleanUp(k: Key) | NothingToClean

  predicate InOpen(pc: Pc, f: Fnode) {
    (pc.Found? || pc.Pinned?) && pc.f == f
  }

  ghost predicate Opening(pcs: seq<Pc>, f: Fnode) {
    exists j :: 0 <= j < |pcs| && InOpen(pcs[j], f)
  }

  /** `f` has an entry in directory `dir`. */
  ghost predicate HasEntry(entries: map<Key, Fnode>, dir: int, f: Fnode) {
    exists k :: k in entries && k.dir == dir && entries[k] == f
  }

  ghost predicate Enabled(s: State, i: nat, a: Action) {
    && i < |s.pcs|
    && var pc := s.pcs[i];
       match a
       case BeginOpen => i != 0 && pc.Idle?
       case Lookup(k) => pc.Looking? && k in s.entries
       case LookupFails => pc.Looking?
       case Create(k) => pc.Looking? && k !in s.entries
       case CreateOnly(k) => pc.Looking? && k !in s.entries
       case Pin => pc.Found?
       case OpenFails => pc.Pinned?
       case OpenDone(h) => pc.Pinned? && h !in s.open && pc.f in s.opencnt
       case BeginUnlink => i != 0 && pc.Idle?
       case Unlink(k) => pc.Cutting? && k in s.entries
       case UnlinkFails => pc.Cutting?
       case Grab => pc.Cut?
       case DropLink => pc.Grabbed? && pc.f in s.nlink
       case ReadLinks => pc.Dropped? && pc.f in s.nlink
       case ReadOpens => pc.SeenUnlinked? && pc.f in s.opencnt
       case TakeOut => pc.SeenClosed? && pc.f in s.opencnt
       case BeginRelease(h, _) => i != 0 && pc.Idle? && h in s.open && h !in s.closing
       case Reach => pc.Closing? && pc.h in s.open && s.open[pc.h] in s.table
       case Enqueue => pc.Reached? && pc.h in s.open
       case ReleaseFails => pc.Closing? && pc.h in s.open
       case CloseDone => pc.Queued? && pc.h in s.open && s.open[pc.h] in s.opencnt
       case Take => i == 0 && pc.Idle? && s.queue != []
       case Skip => pc.Taken?
       case List => pc.Taken?
       case Fetch => pc.Listed?
       case Copy => pc.Reading?
       case Send => pc.Copied?
       case CleanUp(k) => pc.Sent? && k in s.entries && k.dir == pc.item.dir && s.entries[k] == pc.item.fnode
       case NothingToClean => pc.Sent? && !HasEntry(s.entries, pc.item.dir, pc.item.fnode)
  }

  /** Where the acting thread stands afterwards. */
  ghost function PcAfter(s: State, i: nat, a: Action): Pc
    requires Enabled(s, i, a)
  {
    var pc := s.pcs[i];
    match a
    case BeginOpen => Looking
    case Lookup(k) => Found(s.entries[k])
    case Create(k) => Found(s.serial)
    case Pin => if pc.f in s.table then Pinned(pc.f) else Idle
    case BeginUnlink => Cutting
    case Unlink(k) => Cut(s.entries[k])
    case Grab => if pc.f in s.table then Grabbed(pc.f) else Idle
    case DropLink => Dropped(pc.f)
    case ReadLinks => if s.nlink[pc.f] > 0 then Idle else SeenUnlinked(pc.f)
    case ReadOpens => if s.opencnt[pc.f] > 0 then Idle else SeenClosed(pc.f)
    case BeginRelease(h, d) => Closing(h, d)
    case Reach => Reached(pc.h, pc.dir)
    case Enqueue => Queued(pc.h, pc.dir)
    case Take => Taken(s.queue[0])
    case List => if HasEntry(s.entries, pc.item.dir, pc.item.fnode) then Listed(pc.item) else Idle
    case Fetch => if pc.item.fnode in s.table then Reading(pc.item) else Idle
    case Copy => Copied(pc.item)
    case Send => Sent(pc.item)
    case CleanUp(k) => Cut(pc.item.fnode)
    case _ => Idle
  }

  function EntriesAfter(s: State, a: Action): map<Key, Fnode> {
    match a
    case Create(k) => s.entries[k := s.serial]
    case CreateOnly(k) => s.entries[k := s.serial]
    case Unlink(k) => s.entries - {k}
    case CleanUp(k) => s.entries - {k}
    case _ => s.entries
  }

  predicate Creates(a: Action) {
    a.Create? || a.CreateOnly?
  }

  function TableAfter(s: State, pc: Pc, a: Action): set<Fnode> {
    if Creates(a) then s.table + {s.serial} else if a.TakeOut? && pc.SeenClosed? then s.table - {pc.f} else s.table
  }

  function Changed(m: map<Fnode, int>, f: Fnode, d: int): map<Fnode, int> {
    if f in m then m[f := m[f] + d] else m
  }

  function LinksAfter(s: State, pc: Pc, a: Action): map<Fnode, int> {
    if Creates(a) then s.nlink[s.serial := 1]
    else if a.DropLink? && pc.Grabbed? then Changed(s.nlink, pc.f, -1) else s.nlink
  }

  function OpensAfter(s: State, pc: Pc, a: Action): map<Fnode, int> {
    if Creates(a) then s.opencnt[s.serial := 0]
    else if a.OpenDone? && pc.Pinned? then Changed(s.opencnt, pc.f, 1)
    else if a.CloseDone? && pc.Queued? && pc.h in s.open then Changed(s.opencnt, s.open[pc.h], -1) else s.opencnt
  }

  function HandlesAfter(s: State, pc: Pc, a: Action): map<Handle, Fnode> {
    if a.OpenDone? && pc.Pinned? then s.open[a.h := pc.f]
    else if (a.CloseDone? || a.ReleaseFails?) && Releasing(pc) then s.open - {pc.h} else s.open
  }

  predicate Releasing(pc: Pc) {
    pc.Closing? || pc.Reached? || pc.Queued?
  }

  function ClosingAfter(s: State, pc: Pc, a: Action): set<Handle> {
    if a.BeginRelease? then s.closing + {a.h}
    else if (a.CloseDone? || a.ReleaseFails?) && Releasing(pc) then s.closing - {pc.h} else s.closing
  }

  ghost function OvertakenAfter(s: State, pc: Pc, a: Action): set<Fnode> {
    if a.TakeOut? && pc.SeenClosed? && pc.f in s.opencnt && (s.opencnt[pc.f] > 0 || Opening(s.pcs, pc.f))
    then s.overtaken + {pc.f} else s.overtaken
  }

  function QueueAfter(s: State, pc: Pc, a: Action): seq<Item> {
    if a.Enqueue? && pc.Reached? && pc.h in s.open then s.queue + [Item(pc.dir, s.open[pc.h])]
    else if a.Take? && s.queue != [] then s.queue[1..]
    else s.queue
  }

  function KeptAfter(s: State, pc: Pc, a: Action): set<Fnode> {
    if a.ReadOpens? && pc.SeenUnlinked? && pc.f in s.opencnt && s.opencnt[pc.f] > 0 then s.kept + {pc.f} else s.kept
  }

  function FailedAfter(s: State, pc: Pc, a: Action): multiset<Fnode> {
    if a.ReleaseFails? && pc.Closing? && pc.h in s.open then s.failed + multiset{s.open[pc.h]} else s.failed
  }

  ghost function Apply(s: State, i: nat, a: Action): State
    requires Enabled(s, i, a)
  {
    var pc := s.pcs[i];
    State(
      EntriesAfter(s, a), TableAfter(s, pc, a), LinksAfter(s, pc, a), OpensAfter(s, pc, a), HandlesAfter(s, pc, a),
      ClosingAfter(s, pc, a),
      QueueAfter(s, pc, a),
      if a.Send? then s.sent + [pc.item.fnode] else s.sent,
      if Creates(a) then s.serial + 1 else s.serial,
      OvertakenAfter(s, pc, a), KeptAfter(s, pc, a), FailedAfter(s, pc, a),
      s.pcs[i := PcAfter(s, i, a)])
  }

  ghost predicate Next(s: State, s': State) {
    exists i: nat, a: Action :: Enabled(s, i, a) && s' == Apply(s, i, a)
  }

  ghost predicate Init(s: State) {
    && s.entries == map[] && s.table == {} && s.nlink == map[] && s.opencnt == map[] && s.open == map[] && s.closing == {}
    && s.queue == [] && s.sent == [] && s.serial == 1 && s.overtaken == {} && s.kept == {}
    && s.failed == multiset{} && |s.pcs| > 0
    && forall i | 0 <= i < |s.pcs| :: s.pcs[i] == Idle
  }

  ghost predicate StepAt(run: seq<State>, k: nat) {
    k + 1 < |run| ==> Next(run[k], run[k + 1])
  }

  ghost predicate Run(run: seq<State>) {
    |run| > 0 && Init(run[0]) && forall k: nat :: StepAt(run, k)
  }

  // ----- directories and links -----

  /** An entry is gone and the link counter does not say so yet. */
  predicate Pending(pc: Pc, f: Fnode) {
    (pc.Cut? || pc.Grabbed?) && pc.f == f
  }

  predicate Unlinked(pc: Pc, f: Fnode) {
    (pc.Dropped? || pc.SeenUnlinked? || pc.SeenClosed?) && pc.f == f
  }

  ghost predicate Known(s: State, f: Fnode) {
    0 < f < s.serial
  }

  /** Every number handed out has its counters; a file with a link is in the table. */
  ghost predicate CountersOk(s: State) {
    && (forall f :: f in s.nlink <==> Known(s, f))
    && (forall f :: f in s.opencnt <==> Known(s, f))
    && (forall f | f in s.nlink :: 0 <= s.nlink[f] <= 1 && (s.nlink[f] == 1 ==> f in s.table))
    && (forall f | f in s.table :: f in s.nlink)
    && s.serial > 0
  }

  /** No file has two entries, in one directory or in two, and every file with an entry has exactly one link. */
  ghost predicate EntriesOk(s: State) {
    && (forall k, l | k in s.entries && l in s.entries && s.entries[k] == s.entries[l] :: k == l)
    && (forall k | k in s.entries :: s.entries[k] in s.nlink && s.nlink[s.entries[k]] == 1)
  }

  /** A removed entry is settled by one thread: the link counter is still 1 until then, and 0 afterwards. */
  ghost predicate PendingLinked(s: State) {
    && (forall i, f | 0 <= i < |s.pcs| && Pending(s.pcs[i], f) :: f in s.nlink && s.nlink[f] == 1)
    && (forall i, f | 0 <= i < |s.pcs| && Unlinked(s.pcs[i], f) :: f in s.nlink && s.nlink[f] == 0)
  }

  ghost predicate PendingNoEntry(s: State) {
    forall i, k | 0 <= i < |s.pcs| && k in s.entries :: !Pending(s.pcs[i], s.entries[k])
  }

  ghost predicate PendingUnique(s: State) {
    forall i, j, f | 0 <= i < |s.pcs| && 0 <= j < |s.pcs| && Pending(s.pcs[i], f) && Pending(s.pcs[j], f) :: i == j
  }

  ghost predicate PendingOk(s: State) {
    PendingLinked(s) && PendingNoEntry(s) && PendingUnique(s)
  }

  // ----- what a step does to directories and links -----

  ghost predicate ThreadMoves(s: State, s': State, i: nat, pc: Pc, pc': Pc) {
    && i < |s.pcs| && s.pcs[i] == pc && s'.pcs == s.pcs[i := pc']
    && s.serial <= s'.serial <= s.serial + 1
  }

  /** Keys of a counter map grow with the serial number only. */
  ghost predicate KeysGrow(s: State, s': State, m: map<Fnode, int>, m': map<Fnode, int>) {
    forall f :: f in m' <==> f in m || (f == s.serial && s.serial < s'.serial)
  }

  ghost predicate LinksMove(s: State, s': State, pc: Pc, pc': Pc) {
    && KeysGrow(s, s', s.nlink, s'.nlink) && KeysGrow(s, s', s.opencnt, s'.opencnt)
    && (forall f | f in s.nlink && f in s'.nlink ::
          s'.nlink[f] == (if s.serial < s'.serial && f == s.serial then 1 else s.nlink[f])
                         - if pc == Grabbed(f) && pc' == Dropped(f) then 1 else 0)
    && (s.serial < s'.serial ==> s.serial in s'.nlink && s'.nlink[s.serial] == 1)
    && (pc.Grabbed? ==> pc' == Dropped(pc.f))
  }

  ghost predicate TableMoves(s: State, s': State, pc: Pc, pc': Pc) {
    forall f :: f in s'.table <==>
      (f in s.table && !(pc == SeenClosed(f) && pc' == Idle)) || (f == s.serial && s.serial < s'.serial)
  }

  ghost predicate EntriesMove(s: State, s': State, pc: Pc, pc': Pc) {
    && (forall k | k in s'.entries ::
          if k in s.entries then s'.entries[k] == s.entries[k] else s'.entries[k] == s.serial && s.serial < s'.serial)
    && (forall k, l | k in s'.entries && l in s'.entries && k !in s.entries && l !in s.entries :: k == l)
    && (forall k | k in s.entries && k !in s'.entries :: pc' == Cut(s.entries[k]))
  }

  ghost predicate PendingMoves(s: State, s': State, pc: Pc, pc': Pc) {
    && (forall f | Pending(pc', f) ::
          || Pending(pc, f)
          || (pc' == Cut(f) && exists k :: k in s.entries && s.entries[k] == f && k !in s'.entries))
    && (forall f | Unlinked(pc', f) :: Unlinked(pc, f) || (pc == Grabbed(f) && pc' == Dropped(f)))
  }

  lemma StepThread(s: State, i: nat, a: Action)
    requires Enabled(s, i, a)
    ensures var s' := Apply(s, i, a); i < |s'.pcs| && ThreadMoves(s, s', i, s.pcs[i], s'.pcs[i])
  {
    hide HasEntry, Opening, EntriesAfter, TableAfter, LinksAfter, OpensAfter, HandlesAfter, ClosingAfter, OvertakenAfter,
      KeptAfter, FailedAfter, QueueAfter, PcAfter;
  }

  lemma StepKeys(s: State, i: nat, a: Action)
    requires Enabled(s, i, a) && CountersOk(s)
    ensures var s' := Apply(s, i, a); KeysGrow(s, s', s.nlink, s'.nlink) && KeysGrow(s, s', s.opencnt, s'.opencnt)
  {
    hide HasEntry, Opening, EntriesAfter, TableAfter, HandlesAfter, ClosingAfter, OvertakenAfter, KeptAfter, FailedAfter, QueueAfter,
      PcAfter;
  }

  lemma StepDrop(s: State, i: nat, a: Action)
    requires Enabled(s, i, a)
    ensures a.DropLink? <==> s.pcs[i].Grabbed?
    ensures a.DropLink? ==> PcAfter(s, i, a) == Dropped(s.pcs[i].f)
  {
    hide HasEntry, Opening;
  }

  lemma StepLinks(s: State, i: nat, a: Action)
    requires Enabled(s, i, a) && CountersOk(s)
    ensures var s' := Apply(s, i, a); i < |s'.pcs| && LinksMove(s, s', s.pcs[i], s'.pcs[i])
  {
    StepKeys(s, i, a);
    StepDrop(s, i, a);
    hide HasEntry, Opening, EntriesAfter, TableAfter, HandlesAfter, OpensAfter, ClosingAfter, OvertakenAfter, KeptAfter,
      FailedAfter, QueueAfter, KeysGrow, PcAfter,
      Enabled;
  }

  lemma StepTable(s: State, i: nat, a: Action)
    requires Enabled(s, i, a)
    ensures var s' := Apply(s, i, a); i < |s'.pcs| && TableMoves(s, s', s.pcs[i], s'.pcs[i])
  {
    hide HasEntry, Opening, EntriesAfter, LinksAfter, OpensAfter, HandlesAfter, ClosingAfter, OvertakenAfter, KeptAfter,
      FailedAfter, QueueAfter;
  }

  lemma StepEntries(s: State, i: nat, a: Action)
    requires Enabled(s, i, a)
    ensures var s' := Apply(s, i, a); i < |s'.pcs| && EntriesMove(s, s', s.pcs[i], s'.pcs[i])
  {
    hide HasEntry, Opening, TableAfter, LinksAfter, OpensAfter, HandlesAfter, ClosingAfter, OvertakenAfter, KeptAfter,
      FailedAfter, QueueAfter;
  }

  lemma StepCutting(s: State, i: nat, a: Action)
    requires Enabled(s, i, a)
    ensures PcAfter(s, i, a).Cut? ==>
      exists k :: k in s.entries && s.entries[k] == PcAfter(s, i, a).f && k !in EntriesAfter(s, a)
  {
    hide HasEntry, Opening;
    if a.Unlink? || a.CleanUp? { assert a.k in s.entries && a.k !in EntriesAfter(s, a); }
  }

  lemma StepPending(s: State, i: nat, a: Action)
    requires Enabled(s, i, a)
    ensures var s' := Apply(s, i, a); i < |s'.pcs| && PendingMoves(s, s', s.pcs[i], s'.pcs[i])
  {
    hide HasEntry, Opening, TableAfter, LinksAfter, EntriesAfter, OpensAfter, HandlesAfter, ClosingAfter, OvertakenAfter,
      KeptAfter,
      FailedAfter, QueueAfter;
    StepCutting(s, i, a);
  }

  // ----- the invariant on directories and links -----

  lemma CountersStep(s: State, s': State, i: nat, pc: Pc, pc': Pc)
    requires CountersOk(s) && PendingOk(s) && ThreadMoves(s, s', i, pc, pc') && LinksMove(s, s', pc, pc') && TableMoves(s, s', pc, pc')
    ensures CountersOk(s')
  {
    assert pc.Grabbed? ==> Pending(s.pcs[i], pc.f);
    assert pc.SeenClosed? ==> Unlinked(s.pcs[i], pc.f);
  }

  lemma EntriesStep(s: State, s': State, i: nat, pc: Pc, pc': Pc)
    requires CountersOk(s) && EntriesOk(s) && PendingOk(s) && ThreadMoves(s, s', i, pc, pc')
    requires LinksMove(s, s', pc, pc') && EntriesMove(s, s', pc, pc')
    ensures EntriesOk(s')
  {
    EntriesLinked(s, s', i, pc, pc');
    hide LinksMove, PendingOk, ThreadMoves;
    forall k, l | k in s'.entries && l in s'.entries && s'.entries[k] == s'.entries[l] ensures k == l {
      assert k in s.entries ==> s.entries[k] in s.nlink;
      assert l in s.entries ==> s.entries[l] in s.nlink;
    }
  }

  lemma EntriesLinked(s: State, s': State, i: nat, pc: Pc, pc': Pc)
    requires CountersOk(s) && EntriesOk(s) && PendingOk(s) && ThreadMoves(s, s', i, pc, pc')
    requires LinksMove(s, s', pc, pc') && EntriesMove(s, s', pc, pc')
    ensures forall k | k in s'.entries :: s'.entries[k] in s'.nlink && s'.nlink[s'.entries[k]] == 1
  {
    hide PendingLinked, PendingUnique;
    forall k | k in s'.entries ensures s'.entries[k] in s'.nlink && s'.nlink[s'.entries[k]] == 1 {
      if k in s.entries {
        assert !Pending(s.pcs[i], s.entries[k]) && s.nlink[s.entries[k]] == 1;
        assert s.entries[k] in s.nlink && s.entries[k] != s.serial;
      }
    }
  }

  lemma PendingLinkedStep(s: State, s': State, i: nat, pc: Pc, pc': Pc)
    requires CountersOk(s) && EntriesOk(s) && PendingLinked(s) && PendingUnique(s) && ThreadMoves(s, s', i, pc, pc')
    requires LinksMove(s, s', pc, pc') && PendingMoves(s, s', pc, pc')
    ensures PendingLinked(s')
  {
    hide CountersOk, EntriesOk, PendingUnique, ThreadMoves, LinksMove, PendingMoves, Pending, Unlinked;
    forall j, f | 0 <= j < |s'.pcs| && Pending(s'.pcs[j], f) ensures f in s'.nlink && s'.nlink[f] == 1 {
      StillLinked(s, s', i, pc, pc', j, f);
    }
    forall j, f | 0 <= j < |s'.pcs| && Unlinked(s'.pcs[j], f) ensures f in s'.nlink && s'.nlink[f] == 0 {
      StillUnlinked(s, s', i, pc, pc', j, f);
    }
  }

  lemma StillUnlinked(s: State, s': State, i: nat, pc: Pc, pc': Pc, j: nat, f: Fnode)
    requires CountersOk(s) && PendingLinked(s) && ThreadMoves(s, s', i, pc, pc')
    requires LinksMove(s, s', pc, pc') && PendingMoves(s, s', pc, pc') && j < |s'.pcs| && Unlinked(s'.pcs[j], f)
    ensures f in s'.nlink && s'.nlink[f] == 0
  {
    if pc.Grabbed? { assert Pending(s.pcs[i], pc.f) && s.nlink[pc.f] == 1; }
    if j != i {
      assert Unlinked(s.pcs[j], f) && s.nlink[f] == 0;
    } else if Unlinked(pc, f) {
      assert Unlinked(s.pcs[i], f) && s.nlink[f] == 0;
    }
  }

  lemma StillLinked(s: State, s': State, i: nat, pc: Pc, pc': Pc, j: nat, f: Fnode)
    requires CountersOk(s) && EntriesOk(s) && PendingLinked(s) && PendingUnique(s) && ThreadMoves(s, s', i, pc, pc')
    requires LinksMove(s, s', pc, pc') && PendingMoves(s, s', pc, pc') && j < |s'.pcs| && Pending(s'.pcs[j], f)
    ensures f in s'.nlink && s'.nlink[f] == 1
  {
    assert pc.Grabbed? ==> Pending(s.pcs[i], pc.f);
    if j != i {
      assert Pending(s.pcs[j], f);
    } else if !Pending(pc, f) {
      var k :| k in s.entries && s.entries[k] == f && k !in s'.entries;
    }
  }

  lemma PendingNoEntryStep(s: State, s': State, i: nat, pc: Pc, pc': Pc)
    requires CountersOk(s) && EntriesOk(s) && PendingLinked(s) && PendingNoEntry(s) && ThreadMoves(s, s', i, pc, pc')
    requires EntriesMove(s, s', pc, pc') && PendingMoves(s, s', pc, pc')
    ensures PendingNoEntry(s')
  {
    forall j, k | 0 <= j < |s'.pcs| && k in s'.entries ensures !Pending(s'.pcs[j], s'.entries[k]) {
      var f := s'.entries[k];
      if k !in s.entries {
        assert f !in s.nlink;
        assert !Pending(s.pcs[j], f);
      } else {
        assert !Pending(s.pcs[j], f);
      }
    }
  }

  lemma PendingUniqueStep(s: State, s': State, i: nat, pc: Pc, pc': Pc)
    requires PendingNoEntry(s) && PendingUnique(s) && ThreadMoves(s, s', i, pc, pc') && PendingMoves(s, s', pc, pc')
    ensures PendingUnique(s')
  {
    forall j, l, f | 0 <= j < |s'.pcs| && 0 <= l < |s'.pcs| && Pending(s'.pcs[j], f) && Pending(s'.pcs[l], f) ensures j == l {
      assert j != i ==> Pending(s.pcs[j], f);
      assert l != i ==> Pending(s.pcs[l], f);
    }
  }

  // ----- submissions -----

  /** The submit thread is busy with an item; from `Listed` on it has seen the item's entry. */
  predicate Located(pc: Pc, item: Item) {
    (pc.Listed? || pc.Reading? || pc.Copied? || pc.Sent?) && pc.item == item
  }

  predicate Submitting(pc: Pc) {
    pc.Taken? || pc.Listed? || pc.Reading? || pc.Copied? || pc.Sent?
  }

  ghost predicate OneSubmitter(s: State) {
    |s.pcs| > 0 && forall i | 0 < i < |s.pcs| :: !Submitting(s.pcs[i])
  }

  ghost predicate NoRepeats(sent: seq<Fnode>) {
    forall x, y | 0 <= x < y < |sent| :: sent[x] != sent[y]
  }

  /** Until the clean-up, only the file just submitted can still have an entry; the file being worked on has not been
      submitted, and can have an entry nowhere but in the item's directory. */
  ghost predicate SentOk(s: State) {
    && OneSubmitter(s) && NoRepeats(s.sent)
    && (forall k | k in s.entries && s.entries[k] in s.sent :: s.pcs[0].Sent? && s.pcs[0].item.fnode == s.entries[k])
    && (forall item | Located(s.pcs[0], item) ::
          && item.fnode in s.nlink
          && (!s.pcs[0].Sent? ==> item.fnode !in s.sent)
          && (forall k | k in s.entries && s.entries[k] == item.fnode :: k.dir == item.dir))
    && (forall f | f in s.sent :: f in s.nlink)
    && (s.pcs[0].Sent? ==> s.pcs[0].item.fnode in s.sent)
  }

  /** How the submit thread gets on. */
  ghost predicate SubmitMoves(s: State, s': State, i: nat, pc: Pc, pc': Pc) {
    && (Submitting(pc') ==> i == 0)
    && (if pc.Copied? then s'.sent == s.sent + [pc.item.fnode] && pc' == Sent(pc.item) else s'.sent == s.sent)
    && (forall item | Located(pc', item) ::
          || (Located(pc, item) && !pc.Sent? && (pc'.Sent? ==> pc.Copied?))
          || (pc == Taken(item) && pc' == Listed(item) && HasEntry(s.entries, item.dir, item.fnode)))
    && (pc.Sent? ==>
          || (!HasEntry(s.entries, pc.item.dir, pc.item.fnode) && s'.entries == s.entries)
          || exists k :: k in s.entries && s.entries[k] == pc.item.fnode && s'.entries == s.entries - {k})
  }

  lemma StepLocated(s: State, i: nat, a: Action, item: Item)
    requires Enabled(s, i, a) && Located(PcAfter(s, i, a), item)
    ensures
      var pc, pc' := s.pcs[i], PcAfter(s, i, a);
      || (Located(pc, item) && !pc.Sent? && (pc'.Sent? ==> pc.Copied?))
      || (pc == Taken(item) && pc' == Listed(item) && HasEntry(s.entries, item.dir, item.fnode))
  {
    hide HasEntry, Opening;
  }

  lemma StepCleaning(s: State, i: nat, a: Action)
    requires Enabled(s, i, a) && s.pcs[i].Sent?
    ensures
      var pc, entries' := s.pcs[i], EntriesAfter(s, a);
      || (!HasEntry(s.entries, pc.item.dir, pc.item.fnode) && entries' == s.entries)
      || exists k :: k in s.entries && s.entries[k] == pc.item.fnode && entries' == s.entries - {k}
  {
    hide HasEntry, Opening;
  }

  lemma StepSending(s: State, i: nat, a: Action)
    requires Enabled(s, i, a) && OneSubmitter(s)
    ensures Submitting(PcAfter(s, i, a)) ==> i == 0
    ensures a.Send? <==> s.pcs[i].Copied?
    ensures a.Send? ==> PcAfter(s, i, a) == Sent(s.pcs[i].item)
  {
    hide HasEntry, Opening;
  }

  lemma StepSubmit(s: State, i: nat, a: Action)
    requires Enabled(s, i, a) && OneSubmitter(s)
    ensures var s' := Apply(s, i, a); i < |s'.pcs| && SubmitMoves(s, s', i, s.pcs[i], s'.pcs[i])
  {
    hide HasEntry, Opening, EntriesAfter, TableAfter, LinksAfter, OpensAfter, HandlesAfter, ClosingAfter, OvertakenAfter,
      KeptAfter,
      FailedAfter, QueueAfter, Located, PcAfter, OneSubmitter;
    StepSending(s, i, a);
    if s.pcs[i].Sent? { StepCleaning(s, i, a); }
    forall item | Located(PcAfter(s, i, a), item)
      ensures var pc, pc' := s.pcs[i], PcAfter(s, i, a);
        || (Located(pc, item) && !pc.Sent? && (pc'.Sent? ==> pc.Copied?))
        || (pc == Taken(item) && pc' == Listed(item) && HasEntry(s.entries, item.dir, item.fnode))
    {
      StepLocated(s, i, a, item);
    }
  }

  lemma OneSubmitterStep(s: State, s': State, i: nat, pc: Pc, pc': Pc)
    requires OneSubmitter(s) && ThreadMoves(s, s', i, pc, pc') && SubmitMoves(s, s', i, pc, pc')
    ensures OneSubmitter(s')
  {
  }

  lemma NoRepeatsStep(s: State, s': State, i: nat, pc: Pc, pc': Pc)
    requires SentOk(s) && ThreadMoves(s, s', i, pc, pc') && SubmitMoves(s, s', i, pc, pc')
    ensures NoRepeats(s'.sent)
  {
    assert pc.Copied? ==> i == 0 && Located(s.pcs[0], pc.item);
  }

  lemma SentEntriesStep(s: State, s': State, i: nat, pc: Pc, pc': Pc)
    requires CountersOk(s) && EntriesOk(s) && SentOk(s) && ThreadMoves(s, s', i, pc, pc') && SubmitMoves(s, s', i, pc, pc')
    requires EntriesMove(s, s', pc, pc')
    ensures forall k | k in s'.entries && s'.entries[k] in s'.sent :: s'.pcs[0].Sent? && s'.pcs[0].item.fnode == s'.entries[k]
  {
    forall k | k in s'.entries && s'.entries[k] in s'.sent
      ensures s'.pcs[0].Sent? && s'.pcs[0].item.fnode == s'.entries[k]
    {
      var f := s'.entries[k];
      assert Submitting(pc) ==> i == 0;
      assert f in s.sent || (pc.Copied? && f == pc.item.fnode);
      assert pc.Copied? || pc.Sent? ==> Located(s.pcs[0], pc.item);
    }
  }

  lemma LocatedStep(s: State, s': State, i: nat, pc: Pc, pc': Pc, item: Item)
    requires CountersOk(s) && EntriesOk(s) && SentOk(s) && ThreadMoves(s, s', i, pc, pc') && SubmitMoves(s, s', i, pc, pc')
    requires EntriesMove(s, s', pc, pc') && LinksMove(s, s', pc, pc') && Located(s'.pcs[0], item)
    ensures item.fnode in s'.nlink && (!s'.pcs[0].Sent? ==> item.fnode !in s'.sent)
    ensures forall k | k in s'.entries && s'.entries[k] == item.fnode :: k.dir == item.dir
  {
    assert Submitting(pc) ==> i == 0;
    if !Located(s.pcs[0], item) {
      var k :| k in s.entries && k.dir == item.dir && s.entries[k] == item.fnode;
    }
    assert item.fnode in s.nlink;
  }

  lemma SentStep(s: State, s': State, i: nat, pc: Pc, pc': Pc)
    requires CountersOk(s) && EntriesOk(s) && SentOk(s) && ThreadMoves(s, s', i, pc, pc') && SubmitMoves(s, s', i, pc, pc')
    requires EntriesMove(s, s', pc, pc') && LinksMove(s, s', pc, pc')
    ensures SentOk(s')
  {
    OneSubmitterStep(s, s', i, pc, pc');
    NoRepeatsStep(s, s', i, pc, pc');
    SentEntriesStep(s, s', i, pc, pc');
    forall item | Located(s'.pcs[0], item)
      ensures item.fnode in s'.nlink && (!s'.pcs[0].Sent? ==> item.fnode !in s'.sent)
      ensures forall k | k in s'.entries && s'.entries[k] == item.fnode :: k.dir == item.dir
    {
      LocatedStep(s, s', i, pc, pc', item);
    }
    forall f | f in s'.sent ensures f in s'.nlink {
      assert pc.Copied? ==> i == 0 && Located(s.pcs[0], pc.item);
    }
  }

  // ----- open files -----

  function HandlesOf(open: map<Handle, Fnode>, f: Fnode): set<Handle> {
    set h | h in open && open[h] == f
  }

  function CountOf(open: map<Handle, Fnode>, f: Fnode): nat {
    |HandlesOf(open, f)|
  }

  lemma CountAdd(open: map<Handle, Fnode>, h: Handle, g: Fnode, f: Fnode)
    requires h !in open
    ensures CountOf(open[h := g], f) == CountOf(open, f) + if f == g then 1 else 0
  {
    var before, after := HandlesOf(open, f), HandlesOf(open[h := g], f);
    assert after == if f == g then before + {h} else before;
  }

  lemma CountRemove(open: map<Handle, Fnode>, h: Handle, f: Fnode)
    requires h in open
    ensures CountOf(open - {h}, f) == CountOf(open, f) - if f == open[h] then 1 else 0
  {
    var before, after := HandlesOf(open, f), HandlesOf(open - {h}, f);
    assert before == if f == open[h] then after + {h} else after;
  }

  lemma CountNone(open: map<Handle, Fnode>, f: Fnode)
    ensures CountOf(open, f) == 0 <==> forall h | h in open :: open[h] != f
  {
    assert forall h | h in open && open[h] == f :: h in HandlesOf(open, f);
  }

  /** The open counter is the number of handles that are not given back, plus the number of releases that failed. */
  ghost predicate OpensOk(s: State) {
    && (forall f | f in s.opencnt :: s.opencnt[f] == CountOf(s.open, f) + s.failed[f])
    && (forall h | h in s.open :: s.open[h] in s.opencnt)
    && (forall f | f in s.failed :: f in s.opencnt)
  }

  /** A file that is open or being opened is in the table, unless it was taken out meanwhile. */
  ghost predicate FindableOk(s: State) {
    && (forall h | h in s.open :: s.open[h] in s.overtaken || s.open[h] in s.table)
    && (forall i, f | 0 <= i < |s.pcs| && InOpen(s.pcs[i], f) :: f in s.nlink && (f in s.overtaken || f in s.table))
  }

  /** An overtaken file is not in the table. */
  ghost predicate OvertakenGone(s: State) {
    forall f | f in s.overtaken :: f in s.nlink && f !in s.table
  }

  /** Handles come and go with the open counter; giving up without counting is on record. */
  ghost predicate HandlesMove(s: State, s': State, pc: Pc, pc': Pc) {
    && (forall h | h in s'.open :: (h in s.open && s'.open[h] == s.open[h]) || InOpen(pc, s'.open[h]))
    && (forall f | f in s.opencnt && f in s'.opencnt && f != s.serial ::
          s'.opencnt[f] - CountOf(s'.open, f) - s'.failed[f] == s.opencnt[f] - CountOf(s.open, f) - s.failed[f])
    && (forall f | f in s'.failed && f !in s.failed :: pc.Closing? && pc.h in s.open && s.open[pc.h] == f)
    && (s.serial < s'.serial ==>
          s.serial in s'.opencnt && s'.opencnt[s.serial] == 0 && s'.open == s.open && s'.failed == s.failed)
  }

  lemma StepCount(s: State, i: nat, a: Action, f: Fnode)
    requires Enabled(s, i, a) && f in s.opencnt && f != s.serial
    ensures
      var s' := Apply(s, i, a);
      && f in s'.opencnt
      && s'.opencnt[f] - CountOf(s'.open, f) - s'.failed[f] == s.opencnt[f] - CountOf(s.open, f) - s.failed[f]
  {
    hide HasEntry, Opening, TableAfter, LinksAfter, EntriesAfter, ClosingAfter, OvertakenAfter, KeptAfter, PcAfter, CountOf;
    if a.OpenDone? { CountAdd(s.open, a.h, s.pcs[i].f, f); }
    if a.CloseDone? || a.ReleaseFails? { CountRemove(s.open, s.pcs[i].h, f); }
  }

  lemma StepOpened(s: State, i: nat, a: Action)
    requires Enabled(s, i, a)
    ensures
      var s', pc := Apply(s, i, a), s.pcs[i];
      && (forall h | h in s'.open :: (h in s.open && s'.open[h] == s.open[h]) || InOpen(pc, s'.open[h]))
      && (s.serial < s'.serial ==> s'.open == s.open)
  {
    hide HasEntry, Opening, TableAfter, LinksAfter, OpensAfter, EntriesAfter, ClosingAfter, OvertakenAfter, KeptAfter,
      FailedAfter, QueueAfter, PcAfter;
  }

  lemma StepFailed(s: State, i: nat, a: Action)
    requires Enabled(s, i, a)
    ensures
      var s', pc := Apply(s, i, a), s.pcs[i];
      && (forall f | f in s'.failed && f !in s.failed :: pc.Closing? && pc.h in s.open && s.open[pc.h] == f)
      && (s.serial < s'.serial ==> s.serial in s'.opencnt && s'.opencnt[s.serial] == 0 && s'.failed == s.failed)
  {
    assert i < |s.pcs|;
    hide HasEntry, Opening, Enabled, HandlesAfter, TableAfter, LinksAfter, EntriesAfter, ClosingAfter, OvertakenAfter,
      KeptAfter, PcAfter;
  }

  lemma StepHandles(s: State, i: nat, a: Action)
    requires Enabled(s, i, a)
    ensures var s' := Apply(s, i, a); i < |s'.pcs| && HandlesMove(s, s', s.pcs[i], s'.pcs[i])
  {
    assert i < |s.pcs|;
    hide HasEntry, Opening, Enabled, HandlesAfter, TableAfter, LinksAfter, EntriesAfter, ClosingAfter, OvertakenAfter,
      KeptAfter, PcAfter, OpensAfter, FailedAfter, QueueAfter, CountOf;
    var s' := Apply(s, i, a);
    forall f | f in s.opencnt && f in s'.opencnt && f != s.serial
      ensures s'.opencnt[f] - CountOf(s'.open, f) - s'.failed[f] == s.opencnt[f] - CountOf(s.open, f) - s.failed[f]
    {
      StepCount(s, i, a, f);
    }
    StepOpened(s, i, a);
    StepFailed(s, i, a);
  }

  lemma OpensStep(s: State, s': State, i: nat, pc: Pc, pc': Pc)
    requires CountersOk(s) && OpensOk(s) && FindableOk(s) && ThreadMoves(s, s', i, pc, pc') && LinksMove(s, s', pc, pc')
    requires HandlesMove(s, s', pc, pc')
    ensures OpensOk(s')
  {
    hide CountOf;
    forall f | f in s'.opencnt ensures s'.opencnt[f] == CountOf(s'.open, f) + s'.failed[f] {
      if f == s.serial { CountNone(s.open, f); }
    }
    forall h | h in s'.open ensures s'.open[h] in s'.opencnt {
      assert InOpen(pc, s'.open[h]) ==> InOpen(s.pcs[i], s'.open[h]);
    }
  }

  ghost predicate FindableMoves(s: State, s': State, pc: Pc, pc': Pc) {
    && (forall f | f in s.overtaken :: f in s'.overtaken)
    && (forall f | pc == SeenClosed(f) && pc' == Idle && f in s.opencnt ::
          f in s'.overtaken || (s.opencnt[f] <= 0 && !Opening(s.pcs, f)))
    && (forall f | InOpen(pc', f) ::
          || InOpen(pc, f)
          || (f in s.nlink && f in s.table && exists k :: k in s.entries && s.entries[k] == f)
          || (f == s.serial && s.serial < s'.serial))
    && (pc.SeenClosed? ==> pc' == Idle && s'.open == s.open)
  }

  lemma StepOvertaken(s: State, i: nat, a: Action)
    requires Enabled(s, i, a)
    ensures
      var s', pc := Apply(s, i, a), s.pcs[i];
      && i < |s'.pcs| && (forall f | f in s.overtaken :: f in s'.overtaken)
      && (pc.SeenClosed? && pc.f in s.opencnt ==> pc.f in s'.overtaken || (s.opencnt[pc.f] <= 0 && !Opening(s.pcs, pc.f)))
      && (pc.SeenClosed? ==> s'.pcs[i] == Idle && s'.open == s.open)
      && (forall f | f in s'.overtaken && f !in s.overtaken :: pc == SeenClosed(f) && s'.pcs[i] == Idle)
  {
    hide HasEntry, KeptAfter, FailedAfter, QueueAfter, TableAfter, LinksAfter, EntriesAfter, ClosingAfter, OpensAfter;
  }

  lemma EntryInTable(s: State, k: Key)
    requires CountersOk(s) && EntriesOk(s) && k in s.entries
    ensures s.entries[k] in s.nlink && s.entries[k] in s.table
  {
    assert s.nlink[s.entries[k]] == 1;
  }

  lemma StepOpening(s: State, i: nat, a: Action, f: Fnode)
    requires Enabled(s, i, a) && CountersOk(s) && EntriesOk(s) && InOpen(PcAfter(s, i, a), f)
    ensures
      || InOpen(s.pcs[i], f)
      || (f in s.nlink && f in s.table && exists k :: k in s.entries && s.entries[k] == f)
      || (f == s.serial && s.serial < Apply(s, i, a).serial)
  {
    hide CountersOk, EntriesOk, HasEntry, Opening, TableAfter, LinksAfter, EntriesAfter, ClosingAfter, OpensAfter,
      HandlesAfter, OvertakenAfter, KeptAfter, FailedAfter, QueueAfter;
    if a.Lookup? { EntryInTable(s, a.k); }
  }

  lemma StepFindable(s: State, i: nat, a: Action)
    requires Enabled(s, i, a) && CountersOk(s) && EntriesOk(s)
    ensures var s' := Apply(s, i, a); i < |s'.pcs| && FindableMoves(s, s', s.pcs[i], s'.pcs[i])
  {
    hide HasEntry, TableAfter, LinksAfter, EntriesAfter, ClosingAfter, OpensAfter, HandlesAfter, OvertakenAfter, KeptAfter,
      FailedAfter, QueueAfter, PcAfter, CountersOk, EntriesOk;
    StepOvertaken(s, i, a);
    forall f | InOpen(PcAfter(s, i, a), f)
      ensures InOpen(s.pcs[i], f)
           || (f in s.nlink && f in s.table && exists k :: k in s.entries && s.entries[k] == f)
           || (f == s.serial && s.serial < Apply(s, i, a).serial)
    {
      StepOpening(s, i, a, f);
    }
  }

  lemma OpenedFindable(s: State, s': State, i: nat, pc: Pc, pc': Pc, h: Handle)
    requires OpensOk(s) && FindableOk(s) && ThreadMoves(s, s', i, pc, pc') && HandlesMove(s, s', pc, pc')
    requires TableMoves(s, s', pc, pc') && FindableMoves(s, s', pc, pc') && h in s'.open
    ensures s'.open[h] in s'.overtaken || s'.open[h] in s'.table
  {
    hide CountOf;
    var f := s'.open[h];
    assert InOpen(pc, f) ==> InOpen(s.pcs[i], f);
    if pc == SeenClosed(f) { CountNone(s.open, f); }
  }

  lemma OpeningFindable(s: State, s': State, i: nat, pc: Pc, pc': Pc, j: nat, f: Fnode)
    requires CountersOk(s) && FindableOk(s) && ThreadMoves(s, s', i, pc, pc') && LinksMove(s, s', pc, pc')
    requires TableMoves(s, s', pc, pc') && FindableMoves(s, s', pc, pc') && j < |s'.pcs| && InOpen(s'.pcs[j], f)
    ensures f in s'.nlink && (f in s'.overtaken || f in s'.table)
  {
    assert j != i ==> InOpen(s.pcs[j], f);
    assert InOpen(pc, f) ==> InOpen(s.pcs[i], f);
  }

  lemma FindableStep(s: State, s': State, i: nat, pc: Pc, pc': Pc)
    requires CountersOk(s) && OpensOk(s) && FindableOk(s) && ThreadMoves(s, s', i, pc, pc') && LinksMove(s, s', pc, pc')
    requires HandlesMove(s, s', pc, pc') && TableMoves(s, s', pc, pc') && FindableMoves(s, s', pc, pc')
    ensures FindableOk(s')
  {
    hide CountersOk, OpensOk, ThreadMoves, LinksMove, HandlesMove, TableMoves, FindableMoves, InOpen;
    forall h | h in s'.open ensures s'.open[h] in s'.overtaken || s'.open[h] in s'.table {
      OpenedFindable(s, s', i, pc, pc', h);
    }
    forall j, f | 0 <= j < |s'.pcs| && InOpen(s'.pcs[j], f) ensures f in s'.nlink && (f in s'.overtaken || f in s'.table) {
      OpeningFindable(s, s', i, pc, pc', j, f);
    }
  }

  lemma OvertakenGoneStep(s: State, s': State, i: nat, pc: Pc, pc': Pc)
    requires CountersOk(s) && PendingLinked(s) && OvertakenGone(s) && ThreadMoves(s, s', i, pc, pc')
    requires LinksMove(s, s', pc, pc') && TableMoves(s, s', pc, pc')
    requires forall f | f in s'.overtaken && f !in s.overtaken :: pc == SeenClosed(f) && pc' == Idle
    ensures OvertakenGone(s')
  {
    assert pc.SeenClosed? ==> Unlinked(s.pcs[i], pc.f);
    forall f | f in s'.overtaken ensures f in s'.nlink && f !in s'.table {
      if f !in s.overtaken { assert Unlinked(s.pcs[i], f) && f in s.nlink; }
      assert f in s.nlink && f != s.serial;
    }
  }

  // ----- removals that gave up -----

  ghost predicate Removing(pcs: seq<Pc>, f: Fnode) {
    exists j :: 0 <= j < |pcs| && Unlinked(pcs[j], f)
  }

  /** A link is dropped by one thread, and the file stays in the table until that thread has decided. */
  ghost predicate RemoverOk(s: State) {
    && (forall i, j, f | 0 <= i < |s.pcs| && 0 <= j < |s.pcs| && Unlinked(s.pcs[i], f) && Unlinked(s.pcs[j], f) :: i == j)
    && (forall i, f | 0 <= i < |s.pcs| && Unlinked(s.pcs[i], f) :: f in s.table)
  }

  /** Without a link a file stays in the table exactly where its remover gave up, or has not decided yet. */
  ghost predicate KeptOk(s: State) {
    && (forall f | f in s.kept :: f in s.table && f in s.nlink && s.nlink[f] == 0 && !Removing(s.pcs, f))
    && (forall f | f in s.table && f in s.nlink && s.nlink[f] == 0 :: f in s.kept || Removing(s.pcs, f))
  }

  /** A remover goes on, takes the file out, or gives up, on record. */
  ghost predicate KeptMoves(s: State, s': State, pc: Pc, pc': Pc) {
    && (forall f | f in s.kept :: f in s'.kept)
    && (forall f | f in s'.kept && f !in s.kept :: pc == SeenUnlinked(f) && pc' == Idle)
    && (forall f | Unlinked(pc, f) && f in s.nlink && s.nlink[f] == 0 ::
          || Unlinked(pc', f)
          || (pc' == Idle && (f in s'.kept || pc == SeenClosed(f))))
  }

  lemma StepRecord(s: State, i: nat, a: Action)
    requires Enabled(s, i, a)
    ensures
      var kept', pc := KeptAfter(s, s.pcs[i], a), s.pcs[i];
      && (forall f | f in s.kept :: f in kept')
      && (forall f | f in kept' && f !in s.kept :: pc == SeenUnlinked(f) && PcAfter(s, i, a) == Idle)
      && (pc.SeenUnlinked? && PcAfter(s, i, a) == Idle ==> pc.f in kept')
  {
    hide HasEntry, Opening;
  }

  lemma StepKept(s: State, i: nat, a: Action)
    requires Enabled(s, i, a)
    ensures var s' := Apply(s, i, a); i < |s'.pcs| && KeptMoves(s, s', s.pcs[i], s'.pcs[i])
  {
    hide HasEntry, Opening, TableAfter, LinksAfter, EntriesAfter, ClosingAfter, OpensAfter, HandlesAfter, OvertakenAfter,
      KeptAfter, FailedAfter, QueueAfter;
    StepRecord(s, i, a);
  }

  lemma RemoverAlone(s: State, s': State, i: nat, pc: Pc, pc': Pc, j: nat, f: Fnode)
    requires PendingLinked(s) && RemoverOk(s) && ThreadMoves(s, s', i, pc, pc') && PendingMoves(s, s', pc, pc')
    requires j < |s.pcs| && j != i && Unlinked(s.pcs[j], f)
    ensures !Unlinked(pc', f)
  {
    assert s.pcs[i] == pc && s.nlink[f] == 0;
    assert !Pending(pc, f);
  }

  lemma RemoverStep(s: State, s': State, i: nat, pc: Pc, pc': Pc)
    requires CountersOk(s) && PendingLinked(s) && RemoverOk(s) && ThreadMoves(s, s', i, pc, pc')
    requires TableMoves(s, s', pc, pc') && PendingMoves(s, s', pc, pc')
    ensures RemoverOk(s')
  {
    forall j, f | 0 <= j < |s'.pcs| && j != i && Unlinked(s'.pcs[j], f) ensures !Unlinked(pc', f) && !Unlinked(pc, f) {
      RemoverAlone(s, s', i, pc, pc', j, f);
      assert Unlinked(s.pcs[j], f) && s.pcs[i] == pc;
    }
    RemoverInTable(s, s', i, pc, pc');
    assert forall j, f | 0 <= j < |s'.pcs| && j != i && Unlinked(s'.pcs[j], f) :: Unlinked(s.pcs[j], f);
    hide TableMoves, PendingMoves, CountersOk, PendingLinked;
  }

  lemma RemoverInTable(s: State, s': State, i: nat, pc: Pc, pc': Pc)
    requires CountersOk(s) && PendingLinked(s) && RemoverOk(s) && ThreadMoves(s, s', i, pc, pc')
    requires TableMoves(s, s', pc, pc') && PendingMoves(s, s', pc, pc')
    ensures forall j, f | 0 <= j < |s'.pcs| && Unlinked(s'.pcs[j], f) :: f in s'.table
  {
    forall j, f | 0 <= j < |s'.pcs| && Unlinked(s'.pcs[j], f) ensures f in s'.table {
      assert pc == Grabbed(f) ==> Pending(s.pcs[i], f) && s.nlink[f] == 1;
      assert Unlinked(pc, f) ==> Unlinked(s.pcs[i], f);
      assert j != i ==> Unlinked(s.pcs[j], f);
    }
  }

  /** Only the acting thread can have become, or ceased to be, the remover of a file. */
  lemma RemovingMoves(s: State, s': State, i: nat, pc: Pc, pc': Pc, f: Fnode)
    requires ThreadMoves(s, s', i, pc, pc')
    ensures Removing(s'.pcs, f) ==> Removing(s.pcs, f) || Unlinked(pc', f)
    ensures Removing(s.pcs, f) ==> Removing(s'.pcs, f) || Unlinked(pc, f)
    ensures Unlinked(pc', f) ==> Removing(s'.pcs, f)
  {
    assert s'.pcs[i] == pc';
    assert forall j | 0 <= j < |s.pcs| && j != i :: s'.pcs[j] == s.pcs[j];
  }

  lemma KeptStays(s: State, s': State, i: nat, pc: Pc, pc': Pc, f: Fnode)
    requires CountersOk(s) && PendingLinked(s) && RemoverOk(s) && KeptOk(s) && ThreadMoves(s, s', i, pc, pc')
    requires LinksMove(s, s', pc, pc') && TableMoves(s, s', pc, pc') && PendingMoves(s, s', pc, pc') && KeptMoves(s, s', pc, pc')
    requires f in s'.kept
    ensures f in s'.table && f in s'.nlink && s'.nlink[f] == 0 && !Removing(s'.pcs, f)
  {
    assert pc == Grabbed(f) ==> Pending(s.pcs[i], f);
    assert Unlinked(pc, f) ==> Unlinked(s.pcs[i], f);
    RemovingMoves(s, s', i, pc, pc', f);
    if f !in s.kept {
      assert Unlinked(s.pcs[i], f);
      assert forall j | 0 <= j < |s'.pcs| && j != i :: s'.pcs[j] == s.pcs[j];
    }
  }

  lemma KeptCovers(s: State, s': State, i: nat, pc: Pc, pc': Pc, f: Fnode)
    requires CountersOk(s) && PendingLinked(s) && KeptOk(s) && ThreadMoves(s, s', i, pc, pc')
    requires LinksMove(s, s', pc, pc') && TableMoves(s, s', pc, pc') && KeptMoves(s, s', pc, pc')
    requires f in s'.table && f in s'.nlink && s'.nlink[f] == 0 && f !in s'.kept
    ensures Removing(s'.pcs, f)
  {
    assert Unlinked(pc, f) ==> Unlinked(s.pcs[i], f);
    RemovingMoves(s, s', i, pc, pc', f);
  }

  lemma KeptOkStep(s: State, s': State, i: nat, pc: Pc, pc': Pc)
    requires CountersOk(s) && PendingLinked(s) && RemoverOk(s) && KeptOk(s) && ThreadMoves(s, s', i, pc, pc')
    requires LinksMove(s, s', pc, pc') && TableMoves(s, s', pc, pc') && PendingMoves(s, s', pc, pc') && KeptMoves(s, s', pc, pc')
    ensures KeptOk(s')
  {
    hide CountersOk, PendingLinked, RemoverOk, ThreadMoves, LinksMove, TableMoves, PendingMoves, KeptMoves, Removing;
    forall f | f in s'.kept ensures f in s'.table && f in s'.nlink && s'.nlink[f] == 0 && !Removing(s'.pcs, f) {
      KeptStays(s, s', i, pc, pc', f);
    }
    forall f | f in s'.table && f in s'.nlink && s'.nlink[f] == 0 ensures f in s'.kept || Removing(s'.pcs, f) {
      if f !in s'.kept { KeptCovers(s, s', i, pc, pc', f); }
    }
  }

  // ----- releases -----

  predicate Releases(pc: Pc, h: Handle) {
    Releasing(pc) && pc.h == h
  }

  /** A handle is released by one thread. */
  ghost predicate ReleasesOk(s: State) {
    && (forall i, h | 0 <= i < |s.pcs| && Releases(s.pcs[i], h) :: h in s.open && h in s.closing)
    && (forall i, j, h | 0 <= i < |s.pcs| && 0 <= j < |s.pcs| && Releases(s.pcs[i], h) && Releases(s.pcs[j], h) :: i == j)
  }

  ghost predicate ReleaseMoves(s: State, s': State, pc: Pc, pc': Pc) {
    && (forall h | Releases(pc', h) :: Releases(pc, h) || (h in s.open && h !in s.closing && h in s'.closing))
    && (forall h | h in s.open && h !in s'.open :: Releases(pc, h) && !Releases(pc', h))
    && (forall h | h in s.closing && h !in s'.closing :: Releases(pc, h) && !Releases(pc', h))
  }

  lemma StepReleases(s: State, i: nat, a: Action)
    requires Enabled(s, i, a)
    ensures var s' := Apply(s, i, a); i < |s'.pcs| && ReleaseMoves(s, s', s.pcs[i], s'.pcs[i])
  {
    hide HasEntry, Opening, TableAfter, LinksAfter, EntriesAfter, OpensAfter, OvertakenAfter, KeptAfter, FailedAfter, QueueAfter;
  }

  lemma ReleasesStep(s: State, s': State, i: nat, pc: Pc, pc': Pc)
    requires ReleasesOk(s) && ThreadMoves(s, s', i, pc, pc') && ReleaseMoves(s, s', pc, pc')
    ensures ReleasesOk(s')
  {
    forall j, h | 0 <= j < |s'.pcs| && Releases(s'.pcs[j], h) ensures h in s'.open && h in s'.closing {
      assert j != i ==> Releases(s.pcs[j], h);
      assert Releases(pc, h) ==> Releases(s.pcs[i], h);
    }
    forall j, l, h | 0 <= j < |s'.pcs| && 0 <= l < |s'.pcs| && Releases(s'.pcs[j], h) && Releases(s'.pcs[l], h) ensures j == l {
      assert j != i ==> Releases(s.pcs[j], h);
      assert l != i ==> Releases(s.pcs[l], h);
      assert Releases(pc, h) ==> Releases(s.pcs[i], h);
    }
  }

  // ----- every run -----

  ghost predicate Inv(s: State) {
    CountersOk(s) && EntriesOk(s) && PendingOk(s) && SentOk(s) && OpensOk(s) && FindableOk(s) && OvertakenGone(s)
    && RemoverOk(s) && KeptOk(s) && ReleasesOk(s)
  }

  lemma InitFiles(s: State)
    requires Init(s)
    ensures CountersOk(s) && EntriesOk(s) && OpensOk(s) && FindableOk(s) && OvertakenGone(s) && KeptOk(s)
  {
    hide CountOf;
  }

  lemma InitRemovers(s: State)
    requires Init(s)
    ensures PendingOk(s) && RemoverOk(s)
  {
  }

  lemma InitThreads(s: State)
    requires Init(s)
    ensures SentOk(s) && ReleasesOk(s)
  {
  }

  lemma InitInv(s: State)
    requires Init(s)
    ensures Inv(s)
  {
    hide CountersOk, EntriesOk, OpensOk, FindableOk, OvertakenGone, KeptOk, PendingOk, SentOk, RemoverOk, ReleasesOk, Init;
    InitFiles(s);
    InitRemovers(s);
    InitThreads(s);
  }

  lemma StepInv(s: State, i: nat, a: Action)
    requires Inv(s) && Enabled(s, i, a)
    ensures Inv(Apply(s, i, a))
  {
    hide CountersOk, EntriesOk, SentOk, OpensOk, FindableOk, OvertakenGone, RemoverOk, KeptOk, KeptMoves, ReleasesOk,
      PendingLinked, PendingNoEntry, PendingUnique,
      Apply, LinksMove, TableMoves, EntriesMove, PendingMoves, SubmitMoves, HandlesMove, FindableMoves, ReleaseMoves,
      ThreadMoves;
    var s' := Apply(s, i, a);
    StepThread(s, i, a);
    var pc, pc' := s.pcs[i], s'.pcs[i];
    StepLinks(s, i, a);
    StepTable(s, i, a);
    StepEntries(s, i, a);
    StepPending(s, i, a);
    CountersStep(s, s', i, pc, pc');
    EntriesStep(s, s', i, pc, pc');
    PendingLinkedStep(s, s', i, pc, pc');
    PendingNoEntryStep(s, s', i, pc, pc');
    PendingUniqueStep(s, s', i, pc, pc');
    StepHandles(s, i, a);
    OpensStep(s, s', i, pc, pc');
    StepFindable(s, i, a);
    FindableStep(s, s', i, pc, pc');
    StepOvertaken(s, i, a);
    OvertakenGoneStep(s, s', i, pc, pc');
    StepKept(s, i, a);
    RemoverStep(s, s', i, pc, pc');
    KeptOkStep(s, s', i, pc, pc');
    StepReleases(s, i, a);
    ReleasesStep(s, s', i, pc, pc');
    SubmitterFirst(s);
    StepSubmit(s, i, a);
    SentStep(s, s', i, pc, pc');
  }

  lemma SubmitterFirst(s: State)
    requires SentOk(s)
    ensures OneSubmitter(s)
  {
  }

  lemma {:induction false} RunInv(run: seq<State>, k: nat)
    requires Run(run) && k < |run|
    ensures Inv(run[k])
  {
    hide Inv, Init, Apply, Enabled;
    if k == 0 {
      InitInv(run[0]);
    } else {
      RunInv(run, k - 1);
      assert StepAt(run, k - 1);
      var i: nat, a: Action :| Enabled(run[k - 1], i, a) && run[k] == Apply(run[k - 1], i, a);
      StepInv(run[k - 1], i, a);
    }
  }
}
