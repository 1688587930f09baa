/** What the interleaved file operations and the submit thread guarantee over whole runs: one submission for each file,
    entries that keep their files, directories that agree with the table, open files that can be found, and which files
    stay behind. */
module SubmitSafety {
  import opened SubmitPipeline

  /** However often a file is released, it is submitted at most once. */
  lemma SubmittedOnce(run: seq<State>, k: nat, x: nat, y: nat)
    requires Run(run) && k < |run| && x < y < |run[k].sent|
    ensures run[k].sent[x] != run[k].sent[y]
  {
    RunInv(run, k);
  }

  lemma CleaningUp(run: seq<State>, k: nat)
    requires Run(run) && k < |run|
    ensures |run[k].pcs| > 0 && (run[k].pcs[0].Sent? ==> run[k].pcs[0].item.fnode in run[k].sent)
    ensures forall i | 0 < i < |run[k].pcs| :: !run[k].pcs[i].Sent?
  {
    RunInv(run, k);
    assert forall i | 0 < i < |run[k].pcs| && run[k].pcs[i].Sent? :: Submitting(run[k].pcs[i]);
  }

  /** An entry disappears only when some thread unlinks that very name, or when the submit thread cleans up and that very
      file is among the submissions, even if the name was given to another file meanwhile; and an entry never changes
      its file. */
  lemma EntriesKeepTheirFiles(run: seq<State>, k: nat, i: nat, a: Action, key: Key)
    requires Run(run) && k < |run| && Enabled(run[k], i, a) && key in run[k].entries
    ensures
      var s, s' := run[k], Apply(run[k], i, a);
      if key in s'.entries then s'.entries[key] == s.entries[key]
      else
        || a == Unlink(key)
        || (a == CleanUp(key) && i == 0 && s.pcs[0] == Sent(Item(key.dir, s.entries[key])) && s.entries[key] in s.sent)
  {
    CleaningUp(run, k);
    hide Run, TableAfter, LinksAfter, OpensAfter, HandlesAfter, ClosingAfter, OvertakenAfter, KeptAfter, FailedAfter, PcAfter;
  }

  /** Once the clean-up after a submission is over, no entry of a submitted file is left, in whatever directory. */
  lemma NoEntryOutlivesItsSubmission(run: seq<State>, k: nat, key: Key)
    requires Run(run) && k < |run| && key in run[k].entries
    ensures |run[k].pcs| > 0 && (!run[k].pcs[0].Sent? ==> run[k].entries[key] !in run[k].sent)
  {
    RunInv(run, k);
  }

  /** Directories and table agree: no file has two entries in one directory or across directories, and each entry's file
      is in the table with exactly one link. */
  lemma DirectoriesAgreeWithTable(run: seq<State>, k: nat, key: Key)
    requires Run(run) && k < |run| && key in run[k].entries
    ensures run[k].entries[key] in run[k].table
    ensures run[k].entries[key] in run[k].nlink && run[k].nlink[run[k].entries[key]] == 1
    ensures forall other | other in run[k].entries && run[k].entries[other] == run[k].entries[key] :: other == key
  {
    RunInv(run, k);
  }

  /** A thread that has removed an entry always finds the file in the table: its error branch is never taken. */
  lemma RemovedEntryIsFound(run: seq<State>, k: nat, i: nat, f: Fnode)
    requires Run(run) && k < |run| && i < |run[k].pcs| && run[k].pcs[i] == Cut(f)
    ensures f in run[k].table
  {
    RunInv(run, k);
    assert Pending(run[k].pcs[i], f);
  }

  /** The open counter is the number of open handles plus the number of releases that failed: it is right if and only if
      no release of this file ever failed. */
  lemma OpensCounted(run: seq<State>, k: nat, f: Fnode)
    requires Run(run) && k < |run| && f in run[k].opencnt
    ensures run[k].opencnt[f] == CountOf(run[k].open, f) + run[k].failed[f]
    ensures run[k].opencnt[f] == CountOf(run[k].open, f) <==> f !in run[k].failed
  {
    RunInv(run, k);
    hide CountOf;
  }

  /** A file with an open handle can be found by its number, unlinked or not, if and only if it was not overtaken: taken out
      of the table by a removal while somebody was opening it or had opened it since the removal looked. */
  lemma OpenFilesAreFindable(run: seq<State>, k: nat, h: Handle)
    requires Run(run) && k < |run| && h in run[k].open
    ensures run[k].open[h] in run[k].table <==> run[k].open[h] !in run[k].overtaken
    ensures run[k].open[h] in run[k].opencnt && run[k].opencnt[run[k].open[h]] > 0
  {
    RunInv(run, k);
    CountNone(run[k].open, run[k].open[h]);
  }

  // ----- files that stay behind -----

  /** A file is in the table exactly as long as it has a link, or its remover has not decided, or its remover saw a positive
      open counter and gave up; and the three exclude one another. */
  lemma InTableExactly(run: seq<State>, k: nat, f: Fnode)
    requires Run(run) && k < |run| && f in run[k].nlink
    ensures f in run[k].table <==> run[k].nlink[f] == 1 || Removing(run[k].pcs, f) || f in run[k].kept
    ensures f in run[k].kept ==> run[k].nlink[f] == 0 && !Removing(run[k].pcs, f)
    ensures Removing(run[k].pcs, f) ==> run[k].nlink[f] == 0
  {
    RunInv(run, k);
    hide CountOf, SentOk, OpensOk, FindableOk;
  }

  /** The only step that puts a file on record is its remover's look at the open counter, and it does so exactly where, at
      that moment, the file has an open handle or a release of it has failed before. */
  lemma GivesUpExactly(run: seq<State>, k: nat, i: nat, a: Action, f: Fnode)
    requires Run(run) && k < |run| && Enabled(run[k], i, a) && f !in run[k].kept
    ensures
      f in Apply(run[k], i, a).kept <==>
        && a == ReadOpens && run[k].pcs[i] == SeenUnlinked(f)
        && ((exists h :: h in run[k].open && run[k].open[h] == f) || f in run[k].failed)
  {
    hide CountOf, EntriesAfter, TableAfter, LinksAfter, OpensAfter, HandlesAfter, ClosingAfter, OvertakenAfter,
      FailedAfter, PcAfter,
      HasEntry, Opening;
    if run[k].pcs[i] == SeenUnlinked(f) {
      UnlinkedKnown(run, k, i, f);
      OpensCounted(run, k, f);
      CountNone(run[k].open, f);
    }
  }

  lemma UnlinkedKnown(run: seq<State>, k: nat, i: nat, f: Fnode)
    requires Run(run) && k < |run| && i < |run[k].pcs| && Unlinked(run[k].pcs[i], f)
    ensures f in run[k].opencnt
  {
    RunInv(run, k);
  }

  /** `f` is in the table, has no name, and no thread is about to remove it. */
  ghost predicate LeftBehind(s: State, f: Fnode) {
    && f in s.table && f in s.nlink && s.nlink[f] == 0 && !Removing(s.pcs, f)
  }

  /** The files left behind are those whose remover gave up. */
  lemma LeftBehindExactly(run: seq<State>, k: nat, f: Fnode)
    requires Run(run) && k < |run|
    ensures LeftBehind(run[k], f) <==> f in run[k].kept
  {
    RunInv(run, k);
    hide CountOf, Removing;
  }

  /** A release never removes a file: one that was left behind stays in the table, and its size in the total, for ever. */
  lemma {:induction false} LeftBehindForGood(run: seq<State>, k: nat, l: nat, f: Fnode)
    requires Run(run) && k <= l < |run| && LeftBehind(run[k], f)
    ensures LeftBehind(run[l], f)
    decreases l
  {
    hide LeftBehind, Inv, Init, Apply, KeptMoves, Enabled;
    if k < l {
      LeftBehindForGood(run, k, l - 1, f);
      LeftBehindExactly(run, l - 1, f);
      assert StepAt(run, l - 1);
      var s := run[l - 1];
      var i: nat, a: Action :| Enabled(s, i, a) && run[l] == Apply(s, i, a);
      StaysKept(s, i, a, f);
      LeftBehindExactly(run, l, f);
    }
  }

  lemma StaysKept(s: State, i: nat, a: Action, f: Fnode)
    requires Enabled(s, i, a) && f in s.kept
    ensures f in Apply(s, i, a).kept
  {
    hide Apply, Enabled;
    StepKept(s, i, a);
  }

  // ----- operations one at a time -----

  /** At most one thread is inside an operation. */
  ghost predicate OneAtATime(s: State) {
    forall i, j | 0 <= i < |s.pcs| && 0 <= j < |s.pcs| && s.pcs[i] != Idle && s.pcs[j] != Idle :: i == j
  }

  /** A thread that saw nobody having the file open is still right. */
  ghost predicate ClosedStays(s: State) {
    && s.overtaken == {}
    && forall i | 0 <= i < |s.pcs| && s.pcs[i].SeenClosed? :: s.pcs[i].f in s.opencnt && s.opencnt[s.pcs[i].f] <= 0
  }

  ghost predicate AtomicMoves(s: State, s': State, pc: Pc, pc': Pc) {
    && (s'.overtaken == s.overtaken || (pc.SeenClosed? && pc.f in s.opencnt && (s.opencnt[pc.f] > 0 || Opening(s.pcs, pc.f))))
    && (pc'.SeenClosed? ==> pc'.f in s.opencnt && s.opencnt[pc'.f] <= 0 && s'.opencnt == s.opencnt)
    && !(pc.Idle? && pc'.Idle?)
  }

  lemma StepLooks(s: State, i: nat, a: Action)
    requires Enabled(s, i, a)
    ensures
      var s' := Apply(s, i, a);
      && i < |s'.pcs| && !(s.pcs[i].Idle? && s'.pcs[i].Idle?)
      && (s'.pcs[i].SeenClosed? ==>
            s'.pcs[i].f in s.opencnt && s.opencnt[s'.pcs[i].f] <= 0 && s'.opencnt == s.opencnt)
  {
    hide HasEntry, Opening, TableAfter, LinksAfter, EntriesAfter, ClosingAfter, HandlesAfter, OvertakenAfter, KeptAfter,
      FailedAfter;
  }

  lemma StepAtomic(s: State, i: nat, a: Action)
    requires Enabled(s, i, a)
    ensures var s' := Apply(s, i, a); i < |s'.pcs| && AtomicMoves(s, s', s.pcs[i], s'.pcs[i])
  {
    hide HasEntry, Opening, TableAfter, LinksAfter, EntriesAfter, OpensAfter, ClosingAfter, HandlesAfter, KeptAfter,
      FailedAfter, PcAfter;
    StepLooks(s, i, a);
  }

  lemma AtomicStep(s: State, s': State, i: nat, pc: Pc, pc': Pc)
    requires OneAtATime(s) && OneAtATime(s') && ClosedStays(s) && ThreadMoves(s, s', i, pc, pc') && AtomicMoves(s, s', pc, pc')
    ensures ClosedStays(s')
  {
    assert pc.SeenClosed? ==> forall j | 0 <= j < |s.pcs| :: !InOpen(s.pcs[j], pc.f);
    assert s.pcs[i] == pc && s'.pcs[i] == pc';
    forall j | 0 <= j < |s'.pcs| && s'.pcs[j].SeenClosed? ensures j == i {
    }
  }

  lemma AtomicNext(s: State, s': State)
    requires Next(s, s') && OneAtATime(s) && OneAtATime(s') && ClosedStays(s)
    ensures ClosedStays(s')
  {
    hide Apply, ThreadMoves, AtomicMoves, OneAtATime, ClosedStays;
    var i: nat, a: Action :| Enabled(s, i, a) && s' == Apply(s, i, a);
    StepThread(s, i, a);
    StepAtomic(s, i, a);
    AtomicStep(s, s', i, s.pcs[i], s'.pcs[i]);
  }

  lemma AtomicInit(s: State)
    requires Init(s)
    ensures ClosedStays(s)
  {
  }

  /** Where no two operations overlap, no file is ever overtaken. */
  lemma {:induction false} AtomicNeverOvertakes(run: seq<State>, k: nat)
    requires Run(run) && k < |run| && forall j | 0 <= j < |run| :: OneAtATime(run[j])
    ensures ClosedStays(run[k])
  {
    hide Init, Next, ClosedStays, OneAtATime;
    if k == 0 {
      AtomicInit(run[0]);
    } else {
      AtomicNeverOvertakes(run, k - 1);
      assert StepAt(run, k - 1);
      AtomicNext(run[k - 1], run[k]);
    }
  }

  /** So every file that is open can be found by its number. */
  lemma AtomicFindable(run: seq<State>, k: nat, h: Handle)
    requires Run(run) && k < |run| && h in run[k].open && forall j | 0 <= j < |run| :: OneAtATime(run[j])
    ensures run[k].open[h] in run[k].table
  {
    AtomicNeverOvertakes(run, k);
    OpenFilesAreFindable(run, k, h);
    hide Run, OneAtATime;
  }
}
