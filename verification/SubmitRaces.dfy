/** Runs of `SubmitPipeline` after which something is not as one would expect.  In all of them thread 1 creates a file and
    opens it, and thread 2 may unlink it. */
module SubmitRaces {
  import opened SubmitPipeline
  import opened SubmitSafety

  const KEY := Key(1, "a.c")

  /** File 1 under the name `KEY`, or without it, and handle 7 if it is open. */
  function Scene(named: bool, links: int, opens: int, p: Pc, q: Pc): State {
    State(if named then map[KEY := 1] else map[], {1}, map[1 := links], map[1 := opens],
          if opens > 0 then map[7 := 1] else map[], {}, [], [], 2, {}, {}, multiset{}, [Idle, p, q])
  }

  /** The file is created. */
  function Creating(n: nat): State {
    if n <= 1 then
      State(map[], {}, map[], map[], map[], {}, [], [], 1, {}, {}, multiset{}, [Idle, if n == 0 then Idle else Looking, Idle])
    else Scene(true, 1, 0, if n == 2 then Found(1) else Pinned(1), Idle)
  }

  function CreatingAction(n: nat): Action {
    if n == 0 then BeginOpen else if n == 1 then Create(KEY) else Pin
  }

  lemma CreatingStep(n: nat)
    requires n < 3
    ensures Next(Creating(n), Creating(n + 1))
  {
    hide HasEntry, Opening;
    assert Enabled(Creating(n), 1, CreatingAction(n));
    assert Apply(Creating(n), 1, CreatingAction(n)) == Creating(n + 1);
  }

  /** Thread 2 unlinks the file, up to the point where it looks at the open counter. */
  function Unlinking(n: nat, opens: int, p: Pc): State {
    Scene(n < 2, if n < 4 then 1 else 0, opens, p,
          if n == 0 then Idle else if n == 1 then Cutting else if n == 2 then Cut(1) else if n == 3 then Grabbed(1)
          else if n == 4 then Dropped(1) else SeenUnlinked(1))
  }

  lemma CutStep(n: nat, opens: int, p: Pc)
    requires n < 2
    ensures Next(Unlinking(n, opens, p), Unlinking(n + 1, opens, p))
  {
    hide HasEntry, Opening;
    var a := if n == 0 then BeginUnlink else Unlink(KEY);
    assert Enabled(Unlinking(n, opens, p), 2, a);
    assert Apply(Unlinking(n, opens, p), 2, a) == Unlinking(n + 1, opens, p);
  }

  lemma GrabStep(opens: int, p: Pc)
    ensures Next(Unlinking(2, opens, p), Unlinking(3, opens, p))
  {
    hide HasEntry, Opening;
    assert Enabled(Unlinking(2, opens, p), 2, Grab);
    assert Apply(Unlinking(2, opens, p), 2, Grab) == Unlinking(3, opens, p);
  }

  lemma DropStep(n: nat, opens: int, p: Pc)
    requires n == 3 || n == 4
    ensures Next(Unlinking(n, opens, p), Unlinking(n + 1, opens, p))
  {
    hide HasEntry, Opening;
    var a := if n == 3 then DropLink else ReadLinks;
    assert Enabled(Unlinking(n, opens, p), 2, a);
    assert Apply(Unlinking(n, opens, p), 2, a) == Unlinking(n + 1, opens, p);
  }

  // ----- a removal that overtakes an open -----

  /** Between the lookup of thread 1 and its counting, thread 2 unlinks the file and sees nobody having it open. */
  function Race(n: nat): State {
    if n <= 3 then Creating(n)
    else if n <= 8 then Unlinking(n - 3, 0, Pinned(1))
    else if n == 9 then Scene(false, 0, 0, Pinned(1), SeenClosed(1))
    else if n == 10 then Scene(false, 0, 1, Idle, SeenClosed(1))
    else Scene(false, 0, 1, Idle, Idle).(table := {}, overtaken := {1})
  }

  lemma RaceLooks()
    ensures Next(Race(8), Race(9))
  {
    hide HasEntry, Opening;
    assert Enabled(Race(8), 2, ReadOpens);
    assert Apply(Race(8), 2, ReadOpens) == Race(9);
  }

  lemma RaceOpens()
    ensures Next(Race(9), Race(10))
  {
    hide HasEntry, Opening;
    assert Enabled(Race(9), 1, OpenDone(7));
    assert Apply(Race(9), 1, OpenDone(7)) == Race(10);
  }

  lemma RaceTakesOut()
    ensures Next(Race(10), Race(11))
  {
    hide HasEntry, Opening;
    var s, pc := Race(10), SeenClosed(1);
    assert Enabled(s, 2, TakeOut);
    assert TableAfter(s, pc, TakeOut) == {} && OvertakenAfter(s, pc, TakeOut) == {1} && PcAfter(s, 2, TakeOut) == Idle;
    hide TableAfter, OvertakenAfter, Enabled, PcAfter;
    assert Apply(s, 2, TakeOut) == Race(11);
  }

  lemma RaceStep(n: nat)
    requires n < 11
    ensures Next(Race(n), Race(n + 1))
  {
    hide Next;
    if n < 3 { CreatingStep(n); }
    else if n < 5 { CutStep(n - 3, 0, Pinned(1)); }
    else if n == 5 { GrabStep(0, Pinned(1)); }
    else if n < 8 { DropStep(n - 3, 0, Pinned(1)); }
    else if n == 8 { RaceLooks(); }
    else if n == 9 { RaceOpens(); }
    else { RaceTakesOut(); }
  }

  /** Without the condition of `OpenFilesAreFindable` the property fails: there is a run after which a file is open and
      cannot be found. */
  lemma OvertakenOpenIsLost() returns (run: seq<State>)
    ensures Run(run) && |run| > 0
    ensures var s := run[|run| - 1]; 7 in s.open && s.open[7] !in s.table && s.open[7] in s.overtaken
  {
    run := seq(12, n requires 0 <= n < 12 => Race(n));
    assert Init(run[0]) && run[11] == Race(11);
    forall k: nat ensures StepAt(run, k) {
      hide Next, Race;
      if k < 11 { RaceStep(k); }
    }
  }

  // ----- a file that is unlinked while it is open -----

  /** Thread 1 opens the file, thread 2 unlinks it and gives up, and thread 1 closes it. */
  function Stay(n: nat): State {
    if n <= 3 then Creating(n)
    else if n <= 9 then Unlinking(n - 4, 1, Idle)
    else if n == 10 then Scene(false, 0, 1, Idle, Idle).(kept := {1})
    else if n == 11 then Scene(false, 0, 1, Closing(7, 1), Idle).(kept := {1}, closing := {7})
    else if n == 12 then Scene(false, 0, 1, Reached(7, 1), Idle).(kept := {1}, closing := {7})
    else if n == 13 then Scene(false, 0, 1, Queued(7, 1), Idle).(kept := {1}, closing := {7}, queue := [Item(1, 1)])
    else Scene(false, 0, 0, Idle, Idle).(kept := {1}, queue := [Item(1, 1)])
  }

  lemma StayOpens()
    ensures Next(Stay(3), Stay(4))
  {
    hide HasEntry, Opening;
    assert Enabled(Stay(3), 1, OpenDone(7));
    assert Apply(Stay(3), 1, OpenDone(7)) == Stay(4);
  }

  lemma StayGivesUp()
    ensures Next(Stay(9), Stay(10))
  {
    hide HasEntry, Opening;
    assert Enabled(Stay(9), 2, ReadOpens);
    assert Apply(Stay(9), 2, ReadOpens) == Stay(10);
  }

  lemma StayReleases()
    ensures Next(Stay(10), Stay(11))
  {
    hide HasEntry, Opening;
    assert Enabled(Stay(10), 1, BeginRelease(7, 1));
    assert Apply(Stay(10), 1, BeginRelease(7, 1)) == Stay(11);
  }

  lemma StayReaches()
    ensures Next(Stay(11), Stay(12))
  {
    hide HasEntry, Opening;
    assert Enabled(Stay(11), 1, Reach);
    assert Apply(Stay(11), 1, Reach) == Stay(12);
  }

  lemma StaySubmits()
    ensures Next(Stay(12), Stay(13))
  {
    hide HasEntry, Opening;
    assert Enabled(Stay(12), 1, Enqueue);
    assert Apply(Stay(12), 1, Enqueue) == Stay(13);
  }

  lemma StayCloses()
    ensures Next(Stay(13), Stay(14))
  {
    hide HasEntry, Opening;
    assert Enabled(Stay(13), 1, CloseDone);
    assert Apply(Stay(13), 1, CloseDone) == Stay(14);
  }

  lemma StayStep(n: nat)
    requires n < 14
    ensures Next(Stay(n), Stay(n + 1))
  {
    hide Next;
    if n < 3 { CreatingStep(n); }
    else if n == 3 { StayOpens(); }
    else if n < 6 { CutStep(n - 4, 1, Idle); }
    else if n == 6 { GrabStep(1, Idle); }
    else if n < 9 { DropStep(n - 4, 1, Idle); }
    else if n == 9 { StayGivesUp(); }
    else if n == 10 { StayReleases(); }
    else if n == 11 { StayReaches(); }
    else if n == 12 { StaySubmits(); }
    else { StayCloses(); }
  }

  /** There is a run after which nobody is at work, no name and no handle is left, and a file is still in the table. */
  lemma UnlinkedWhileOpenStays() returns (run: seq<State>)
    ensures Run(run) && |run| > 0
    ensures
      var s := run[|run| - 1];
      && s.entries == map[] && s.open == map[] && (forall i | 0 <= i < |s.pcs| :: s.pcs[i] == Idle)
      && LeftBehind(s, 1)
  {
    run := seq(15, n requires 0 <= n < 15 => Stay(n));
    assert Init(run[0]) && run[14] == Stay(14) && LeftBehind(Stay(14), 1);
    hide LeftBehind;
    forall k: nat ensures StepAt(run, k) {
      hide Next, Stay;
      if k < 14 { StayStep(k); }
    }
  }

  // ----- a release that fails -----

  function Failure(n: nat): State {
    if n <= 4 then Stay(n)
    else if n == 5 then Scene(true, 1, 1, Closing(7, 1), Idle).(closing := {7})
    else Scene(true, 1, 1, Idle, Idle).(open := map[], failed := multiset{1})
  }

  lemma FailureBegins()
    ensures Next(Failure(4), Failure(5))
  {
    hide HasEntry, Opening;
    assert Enabled(Failure(4), 1, BeginRelease(7, 1));
    assert Apply(Failure(4), 1, BeginRelease(7, 1)) == Failure(5);
  }

  lemma FailureEnds()
    ensures Next(Failure(5), Failure(6))
  {
    hide HasEntry, Opening;
    assert Enabled(Failure(5), 1, ReleaseFails);
    assert Apply(Failure(5), 1, ReleaseFails) == Failure(6);
  }

  lemma FailureStep(n: nat)
    requires n < 6
    ensures Next(Failure(n), Failure(n + 1))
  {
    hide Next;
    if n < 4 { StayStep(n); } else if n == 4 { FailureBegins(); } else { FailureEnds(); }
  }

  /** There is a run after which nobody is at work and the open counter is 1, without any open handle. */
  lemma FailedReleaseCounted() returns (run: seq<State>)
    ensures Run(run) && |run| > 0
    ensures
      var s := run[|run| - 1];
      && s.open == map[] && (forall i | 0 <= i < |s.pcs| :: s.pcs[i] == Idle)
      && 1 in s.opencnt && s.opencnt[1] == 1 && 1 in s.failed
  {
    run := seq(7, n requires 0 <= n < 7 => Failure(n));
    assert Init(run[0]) && run[6] == Failure(6);
    forall k: nat ensures StepAt(run, k) {
      hide Next, Failure;
      if k < 6 { FailureStep(k); }
    }
  }
}
