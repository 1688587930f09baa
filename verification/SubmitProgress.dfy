/** That no thread of the pipeline is ever stopped, and where every step leads: what an operation finds, and what the file
    tables are afterwards. */
module SubmitProgress {
  import opened SubmitPipeline
  import opened SubmitSafety

  /** What a thread can rely on at its place. */
  ghost predicate Settled(s: State, pc: Pc) {
    match pc
    case Found(f) => f in s.opencnt
    case Pinned(f) => f in s.opencnt
    case Cut(f) => f in s.nlink && s.nlink[f] == 1 && f in s.table
    case Grabbed(f) => f in s.nlink && s.nlink[f] == 1 && f in s.table
    case Dropped(f) => f in s.nlink && s.nlink[f] == 0 && f in s.opencnt
    case SeenUnlinked(f) => f in s.opencnt && f in s.table
    case SeenClosed(f) => f in s.opencnt && f in s.table
    case Closing(h, _) => h in s.open && s.open[h] in s.opencnt
    case Reached(h, _) => h in s.open && s.open[h] in s.opencnt
    case Queued(h, _) => h in s.open && s.open[h] in s.opencnt
    case _ => true
  }

  lemma ThreadSettled(run: seq<State>, k: nat, i: nat)
    requires Run(run) && k < |run| && i < |run[k].pcs|
    ensures Settled(run[k], run[k].pcs[i])
  {
    RunInv(run, k);
    var s := run[k];
    assert CountersOk(s) && PendingOk(s) && OpensOk(s) && FindableOk(s) && RemoverOk(s) && ReleasesOk(s);
    hide Run, Inv, CountOf;
    InvSettled(s, i);
  }

  lemma InvSettled(s: State, i: nat)
    requires i < |s.pcs|
    requires CountersOk(s) && PendingOk(s) && OpensOk(s) && FindableOk(s) && RemoverOk(s) && ReleasesOk(s)
    ensures Settled(s, s.pcs[i])
  {
    hide *;
    var pc := s.pcs[i];
    if Releasing(pc) { ReleaseSettled(s, i); } else { LinksSettled(s, i); }
  }

  lemma ReleaseSettled(s: State, i: nat)
    requires i < |s.pcs| && Releasing(s.pcs[i]) && OpensOk(s) && ReleasesOk(s)
    ensures Settled(s, s.pcs[i])
  {
    hide CountOf;
    assert Releases(s.pcs[i], s.pcs[i].h);
  }

  lemma LinksSettled(s: State, i: nat)
    requires i < |s.pcs| && !Releasing(s.pcs[i]) && CountersOk(s) && PendingOk(s) && FindableOk(s) && RemoverOk(s)
    ensures Settled(s, s.pcs[i])
  {
    var pc := s.pcs[i];
    if pc.Found? || pc.Pinned? {
      assert InOpen(pc, pc.f);
    } else if pc.Cut? || pc.Grabbed? {
      assert Pending(pc, pc.f);
    } else if pc.Dropped? || pc.SeenUnlinked? || pc.SeenClosed? {
      assert Unlinked(pc, pc.f);
    }
  }

  /** What thread `i` can do next; `k` is any name, `h` any handle and `d` any directory. */
  ghost predicate GoesOn(s: State, i: nat, k: Key, h: Handle, d: int)
    requires i < |s.pcs|
  {
    match s.pcs[i]
    case Idle =>
      && (Enabled(s, i, BeginOpen) <==> i != 0) && (Enabled(s, i, BeginUnlink) <==> i != 0)
      && (Enabled(s, i, BeginRelease(h, d)) <==> i != 0 && h in s.open && h !in s.closing)
      && (Enabled(s, i, Take) <==> i == 0 && s.queue != [])
    case Looking =>
      && (Enabled(s, i, Lookup(k)) <==> k in s.entries) && (Enabled(s, i, Create(k)) <==> k !in s.entries)
      && (Enabled(s, i, CreateOnly(k)) <==> k !in s.entries) && Enabled(s, i, LookupFails)
    case Found(_) => Enabled(s, i, Pin)
    case Pinned(_) => (Enabled(s, i, OpenDone(h)) <==> h !in s.open) && Enabled(s, i, OpenFails)
    case Cutting => (Enabled(s, i, Unlink(k)) <==> k in s.entries) && Enabled(s, i, UnlinkFails)
    case Cut(_) => Enabled(s, i, Grab)
    case Grabbed(_) => Enabled(s, i, DropLink)
    case Dropped(_) => Enabled(s, i, ReadLinks)
    case SeenUnlinked(_) => Enabled(s, i, ReadOpens)
    case SeenClosed(_) => Enabled(s, i, TakeOut)
    case Closing(g, _) => g in s.open && (Enabled(s, i, Reach) <==> s.open[g] in s.table) && Enabled(s, i, ReleaseFails)
    case Reached(_, _) => Enabled(s, i, Enqueue)
    case Queued(_, _) => Enabled(s, i, CloseDone)
    case Taken(_) => Enabled(s, i, Skip) && Enabled(s, i, List)
    case Listed(_) => Enabled(s, i, Fetch)
    case Reading(_) => Enabled(s, i, Copy)
    case Copied(_) => Enabled(s, i, Send)
    case Sent(x) =>
      && (Enabled(s, i, CleanUp(k)) <==> k in s.entries && k.dir == x.dir && s.entries[k] == x.fnode)
      && (Enabled(s, i, NothingToClean) <==> !HasEntry(s.entries, x.dir, x.fnode))
  }

  predicate AtFront(pc: Pc) {
    pc.Idle? || pc.Looking? || pc.Found? || pc.Pinned? || pc.Closing? || pc.Reached? || pc.Queued? || pc.Cutting? || pc.Cut?
  }

  lemma OpensGoOn(s: State, i: nat, k: Key, h: Handle, d: int)
    requires i < |s.pcs| && Settled(s, s.pcs[i]) && AtFront(s.pcs[i])
    ensures GoesOn(s, i, k, h, d)
  {
    hide HasEntry;
  }

  lemma OthersGoOn(s: State, i: nat, k: Key, h: Handle, d: int)
    requires i < |s.pcs| && Settled(s, s.pcs[i]) && !AtFront(s.pcs[i])
    ensures GoesOn(s, i, k, h, d)
  {
    hide HasEntry;
  }

  /** No thread is ever stopped: at every place the next section can be entered, whatever the other threads do. */
  lemma NeverStopped(run: seq<State>, n: nat, i: nat, k: Key, h: Handle, d: int)
    requires Run(run) && n < |run| && i < |run[n].pcs|
    ensures GoesOn(run[n], i, k, h, d)
  {
    ThreadSettled(run, n, i);
    hide *;
    if AtFront(run[n].pcs[i]) { OpensGoOn(run[n], i, k, h, d); } else { OthersGoOn(run[n], i, k, h, d); }
  }

  // ----- where the steps lead -----

  ghost predicate OpeningLeads(s: State, s': State, pc: Pc, pc': Pc, a: Action) {
    match pc
    case Looking =>
      && (a.Lookup? ==> a.k in s.entries && pc' == Found(s.entries[a.k]))
      && (a.Create? || a.CreateOnly? ==>
            && pc' == (if a.Create? then Found(s.serial) else Idle)
            && s'.entries == s.entries[a.k := s.serial] && s'.table == s.table + {s.serial}
            && s'.nlink == s.nlink[s.serial := 1] && s'.opencnt == s.opencnt[s.serial := 0] && s'.serial == s.serial + 1)
    case Found(f) => pc' == if f in s.table then Pinned(f) else Idle
    case Pinned(f) =>
      pc' == Idle && (a.OpenDone? ==> s'.open == s.open[a.h := f] && f in s.opencnt && s'.opencnt == s.opencnt[f := s.opencnt[f] + 1])
    case _ => true
  }

  ghost predicate RemovalLeads(s: State, s': State, pc: Pc, pc': Pc, a: Action) {
    match pc
    case Cutting => a.Unlink? ==> a.k in s.entries && pc' == Cut(s.entries[a.k]) && s'.entries == s.entries - {a.k}
    case Cut(f) => pc' == Grabbed(f)
    case Grabbed(f) => pc' == Dropped(f) && s'.nlink == s.nlink[f := 0]
    case Dropped(f) => pc' == SeenUnlinked(f)
    case SeenUnlinked(f) =>
      pc' == if (exists h :: h in s.open && s.open[h] == f) || f in s.failed then Idle else SeenClosed(f)
    case SeenClosed(f) => pc' == Idle && s'.table == s.table - {f}
    case _ => true
  }

  ghost predicate ReleaseLeads(s: State, s': State, pc: Pc, pc': Pc, a: Action) {
    match pc
    case Closing(h, d) => if a == Reach then pc' == Reached(h, d) else pc' == Idle && s'.open == s.open - {h} && s'.opencnt == s.opencnt
    case Reached(h, d) => pc' == Queued(h, d) && s'.open == s.open
    case Queued(h, _) =>
      && pc' == Idle && h in s.open && s.open[h] in s.opencnt && s'.open == s.open - {h} && s'.closing == s.closing - {h}
      && s'.opencnt == s.opencnt[s.open[h] := s.opencnt[s.open[h]] - 1]
    case _ => true
  }

  ghost predicate SubmissionLeads(s: State, s': State, pc: Pc, pc': Pc, a: Action) {
    match pc
    case Taken(x) => pc' == if a == List && HasEntry(s.entries, x.dir, x.fnode) then Listed(x) else Idle
    case Listed(x) => pc' == if x.fnode in s.table then Reading(x) else Idle
    case Reading(x) => pc' == Copied(x)
    case Copied(x) => pc' == Sent(x) && s'.sent == s.sent + [x.fnode]
    case Sent(x) =>
      if HasEntry(s.entries, x.dir, x.fnode) then pc' == Cut(x.fnode) && a.CleanUp? && s'.entries == s.entries - {a.k}
      else pc' == Idle && s'.entries == s.entries
    case _ => true
  }

  /** An open finds its file exactly while it is in the table; a removal that has cut an entry off always finds its file, with
      the last link, and then removes it unless it is open or a release of it has failed; a submission goes through where
      the file still has its entry and is in the table. */
  lemma StepsLead(run: seq<State>, k: nat, i: nat, a: Action)
    requires Run(run) && k < |run| && Enabled(run[k], i, a)
    ensures
      var s, s' := run[k], Apply(run[k], i, a);
      && i < |s'.pcs|
      && OpeningLeads(s, s', s.pcs[i], s'.pcs[i], a) && RemovalLeads(s, s', s.pcs[i], s'.pcs[i], a)
      && ReleaseLeads(s, s', s.pcs[i], s'.pcs[i], a) && SubmissionLeads(s, s', s.pcs[i], s'.pcs[i], a)
  {
    assert i < |run[k].pcs|;
    ThreadSettled(run, k, i);
    if run[k].pcs[i].SeenUnlinked? {
      OpensCounted(run, k, run[k].pcs[i].f);
      CountNone(run[k].open, run[k].pcs[i].f);
    }
    hide *;
    var s := run[k];
    OpeningStep(s, i, a);
    RemovalStep(s, i, a);
    ReleaseStep(s, i, a);
    SubmissionStep(s, i, a);
  }

  lemma OpeningStep(s: State, i: nat, a: Action)
    requires Enabled(s, i, a)
    ensures var s' := Apply(s, i, a); i < |s'.pcs| && OpeningLeads(s, s', s.pcs[i], s'.pcs[i], a)
  {
    hide HasEntry, Opening, ClosingAfter, OvertakenAfter, KeptAfter, FailedAfter, QueueAfter;
  }

  lemma RemovalStep(s: State, i: nat, a: Action)
    requires Enabled(s, i, a) && Settled(s, s.pcs[i])
    requires s.pcs[i].SeenUnlinked? ==>
      var f := s.pcs[i].f;
      f in s.opencnt && (s.opencnt[f] > 0 <==> (exists h :: h in s.open && s.open[h] == f) || f in s.failed)
    ensures var s' := Apply(s, i, a); i < |s'.pcs| && RemovalLeads(s, s', s.pcs[i], s'.pcs[i], a)
  {
    hide HasEntry, Opening, OpensAfter, HandlesAfter, ClosingAfter, OvertakenAfter, KeptAfter, FailedAfter, QueueAfter;
  }

  lemma ReleaseStep(s: State, i: nat, a: Action)
    requires Enabled(s, i, a) && Settled(s, s.pcs[i])
    ensures var s' := Apply(s, i, a); i < |s'.pcs| && ReleaseLeads(s, s', s.pcs[i], s'.pcs[i], a)
  {
    hide HasEntry, Opening, EntriesAfter, TableAfter, LinksAfter, OvertakenAfter, KeptAfter, FailedAfter, QueueAfter;
  }

  lemma SubmissionStep(s: State, i: nat, a: Action)
    requires Enabled(s, i, a)
    ensures var s' := Apply(s, i, a); i < |s'.pcs| && SubmissionLeads(s, s', s.pcs[i], s'.pcs[i], a)
  {
    hide Opening, TableAfter, LinksAfter, OpensAfter, HandlesAfter, ClosingAfter, OvertakenAfter, KeptAfter, FailedAfter, QueueAfter;
  }
}
