/** What becomes of every released file: it goes through the queue in the order of the releases, and leaves it to be submitted
    or given up. */
module SubmitOrder {
  import opened SubmitPipeline
  import opened SubmitQueue

  // ----- what can be seen of a step -----

  /** Thread `i` has put its item on the queue. */
  predicate Puts(s: State, s': State, i: nat) {
    i < |s.pcs| && i < |s'.pcs| && s.pcs[i].Reached? && s.pcs[i].h in s.open && s'.pcs[i] == Queued(s.pcs[i].h, s.pcs[i].dir)
  }

  /** The submit thread has taken an item. */
  predicate Takes(s: State, s': State) {
    |s.pcs| > 0 && |s'.pcs| > 0 && s.pcs[0].Idle? && s'.pcs[0].Taken?
  }

  ghost function EventBy(s: State, s': State): seq<Event<Item>> {
    if exists i: nat :: Puts(s, s', i) then
      var i: nat :| Puts(s, s', i);
      [Enqueued(Item(s.pcs[i].dir, s.open[s.pcs[i].h]))]
    else if Takes(s, s') then [Dequeued(s'.pcs[0].item)]
    else []
  }

  /** What the submit thread has finished in this step: the item and whether it was submitted. */
  function EndBy(s: State, s': State): seq<(Item, bool)> {
    if |s.pcs| == 0 || |s'.pcs| == 0 then []
    else if s.pcs[0].Copied? && s'.pcs[0].Sent? then [(s.pcs[0].item, true)]
    else if (s.pcs[0].Taken? || s.pcs[0].Listed?) && s'.pcs[0].Idle? then [(s.pcs[0].item, false)]
    else []
  }

  /** The item the submit thread has taken and not finished. */
  function InHand(pcs: seq<Pc>): seq<Item> {
    if |pcs| > 0 && (pcs[0].Taken? || pcs[0].Listed? || pcs[0].Reading? || pcs[0].Copied?) then [pcs[0].item] else []
  }

  ghost function Events(run: seq<State>, k: nat): seq<Event<Item>>
    requires k < |run|
  {
    if k == 0 then [] else Events(run, k - 1) + EventBy(run[k - 1], run[k])
  }

  function Ends(run: seq<State>, k: nat): seq<(Item, bool)>
    requires k < |run|
  {
    if k == 0 then [] else Ends(run, k - 1) + EndBy(run[k - 1], run[k])
  }

  function Items(ends: seq<(Item, bool)>): seq<Item> {
    seq(|ends|, i requires 0 <= i < |ends| => ends[i].0)
  }

  /** The files of those that were submitted. */
  function Submitted(ends: seq<(Item, bool)>): seq<Fnode> {
    if ends == [] then []
    else
      var n := |ends| - 1;
      Submitted(ends[..n]) + if ends[n].1 then [ends[n].0.fnode] else []
  }

  // ----- one step -----

  lemma PutsOnly(s: State, i: nat, a: Action, j: nat)
    requires Enabled(s, i, a)
    ensures Puts(s, Apply(s, i, a), j) <==> i == j && a.Enqueue?
  {
    hide HasEntry, Opening, EntriesAfter, TableAfter, LinksAfter, OpensAfter, HandlesAfter, ClosingAfter, OvertakenAfter, KeptAfter,
      FailedAfter, QueueAfter;
  }

  lemma TakesOnly(s: State, i: nat, a: Action)
    requires Enabled(s, i, a) && OneSubmitter(s)
    ensures Takes(s, Apply(s, i, a)) <==> a.Take?
    ensures a.Take? ==> i == 0 && s.queue != [] && Apply(s, i, a).pcs[0] == Taken(s.queue[0])
  {
    hide HasEntry, Opening, EntriesAfter, TableAfter, LinksAfter, OpensAfter, HandlesAfter, ClosingAfter, OvertakenAfter, KeptAfter,
      FailedAfter, QueueAfter;
  }

  lemma EventExactly(s: State, i: nat, a: Action)
    requires Enabled(s, i, a) && OneSubmitter(s)
    ensures
      EventBy(s, Apply(s, i, a)) ==
        if a.Enqueue? then [Enqueued(Item(s.pcs[i].dir, s.open[s.pcs[i].h]))]
        else if a.Take? then [Dequeued(s.queue[0])]
        else []
  {
    var s' := Apply(s, i, a);
    forall j: nat ensures Puts(s, s', j) <==> i == j && a.Enqueue? { PutsOnly(s, i, a, j); }
    TakesOnly(s, i, a);
    hide Apply, Enabled, Puts, Takes;
    if a.Enqueue? {
      assert Puts(s, s', i);
      var j: nat :| Puts(s, s', j) && EventBy(s, s') == [Enqueued(Item(s.pcs[j].dir, s.open[s.pcs[j].h]))];
      assert j == i;
    } else {
      assert forall j: nat :: !Puts(s, s', j);
    }
  }

  /** The queue changes as a queue does: at its end by a release, at its front by the submit thread. */
  lemma QueueStep(s: State, i: nat, a: Action)
    requires Enabled(s, i, a)
    ensures
      Apply(s, i, a).queue ==
        if a.Enqueue? then s.queue + [Item(s.pcs[i].dir, s.open[s.pcs[i].h])]
        else if a.Take? then s.queue[1..]
        else s.queue
  {
    hide HasEntry, Opening, EntriesAfter, TableAfter, LinksAfter, OpensAfter, HandlesAfter, ClosingAfter, OvertakenAfter, KeptAfter,
      FailedAfter, PcAfter;
  }

  /** What the submit thread has in hand, with what it takes, is what it finishes and what it has in hand then. */
  lemma HandStep(s: State, i: nat, a: Action)
    requires Enabled(s, i, a) && OneSubmitter(s)
    ensures InHand(s.pcs) + (if a.Take? then [s.queue[0]] else []) == Items(EndBy(s, Apply(s, i, a))) + InHand(Apply(s, i, a).pcs)
  {
    hide HasEntry, Opening, EntriesAfter, TableAfter, LinksAfter, OpensAfter, HandlesAfter, ClosingAfter, OvertakenAfter, KeptAfter,
      FailedAfter, QueueAfter;
  }

  lemma SubmittedStep(s: State, i: nat, a: Action)
    requires Enabled(s, i, a) && OneSubmitter(s)
    ensures Apply(s, i, a).sent == s.sent + Submitted(EndBy(s, Apply(s, i, a)))
  {
    hide HasEntry, Opening, EntriesAfter, TableAfter, LinksAfter, OpensAfter, HandlesAfter, ClosingAfter, OvertakenAfter, KeptAfter,
      FailedAfter, QueueAfter, Items;
  }

  lemma StepOf(s: State, s': State) returns (i: nat, a: Action)
    requires Inv(s) && Next(s, s')
    ensures OneSubmitter(s) && Enabled(s, i, a) && s' == Apply(s, i, a)
    ensures i < |s.pcs| && (a.Enqueue? ==> s.pcs[i].Reached? && s.pcs[i].h in s.open)
  {
    hide Apply, CountersOk, EntriesOk, PendingOk, OpensOk, FindableOk, OvertakenGone, RemoverOk, KeptOk, ReleasesOk, HasEntry;
    i, a :| Enabled(s, i, a) && s' == Apply(s, i, a);
  }

  // ----- every run -----

  lemma {:induction false} QueueEvents(run: seq<State>, k: nat)
    requires Run(run) && k < |run|
    ensures Possible([], Events(run, k)) && After([], Events(run, k)) == run[k].queue
  {
    hide Inv, Next;
    if k == 0 {
      assert Init(run[0]);
    } else {
      QueueEvents(run, k - 1);
      RunInv(run, k - 1);
      assert StepAt(run, k - 1);
      EventNext(run[k - 1], run[k], Events(run, k - 1));
    }
  }

  lemma EventNext(s: State, s': State, events: seq<Event<Item>>)
    requires Inv(s) && Next(s, s') && Possible([], events) && After([], events) == s.queue
    ensures Possible([], events + EventBy(s, s')) && After([], events + EventBy(s, s')) == s'.queue
  {
    hide Inv, Next, OneSubmitter, Apply, Enabled, EventBy, Possible, After;
    var i, a := StepOf(s, s');
    EventExactly(s, i, a);
    TakesOnly(s, i, a);
    QueueStep(s, i, a);
    var e := EventBy(s, s');
    if e == [] {
      assert events + e == events;
    } else {
      OneMore([], events, e[0]);
      assert e == [e[0]];
    }
  }

  /** First in, first out: what the submit thread took, followed by what is still queued, is what releases enqueued, in their
      order. */
  lemma QueueInOrder(run: seq<State>, k: nat)
    requires Run(run) && k < |run|
    ensures Outs(Events(run, k)) + run[k].queue == Ins(Events(run, k))
  {
    hide Run, Events, Possible, After, Ins, Outs;
    QueueEvents(run, k);
    FirstInFirstOut([], Events(run, k));
  }

  lemma ItemsMore(ends: seq<(Item, bool)>, e: seq<(Item, bool)>)
    requires |e| <= 1
    ensures Items(ends + e) == Items(ends) + Items(e) && Submitted(ends + e) == Submitted(ends) + Submitted(e)
  {
    if e == [] {
      assert ends + e == ends;
    } else {
      assert (ends + e)[..|ends|] == ends && e[..0] == [];
    }
  }

  lemma OutsNext(s: State, s': State, events: seq<Event<Item>>) returns (x: seq<Item>)
    requires Inv(s) && Next(s, s')
    ensures Outs(events + EventBy(s, s')) == Outs(events) + x
    ensures InHand(s.pcs) + x == Items(EndBy(s, s')) + InHand(s'.pcs)
    ensures s'.sent == s.sent + Submitted(EndBy(s, s'))
  {
    hide *;
    var i, a := StepOf(s, s');
    EventExactly(s, i, a);
    TakesOnly(s, i, a);
    HandStep(s, i, a);
    SubmittedStep(s, i, a);
    var e := EventBy(s, s');
    if e == [] {
      x := [];
      assert events + e == events && Outs(events) == Outs(events) + [];
    } else {
      MoreInsOuts(events, e[0]);
      assert e == [e[0]];
      x := if a.Take? then [s.queue[0]] else [];
    }
  }

  /** Everything taken is in the submit thread's hands or finished, and the submissions are those finished items that were not
      given up, in their order. */
  lemma {:induction false} TakenExactly(run: seq<State>, k: nat)
    requires Run(run) && k < |run|
    ensures Outs(Events(run, k)) == Items(Ends(run, k)) + InHand(run[k].pcs)
    ensures run[k].sent == Submitted(Ends(run, k))
  {
    hide Inv, Next, EventBy, EndBy;
    if k == 0 {
      assert Init(run[0]) && Items([]) == [];
    } else {
      TakenExactly(run, k - 1);
      RunInv(run, k - 1);
      assert StepAt(run, k - 1);
      TakenNext(run[k - 1], run[k], Events(run, k - 1), Ends(run, k - 1));
    }
  }

  lemma TakenNext(s: State, s': State, events: seq<Event<Item>>, ends: seq<(Item, bool)>)
    requires Inv(s) && Next(s, s') && Outs(events) == Items(ends) + InHand(s.pcs) && s.sent == Submitted(ends)
    ensures Outs(events + EventBy(s, s')) == Items(ends + EndBy(s, s')) + InHand(s'.pcs)
    ensures s'.sent == Submitted(ends + EndBy(s, s'))
  {
    OneEnd(s, s');
    hide *;
    var more, ended := events + EventBy(s, s'), EndBy(s, s');
    var x := OutsNext(s, s', events);
    ItemsMore(ends, ended);
    Joined(Items(ends), InHand(s.pcs), x, Items(ended), InHand(s'.pcs));
  }

  lemma OneEnd(s: State, s': State)
    ensures |EndBy(s, s')| <= 1
  {
  }

  lemma Joined(a: seq<Item>, b: seq<Item>, x: seq<Item>, c: seq<Item>, d: seq<Item>)
    requires b + x == c + d
    ensures a + b + x == a + c + d
  {
    assert a + b + x == a + (b + x) && a + c + d == a + (c + d);
  }

  /** Nothing that a release enqueued is lost, and nothing changes places: what the submit thread finished, what it has in
      hand and what is still queued are, in this order, what releases enqueued; and the submissions are what it finished
      without giving up. */
  lemma EveryReleaseAccounted(run: seq<State>, k: nat)
    requires Run(run) && k < |run|
    ensures Items(Ends(run, k)) + InHand(run[k].pcs) + run[k].queue == Ins(Events(run, k))
    ensures run[k].sent == Submitted(Ends(run, k))
  {
    hide *;
    QueueInOrder(run, k);
    TakenExactly(run, k);
  }

  lemma {:induction false} PutIsEvent(run: seq<State>, j: nat, k: nat, i: nat)
    requires Run(run) && j < k < |run| && Puts(run[j], run[j + 1], i)
    ensures Item(run[j].pcs[i].dir, run[j].open[run[j].pcs[i].h]) in Ins(Events(run, k))
    decreases k
  {
    hide Inv, Next, Ins, EventBy;
    RunInv(run, k - 1);
    assert StepAt(run, k - 1);
    EventGrows(run[k - 1], run[k], Events(run, k - 1));
    if j + 1 == k { PutNext(run[j], run[j + 1], i, Events(run, j)); } else { PutIsEvent(run, j, k - 1, i); }
  }

  lemma EventGrows(s: State, s': State, events: seq<Event<Item>>)
    ensures forall x | x in Ins(events) :: x in Ins(events + EventBy(s, s'))
  {
    assert |EventBy(s, s')| <= 1;
    hide EventBy, Ins;
    if EventBy(s, s') == [] {
      assert events + EventBy(s, s') == events;
    } else {
      MoreInsOuts(events, EventBy(s, s')[0]);
      assert EventBy(s, s') == [EventBy(s, s')[0]];
    }
  }

  lemma PutNext(s: State, s': State, j: nat, events: seq<Event<Item>>)
    requires Inv(s) && Next(s, s') && Puts(s, s', j)
    ensures Item(s.pcs[j].dir, s.open[s.pcs[j].h]) in Ins(events + EventBy(s, s'))
  {
    assert OneSubmitter(s) && j < |s.pcs| && s.pcs[j].Reached? && s.pcs[j].h in s.open;
    hide Inv, OneSubmitter, Apply, Enabled, EventBy, Puts, Ins;
    var i: nat, a: Action :| Enabled(s, i, a) && s' == Apply(s, i, a);
    PutsOnly(s, i, a, j);
    EventExactly(s, i, a);
    MoreInsOuts(events, EventBy(s, s')[0]);
    assert EventBy(s, s') == [EventBy(s, s')[0]];
  }

  lemma {:induction false} SubmittedHas(ends: seq<(Item, bool)>, e: (Item, bool))
    requires e in ends && e.1
    ensures e.0.fnode in Submitted(ends)
  {
    var n := |ends| - 1;
    if ends[n] != e {
      assert ends == ends[..n] + [ends[n]];
      SubmittedHas(ends[..n], e);
    }
  }

  /** Every file whose release got through is still queued, in the submit thread's hands, submitted, or given up. */
  lemma ReleasedFile(run: seq<State>, j: nat, k: nat, i: nat)
    requires Run(run) && j < k < |run| && Puts(run[j], run[j + 1], i)
    ensures
      var x := Item(run[j].pcs[i].dir, run[j].open[run[j].pcs[i].h]);
      || x in run[k].queue || x in InHand(run[k].pcs) || x.fnode in run[k].sent
      || (x, false) in Ends(run, k)
  {
    assert i < |run[j].pcs| && run[j].pcs[i].Reached? && run[j].pcs[i].h in run[j].open;
    var x := Item(run[j].pcs[i].dir, run[j].open[run[j].pcs[i].h]);
    hide Run, Puts, Ends, Events, InHand, Ins, Submitted;
    PutIsEvent(run, j, k, i);
    EveryReleaseAccounted(run, k);
    var ends := Ends(run, k);
    if x in Items(ends) {
      var n: nat :| n < |ends| && ends[n].0 == x;
      if ends[n].1 { SubmittedHas(ends, ends[n]); }
      assert ends[n] in ends && ends[n] == (x, ends[n].1);
    }
  }

  /** An item is given up at two places only: before its entry is looked up or because there is none, and where its file is no
      longer in the table. */
  lemma GivenUpOnly(run: seq<State>, k: nat, item: Item)
    requires Run(run) && k + 1 < |run| && EndBy(run[k], run[k + 1]) == [(item, false)]
    ensures run[k].pcs[0] == Taken(item) || (run[k].pcs[0] == Listed(item) && item.fnode !in run[k].table)
  {
    hide Init, Next;
    assert StepAt(run, k);
    if run[k].pcs[0].Listed? { GivesUp(run[k], run[k + 1]); }
  }

  lemma GivesUp(s: State, s': State)
    requires Next(s, s') && |s.pcs| > 0 && |s'.pcs| > 0 && s.pcs[0].Listed? && s'.pcs[0].Idle?
    ensures s.pcs[0].item.fnode !in s.table
  {
    hide HasEntry, Opening, EntriesAfter, TableAfter, LinksAfter, OpensAfter, HandlesAfter, ClosingAfter, OvertakenAfter, KeptAfter,
      FailedAfter, QueueAfter;
    var i: nat, a: Action :| Enabled(s, i, a) && s' == Apply(s, i, a);
  }
}
