/** The queue between the file operations and the submit thread: a doubly linked list, changed under a mutex. */
module SubmitQueue {

  datatype SubmitItem = SubmitItem(contest: int, problem: int, language: int, fnode: int, name: string)

  class ListItem {
    var prev: ListItem?
    var next: ListItem?
    const item: SubmitItem

    constructor (item: SubmitItem)
      ensures this.item == item && prev == null && next == null
    {
      this.item := item;
      prev, next := null, null;
    }
  }

  /** An item of the list points at its neighbours. */
  ghost predicate Linked(spine: seq<ListItem>, i: nat)
    requires i < |spine|
    reads spine
  {
    && spine[i].next == (if i + 1 < |spine| then spine[i + 1] else null)
    && spine[i].prev == (if i > 0 then spine[i - 1] else null)
  }

  class SubmitQueue {
    var qhead: ListItem?
    var qtail: ListItem?
    ghost var spine: seq<ListItem>

    ghost predicate Valid()
      reads this, spine
    {
      && (if spine == [] then qhead == null && qtail == null else qhead == spine[0] && qtail == spine[|spine| - 1])
      && (forall i, j :: 0 <= i < j < |spine| ==> spine[i] != spine[j])
      && (forall i :: 0 <= i < |spine| ==> Linked(spine, i))
    }

    /** The queued items, the oldest first. */
    ghost function Contents(): (c: seq<SubmitItem>)
      reads this
      ensures |c| == |spine|
    {
      var s := spine;
      seq(|s|, i requires 0 <= i < |s| => s[i].item)
    }

    constructor ()
      ensures Valid() && Contents() == []
    {
      qhead, qtail, spine := null, null, [];
    }

    /** `submit_thread_enqueue` */
    method Enqueue(item: SubmitItem)
      requires Valid()
      modifies this, qtail
      ensures Valid() && Contents() == old(Contents()) + [item]
    {
      ghost var before := spine;
      var sli := new ListItem(item);
      sli.prev := qtail;
      if qtail != null { qtail.next := sli; } else { qhead := sli; }
      qtail := sli;
      spine := before + [sli];
      assert forall i :: 0 <= i < |before| ==> spine[i] == before[i];
      assert before != [] ==> old(qtail) == before[|before| - 1];
      forall i | 0 <= i < |spine| ensures Linked(spine, i) {
        assert i < |before| ==> old(Linked(before, i));
      }
    }

    /** What `thread_func` does under the mutex when the queue is not empty. */
    method Dequeue() returns (item: SubmitItem)
      requires Valid() && Contents() != []
      modifies this, spine
      ensures Valid() && [item] + Contents() == old(Contents())
    {
      ghost var before := spine;
      assert |before| == |Contents()|;
      assert Linked(before, 0);
      var sli := qhead;
      assert sli == before[0] && sli.next == if |before| > 1 then before[1] else null;
      qhead := sli.next;
      if qhead != null { qhead.prev := null; } else { qtail := null; }
      sli.next := null;
      spine := before[1..];
      forall i | 0 <= i < |spine| ensures Linked(spine, i) { assert old(Linked(before, i + 1)); }
      item := sli.item;
    }
  }

  // ----- order over whole runs -----

  datatype Event<T> = Enqueued(item: T) | Dequeued(item: T)

  /** A run of queue operations from contents `c`: what is taken out is what stands first. */
  ghost predicate Possible<T>(c: seq<T>, events: seq<Event<T>>)
    decreases |events|
  {
    events == [] ||
    match events[0]
    case Enqueued(x) => Possible(c + [x], events[1..])
    case Dequeued(x) => c != [] && c[0] == x && Possible(c[1..], events[1..])
  }

  function Ins<T>(events: seq<Event<T>>): seq<T> {
    if events == [] then [] else (if events[0].Enqueued? then [events[0].item] else []) + Ins(events[1..])
  }

  function Outs<T>(events: seq<Event<T>>): seq<T> {
    if events == [] then [] else (if events[0].Dequeued? then [events[0].item] else []) + Outs(events[1..])
  }

  /** What is left in the queue after a run. */
  ghost function After<T>(c: seq<T>, events: seq<Event<T>>): seq<T>
    requires Possible(c, events)
    decreases |events|
  {
    if events == [] then c
    else
      match events[0]
      case Enqueued(x) => After(c + [x], events[1..])
      case Dequeued(_) => After(c[1..], events[1..])
  }

  lemma Regroup<T>(x: T, c: seq<T>, ins: seq<T>, outs: seq<T>, left: seq<T>)
    ensures c + [x] + ins == c + ([x] + ins)
    ensures outs + left == c + ins ==> [x] + outs + left == [x] + c + ins
  {
    if outs + left == c + ins {
      assert [x] + outs + left == [x] + (outs + left) && [x] + c + ins == [x] + (c + ins);
    }
  }

  /** First in, first out, and nothing is lost: what came out, followed by what is left, is what was there at first,
      followed by what went in. */
  lemma {:induction false} FirstInFirstOut<T>(c: seq<T>, events: seq<Event<T>>)
    requires Possible(c, events)
    ensures Outs(events) + After(c, events) == c + Ins(events)
    decreases |events|
  {
    if events != [] {
      var x, rest := events[0].item, events[1..];
      var ins, outs := Ins(rest), Outs(rest);
      if events[0].Enqueued? {
        FirstInFirstOut(c + [x], rest);
        Regroup(x, c, ins, [], []);
        assert Ins(events) == [x] + ins && Outs(events) == outs;
      } else {
        FirstInFirstOut(c[1..], rest);
        Regroup(x, c[1..], ins, outs, After(c[1..], rest));
        assert Ins(events) == ins && Outs(events) == [x] + outs && [x] + c[1..] == c;
      }
    }
  }

  lemma {:induction false} MoreInsOuts<T>(events: seq<Event<T>>, e: Event<T>)
    ensures Ins(events + [e]) == Ins(events) + if e.Enqueued? then [e.item] else []
    ensures Outs(events + [e]) == Outs(events) + if e.Dequeued? then [e.item] else []
  {
    var all := events + [e];
    if events == [] {
      assert all[1..] == [];
    } else {
      var rest := events[1..];
      assert all[0] == events[0] && all[1..] == rest + [e];
      MoreInsOuts(rest, e);
      assert Ins(all) == (if events[0].Enqueued? then [events[0].item] else []) + Ins(rest + [e]);
      assert Outs(all) == (if events[0].Dequeued? then [events[0].item] else []) + Outs(rest + [e]);
    }
  }

  ghost predicate Fits<T>(c: seq<T>, e: Event<T>) {
    e.Dequeued? ==> c != [] && c[0] == e.item
  }

  ghost function Changed<T>(c: seq<T>, e: Event<T>): seq<T>
    requires Fits(c, e)
  {
    if e.Enqueued? then c + [e.item] else c[1..]
  }

  /** A run that goes on with one more operation. */
  lemma {:induction false} OneMore<T>(c: seq<T>, events: seq<Event<T>>, e: Event<T>)
    requires Possible(c, events) && Fits(After(c, events), e)
    ensures Possible(c, events + [e]) && After(c, events + [e]) == Changed(After(c, events), e)
    decreases |events|
  {
    var all := events + [e];
    if events == [] {
      assert all[0] == e && all[1..] == [];
    } else {
      assert all[0] == events[0] && all[1..] == events[1..] + [e];
      var next := Changed(c, events[0]);
      assert Possible(next, events[1..]) && After(next, events[1..]) == After(c, events);
      OneMore(next, events[1..], e);
    }
  }
}
