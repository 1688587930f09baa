/** That file operations with their mutexes never stand still, and what each of them does to sizes and table. */
module TotalProgress {
  import opened TotalSize

  ghost predicate Unheld(s: State, f: nat) {
    forall j | 0 <= j < |s.pcs| :: !Holds(s.pcs[j], f)
  }

  /** What thread `i` can do next; `f` is any file and `n` any size. */
  ghost predicate GoesOn(s: State, i: nat, f: nat, n: int)
    requires i < |s.pcs|
  {
    match s.pcs[i]
    case Idle =>
      && Enabled(s, i, Create) && (Enabled(s, i, Pin(f)) <==> f in s.table) && (Enabled(s, i, TakeOut(f)) <==> f in s.table)
    case Pinned(g) => Enabled(s, i, Lock) <==> Unheld(s, g)
    case Locked(g) =>
      && Enabled(s, i, Unlock) && Enabled(s, i, Empty) && g < |s.sizes|
      && (Enabled(s, i, Grant(n)) <==> n > s.sizes[g] && s.total + n - s.sizes[g] <= s.quota)
      && (Enabled(s, i, Lower(n)) <==> 0 <= n < s.sizes[g])
    case Granted(_, _, _) => Enabled(s, i, SetSize)
    case Grown(_, _) => Enabled(s, i, Raise)
    case Lowered(_, _, _) => Enabled(s, i, SetSmaller)
    case Leaving(_) => Enabled(s, i, ReadSize)
    case Subtracting(_, _) => Enabled(s, i, Subtract)
  }

  /** A thread waits for a mutex exactly as long as somebody holds it, is refused exactly above the quota, and is stopped
      nowhere else. */
  lemma WaitsExactly(run: seq<State>, k: nat, i: nat, f: nat, n: int)
    requires Run(run) && k < |run| && i < |run[k].pcs|
    ensures GoesOn(run[k], i, f, n)
  {
    RunInv(run, k);
    assert PcOk(run[k], run[k].pcs[i]) && Accounted(run[k]);
    hide Run, Inv, FileCounted, FilesOk, MutexOk;
  }

  ghost predicate CanStep(s: State, i: nat) {
    exists a: Action :: Enabled(s, i, a)
  }

  /** There is no deadlock: whoever holds a mutex can go on. */
  lemma NoDeadlock(run: seq<State>, k: nat, i: nat) returns (j: nat)
    requires Run(run) && k < |run| && i < |run[k].pcs| && run[k].pcs[i] != Idle
    ensures j < |run[k].pcs| && run[k].pcs[j] != Idle && CanStep(run[k], j)
  {
    var s := run[k];
    j := i;
    if s.pcs[i].Pinned? && !Unheld(s, s.pcs[i].f) { j :| j < |s.pcs| && Holds(s.pcs[j], s.pcs[i].f); }
    WaitsExactly(run, k, j, 0, 0);
    assert s.pcs[j].Pinned? ==> Unheld(s, s.pcs[j].f);
    hide Run, Enabled, Unheld;
    SomeStep(s, j);
  }

  lemma SomeStep(s: State, j: nat)
    requires j < |s.pcs| && GoesOn(s, j, 0, 0) && !s.pcs[j].Idle? && (s.pcs[j].Pinned? ==> Unheld(s, s.pcs[j].f))
    ensures CanStep(s, j)
  {
    hide Enabled, Unheld;
    match s.pcs[j]
    case Pinned(_) => assert Enabled(s, j, Lock);
    case Locked(_) => assert Enabled(s, j, Unlock);
    case Granted(_, _, _) => assert Enabled(s, j, SetSize);
    case Grown(_, _) => assert Enabled(s, j, Raise);
    case Lowered(_, _, _) => assert Enabled(s, j, SetSmaller);
    case Leaving(_) => assert Enabled(s, j, ReadSize);
    case Subtracting(_, _) => assert Enabled(s, j, Subtract);
  }

  /** What one step does to the file `f`. */
  ghost predicate SizeMoves(s: State, s': State, pc: Pc, a: Action, f: nat)
    requires f < |s.sizes|
  {
    && |s.sizes| <= |s'.sizes| <= |s.sizes| + 1
    && s'.sizes[f] == (match pc
                       case Granted(g, n, _) => if g == f then n else s.sizes[f]
                       case Lowered(g, n, _) => if g == f then n else s.sizes[f]
                       case Locked(g) => if g == f && a == Empty then 0 else s.sizes[f]
                       case _ => s.sizes[f])
    && (f in s'.table <==> f in s.table && a != TakeOut(f))
    && (|s'.sizes| == |s.sizes| + 1 ==> s'.sizes[|s.sizes|] == 0 && s'.table == s.table + {|s.sizes|})
  }

  /** A file's size is changed by the thread that holds its mutex alone: to what was granted, to what it was lowered to, or
      to 0; and its number is in the table from its creation until a removal takes it out. */
  lemma SizesExactly(s: State, i: nat, a: Action, f: nat)
    requires Enabled(s, i, a) && f < |s.sizes|
    ensures SizeMoves(s, Apply(s, i, a), s.pcs[i], a, f)
    ensures Apply(s, i, a).sizes[f] != s.sizes[f] ==> Holds(s.pcs[i], f)
  {
  }

  /** The sizes that growing and shrinking threads carry: what they asked for, and the change of the total that goes with
      it, seen from the file's size when they asked. */
  lemma CarriedExactly(s: State, i: nat, a: Action)
    requires Enabled(s, i, a)
    ensures
      var pc, s' := s.pcs[i], Apply(s, i, a);
      && |s'.pcs| == |s.pcs| && (forall j | 0 <= j < |s.pcs| && j != i :: s'.pcs[j] == s.pcs[j])
      && (pc.Locked? && a.Grant? ==>
            s'.pcs[i] == Granted(pc.f, a.size, a.size - s.sizes[pc.f]) && s'.total == s.total)
      && (pc.Granted? ==> s'.pcs[i] == Grown(pc.f, pc.diff) && s'.total == s.total)
      && (pc.Grown? ==> s'.pcs[i] == Locked(pc.f) && s'.total == s.total + pc.diff)
      && (pc.Locked? && a.Lower? ==>
            s'.pcs[i] == Lowered(pc.f, a.size, s.sizes[pc.f] - a.size) && s'.total == s.total - (s.sizes[pc.f] - a.size))
      && (pc.Lowered? ==> s'.pcs[i] == Locked(pc.f) && s'.total == s.total)
      && (pc.Leaving? ==> s'.pcs[i] == Subtracting(pc.f, s.sizes[pc.f]) && s'.total == s.total)
      && (pc.Subtracting? ==> s'.pcs[i] == Idle && s'.total == s.total - pc.size)
      && (a == Empty || a == Create ==> s'.pcs[i] == pc && s'.total == s.total)
  {
  }
}
