/** Get-or-create on an array indexed by the id itself: problems by their id, tests by their number less one. */
module DirectIndex {

  const LAST_ID := 10000

  class Entry {
    const id: int

    constructor (id: int)
      ensures this.id == id
    {
      this.id := id;
    }
  }

  class Table {
    var entries: array<Entry?>
    var size: nat

    ghost predicate Valid()
      reads this
    {
      size == entries.Length
    }

    /** The object in a slot; slots beyond the array are empty. */
    ghost function At(slot: nat): Entry?
      reads this, entries
    {
      if slot < entries.Length then entries[slot] else null
    }

    constructor ()
      ensures Valid() && forall k: nat :: At(k) == null
    {
      entries := new Entry?[0];
      size := 0;
    }

    /** Room for `slot`, by doubling; every object stays in its slot. */
    method Grow(start: nat, slot: nat)
      requires Valid() && start > 0 && size <= start
      modifies this
      ensures Valid() && slot < size && (fresh(entries) && forall k: nat :: At(k) == old(At(k)))
    {
      var nz := start;
      while nz <= slot
        invariant nz > 0 && nz >= start
        decreases slot - nz
      {
        nz := nz * 2;
      }
      var ee := new Entry?[nz];
      for i := 0 to nz
        invariant entries == old(entries) && size == entries.Length
        invariant forall k :: 0 <= k < i ==> ee[k] == old(At(k))
      {
        ee[i] := if i < size then entries[i] else null;
      }
      size, entries := nz, ee;
    }

    /** The section under the write lock, with `start` the first size tried when growing. */
    method FindOrCreate(slot: nat, id: int, start: nat) returns (e: Entry)
      requires Valid() && start > 0 && size <= start
      modifies this, entries
      ensures Valid() && At(slot) == e
      ensures forall k: nat :: k != slot ==> At(k) == old(At(k))
      ensures if old(At(slot)) != null then e == old(At(slot)) else fresh(e) && e.id == id
    {
      if slot >= size { Grow(start, slot); }
      if entries[slot] == null {
        var created := new Entry(id);
        entries[slot] := created;
      }
      e := entries[slot];
    }

    /** `problem_states_get` */
    method GetProblem(id: int) returns (e: Entry?)
      requires Valid()
      modifies this, entries
      ensures Valid()
      ensures e == null <==> id <= 0 || id > LAST_ID
      ensures e != null ==> At(id) == e && (if old(At(id)) != null then e == old(At(id)) else fresh(e) && e.id == id)
      ensures forall k: nat :: k != id || e == null ==> At(k) == old(At(k))
    {
      e := null;
      if id <= 0 || id > LAST_ID { return; }
      if id < size { e := entries[id]; }
      if e != null { return; }
      e := FindOrCreate(id, id, if size == 0 then 16 else size * 2);
    }

    /** `run_tests_get` */
    method GetTest(num: int) returns (e: Entry?)
      requires Valid()
      modifies this, entries
      ensures Valid()
      ensures e == null <==> num < 1 || num > LAST_ID
      ensures e != null ==>
        At(num - 1) == e && (if old(At(num - 1)) != null then e == old(At(num - 1)) else fresh(e) && e.id == num)
      ensures forall k: nat :: k != num - 1 || e == null ==> At(k) == old(At(k))
    {
      e := null;
      if num < 1 || num > LAST_ID { return; }
      if num <= size { e := entries[num - 1]; }
      if e == null { e := FindOrCreate(num - 1, num, if size == 0 then 16 else size); }
    }
  }
}
