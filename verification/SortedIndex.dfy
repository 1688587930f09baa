/** Get-or-create on a sorted array: a binary search under the read lock, and where it misses a second one under the
    write lock that creates the missing object. */
module SortedIndex {

  class Entry {
    const id: int

    constructor (id: int)
      ensures this.id == id
    {
      this.id := id;
    }
  }

  ghost predicate Ordered(es: seq<Entry>) {
    forall i, j :: 0 <= i < j < |es| ==> es[i].id < es[j].id
  }

  /** The object of an id. */
  ghost predicate Has(es: seq<Entry>, id: int, e: Entry) {
    e in es && e.id == id
  }

  ghost predicate HasNone(es: seq<Entry>, id: int) {
    forall e | e in es :: e.id != id
  }

  /** A new id put in its place: the order stays, and every object that was there keeps its id. */
  lemma Inserted(es: seq<Entry>, low: nat, e: Entry, r: seq<Entry>)
    requires Ordered(es) && low <= |es| && r == es[..low] + [e] + es[low..]
    requires (forall i :: 0 <= i < low ==> es[i].id < e.id) && (forall i :: low <= i < |es| ==> es[i].id > e.id)
    ensures Ordered(r) && Has(r, e.id, e)
    ensures forall f :: f in r <==> f in es || f == e
  {
    forall f ensures f in r <==> f in es || f == e { assert es == es[..low] + es[low..]; }
    assert r[low] == e;
  }

  class Index {
    var entries: array<Entry?>
    var size: nat
    var reserved: nat

    ghost predicate Valid()
      reads this, entries
    {
      && size <= reserved == entries.Length
      && (forall i :: 0 <= i < size ==> entries[i] != null)
      && Ordered(Contents())
    }

    ghost function Contents(): (c: seq<Entry>)
      reads this, entries
      requires size <= entries.Length && forall i :: 0 <= i < size ==> entries[i] != null
      ensures |c| == size && forall i :: 0 <= i < size ==> c[i] == entries[i]
    {
      var a, n := entries, size;
      seq(n, i requires 0 <= i < n <= a.Length && a[i] != null reads a => a[i])
    }

    constructor ()
      ensures Valid() && Contents() == []
    {
      entries := new Entry?[0];
      size, reserved := 0, 0;
    }

    /** The binary search of both sections. */
    method Search(id: int) returns (e: Entry?, low: nat)
      requires Valid()
      ensures e != null ==> Has(Contents(), id, e)
      ensures e == null ==> HasNone(Contents(), id) && low <= size
      ensures e == null ==> forall i :: 0 <= i < low ==> Contents()[i].id < id
      ensures e == null ==> forall i :: low <= i < size ==> Contents()[i].id > id
    {
      low, e := 0, null;
      var high := size;
      while low < high
        invariant low <= high <= size
        invariant forall i :: 0 <= i < low ==> Contents()[i].id < id
        invariant forall i :: high <= i < size ==> Contents()[i].id > id
      {
        var mid := (low + high) / 2;
        assert entries[mid] == Contents()[mid];
        if entries[mid].id == id { return entries[mid], mid; }
        if entries[mid].id < id { low := mid + 1; } else { high := mid; }
      }
    }

    /** `calloc` and `realloc`: more room, the same contents. */
    method Reserve(room: nat)
      requires Valid() && size <= room
      modifies this`entries, this`reserved
      ensures Valid() && Contents() == old(Contents()) && reserved == room && fresh(entries)
    {
      var grown := new Entry?[room];
      ghost var before := Contents();
      for i := 0 to size
        invariant entries == old(entries) && size <= entries.Length
        invariant forall k :: 0 <= k < i ==> grown[k] == entries[k]
      {
        grown[i] := entries[i];
      }
      entries, reserved := grown, room;
      assert forall k :: 0 <= k < size ==> entries[k] == before[k];
      assert Contents() == before;
    }

    /** `memmove` by one place. */
    method ShiftUp(low: nat)
      requires size < entries.Length && low <= size
      modifies entries
      ensures forall i :: 0 <= i < low ==> entries[i] == old(entries[i])
      ensures forall i :: low < i <= size ==> entries[i] == old(entries[i - 1])
    {
      var k := size;
      while k > low
        invariant low <= k <= size
        invariant forall i :: 0 <= i < k ==> entries[i] == old(entries[i])
        invariant forall i :: k < i <= size ==> entries[i] == old(entries[i - 1])
      {
        entries[k] := entries[k - 1];
        k := k - 1;
      }
    }

    /** The new object in the gap. */
    method PutAt(low: nat, e: Entry)
      requires Valid() && low <= size < reserved
      requires forall i :: 0 <= i < low ==> Contents()[i].id < e.id
      requires forall i :: low <= i < size ==> Contents()[i].id > e.id
      modifies this`size, entries
      ensures Valid() && Contents() == old(Contents())[..low] + [e] + old(Contents())[low..]
    {
      hide Ordered;
      ghost var before := Contents();
      ghost var after := before[..low] + [e] + before[low..];
      Inserted(before, low, e, after);
      ShiftUp(low);
      entries[low] := e;
      size := size + 1;
      assert forall i :: 0 <= i < size ==> entries[i] == after[i];
      assert Contents() == after;
    }

    /** The section under the read lock. */
    method Find(id: int) returns (e: Entry?)
      requires Valid()
      ensures if e == null then HasNone(Contents(), id) else Has(Contents(), id, e)
    {
      var low;
      e, low := Search(id);
    }

    /** The section under the write lock. */
    method FindOrCreate(id: int) returns (e: Entry)
      requires Valid()
      modifies this, entries
      ensures Valid() && Has(Contents(), id, e)
      ensures forall f :: f in Contents() <==> f in old(Contents()) || f == e
      ensures e in old(Contents()) <==> !old(HasNone(Contents(), id))
      ensures e !in old(Contents()) ==> fresh(e)
    {
      if reserved == 0 { Reserve(16); }
      var found, low := Search(id);
      if found != null { return found; }
      e := Create(id, low);
    }

    /** A new object where the search ended. */
    method Create(id: int, low: nat) returns (e: Entry)
      requires Valid() && HasNone(Contents(), id) && low <= size && reserved > 0
      requires forall i :: 0 <= i < low ==> Contents()[i].id < id
      requires forall i :: low <= i < size ==> Contents()[i].id > id
      modifies this, entries
      ensures Valid() && Has(Contents(), id, e) && fresh(e)
      ensures forall f :: f in Contents() <==> f in old(Contents()) || f == e
    {
      ghost var before := Contents();
      if size == reserved { Reserve(reserved * 2); }
      e := new Entry(id);
      assert Contents() == before;
      hide Ordered;
      Inserted(before, low, e, before[..low] + [e] + before[low..]);
      PutAt(low, e);
    }
  }
}
