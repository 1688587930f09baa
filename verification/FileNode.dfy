/** One writable file: a zero-filled growable buffer of which the first `size` bytes are the file. */
module FileNode {
  import opened FileContents

  const INT_MAX := 0x7fff_ffff
  const EIO := 5
  const EINVAL := 22

  /** The largest file that the doubling of the capacity can hold without overflowing an int. */
  const LARGEST := 0x4000_0000
  const FIRST := 4096

  /** The capacities that doubling reaches. */
  predicate IsCapacity(r: nat) {
    r == FIRST || (r > FIRST && r % 2 == 0 && IsCapacity(r / 2))
  }

  lemma {:induction false} CapacityGap(r: nat, t: nat)
    requires IsCapacity(r) && IsCapacity(t) && r < t
    ensures 2 * r <= t
    decreases t
  {
    if r > FIRST { CapacityGap(r / 2, t / 2); }
  }

  lemma LargestIsCapacity()
    ensures IsCapacity(LARGEST)
  {
    assert IsCapacity(0x1_0000);
    assert IsCapacity(0x10_0000);
    assert IsCapacity(0x100_0000);
    assert IsCapacity(0x1000_0000);
  }

  /** `while (new_reserved < ioff) new_reserved *= 2` */
  function Doubled(r: nat, ioff: nat): (d: nat)
    requires r > 0
    ensures d >= ioff && d >= r
    decreases ioff - r
  {
    if r < ioff then Doubled(2 * r, ioff) else r
  }

  lemma {:induction false} DoubledIsCapacity(r: nat, ioff: nat)
    requires IsCapacity(r)
    ensures IsCapacity(Doubled(r, ioff)) && (r < ioff ==> Doubled(r, ioff) < 2 * ioff)
    decreases ioff - r
  {
    if r < ioff { DoubledIsCapacity(2 * r, ioff); }
  }

  /** Doubling a capacity that fits in an int reaches the offset without leaving the int range exactly for the offsets
      up to 2^30. */
  lemma DoublingFits(r: nat, ioff: nat)
    requires IsCapacity(r) && r <= LARGEST
    ensures Doubled(r, ioff) <= INT_MAX <==> ioff <= LARGEST
    ensures ioff <= LARGEST ==> Doubled(r, ioff) <= LARGEST
  {
    LargestIsCapacity();
    DoubledIsCapacity(r, ioff);
    if ioff <= LARGEST && Doubled(r, ioff) > LARGEST {
      CapacityGap(LARGEST, Doubled(r, ioff));
    }
    if ioff > LARGEST { CapacityGap(LARGEST, Doubled(r, ioff)); }
  }

  lemma Room(r: nat, offset: nat)
    requires IsCapacity(r) && r < offset <= LARGEST
    ensures IsCapacity(2 * r) && 2 * r <= LARGEST
  {
    assert IsCapacity(2 * r);
    hide IsCapacity;
    LargestIsCapacity();
    CapacityGap(r, LARGEST);
  }

  class FileNode {
    const fnode: int
    var refcnt: int
    var opencnt: int
    var nlink: int
    var size: int
    var reserved: int
    var data: array<Byte>

    /** The bytes behind the file are all zero. */
    ghost predicate Valid()
      reads this, data
    {
      && 0 <= size <= reserved == data.Length <= LARGEST
      && (reserved == 0 || IsCapacity(reserved))
      && forall k :: size <= k < reserved ==> data[k] == 0
    }

    ghost function Contents(): (c: seq<Byte>)
      reads this, data
      requires 0 <= size <= data.Length
      ensures |c| == size
    {
      data[..size]
    }

    constructor (fnode: int)
      ensures Valid() && this.fnode == fnode && Contents() == [] && reserved == 0 && fresh(data)
      ensures refcnt == opencnt == nlink == 0
    {
      refcnt, opencnt, nlink := 0, 0, 0;
      this.fnode := fnode;
      size := 0;
      reserved := 0;
      data := new Byte[0];
    }

    /** `realloc` and zeroing of the new part. */
    method Extended(newReserved: nat) returns (grown: array<Byte>)
      requires data.Length <= newReserved
      ensures fresh(grown) && grown.Length == newReserved
      ensures forall k :: 0 <= k < data.Length ==> grown[k] == data[k]
      ensures forall k :: data.Length <= k < newReserved ==> grown[k] == 0
    {
      grown := new Byte[newReserved];
      for i := 0 to newReserved
        invariant forall k :: 0 <= k < i ==> grown[k] == if k < data.Length then data[k] else 0
      {
        grown[i] := if i < data.Length then data[i] else 0;
      }
    }

    /** `file_node_reserve_unlocked`, for offsets up to 2^30. */
    method Reserve(offset: int) returns (res: int)
      requires Valid() && (offset <= INT_MAX ==> offset <= LARGEST)
      modifies this`data, this`reserved
      ensures Valid() && size == old(size) && Contents() == old(Contents())
      ensures data == old(data) || fresh(data)
      ensures res == if 0 <= offset <= INT_MAX then 0 else -EINVAL
      ensures res == 0 ==> offset <= reserved
      ensures res != 0 || offset <= old(reserved) ==> data == old(data) && reserved == old(reserved)
    {
      if offset < 0 || offset > INT_MAX { return -EINVAL; }
      if offset <= reserved { return 0; }
      var newReserved := if reserved == 0 then FIRST else reserved * 2;
      LargestIsCapacity();
      if reserved != 0 { Room(reserved, offset); }
      newReserved := GrowTo(newReserved, offset);
      var grown := Extended(newReserved);
      data, reserved := grown, newReserved;
      return 0;
    }

    /** The doubling loop: it ends, and every value it goes through is a positive int. */
    method GrowTo(start: nat, ioff: nat) returns (r: nat)
      requires IsCapacity(start) && start <= LARGEST && ioff <= LARGEST
      ensures r == Doubled(start, ioff) && ioff <= r <= LARGEST && IsCapacity(r) && start <= r
    {
      r := start;
      while r < ioff
        invariant IsCapacity(r) && start <= r <= LARGEST && Doubled(r, ioff) == Doubled(start, ioff)
        decreases ioff - r
      {
        Room(r, ioff);
        r := r * 2;
      }
    }

    /** Whether a new size is within the quota of all files together. */
    static predicate Fits(total: int, diff: int, quota: int) {
      total + diff <= INT_MAX && !(quota > 0 && total + diff > quota)
    }

    /** Why a write that ends at `end` fails: the end is no int, or the growth is not within the quota. */
    static predicate Refused(size: int, total: int, quota: int, end: int) {
      end > INT_MAX || (end > size && !Fits(total, end - size, quota))
    }

    /** A request is refused exactly where this file with its new size and all the others would exceed the quota. */
    static lemma RefusedExactly(size: int, total: int, quota: int, end: int)
      requires 0 <= size <= total <= INT_MAX && 0 < quota <= LARGEST
      ensures Refused(size, total, quota, end) <==> end > INT_MAX || (end > size && total - size + end > quota)
      ensures total <= quota ==> (Refused(size, total, quota, end) <==> end > size && total - size + end > quota)
    {
    }

    /** `file_node_truncate_unlocked` seen from one file; `total` is `total_size` before and after. */
    method Truncate(offset: int, total: int, quota: int) returns (res: int, total': int)
      requires Valid() && size <= total <= INT_MAX && 0 < quota <= LARGEST
      modifies this`size, this`reserved, this`data, data
      ensures Valid() && (data == old(data) || fresh(data))
      ensures total' - total == size - old(size) && (total <= quota ==> total' <= quota)
      ensures res ==
              if offset < 0 || offset > INT_MAX then -EINVAL
              else if offset > old(size) && !Fits(total, offset - old(size), quota) then -EIO else 0
      ensures res == -EIO <==> old(size) < offset <= INT_MAX && total - old(size) + offset > quota
      ensures Contents() == if res == 0 then Resized(old(Contents()), offset) else old(Contents())
    {
      total' := total;
      if offset < 0 || offset > INT_MAX { return -EINVAL, total; }
      if offset == size { return 0, total; }
      if offset < size {
        total' := total - (size - offset);
        Shrink(offset);
        return 0, total';
      }
      var diff := offset - size;
      if total + diff > INT_MAX { return -EIO, total; }
      if quota > 0 && total + diff > quota { return -EIO, total; }
      res := Reserve(offset);
      Grow(offset);
      total' := total + diff;
    }

    /** `memset` of the part that is cut off. */
    method Shrink(offset: nat)
      requires Valid() && offset <= size
      modifies this`size, data
      ensures Valid() && Contents() == old(Contents())[..offset]
    {
      ghost var before := Contents();
      for k := offset to size
        invariant size == old(size) <= reserved == data.Length && data == old(data)
        invariant forall j :: offset <= j < k || size <= j < reserved ==> data[j] == 0
        invariant data[..offset] == before[..offset]
      {
        data[k] := 0;
      }
      size := offset;
    }

    /** The bytes that become visible are zero already where the zero tail was kept. */
    method Grow(offset: nat)
      requires 0 <= size <= offset <= reserved == data.Length
      modifies this`size
      ensures size == offset && Contents() == data[..offset]
      ensures old(Valid()) ==> Valid() && Contents() == Resized(old(Contents()), offset)
    {
      ghost var before := Contents();
      size := offset;
      assert old(Valid()) ==> data[..offset] == before + Zeros(offset - |before|);
    }

    /** The locked part of `ejf_write`, for a buffer that is not empty. */
    method Write(buf: seq<Byte>, ioff: nat, total: int, quota: int) returns (res: int, total': int)
      requires Valid() && size <= total <= INT_MAX && 0 < quota <= LARGEST
      requires 0 < |buf| <= INT_MAX && ioff <= INT_MAX
      modifies this`size, this`reserved, this`data, data
      ensures Valid() && (data == old(data) || fresh(data))
      ensures total' - total == size - old(size) && (total <= quota ==> total' <= quota)
      ensures res == if Refused(old(size), total, quota, ioff + |buf|) then -EIO else |buf|
      ensures Contents() == if res > 0 then Overwritten(old(Contents()), ioff, buf) else old(Contents())
    {
      ghost var before := Contents();
      var newSize := ioff + |buf|;
      if newSize > INT_MAX { return -EIO, total; }
      total' := total;
      if newSize > size {
        res, total' := Truncate(newSize, total, quota);
        if res < 0 { return; }
      }
      assert Contents() == Resized(before, Max(|before|, newSize));
      Store(buf, ioff);
      res := |buf|;
    }

    /** `memcpy` into the buffer, inside the file. */
    method Store(buf: seq<Byte>, ioff: nat)
      requires Valid() && ioff + |buf| <= size
      modifies data
      ensures Valid()
      ensures Contents() == old(Contents())[..ioff] + buf + old(Contents())[ioff + |buf|..]
    {
      ghost var before := Contents();
      for k := 0 to |buf|
        invariant forall j :: 0 <= j < reserved && !(ioff <= j < ioff + k) ==> data[j] == old(data[j])
        invariant forall j :: 0 <= j < k ==> data[ioff + j] == buf[j]
      {
        data[ioff + k] := buf[k];
      }
      forall j | 0 <= j < size
        ensures Contents()[j] == (before[..ioff] + buf + before[ioff + |buf|..])[j]
      {
        if ioff <= j < ioff + |buf| { assert data[ioff + (j - ioff)] == buf[j - ioff]; }
      }
    }

    /** The locked part of `ejf_read`, for a request that is not empty. */
    method Read(isize: nat, ioff: nat) returns (buf: seq<Byte>)
      requires Valid() && isize > 0
      ensures buf == Slice(Contents(), ioff, isize)
      ensures |buf| == if ioff >= size then 0 else if isize < size - ioff then isize else size - ioff
      ensures forall k :: 0 <= k < |buf| ==> buf[k] == Contents()[ioff + k]
    {
      if ioff >= size { return []; }
      var n := isize;
      if size - ioff < n { n := size - ioff; }
      buf := [];
      for k := 0 to n
        invariant buf == data[ioff..ioff + k]
      {
        buf := buf + [data[ioff + k]];
      }
      assert data[ioff..ioff + n] == Contents()[ioff..ioff + n];
    }

    /** `ejf_open` and `ejf_create` with `O_TRUNC`: neither the bytes nor the total size of all files are touched. */
    method OpenTruncating()
      requires Valid()
      modifies this`size
      ensures size == 0 && data == old(data) && reserved == old(reserved)
      ensures Valid() <==> forall k :: 0 <= k < old(size) ==> old(data[k]) == 0
    {
      ghost var was, bytes := size, data[..];
      size := 0;
      assert forall k :: 0 <= k < data.Length ==> data[k] == bytes[k];
      assert forall k :: 0 <= k < reserved ==> (was <= k ==> data[k] == 0);
    }
  }

  /** Where the file was not empty, stale bytes come back: written, opened with `O_TRUNC` and grown again, the file
      reads 7, 0 instead of 0, 0. */
  method StaleBytes() returns (n: FileNode)
    ensures fresh(n) && n.size == 2 <= n.data.Length && n.Contents() == [7, 0] && n.Contents() != Resized([], 2)
  {
    n := new FileNode(1);
    var res, total := n.Write([7], 0, 0, 100);
    assert n.data[0] == n.Contents()[0] == 7 && n.reserved >= FIRST && n.data[1] == 0;
    n.OpenTruncating();
    n.Grow(2);
    assert n.Contents() == [7, 0] && Resized([], 2)[0] == 0;
  }
}
