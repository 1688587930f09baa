/** The growing buffer behind buffered printing. */
module PrintBuffer {
  import opened JsonTree
  import opened JsonString
  import opened JsonEscaper
  import opened PowerOfTwo

  /** The largest request that `pow2gt` answers without overflowing an int. */
  const LARGEST := 0x4000_0000

  lemma LargestIsPower()
    ensures Pow2(30) == LARGEST
  {
    assert Pow2(10) == 1024;
    Pow2Sum(10, 10);
    Pow2Sum(20, 10);
  }

  lemma {:induction false} Pow2Sum(i: nat, j: nat)
    ensures Pow2(i + j) == Pow2(i) * Pow2(j)
    decreases i
  {
    if i > 0 { Pow2Sum(i - 1, j); }
  }

  /** The size after growing for `x`: enough, and still an int. */
  lemma GrownSize(x: nat)
    requires 1 <= x <= LARGEST
    ensures x <= Pow2Gt(x) <= LARGEST
  {
    LargestIsPower();
    Pow2Grows(30, 32);
    hide Pow2, Pow2Gt;
    var w := Pow2GtIsLeast(x);
    assert Pow2(30) >= x;
  }

  /** A larger buffer with the same contents in front. */
  method Grown(buffer: array<char>, size: nat) returns (grown: array<char>)
    requires buffer.Length <= size
    ensures fresh(grown) && grown.Length == size && grown[..buffer.Length] == buffer[..]
  {
    grown := new char[size];
    for i := 0 to buffer.Length
      invariant grown[..i] == buffer[..i]
    {
      grown[i] := buffer[i];
    }
    assert buffer[..] == buffer[..buffer.Length];
  }

  class PrintBuffer {
    var buffer: array<char>
    var length: nat
    var offset: nat

    ghost predicate Valid()
      reads this
    {
      offset <= length == buffer.Length
    }

    /** The text in front of the offset. */
    ghost function Written(): (t: string)
      reads this, buffer
      requires Valid()
      ensures |t| == offset
    {
      buffer[..offset]
    }

    constructor (prebuffer: nat)
      ensures Valid() && offset == 0 && length == prebuffer && fresh(buffer) && Written() == ""
    {
      buffer := new char[prebuffer];
      length := prebuffer;
      offset := 0;
    }

    /** `ensure`: room for `needed` characters behind the offset; the contents survive growing. */
    method Ensure(needed: nat)
      requires Valid() && 1 <= offset + needed <= LARGEST
      modifies this
      ensures Valid() && offset == old(offset) && offset + needed <= length
      ensures buffer == old(buffer) || fresh(buffer)
      ensures old(length) <= length && buffer[..old(length)] == old(buffer[..])
      ensures length == if offset + needed <= old(length) then old(length) else Pow2Gt(offset + needed)
    {
      if offset + needed <= length { return; }
      var size := Pow2Gt(offset + needed);
      GrownSize(offset + needed);
      var grown := Grown(buffer, size);
      buffer, length := grown, size;
    }

    /** `update`: where the text that starts at the offset ends. */
    method Update(ghost end: nat) returns (n: nat)
      requires Valid() && offset <= end < length && buffer[end] == NUL
      requires forall k :: offset <= k < end ==> buffer[k] != NUL
      ensures n == end
    {
      n := offset;
      while buffer[n] != NUL
        invariant offset <= n <= end
        decreases end - n
      {
        n := n + 1;
      }
    }

    /** What a printing method leaves behind: `t` and a terminator behind `before`; the offset may already have moved
        into the text. */
    ghost predicate Holds(before: string, t: string)
      reads this, buffer
    {
      && Valid() && |before| <= offset <= |before| + |t| < length
      && buffer[..|before| + |t| + 1] == before + t + [NUL]
    }

    /** `p->offset = update(p)` after a text was printed behind what was there. */
    method MoveToEnd(ghost before: string, ghost t: string)
      requires Holds(before, t) && NulFree(t)
      modifies this`offset
      ensures Valid() && Written() == before + t
    {
      ghost var end := |before| + |t|;
      ghost var all := buffer[..end + 1];
      assert all[end] == NUL && buffer[end] == all[end];
      forall k | offset <= k < end ensures buffer[k] != NUL {
        assert buffer[k] == all[k] == t[k - |before|];
      }
      offset := Update(end);
      assert buffer[..end] == all[..end] == before + t;
    }

    /** A request for `room` characters, filled with `t` through the pointer it returns. */
    method Put(t: string, room: nat)
      requires Valid() && |t| <= room && 1 <= offset + room <= LARGEST
      modifies this, buffer
      ensures Valid() && offset == old(offset) && offset + |t| <= length
      ensures buffer == old(buffer) || fresh(buffer)
      ensures buffer[..offset + |t|] == old(Written()) + t
    {
      Ensure(room);
      assert buffer[..offset] == buffer[..old(length)][..offset];
      Copy(buffer, offset, t);
    }

    /** The same with a terminator, as by `strcpy`. */
    method PutText(t: string, room: nat)
      requires Valid() && |t| < room && 1 <= offset + room <= LARGEST
      modifies this, buffer
      ensures Holds(old(Written()), t) && offset == old(offset)
      ensures buffer == old(buffer) || fresh(buffer)
    {
      ghost var before := Written();
      Put(t + [NUL], room);
      assert before + (t + [NUL]) == before + t + [NUL];
    }

    /** A request after which the offset moves over what was written. */
    method Append(t: string, room: nat)
      requires Valid() && |t| <= room && 1 <= offset + room <= LARGEST
      modifies this, buffer
      ensures Valid() && (buffer == old(buffer) || fresh(buffer))
      ensures Written() == old(Written()) + t
    {
      Put(t, room);
      offset := offset + |t|;
    }

    /** The same with a terminator. */
    method AppendText(t: string, room: nat)
      requires Valid() && |t| < room && 1 <= offset + room <= LARGEST
      modifies this, buffer
      ensures Valid() && (buffer == old(buffer) || fresh(buffer))
      ensures Written() == old(Written()) + t
    {
      ghost var before := Written();
      Put(t + [NUL], room);
      assert before + (t + [NUL]) == before + t + [NUL];
      assert buffer[..offset + |t|] == buffer[..offset + |t| + 1][..offset + |t|] == before + t;
      offset := offset + |t|;
    }

    /** `print_string_ptr` on a print buffer. */
    method PutString(str: string)
      requires Valid() && offset + |PrintString(str)| + 1 <= LARGEST
      modifies this, buffer
      ensures Holds(old(Written()), PrintString(str)) && offset == old(offset)
      ensures buffer == old(buffer) || fresh(buffer)
    {
      ghost var before := Written();
      var flag := NeedsEscape(str);
      var len := |str|;
      if flag { len := CountEscaped(str); }
      Ensure(len + 3);
      assert buffer[..offset] == buffer[..old(length)][..offset] == before;
      if flag { FillEscaped(str, buffer, offset); } else { FillPlain(str, buffer, offset); }
    }
  }
}
