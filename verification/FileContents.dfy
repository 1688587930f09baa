/** Byte-sequence file semantics: what reserve, truncate, write and read on a growable buffer amount to. */
module FileContents {
  type Byte = b: int | 0 <= b < 256 witness 0

  function Zeros(n: nat): (z: seq<Byte>)
    ensures |z| == n && forall k :: 0 <= k < n ==> z[k] == 0
  {
    seq(n, _ => 0)
  }

  /** Cut off or padded with zeros. */
  function Resized(c: seq<Byte>, n: nat): (r: seq<Byte>)
    ensures |r| == n
  {
    if n <= |c| then c[..n] else c + Zeros(n - |c|)
  }

  function Max(a: nat, b: nat): nat {
    if a < b then b else a
  }

  function Min(a: nat, b: nat): nat {
    if a < b then a else b
  }

  /** `buf` written at `off`; a gap in front of it is filled with zeros. */
  function Overwritten(c: seq<Byte>, off: nat, buf: seq<Byte>): (r: seq<Byte>)
    ensures |r| == Max(|c|, off + |buf|)
  {
    var g := Resized(c, Max(|c|, off + |buf|));
    g[..off] + buf + g[off + |buf|..]
  }

  /** The requested slice, clipped to the size. */
  function Slice(c: seq<Byte>, off: nat, n: nat): (r: seq<Byte>)
    ensures |r| == if off >= |c| then 0 else Min(n, |c| - off)
  {
    if off >= |c| then [] else c[off..off + Min(n, |c| - off)]
  }

  // ----- laws -----

  /** A read yields the file's own bytes from the offset on, also where it is cut off at the end of the file. */
  lemma SliceAt(c: seq<Byte>, off: nat, n: nat, k: nat)
    requires k < |Slice(c, off, n)|
    ensures off + k < |c| && Slice(c, off, n)[k] == c[off + k]
  {
  }

  /** All of a read: the lesser of the request and what is left, byte by byte. */
  lemma SliceWhole(c: seq<Byte>, off: nat, n: nat)
    ensures var r := Slice(c, off, n);
      && |r| == (if off >= |c| then 0 else if n < |c| - off then n else |c| - off)
      && forall k :: 0 <= k < |r| ==> r[k] == c[off + k]
  {
    forall k: nat | k < |Slice(c, off, n)| ensures Slice(c, off, n)[k] == c[off + k] { SliceAt(c, off, n, k); }
  }

  /** A resized file keeps its bytes, and a longer one goes on with zeros. */
  lemma ResizedAt(c: seq<Byte>, n: nat, k: nat)
    requires k < n
    ensures Resized(c, n)[k] == if k < |c| then c[k] else 0
  {
  }

  /** Shrinking forgets: growing again reads back zeros. */
  lemma ShrinkThenGrow(c: seq<Byte>, small: nat, large: nat)
    requires small <= |c| && small <= large
    ensures Resized(Resized(c, small), large) == c[..small] + Zeros(large - small)
  {
  }

  /** A file read after a write yields what was written, and what was there elsewhere: the old bytes inside the old
      size and zeros in the gap. */
  lemma ReadAfterWrite(c: seq<Byte>, off: nat, buf: seq<Byte>)
    ensures Slice(Overwritten(c, off, buf), off, |buf|) == buf
    ensures forall k :: 0 <= k < |Overwritten(c, off, buf)| && !(off <= k < off + |buf|) ==>
              Overwritten(c, off, buf)[k] == if k < |c| then c[k] else 0
  {
  }

  /** Two writes that do not overlap can be exchanged. */
  lemma WritesCommute(c: seq<Byte>, off: nat, buf: seq<Byte>, off2: nat, buf2: seq<Byte>)
    requires off + |buf| <= off2
    ensures Overwritten(Overwritten(c, off, buf), off2, buf2) == Overwritten(Overwritten(c, off2, buf2), off, buf)
  {
    var l, r := Overwritten(Overwritten(c, off, buf), off2, buf2), Overwritten(Overwritten(c, off2, buf2), off, buf);
    ReadAfterWrite(c, off, buf);
    ReadAfterWrite(c, off2, buf2);
    ReadAfterWrite(Overwritten(c, off, buf), off2, buf2);
    ReadAfterWrite(Overwritten(c, off2, buf2), off, buf);
    hide Resized;
    assert |l| == |r|;
  }

  /** Consecutive writes are one write. */
  lemma WritesJoin(c: seq<Byte>, off: nat, buf: seq<Byte>, buf2: seq<Byte>)
    ensures Overwritten(Overwritten(c, off, buf), off + |buf|, buf2) == Overwritten(c, off, buf + buf2)
  {
    hide Overwritten, Resized;
    var first := Overwritten(c, off, buf);
    var l, r := Overwritten(first, off + |buf|, buf2), Overwritten(c, off, buf + buf2);
    forall k | 0 <= k < |r| ensures l[k] == r[k] {
      WrittenAt(first, off + |buf|, buf2, k);
      if k < |first| { WrittenAt(c, off, buf, k); }
      WrittenAt(c, off, buf + buf2, k);
    }
  }

  /** A written file byte by byte. */
  lemma WrittenAt(c: seq<Byte>, off: nat, buf: seq<Byte>, k: nat)
    requires k < |Overwritten(c, off, buf)|
    ensures Overwritten(c, off, buf)[k] == if off <= k < off + |buf| then buf[k - off] else if k < |c| then c[k] else 0
  {
  }
}
