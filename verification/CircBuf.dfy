/** CircularBuffer: a wrap-around byte array that behaves as a bounded FIFO. */
module CircBuf {
  import opened TouTypes

  /** An index that has run at most once past the end of a buffer of the given size. */
  function Wrap(i: nat, size: nat): nat
    requires i < 2 * size
  {
    if i < size then i else i - size
  }

  lemma WrapIsMod(i: nat, size: nat)
    requires i < 2 * size
    ensures i % size == Wrap(i, size)
  {
    if i < size {
    } else {
      assert i == size + (i - size);
    }
  }

  /** n bytes from position start on, continuing at 0 after the last cell. */
  function Ring(b: seq<Byte>, start: nat, n: nat): (r: seq<Byte>)
    requires start < |b| && n <= |b|
    ensures |r| == n
    decreases n
  {
    if n == 0 then [] else [b[start]] + Ring(b, Wrap(start + 1, |b|), n - 1)
  }

  lemma {:induction false} RingAt(b: seq<Byte>, start: nat, n: nat, i: nat)
    requires start < |b| && i < n <= |b|
    ensures Ring(b, start, n)[i] == b[Wrap(start + i, |b|)]
    decreases i
  {
    if i > 0 {
      RingAt(b, Wrap(start + 1, |b|), n - 1, i - 1);
    }
  }

  lemma {:induction false} RingSplit(b: seq<Byte>, start: nat, n: nat, m: nat)
    requires start < |b| && n + m <= |b|
    ensures Ring(b, start, n + m) == Ring(b, start, n) + Ring(b, Wrap(start + n, |b|), m)
    decreases n
  {
    if n > 0 {
      RingSplit(b, Wrap(start + 1, |b|), n - 1, m);
    }
  }

  /** The two memcpy calls of a read. */
  lemma RingIsTwoCopies(b: seq<Byte>, start: nat, n: nat)
    requires start < |b| && n <= |b|
    ensures Ring(b, start, n) ==
            if start + n <= |b| then b[start..start + n] else b[start..] + b[..start + n - |b|]
  {
    var r := if start + n <= |b| then b[start..start + n] else b[start..] + b[..start + n - |b|];
    forall i | 0 <= i < n
      ensures Ring(b, start, n)[i] == r[i]
    {
      RingAt(b, start, n, i);
    }
  }

  lemma RingPrefix(b: seq<Byte>, start: nat, n: nat, k: nat)
    requires start < |b| && k <= n <= |b|
    ensures Ring(b, start, n)[..k] == Ring(b, start, k)
  {
    RingSplit(b, start, k, n - k);
  }

  function Sum(ns: seq<nat>): nat {
    if ns == [] then 0 else ns[0] + Sum(ns[1..])
  }

  /** The bytes of successive positional reads, each starting at the `end` of the one before. */
  function ChainedReads(b: seq<Byte>, start: nat, ns: seq<nat>): seq<Byte>
    requires start < |b| && Sum(ns) <= |b|
    decreases |ns|
  {
    if ns == [] then []
    else Ring(b, start, ns[0]) + ChainedReads(b, Wrap(start + ns[0], |b|), ns[1..])
  }

  /** Reading through `end` in any pieces gives the bytes of one read. */
  lemma {:induction false} ChainedReadsAreOneRead(b: seq<Byte>, start: nat, ns: seq<nat>)
    requires start < |b| && Sum(ns) <= |b|
    ensures ChainedReads(b, start, ns) == Ring(b, start, Sum(ns))
    decreases |ns|
  {
    if ns == [] {
    } else {
      var n, rest := ns[0], ns[1..];
      var next := Wrap(start + n, |b|);
      ChainedReadsAreOneRead(b, next, rest);
      assert Ring(b, start, Sum(ns)) == Ring(b, start, n) + Ring(b, next, Sum(rest)) by {
        RingSplit(b, start, n, Sum(rest));
      }
    }
  }

  class CircularBuffer {
    const buf: array<Byte>
    var head: nat
    var tail: nat
    var totEl: nat

    ghost predicate Valid()
      reads this
    {
      && 0 < buf.Length
      && head < buf.Length && tail < buf.Length && totEl <= buf.Length
      && tail == Wrap(head + totEl, buf.Length)
    }

    /** The queue, oldest byte first. */
    ghost function Contents(): (s: seq<Byte>)
      requires Valid()
      reads this, buf
      ensures |s| == totEl
    {
      Ring(buf[..], head, totEl)
    }

    constructor (size: nat)
      requires 0 < size
      ensures Valid() && fresh(buf) && buf.Length == size && Contents() == []
    {
      buf := new Byte[size];
      head, tail, totEl := 0, 0, 0;
    }

    /** tail and head stay one queue length apart, modulo the buffer size. */
    lemma TailIsHeadPlusTotal()
      requires Valid()
      ensures tail == (head + totEl) % buf.Length
    {
      WrapIsMod(head + totEl, buf.Length);
    }

    /** memcpy of n bytes, from data[off] on, into the buffer at pos. */
    method CopyIn(pos: nat, data: seq<Byte>, off: nat, n: nat)
      requires pos + n <= buf.Length && off + n <= |data|
      modifies buf
      ensures forall j :: 0 <= j < buf.Length ==>
                buf[j] == if pos <= j < pos + n then data[off + j - pos] else old(buf[j])
    {
      var i := 0;
      while i < n
        invariant 0 <= i <= n
        invariant forall j :: 0 <= j < buf.Length ==>
                    buf[j] == if pos <= j < pos + i then data[off + j - pos] else old(buf[j])
      {
        buf[pos + i] := data[off + i];
        i := i + 1;
      }
    }

    /** The two copies of the four-argument insert: up to the last cell, then from cell 0. */
    method WriteAtTail(data: seq<Byte>, n: nat)
      requires 0 < n <= buf.Length && n <= |data| && tail < buf.Length
      modifies this`tail, buf
      ensures forall j :: 0 <= j < buf.Length ==> buf[j] == Written(old(buf[..]), old(tail), data, n, j)
      ensures tail == Wrap(old(tail) + n, buf.Length)
    {
      var first, second := buf.Length - tail, 0;
      if n > first {
        second := n - first;
      } else {
        first := n;
      }
      CopyIn(tail, data, 0, first);
      WrapIsMod(tail + first, buf.Length);
      tail := (tail + first) % buf.Length;
      if second > 0 {
        CopyIn(tail, data, first, second);
        tail := second;
      }
    }

    /** The four-argument insert: as many of the n bytes as there is room for. */
    method InsertAt(data: seq<Byte>, n0: int) returns (r: nat, start: nat, end: nat)
      requires Valid() && n0 <= |data|
      modifies this, buf
      ensures Valid()
      ensures r == if n0 <= 0 then 0 else Min(n0, buf.Length - old(totEl))
      ensures Contents() == old(Contents()) + data[..r]
      ensures r > 0 ==> start == old(tail) && end == tail
    {
      start, end := 0, 0;
      var n := n0;
      if n <= 0 {
        return 0, 0, 0;
      }
      var an := buf.Length - totEl;
      if an == 0 {
        return 0, 0, 0;
      }
      if n > an {
        n := an;
      }
      start := tail;
      ghost var b0 := buf[..];
      WriteAtTail(data, n);
      end := tail;
      totEl := totEl + n;
      InsertedContents(b0, buf[..], head, old(totEl), data, n);
      return n, start, end;
    }

    /** The two-argument insert: all n bytes, and never the last free cell, or nothing. */
    method Insert(data: seq<Byte>, n: int) returns (r: nat)
      requires Valid() && n <= |data|
      modifies this, buf
      ensures Valid()
      ensures r == if 0 < n < buf.Length - old(totEl) then n else 0
      ensures Contents() == old(Contents()) + data[..r]
      ensures r > 0 ==> totEl < buf.Length
    {
      r := 0;
      // the C++ comparison is unsigned, so a negative n is never small enough
      if 0 <= n < buf.Length - totEl {
        var start, end;
        r, start, end := InsertAt(data, n);
      }
    }

    method Remove(n0: int) returns (r: nat)
      requires Valid()
      modifies this
      ensures Valid()
      ensures r == if n0 <= 0 then 0 else Min(n0, old(totEl))
      ensures Contents() == old(Contents())[r..]
    {
      if totEl == 0 || n0 <= 0 {
        return 0;
      }
      if n0 > totEl {
        head := tail;
        r := totEl;
        totEl := 0;
        return r;
      }
      RingSplit(buf[..], head, n0, totEl - n0);
      WrapIsMod(head + n0, buf.Length);
      head := (head + n0) % buf.Length;
      totEl := totEl - n0;
      return n0;
    }

    /** The one or two memcpy calls of a read. */
    method CopyOut(start: nat, n: nat) returns (out: seq<Byte>, end: nat)
      requires Valid() && start < buf.Length && 0 < n <= buf.Length
      ensures out == Ring(buf[..], start, n) && end == Wrap(start + n, buf.Length)
    {
      var first, second := buf.Length - start, 0;
      if n > first {
        second := n - first;
      } else {
        first := n;
      }
      RingIsTwoCopies(buf[..], start, n);
      out := buf[start..start + first];
      WrapIsMod(start + first, buf.Length);
      end := (start + first) % buf.Length;
      if second > 0 {
        out := out + buf[..second];
        end := second;
      }
    }

    /** Positional read. Like the original it does not look at the end of the queue. */
    method GetAtPos(start: nat, n: int) returns (out: seq<Byte>, end: nat)
      requires Valid() && start < buf.Length && n <= buf.Length
      ensures out == if n <= 0 || totEl == 0 then [] else Ring(buf[..], start, n)
      ensures out != [] ==> end == Wrap(start + n, buf.Length)
    {
      if 0 >= n || totEl == 0 {
        return [], 0;
      }
      out, end := CopyOut(start, n);
    }

    /** Read up to n bytes from the front without removing them. */
    method GetAt(n0: int) returns (out: seq<Byte>, end: nat)
      requires Valid()
      ensures out == if n0 <= 0 then [] else Contents()[..Min(n0, totEl)]
      ensures out != [] ==> end == Wrap(head + |out|, buf.Length)
    {
      if 0 >= n0 || totEl == 0 {
        return [], 0;
      }
      var n := n0;
      if n > totEl {
        n := totEl;
      }
      RingPrefix(buf[..], head, totEl, n);
      out, end := CopyOut(head, n);
    }

    method GetAvSize() returns (n: nat)
      requires Valid()
      ensures n == buf.Length - |Contents()|
    {
      n := buf.Length - totEl;
    }
  }

  /** Cell j of buffer b0 after n bytes of d have been copied in from cell t on, wrapping once. */
  function Written(b0: seq<Byte>, t: nat, d: seq<Byte>, n: nat, j: nat): Byte
    requires t < |b0| && n <= |b0| && n <= |d| && j < |b0|
  {
    if t <= j < t + n then d[j - t] else if j + |b0| < t + n then d[j + |b0| - t] else b0[j]
  }

  /** Writing at the tail appends to the queue. */
  lemma InsertedContents(b0: seq<Byte>, b1: seq<Byte>, head: nat, tot: nat, d: seq<Byte>, n: nat)
    requires head < |b0| == |b1| && tot + n <= |b0| && n <= |d|
    requires forall j :: 0 <= j < |b0| ==> b1[j] == Written(b0, Wrap(head + tot, |b0|), d, n, j)
    ensures Ring(b1, head, tot + n) == Ring(b0, head, tot) + d[..n]
  {
    var size, t := |b0|, Wrap(head + tot, |b0|);
    var l, r := Ring(b1, head, tot + n), Ring(b0, head, tot) + d[..n];
    assert |l| == |r|;
    forall i | 0 <= i < tot + n
      ensures l[i] == r[i]
    {
      var j := Wrap(head + i, size);
      RingAt(b1, head, tot + n, i);
      assert l[i] == Written(b0, t, d, n, j);
      if i < tot {
        RingAt(b0, head, tot, i);
      } else {
        assert j == Wrap(t + (i - tot), size);
        assert r[i] == d[i - tot];
      }
    }
  }
}
