/** The ring buffer of the JACK library, as the contract of its header describes it: one reader, one writer,
    a power-of-two array of which one byte is never used, and a read vector of at most two segments. */
module JackRing {
  import opened Bytes

  ghost predicate IsPowerOfTwo(p: nat) {
    exists k: nat :: p == Pow2(k)
  }

  /** The first power of two from `p` on that is at least `size`. */
  function GrowTo(p: nat, size: nat): (r: nat)
    requires p > 0
    ensures r >= size && r >= p && (r == p || r < 2 * size)
    ensures IsPowerOfTwo(p) ==> IsPowerOfTwo(r)
    decreases if p < size then size - p else 0
  {
    PowerDoubles(p);
    if p < size then GrowTo(2 * p, size) else p
  }

  lemma PowerDoubles(p: nat)
    ensures IsPowerOfTwo(p) ==> IsPowerOfTwo(2 * p)
  {
    if IsPowerOfTwo(p) {
      var k: nat :| p == Pow2(k);
      assert 2 * p == Pow2(k + 1);
    }
  }

  /** The array size chosen for a requested size: at least 2. */
  function RingSize(size: nat): (r: nat)
    ensures r >= 2 && r >= size && (r == 2 || r < 2 * size)
    ensures IsPowerOfTwo(r)
  {
    assert Pow2(1) == 2;
    GrowTo(2, size)
  }

  /** The bytes of a ring from `from` up to `to`, going round the end if need be. */
  function Circular(buf: seq<byte>, from: nat, to: nat): seq<byte>
    requires from < |buf| && to < |buf|
  {
    if from <= to then buf[from..to] else buf[from..] + buf[..to]
  }

  class RingBuffer {
    const buf: array<byte>
    var readPtr: nat
    var writePtr: nat

    ghost predicate Valid()
      reads this
    {
      buf.Length >= 2 && readPtr < buf.Length && writePtr < buf.Length
    }

    ghost function Contents(): (c: seq<byte>)
      reads this, buf
      requires Valid()
      ensures |c| < buf.Length
    {
      Circular(buf[..], readPtr, writePtr)
    }

    constructor (size: nat)
      ensures Valid() && fresh(buf) && buf.Length == RingSize(size) && Contents() == []
    {
      var length := 2;
      while length < size
        invariant length > 0 && GrowTo(length, size) == RingSize(size)
        decreases size - length
      {
        length := 2 * length;
      }
      buf := new byte[length](_ => 0);
      readPtr, writePtr := 0, 0;
    }

    /** `x & size_mask`, for an index that is at most one turn too large. */
    function Wrapped(x: nat): (r: nat)
      requires buf.Length > 0 && x < 2 * buf.Length
      ensures r < buf.Length && r == x % buf.Length
    {
      if x >= buf.Length then x - buf.Length else x
    }

    method WriteSpace() returns (n: nat)
      requires Valid()
      ensures n == buf.Length - 1 - |Contents()|
    {
      if writePtr > readPtr {
        n := Wrapped(readPtr - writePtr + buf.Length) - 1;
      } else if writePtr < readPtr {
        n := readPtr - writePtr - 1;
      } else {
        n := buf.Length - 1;
      }
    }

    /** Appends as much of `data` as there is room for. */
    method Write(data: seq<byte>) returns (n: nat)
      requires Valid()
      modifies this`writePtr, buf
      ensures Valid()
      ensures n == if |data| <= buf.Length - 1 - |old(Contents())| then |data| else buf.Length - 1 - |old(Contents())|
      ensures Contents() == old(Contents()) + data[..n]
    {
      hide Circular;
      var space := WriteSpace();
      n := if |data| <= space then |data| else space;
      var w := writePtr;
      ghost var was := buf[..];
      if writePtr + n > buf.Length {
        var n1 := buf.Length - writePtr;
        forall k | 0 <= k < n1 { buf[w + k] := data[k]; }
        forall k | 0 <= k < n - n1 { buf[k] := data[n1 + k]; }
      } else {
        forall k | 0 <= k < n { buf[w + k] := data[k]; }
      }
      writePtr := Wrapped(writePtr + n);
      CircularAppend(was, buf[..], readPtr, w, writePtr, data[..n]);
    }

    /** The stored bytes as two segments: from the read position, and from the start of the array. */
    method GetReadVector() returns (len0: nat, len1: nat)
      requires Valid()
      ensures readPtr + len0 <= buf.Length && len1 <= buf.Length
      ensures Contents() == buf[readPtr..readPtr + len0] + buf[..len1]
    {
      var free := if writePtr > readPtr then writePtr - readPtr else Wrapped(writePtr - readPtr + buf.Length);
      if readPtr + free > buf.Length {
        len0, len1 := buf.Length - readPtr, Wrapped(readPtr + free);
      } else {
        len0, len1 := free, 0;
      }
    }

    method ReadAdvance(n: nat)
      requires Valid() && n <= |Contents()|
      modifies this`readPtr
      ensures Valid() && Contents() == old(Contents())[n..]
    {
      ghost var r := readPtr;
      readPtr := Wrapped(readPtr + n);
      CircularDrop(buf[..], r, writePtr, readPtr, n);
    }
  }

  /** Storing bytes after the write position appends them to the stored bytes. */
  lemma CircularAppend(was: seq<byte>, now: seq<byte>, r: nat, w: nat, w': nat, data: seq<byte>)
    requires |was| == |now| >= 2 && r < |was| && w < |was| && w' < |was|
    requires |Circular(was, r, w)| + |data| < |was|
    requires w' == if w + |data| >= |was| then w + |data| - |was| else w + |data|
    requires forall k :: 0 <= k < |was| ==>
      now[k] == (if w <= k < w + |data| then data[k - w]
                 else if w + |data| > |was| && k < w + |data| - |was| then data[|was| - w + k]
                 else was[k])
    ensures Circular(now, r, w') == Circular(was, r, w) + data
  {
    var l, a := Circular(now, r, w'), Circular(was, r, w) + data;
    assert |l| == |a|;
    forall k | 0 <= k < |a|
      ensures l[k] == a[k]
    {
    }
  }

  lemma CircularDrop(buf: seq<byte>, r: nat, w: nat, r': nat, n: nat)
    requires |buf| >= 2 && r < |buf| && w < |buf| && n <= |Circular(buf, r, w)|
    requires r' == if r + n >= |buf| then r + n - |buf| else r + n
    ensures r' < |buf| && Circular(buf, r', w) == Circular(buf, r, w)[n..]
  {
  }
}
