/**
 The ring buffer of pipe.c with its wrapping 32-bit counters.  A call of pipewrite
 or piperead is a series of passes under the pipe's lock, each ending in a return or
 in sleep; a pass is a method here and a function of the byte streams in PipeMachine.
 */
module Pipe {
  import opened Params

  const PIPESIZE: nat := 512

  /** How a pass ends: the call returns a count, returns -1, or goes to sleep. */
  datatype Outcome = Done(n: nat) | Failed | Slept

  /** The bytes a pass of pipewrite stores, with i of n bytes stored before and fill bytes in the pipe. */
  function Room(n: nat, i: nat, fill: nat): (m: nat)
    requires i <= n && fill <= PIPESIZE
    ensures i + m <= n && fill + m <= PIPESIZE
    ensures i + m == n || fill + m == PIPESIZE
  {
    if n - i < PIPESIZE - fill then n - i else PIPESIZE - fill
  }

  /** How a pass of pipewrite ends. */
  function WriteEnds(n: nat, i: nat, readopen: bool, killed: bool): (o: Outcome)
    ensures o.Done? <==> i == n
    ensures o.Done? ==> o.n == n
    ensures o.Failed? <==> i != n && (!readopen || killed)
  {
    if i == n then Done(n) else if !readopen || killed then Failed else Slept
  }

  /** How a pass of piperead ends. */
  function ReadEnds(n: nat, fill: nat, writeopen: bool, killed: bool): (o: Outcome)
    ensures o.Done? <==> fill > 0 || !writeopen
    ensures o.Done? ==> o.n <= n && o.n <= fill && (o.n == n || o.n == fill)
    ensures o.Failed? <==> fill == 0 && writeopen && killed
  {
    if fill == 0 && writeopen then (if killed then Failed else Slept)
    else Done(if n < fill then n else fill)
  }

  // ----- the counters -----

  /** PIPESIZE divides 2^32, so a wrapped counter still indexes the ring. */
  lemma WrapIndex(a: nat)
    ensures (a % TWO32) % PIPESIZE == a % PIPESIZE
  {
    var q := a / TWO32;
    assert a == q * TWO32 + a % TWO32;
    assert TWO32 == 8388608 * PIPESIZE;
    assert a == (q * 8388608) * PIPESIZE + a % TWO32;
    ModDrop(q * 8388608, a % TWO32);
  }

  lemma ModDrop(k: nat, x: nat)
    ensures (k * PIPESIZE + x) % PIPESIZE == x % PIPESIZE
    decreases k
  {
    if k > 0 {
      ModDrop(k - 1, x);
      assert k * PIPESIZE + x == (k - 1) * PIPESIZE + x + PIPESIZE;
    }
  }

  lemma WrapNext(a: nat)
    ensures (a + 1) % TWO32 == (a % TWO32 + 1) % TWO32
  {
  }

  /** Close counters are equal exactly when their wrapped values are. */
  lemma WrapSame(a: nat, b: nat)
    requires a <= b <= a + PIPESIZE
    ensures a % TWO32 == b % TWO32 <==> a == b
  {
  }

  lemma WrapFull(a: nat, b: nat)
    requires a <= b <= a + PIPESIZE
    ensures b % TWO32 == (a % TWO32 + PIPESIZE) % TWO32 <==> b == a + PIPESIZE
  {
    WrapSame(b, a + PIPESIZE);
  }

  /** Slots of the ring in use are pairwise different. */
  lemma SlotsApart(lo: nat, hi: nat, k: nat)
    requires lo <= k < hi && hi < lo + PIPESIZE
    ensures k % PIPESIZE != hi % PIPESIZE
  {
  }

  /** The ring d holds stored[lo..], for lo bytes taken. */
  ghost predicate Holds(d: seq<int>, stored: seq<int>, lo: nat) {
    && |d| == PIPESIZE && lo <= |stored| <= lo + PIPESIZE
    && forall k :: lo <= k < |stored| ==> d[k % PIPESIZE] == stored[k]
  }

  lemma HoldsPut(d: seq<int>, stored: seq<int>, lo: nat, b: int)
    requires Holds(d, stored, lo) && |stored| < lo + PIPESIZE
    ensures Holds(d[|stored| % PIPESIZE := b], stored + [b], lo)
  {
    var e := d[|stored| % PIPESIZE := b];
    forall k | lo <= k < |stored| + 1
      ensures e[k % PIPESIZE] == (stored + [b])[k]
    {
      if k < |stored| {
        SlotsApart(lo, |stored|, k);
      }
    }
  }

  class Ring {
    const data: array<int>
    var nread: nat
    var nwrite: nat
    var readopen: bool
    var writeopen: bool
    /** Every byte stored and every byte read since the pipe was made. */
    ghost var stored: seq<int>
    ghost var taken: seq<int>

    ghost predicate Valid()
      reads this, data
    {
      && data.Length == PIPESIZE
      && taken <= stored && Holds(data[..], stored, |taken|)
      && nread == |taken| % TWO32 && nwrite == |stored| % TWO32
    }

    /** What pipealloc sets up. */
    constructor ()
      ensures Valid() && fresh(data) && stored == [] && taken == [] && readopen && writeopen
    {
      data := new int[PIPESIZE];
      nread, nwrite, readopen, writeopen, stored, taken := 0, 0, true, true, [], [];
    }

    method Full() returns (r: bool)
      requires Valid()
      ensures r <==> |stored| == |taken| + PIPESIZE
    {
      WrapFull(|taken|, |stored|);
      r := nwrite == (nread + PIPESIZE) % TWO32;
    }

    method Empty() returns (r: bool)
      requires Valid()
      ensures r <==> |stored| == |taken|
    {
      WrapSame(|taken|, |stored|);
      r := nread == nwrite;
    }

    method Put(b: int)
      requires Valid() && |stored| < |taken| + PIPESIZE
      modifies this`nwrite, this`stored, data
      ensures Valid() && stored == old(stored) + [b]
    {
      WrapIndex(|stored|);
      WrapNext(|stored|);
      HoldsPut(data[..], stored, |taken|, b);
      data[nwrite % PIPESIZE] := b;
      nwrite := (nwrite + 1) % TWO32;
      stored := stored + [b];
    }

    method Get() returns (b: int)
      requires Valid() && |taken| < |stored|
      modifies this`nread, this`taken
      ensures Valid() && taken == old(taken) + [b]
    {
      WrapIndex(|taken|);
      WrapNext(|taken|);
      b := data[nread % PIPESIZE];
      nread := (nread + 1) % TWO32;
      taken := taken + [b];
    }

    /**
     A pass of pipewrite of addr, of which i bytes are stored: it stores bytes until all
     are stored or the pipe is full.  It returns |addr| exactly in the first case; in the
     second it fails when there is no reader or the caller is killed, else it sleeps.
     woke says whether it called wakeup(&p->nread).
     */
    method Write(addr: seq<int>, i: nat, killed: bool) returns (i': nat, o: Outcome, woke: bool)
      requires Valid() && i <= |addr|
      modifies this`nwrite, this`stored, data
      ensures Valid()
      ensures i <= i' <= |addr| && stored == old(stored) + addr[i..i']
      ensures i' == |addr| || |stored| == |taken| + PIPESIZE
      ensures if i' == |addr| then o == Done(|addr|) else o == if !readopen || killed then Failed else Slept
      ensures woke <==> o != Failed
      ensures i' == i + Room(|addr|, i, |old(stored)| - |taken|) && o == WriteEnds(|addr|, i', readopen, killed)
    {
      ghost var was := stored;
      i' := i;
      while i' < |addr|
        invariant i <= i' <= |addr| && Valid() && stored == was + addr[i..i'] && taken == old(taken)
      {
        var full := Full();
        if full {
          if !readopen || killed {
            return i', Failed, false;
          }
          return i', Slept, true;
        }
        Put(addr[i']);
        assert addr[i..i' + 1] == addr[i..i'] + [addr[i']];
        i' := i' + 1;
      }
      return i', Done(|addr|), true;
    }

    /**
     A pass of piperead of n bytes.  From a pipe that holds bytes or has no writer it
     returns the next bytes, n or all there are; at an empty pipe it fails when the caller
     is killed, else it sleeps.  woke says whether it called wakeup(&p->nwrite).
     */
    method Read(n: nat, killed: bool) returns (dst: seq<int>, o: Outcome, woke: bool)
      requires Valid()
      modifies this`nread, this`taken
      ensures Valid()
      ensures taken == old(taken) + dst && (woke <==> o.Done?)
      ensures |stored| > |old(taken)| || !writeopen ==>
                o == Done(|dst|) && |dst| == if n < |stored| - |old(taken)| then n else |stored| - |old(taken)|
      ensures |stored| > |old(taken)| || !writeopen ==> dst == stored[|old(taken)|..|old(taken)| + |dst|]
      ensures |stored| == |old(taken)| && writeopen ==> dst == [] && o == if killed then Failed else Slept
      ensures o == ReadEnds(n, |stored| - |old(taken)|, writeopen, killed)
    {
      dst := [];
      var empty := Empty();
      if empty && writeopen {
        if killed {
          return dst, Failed, false;
        }
        return dst, Slept, false;
      }
      ghost var was := taken;
      var i := 0;
      while i < n && !empty
        invariant 0 <= i <= n && |dst| == i && Valid() && taken == was + dst && stored == old(stored)
        invariant empty <==> |stored| == |taken|
      {
        var b := Get();
        dst := dst + [b];
        i := i + 1;
        empty := Empty();
      }
      assert dst == taken[|was|..];
      return dst, Done(i), true;
    }

    /** pipeclose up to the question whether the pipe is freed. */
    method Close(writable: bool) returns (free: bool)
      requires Valid()
      modifies this`readopen, this`writeopen
      ensures Valid()
      ensures writeopen == (old(writeopen) && !writable) && readopen == (old(readopen) && writable)
      ensures free <==> !readopen && !writeopen
    {
      if writable {
        writeopen := false;
      } else {
        readopen := false;
      }
      free := !readopen && !writeopen;
    }
  }
}
