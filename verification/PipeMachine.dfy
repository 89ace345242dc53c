/**
 A pipe shared by any number of readers and writers.  A step is one pass of a
 pipewrite or piperead under the pipe's lock, with the wakeups it makes, or the
 opening or closing of an end, or a kill.  An end is closed only when no call on it
 is in progress, which is what the reference counts of file.c see to.
 */
module PipeMachine {
  import opened Pipe

  /** A call in progress; asleep is on &p->nwrite for writers and on &p->nread for readers. */
  datatype Thread = Idle | Writer(addr: seq<int>, i: nat, asleep: bool) | Reader(n: nat, asleep: bool)

  datatype State = State(stored: seq<int>, taken: seq<int>, readopen: bool, writeopen: bool, threads: seq<Thread>,
                         killed: set<nat>)

  function Fill(s: State): (n: int) {
    |s.stored| - |s.taken|
  }

  function WokenReader(x: Thread): (y: Thread) {
    if x.Reader? then Reader(x.n, false) else x
  }

  function WokenWriter(x: Thread): (y: Thread) {
    if x.Writer? then Writer(x.addr, x.i, false) else x
  }

  function WakeReaders(ts: seq<Thread>): (us: seq<Thread>)
    ensures |us| == |ts| && forall k :: 0 <= k < |ts| ==> us[k] == WokenReader(ts[k])
  {
    seq(|ts|, k requires 0 <= k < |ts| => WokenReader(ts[k]))
  }

  function WakeWriters(ts: seq<Thread>): (us: seq<Thread>)
    ensures |us| == |ts| && forall k :: 0 <= k < |ts| ==> us[k] == WokenWriter(ts[k])
  {
    seq(|ts|, k requires 0 <= k < |ts| => WokenWriter(ts[k]))
  }

  // ----- steps -----

  ghost predicate Start(s: State) {
    && s.stored == [] && s.taken == [] && s.readopen && s.writeopen && s.killed == {}
    && forall k :: 0 <= k < |s.threads| ==> s.threads[k] == Idle
  }

  ghost predicate CallWrite(s: State, t: State, k: nat, addr: seq<int>) {
    k < |s.threads| && s.threads[k] == Idle && s.writeopen && t == s.(threads := s.threads[k := Writer(addr, 0, false)])
  }

  ghost predicate CallRead(s: State, t: State, k: nat, n: nat) {
    k < |s.threads| && s.threads[k] == Idle && s.readopen && t == s.(threads := s.threads[k := Reader(n, false)])
  }

  ghost predicate CanWrite(s: State, k: nat) {
    && k < |s.threads| && s.threads[k].Writer? && !s.threads[k].asleep && s.threads[k].i <= |s.threads[k].addr|
    && 0 <= Fill(s) <= PIPESIZE
  }

  /** Bytes the next pass of writer k stores. */
  ghost function Stores(s: State, k: nat): (m: nat)
    requires CanWrite(s, k)
    ensures s.threads[k].i + m <= |s.threads[k].addr|
  {
    Room(|s.threads[k].addr|, s.threads[k].i, Fill(s))
  }

  ghost function WriteOutcome(s: State, k: nat): (o: Outcome)
    requires CanWrite(s, k)
  {
    WriteEnds(|s.threads[k].addr|, s.threads[k].i + Stores(s, k), s.readopen, k in s.killed)
  }

  ghost predicate WritePass(s: State, t: State, k: nat) {
    && CanWrite(s, k)
    && var x, o := s.threads[k], WriteOutcome(s, k);
       var i := x.i + Stores(s, k);
       var ts := s.threads[k := if o == Slept then Writer(x.addr, i, true) else Idle];
       t == s.(stored := s.stored + x.addr[x.i..i], threads := if o == Failed then ts else WakeReaders(ts))
  }

  ghost predicate CanRead(s: State, k: nat) {
    && k < |s.threads| && s.threads[k].Reader? && !s.threads[k].asleep
    && 0 <= Fill(s) <= PIPESIZE
  }

  ghost function ReadOutcome(s: State, k: nat): (o: Outcome)
    requires CanRead(s, k)
    ensures o.Done? ==> o.n <= Fill(s)
  {
    ReadEnds(s.threads[k].n, Fill(s), s.writeopen, k in s.killed)
  }

  ghost predicate ReadPass(s: State, t: State, k: nat) {
    && CanRead(s, k)
    && var x, o := s.threads[k], ReadOutcome(s, k);
       match o
       case Slept => t == s.(threads := s.threads[k := Reader(x.n, true)])
       case Failed => t == s.(threads := s.threads[k := Idle])
       case Done(m) => t == s.(taken := s.taken + s.stored[|s.taken|..|s.taken| + m],
                               threads := WakeWriters(s.threads[k := Idle]))
  }

  ghost predicate CloseWrite(s: State, t: State) {
    && s.writeopen && (forall k :: 0 <= k < |s.threads| ==> !s.threads[k].Writer?)
    && t == s.(writeopen := false, threads := WakeReaders(s.threads))
  }

  ghost predicate CloseRead(s: State, t: State) {
    && s.readopen && (forall k :: 0 <= k < |s.threads| ==> !s.threads[k].Reader?)
    && t == s.(readopen := false, threads := WakeWriters(s.threads))
  }

  ghost predicate Kill(s: State, t: State, k: nat) {
    && k < |s.threads|
    && t == s.(killed := s.killed + {k}, threads := s.threads[k := WokenReader(WokenWriter(s.threads[k]))])
  }

  ghost predicate Next(s: State, t: State) {
    || (exists k: nat, addr :: CallWrite(s, t, k, addr))
    || (exists k: nat, n: nat :: CallRead(s, t, k, n))
    || (exists k: nat :: WritePass(s, t, k))
    || (exists k: nat :: ReadPass(s, t, k))
    || CloseWrite(s, t) || CloseRead(s, t)
    || (exists k: nat :: Kill(s, t, k))
  }

  // ----- the byte streams -----

  /** What was read is a prefix of what was stored, and the rest fits the ring. */
  ghost predicate Fifo(s: State) {
    s.taken <= s.stored && |s.stored| <= |s.taken| + PIPESIZE
  }

  /** Calls in progress keep their end open. */
  ghost predicate Ends(s: State) {
    forall k :: 0 <= k < |s.threads| ==>
      && (s.threads[k].Writer? ==> s.writeopen && s.threads[k].i <= |s.threads[k].addr|)
      && (s.threads[k].Reader? ==> s.readopen)
  }

  lemma NextFifo(s: State, t: State)
    requires Fifo(s) && Ends(s) && Next(s, t)
    ensures Fifo(t) && s.stored <= t.stored && s.taken <= t.taken
  {
  }

  lemma NextEnds(s: State, t: State)
    requires Fifo(s) && Ends(s) && Next(s, t)
    ensures Ends(t)
  {
  }

  // ----- what a call gets -----

  /**
   A pass of a reader of n bytes.  With bytes in the pipe, or without a writer, the call
   returns and has taken the next bytes: n of them, or all there are.  At an empty pipe it
   takes nothing, and returns only if it is killed.
   */
  lemma ReadTakes(s: State, t: State, k: nat, m: nat)
    requires Fifo(s) && ReadPass(s, t, k) && m == |t.taken| - |s.taken|
    ensures t.stored == s.stored && t.taken == s.stored[..|s.taken| + m]
    ensures Fill(s) > 0 || !s.writeopen ==>
              t.threads[k] == Idle && m == if s.threads[k].n < Fill(s) then s.threads[k].n else Fill(s)
    ensures Fill(s) == 0 && s.writeopen ==>
              m == 0 && t.threads[k] == if k in s.killed then Idle else Reader(s.threads[k].n, true)
  {
  }

  /**
   A pass of a writer stores the next bytes until all are stored or the pipe is full; the
   call returns in the first case, and in the second when it has no reader or is killed.
   */
  lemma WriteStores(s: State, t: State, k: nat, i: nat)
    requires Fifo(s) && WritePass(s, t, k) && i == s.threads[k].i + (|t.stored| - |s.stored|)
    ensures t.taken == s.taken && i <= |s.threads[k].addr|
    ensures t.stored == s.stored + s.threads[k].addr[s.threads[k].i..i]
    ensures i == |s.threads[k].addr| || Fill(t) == PIPESIZE
    ensures i == |s.threads[k].addr| || !s.readopen || k in s.killed ==> t.threads[k] == Idle
    ensures i < |s.threads[k].addr| && s.readopen && k !in s.killed ==>
              t.threads[k] == Writer(s.threads[k].addr, i, true)
  {
  }

  // ----- who may sleep -----

  ghost predicate ReadersOk(s: State) {
    forall k :: 0 <= k < |s.threads| && s.threads[k].Reader? && s.threads[k].asleep ==> Fill(s) == 0 && s.writeopen
  }

  ghost predicate WritersOk(s: State) {
    forall k :: 0 <= k < |s.threads| && s.threads[k].Writer? && s.threads[k].asleep ==>
      Fill(s) == PIPESIZE && s.readopen
  }

  ghost predicate ReaderAsleep(s: State) {
    exists k :: 0 <= k < |s.threads| && s.threads[k].Reader? && s.threads[k].asleep
  }

  lemma OtherReaders(s: State, t: State)
    requires Fifo(s) && Ends(s) && ReadersOk(s) && Next(s, t) && forall k: nat :: !WritePass(s, t, k)
    ensures ReadersOk(t)
  {
  }

  /** The writer of call k, killed, has more bytes left than the ring holds, and a reader sleeps. */
  ghost predicate Strands(s: State, k: nat) {
    && k < |s.threads| && s.threads[k].Writer?
    && k in s.killed && |s.threads[k].addr| - s.threads[k].i > PIPESIZE && ReaderAsleep(s)
  }

  /**
   A pass of a writer keeps sleeping readers justified exactly when the writer is not
   killed, with more than PIPESIZE bytes left to store, under a sleeping reader.
   */
  lemma WriteReaders(s: State, t: State, k: nat)
    requires Fifo(s) && Ends(s) && ReadersOk(s) && WritePass(s, t, k)
    ensures ReadersOk(t) <==> !Strands(s, k)
  {
    var o := WriteOutcome(s, k);
    if o == Failed {
      assert forall j :: 0 <= j < |s.threads| && s.threads[j].Reader? ==> t.threads[j] == s.threads[j];
      assert forall j :: 0 <= j < |s.threads| && t.threads[j].Reader? ==> t.threads[j] == s.threads[j];
      if ReaderAsleep(s) {
        var j :| 0 <= j < |s.threads| && s.threads[j].Reader? && s.threads[j].asleep;
        assert t.threads[j] == s.threads[j];
      }
    }
  }

  lemma NextWriters(s: State, t: State)
    requires Fifo(s) && Ends(s) && WritersOk(s) && Next(s, t)
    ensures WritersOk(t)
  {
  }

  // ----- whole runs -----

  ghost predicate IsRun(r: seq<State>) {
    r != [] && Start(r[0]) && forall i: nat :: i + 1 < |r| ==> Next(r[i], r[i + 1])
  }

  /**
   FIFO: in every state of every run, with any number of readers and writers and
   with kills, the bytes read so far are a prefix of the bytes stored so far and the
   fill level is between 0 and PIPESIZE; both streams only ever grow.
   */
  lemma {:induction false} RunFifo(r: seq<State>, i: nat, j: nat)
    requires IsRun(r) && i <= j < |r|
    ensures Fifo(r[j]) && Ends(r[j]) && 0 <= Fill(r[j]) <= PIPESIZE
    ensures r[i].stored <= r[j].stored && r[i].taken <= r[j].taken
    decreases j
  {
    if j > 0 {
      var m := j - 1;
      RunFifo(r, if i < j then i else m, m);
      assert Next(r[m], r[m + 1]);
      NextFifo(r[m], r[j]);
      NextEnds(r[m], r[j]);
    }
  }

  /**
   In every run a pass of a reader of n > 0 bytes on a pipe that is not empty takes at
   least one byte; a call that is not killed returns without a byte only if it asked for
   none, or the pipe is empty and its write end closed.
   */
  lemma ReadProgress(r: seq<State>, i: nat, k: nat)
    requires IsRun(r) && i + 1 < |r| && ReadPass(r[i], r[i + 1], k)
    ensures r[i].threads[k].n > 0 && Fill(r[i]) > 0 ==> |r[i + 1].taken| > |r[i].taken| && r[i + 1].threads[k] == Idle
    ensures r[i + 1].threads[k] == Idle && |r[i + 1].taken| == |r[i].taken| && k !in r[i].killed ==>
              r[i].threads[k].n == 0 || (Fill(r[i]) == 0 && !r[i].writeopen)
  {
    RunFifo(r, i, i);
    ReadTakes(r[i], r[i + 1], k, |r[i + 1].taken| - |r[i].taken|);
  }

  /** In every run a call of write that returns without being killed, with a reader there, has stored all its bytes. */
  lemma WriteComplete(r: seq<State>, i: nat, k: nat)
    requires IsRun(r) && i + 1 < |r| && WritePass(r[i], r[i + 1], k)
    requires r[i + 1].threads[k] == Idle && k !in r[i].killed && r[i].readopen
    ensures r[i + 1].stored == r[i].stored + r[i].threads[k].addr[r[i].threads[k].i..]
  {
    RunFifo(r, i, i);
    WriteStores(r[i], r[i + 1], k, r[i].threads[k].i + (|r[i + 1].stored| - |r[i].stored|));
  }

  /** Nobody can take a killed thread back. */
  lemma NextKilled(s: State, t: State)
    requires Next(s, t)
    ensures s.killed <= t.killed
  {
  }

  /** No pass of a writer before state i strands a reader. */
  ghost predicate NoneStranded(r: seq<State>, i: nat) {
    forall m: nat, k: nat :: m < i && m + 1 < |r| && WritePass(r[m], r[m + 1], k) ==> !Strands(r[m], k)
  }

  /**
   In every state of every run a writer asleep means a full pipe whose read end is
   open, and, until a pass strands a reader, a reader asleep means an empty pipe
   whose write end is open.
   */
  lemma {:induction false} RunSleepers(r: seq<State>, i: nat)
    requires IsRun(r) && i < |r|
    ensures WritersOk(r[i])
    ensures NoneStranded(r, i) ==> ReadersOk(r[i])
  {
    if i > 0 {
      var m := i - 1;
      assert Next(r[m], r[m + 1]);
      RunSleepers(r, m);
      RunFifo(r, m, m);
      NextWriters(r[m], r[i]);
      if NoneStranded(r, i) {
        if k: nat :| WritePass(r[m], r[i], k) {
          assert WritePass(r[m], r[m + 1], k);
          WriteReaders(r[m], r[i], k);
        } else {
          OtherReaders(r[m], r[i]);
        }
      }
    }
  }

  lemma {:induction false} KilledGrows(r: seq<State>, m: nat, i: nat)
    requires IsRun(r) && m <= i < |r|
    ensures r[m].killed <= r[i].killed
    decreases i
  {
    if m < i {
      var j := i - 1;
      assert Next(r[j], r[j + 1]);
      KilledGrows(r, m, j);
      NextKilled(r[j], r[i]);
    }
  }

  /** Without kills every sleeping reader is justified. */
  lemma UnkilledReaders(r: seq<State>, i: nat)
    requires IsRun(r) && i < |r| && r[i].killed == {}
    ensures ReadersOk(r[i])
  {
    forall m: nat, k: nat | m < i && m + 1 < |r| && WritePass(r[m], r[m + 1], k)
      ensures !Strands(r[m], k)
    {
      KilledGrows(r, m, i);
    }
    RunSleepers(r, i);
  }

  /** A step that lets no killed thread fall asleep: a sleeper was one before, or is not killed. */
  ghost predicate AwakeKept(s: State, t: State, k: nat) {
    && k < |s.threads| == |t.threads|
    && (Asleep(t.threads[k]) ==> k !in t.killed || (k in s.killed && Asleep(s.threads[k])))
  }

  lemma PassAwake(s: State, t: State, j: nat, k: nat)
    requires k < |s.threads| && (WritePass(s, t, j) || ReadPass(s, t, j))
    ensures AwakeKept(s, t, k)
  {
  }

  lemma NextAwake(s: State, t: State, k: nat)
    requires Next(s, t) && k < |s.threads|
    ensures AwakeKept(s, t, k)
  {
    if j: nat :| WritePass(s, t, j) || ReadPass(s, t, j) {
      PassAwake(s, t, j, k);
    }
  }

  predicate Asleep(x: Thread) {
    x != Idle && x.asleep
  }

  /** kill ends a call: in every run no call of a killed thread sleeps. */
  lemma {:induction false} KilledAwake(r: seq<State>, i: nat, k: nat)
    requires IsRun(r) && i < |r| && k < |r[i].threads| && k in r[i].killed
    ensures !Asleep(r[i].threads[k])
  {
    if i > 0 {
      var m := i - 1;
      assert Next(r[m], r[m + 1]);
      SameThreads(r[m], r[i]);
      if k in r[m].killed {
        KilledAwake(r, m, k);
      }
      NextAwake(r[m], r[i], k);
    }
  }

  lemma SameThreads(s: State, t: State)
    requires Next(s, t)
    ensures |t.threads| == |s.threads|
  {
  }

  /** Once both ends are closed, and the page is freed, no call is in progress. */
  lemma FreedUnused(r: seq<State>, i: nat, k: nat)
    requires IsRun(r) && i < |r| && !r[i].readopen && !r[i].writeopen && k < |r[i].threads|
    ensures r[i].threads[k] == Idle
  {
    RunFifo(r, i, i);
  }

  /** With kills the claim about readers fails: a reader sleeps on, under a full pipe. */
  lemma KilledWriterStrands(b: int) returns (r: seq<State>)
    ensures IsRun(r) && !ReadersOk(r[|r| - 1]) && Fill(r[|r| - 1]) == PIPESIZE
  {
    var addr := seq(PIPESIZE + 1, _ => b);
    var s0 := State([], [], true, true, [Idle, Idle], {});
    var s1 := s0.(threads := [Reader(1, false), Idle]);
    var s2 := s0.(threads := [Reader(1, true), Idle]);
    var s3 := s0.(threads := [Reader(1, true), Writer(addr, 0, false)]);
    var s4 := s3.(killed := {1});
    var s5 := s4.(stored := addr[0..PIPESIZE], threads := [Reader(1, true), Idle]);
    assert CallRead(s0, s1, 0, 1);
    assert ReadPass(s1, s2, 0);
    assert CallWrite(s2, s3, 1, addr);
    assert Kill(s3, s4, 1);
    assert WritePass(s4, s5, 1) by {
      assert Stores(s4, 1) == PIPESIZE;
      assert [] + addr[0..PIPESIZE] == addr[0..PIPESIZE];
    }
    r := [s0, s1, s2, s3, s4, s5];
    assert s5.threads[0].asleep;
  }
}
