/**
 log.c as a state machine: any number of processes in begin_op, log_write and
 end_op, one disk write of commit() or of recovery at a time, and a crash at any
 moment.
 */
module LogMachine {
  import opened Collections
  import opened Params
  import opened LogDisk

  type Pid = nat

  /**
   Committing and Recovering remember the disk they started from and how many of
   their writes have reached the disk; Committing also remembers the cached
   contents it is committing.
   */
  datatype Phase =
    | Idle
    | Committing(base: Disk, view: Disk, done: nat)
    | Recovering(base: Disk, done: nat)

  /**
   lh: block numbers in the in-memory header; dirty: buffers pinned with B_DIRTY;
   ops: for each operation between begin_op and end_op, the blocks it has logged
   (so log.outstanding is |ops|); sleeping: processes asleep on the log.
   */
  datatype State = State(
    disk: Disk,
    lh: seq<int>,
    dirty: map<int, Block>,
    ops: map<Pid, set<int>>,
    sleeping: set<Pid>,
    phase: Phase)

  /** What a read through the buffer cache sees. */
  ghost function View(s: State): (v: Disk)
    ensures |v| == |s.disk|
  {
    Cached(s.disk, s.dirty)
  }

  /** The test of begin_op: room for one more operation of MAXOPBLOCKS blocks. */
  predicate HasRoom(n: nat, outstanding: int) {
    n + (outstanding + 1) * MAXOPBLOCKS <= LOGSIZE
  }

  /** The guard of log_write: a full log panics, whatever block is being logged. */
  predicate TooBig(n: nat, size: nat) {
    n >= LOGSIZE || n >= size - 1
  }

  /** log_write's update of the header: append unless already listed. */
  function Absorb(lh: seq<int>, b: int): (r: seq<int>)
    ensures Distinct(lh) ==> Distinct(r)
    ensures forall x :: x in r <==> x in lh || x == b
    ensures |r| == if b in lh then |lh| else |lh| + 1
  {
    var i := Find(lh, b);
    if i < |lh| then lh else lh + [b]
  }

  datatype Event =
    | BeginOp(p: Pid)
    | LogWrite(p: Pid, b: int, data: Block)
    | EndOp(p: Pid)
    | CommitWrite
    | CommitDone
    | Crash
    | RecoverWrite
    | RecoverDone

  ghost predicate Init(l: Layout, s: State) {
    && Clean(l, s.disk, s.disk)
    && s == State(s.disk, [], map[], map[], {}, Idle)
  }

  /** begin_op: sleep while a commit runs or the reservation does not fit, else join. */
  ghost predicate BeginOpStep(s: State, p: Pid, s': State) {
    && !s.phase.Recovering? && p !in s.ops && p !in s.sleeping
    && s' == if s.phase.Committing? || !HasRoom(|s.lh|, |s.ops|)
             then s.(sleeping := s.sleeping + {p})
             else s.(ops := s.ops[p := {}])
  }

  /** log_write by an outstanding operation that the guard lets through. */
  ghost predicate LogWriteStep(l: Layout, s: State, p: Pid, b: int, data: Block, s': State) {
    && p in s.ops && !TooBig(|s.lh|, l.size)
    && Home(l, s.disk, b)
    && s' == s.(lh := Absorb(s.lh, b), dirty := s.dirty[b := data], ops := s.ops[p := s.ops[p] + {b}])
  }

  /** end_op: the last operation starts the commit, any other wakes the sleepers. */
  ghost predicate EndOpStep(s: State, p: Pid, s': State) {
    && p in s.ops && s.phase.Idle?
    && var rest := s.ops - {p};
       s' == if rest == map[]
             then s.(ops := rest, phase := Committing(s.disk, View(s), 0))
             else s.(ops := rest, sleeping := {})
  }

  /** The next disk write of commit(); writing a block home clears its B_DIRTY. */
  ghost predicate CommitWriteStep(l: Layout, s: State, s': State) {
    && s.phase.Committing?
    && CommitReady(l, s.lh, s.phase.view, s.phase.base)
    && var ws := CommitWrites(l, s.lh, s.phase.view, s.phase.base);
       && s.phase.done < |ws|
       && var w := ws[s.phase.done];
          && w.block < |s.disk|
          && s' == s.(disk := s.disk[w.block := w.data], dirty := s.dirty - {w.block},
                      phase := Committing(s.phase.base, s.phase.view, s.phase.done + 1))
  }

  /** end_op after commit() returned: clear committing and wake the sleepers. */
  ghost predicate CommitDoneStep(l: Layout, s: State, s': State) {
    && s.phase.Committing?
    && CommitReady(l, s.lh, s.phase.view, s.phase.base)
    && s.phase.done == |CommitWrites(l, s.lh, s.phase.view, s.phase.base)|
    && s' == s.(lh := [], sleeping := {}, phase := Idle)
  }

  /** A crash keeps only the disk; the next boot starts recovery. */
  ghost predicate CrashStep(s: State, s': State) {
    s' == State(s.disk, [], map[], map[], {}, Recovering(s.disk, 0))
  }

  ghost predicate RecoverWriteStep(l: Layout, s: State, s': State) {
    && s.phase.Recovering? && DiskOk(l, s.phase.base)
    && var ws := RecoverWrites(l, s.phase.base);
       && s.phase.done < |ws|
       && var w := ws[s.phase.done];
          && w.block < |s.disk|
          && s' == s.(disk := s.disk[w.block := w.data], phase := Recovering(s.phase.base, s.phase.done + 1))
  }

  ghost predicate RecoverDoneStep(l: Layout, s: State, s': State) {
    && s.phase.Recovering? && DiskOk(l, s.phase.base)
    && s.phase.done == |RecoverWrites(l, s.phase.base)|
    && s' == s.(phase := Idle)
  }

  ghost predicate Next(l: Layout, s: State, e: Event, s': State) {
    match e
    case BeginOp(p) => BeginOpStep(s, p, s')
    case LogWrite(p, b, data) => LogWriteStep(l, s, p, b, data, s')
    case EndOp(p) => EndOpStep(s, p, s')
    case CommitWrite => CommitWriteStep(l, s, s')
    case CommitDone => CommitDoneStep(l, s, s')
    case Crash => CrashStep(s, s')
    case RecoverWrite => RecoverWriteStep(l, s, s')
    case RecoverDone => RecoverDoneStep(l, s, s')
  }

  ghost predicate Step(l: Layout, s: State, s': State) {
    exists e :: Next(l, s, e, s')
  }

  /** A finite run from an initial state. */
  ghost predicate Run(l: Layout, tr: seq<State>) {
    && tr != []
    && (if |tr| == 1 then Init(l, tr[0])
        else Run(l, tr[..|tr| - 1]) && Step(l, tr[|tr| - 2], tr[|tr| - 1]))
  }

  // ----- the invariant -----

  /** No commit and no recovery running: the disk is clean and only listed blocks are dirty. */
  ghost predicate IdleInv(l: Layout, s: State) {
    && Clean(l, s.disk, s.disk)
    && ListOk(l, s.disk, s.lh)
    && (forall b :: b in s.dirty <==> b in s.lh)
    && (s.ops == map[] ==> s.lh == [])
  }

  /** After done writes of a commit, the pinned buffers are the listed blocks not yet written home. */
  ghost predicate Pinned(lh: seq<int>, dirty: map<int, Block>, done: nat) {
    && (forall b :: b in dirty ==> b in lh)
    && (forall i :: 0 <= i < |lh| ==> (lh[i] in dirty <==> done < |lh| + 2 + i))
  }

  ghost predicate CommitInv(l: Layout, s: State) {
    var ph := s.phase;
    && ph.Committing?
    && CommitReady(l, s.lh, ph.view, ph.base)
    && ph.done <= |CommitWrites(l, s.lh, ph.view, ph.base)|
    && s.disk == Apply(ph.base, CommitWrites(l, s.lh, ph.view, ph.base)[..ph.done])
    && s.ops == map[]
    && Pinned(s.lh, s.dirty, ph.done)
  }

  ghost predicate RecoverInv(l: Layout, s: State) {
    var ph := s.phase;
    && ph.Recovering?
    && DiskOk(l, ph.base)
    && ph.done <= |RecoverWrites(l, ph.base)|
    && s.disk == Apply(ph.base, RecoverWrites(l, ph.base)[..ph.done])
    && s.ops == map[] && s.lh == [] && s.dirty == map[]
  }

  ghost predicate Inv(l: Layout, s: State) {
    match s.phase
    case Idle => IdleInv(l, s)
    case Committing(_, _, _) => CommitInv(l, s)
    case Recovering(_, _) => RecoverInv(l, s)
  }

  ghost predicate SameHome(l: Layout, d: Disk, v: Disk) {
    |d| == |v| && forall b :: Home(l, d, b) ==> d[b] == v[b]
  }

  /** The contents v are what recovery would restore in state s. */
  ghost predicate Durable(l: Layout, s: State, v: Disk) {
    match s.phase
    case Idle => SameHome(l, s.disk, v)
    case Committing(base, view, done) => SameHome(l, if done <= |s.lh| then base else view, v)
    case Recovering(base, _) => StandsFor(l, base, v)
  }

  lemma StandsForSame(l: Layout, d: Disk, u: Disk, v: Disk)
    requires StandsFor(l, d, u) && SameHome(l, u, v)
    ensures StandsFor(l, d, v)
  {
    var lh := Header(d[l.start]);
    assert forall i :: 0 <= i < |lh| ==> Home(l, u, lh[i]);
  }

  lemma InstalledIsContents(l: Layout, d: Disk, v: Disk, lh: seq<int>)
    requires DiskOk(l, d) && lh == Header(d[l.start]) && Installed(l, d, v, lh, |lh|)
    ensures StandsFor(l, d, v)
  {
  }

  /** Every well-formed disk stands for some contents: those of its installed copy. */
  lemma SomeContents(l: Layout, d: Disk) returns (v: Disk)
    requires DiskOk(l, d)
    ensures StandsFor(l, d, v)
  {
    var lh := Header(d[l.start]);
    RecoverInstalls(l, d, lh, RecoverWrites(l, d), |lh|);
    v := Apply(d, RecoverWrites(l, d)[..|lh|]);
    InstalledIsContents(l, d, v, lh);
  }

  lemma DurableStandsFor(l: Layout, s: State, v: Disk)
    requires Inv(l, s) && Durable(l, s, v)
    ensures StandsFor(l, s.disk, v)
  {
    match s.phase
    case Idle =>
    case Committing(base, view, done) =>
      CommitPrefix(l, s.lh, view, base, done);
      StandsForSame(l, s.disk, if done <= |s.lh| then base else view, v);
    case Recovering(base, done) =>
      RecoverPrefix(l, base, v, done);
  }

  // ----- every step keeps the invariant -----

  lemma LogWriteKeeps(l: Layout, s: State, p: Pid, b: int, data: Block, s': State)
    requires Inv(l, s) && LogWriteStep(l, s, p, b, data, s')
    ensures Inv(l, s')
  {
    assert s.phase.Idle?;
    assert p in s'.ops;
    assert ListOk(l, s'.disk, s'.lh);
    assert forall x :: x in s'.dirty <==> x in s.dirty || x == b;
  }

  lemma EndOpKeeps(l: Layout, s: State, p: Pid, s': State)
    requires Inv(l, s) && EndOpStep(s, p, s')
    ensures Inv(l, s')
  {
    if s'.phase.Committing? {
      assert CommitWrites(l, s.lh, View(s), s.disk)[..0] == [];
    }
  }

  lemma PieceAt(a: seq<Write>, b: seq<Write>, c: seq<Write>, d: seq<Write>, k: nat)
    requires |b| == 1 && |d| == 1 && k < |a| + |c| + 2
    ensures (a + b + c + d)[k] ==
            if k < |a| then a[k] else if k == |a| then b[0] else if k <= |a| + |c| then c[k - |a| - 1] else d[0]
  {
  }

  /** Past the header, write number done of a commit is the install of lh[done - |lh| - 1]. */
  lemma CommitWriteBlock(l: Layout, lh: seq<int>, view: Disk, base: Disk, k: nat)
    requires CommitReady(l, lh, view, base)
    requires k < |CommitWrites(l, lh, view, base)|
    ensures var w := CommitWrites(l, lh, view, base)[k];
            if |lh| < k <= 2 * |lh| then w.block == lh[k - |lh| - 1] else InLog(l, w.block)
  {
    var h := WithHeader(base[l.start], lh);
    var copies, installs := LogWrites(l, lh, view), HomeWrites(lh, view);
    var head, erase := Write(l.start, h), Write(l.start, WithHeader(h, []));
    PieceAt(copies, [head], installs, [erase], k);
    if k < |lh| {
      assert copies[k].block == l.start + 1 + k;
    } else if |lh| < k <= 2 * |lh| {
      assert installs[k - |lh| - 1].block == lh[k - |lh| - 1];
    }
  }

  lemma PinnedStep(l: Layout, lh: seq<int>, base: Disk, dirty: map<int, Block>, k: nat, b: int)
    requires ListOk(l, base, lh) && Pinned(lh, dirty, k)
    requires if |lh| < k <= 2 * |lh| then b == lh[k - |lh| - 1] else InLog(l, b)
    ensures Pinned(lh, dirty - {b}, k + 1)
  {
    forall i | 0 <= i < |lh|
      ensures lh[i] in dirty - {b} <==> k + 1 < |lh| + 2 + i
    {
      assert lh[i] in dirty <==> k < |lh| + 2 + i;
      assert Home(l, base, lh[i]);
    }
  }

  /** When the commit is over, nothing is pinned. */
  lemma PinnedNone(lh: seq<int>, dirty: map<int, Block>, k: nat)
    requires Pinned(lh, dirty, k) && (lh == [] || k == 2 * |lh| + 2)
    ensures dirty == map[]
  {
    forall b | b in lh
      ensures b !in dirty
    {
      var i :| 0 <= i < |lh| && lh[i] == b;
    }
    assert forall b :: b !in dirty;
  }

  /** One more of the writes ws has reached the disk. */
  lemma CommitApplied(base: Disk, ws: seq<Write>, k: nat, d: Disk, d': Disk)
    requires InRange(base, ws) && k < |ws| && d == Apply(base, ws[..k]) && d' == d[ws[k].block := ws[k].data]
    ensures d' == Apply(base, ws[..k + 1])
  {
    ApplyStep(base, ws, k);
  }

  lemma CommitWriteKeeps(l: Layout, s: State, s': State)
    requires Inv(l, s) && CommitWriteStep(l, s, s')
    ensures Inv(l, s')
  {
    var ph := s.phase;
    var ws := CommitWrites(l, s.lh, ph.view, ph.base);
    CommitWriteBlock(l, s.lh, ph.view, ph.base, ph.done);
    PinnedStep(l, s.lh, ph.base, s.dirty, ph.done, ws[ph.done].block);
    CommitApplied(ph.base, ws, ph.done, s.disk, s'.disk);
  }

  lemma CommitDoneKeeps(l: Layout, s: State, s': State)
    requires Inv(l, s) && CommitDoneStep(l, s, s')
    ensures Inv(l, s') && s'.dirty == map[] && s'.ops == map[]
    ensures SameHome(l, s'.disk, s.phase.view)
  {
    var ph := s.phase;
    CommitPrefix(l, s.lh, ph.view, ph.base, ph.done);
    PinnedNone(s.lh, s.dirty, ph.done);
  }

  lemma CrashKeeps(l: Layout, s: State, s': State)
    requires Inv(l, s) && CrashStep(s, s')
    ensures Inv(l, s')
  {
    match s.phase
    case Idle =>
    case Committing(base, view, done) =>
      CommitPrefix(l, s.lh, view, base, done);
    case Recovering(base, done) =>
      var v := SomeContents(l, base);
      RecoverPrefix(l, base, v, done);
  }

  lemma RecoverKeeps(l: Layout, s: State, s': State)
    requires Inv(l, s) && (RecoverWriteStep(l, s, s') || RecoverDoneStep(l, s, s'))
    ensures Inv(l, s')
  {
    var ph := s.phase;
    var ws := RecoverWrites(l, ph.base);
    if RecoverWriteStep(l, s, s') {
      ApplyStep(ph.base, ws, ph.done);
    } else {
      var v := SomeContents(l, ph.base);
      RecoverPrefix(l, ph.base, v, ph.done);
    }
  }

  lemma NextKeeps(l: Layout, s: State, e: Event, s': State)
    requires Inv(l, s) && Next(l, s, e, s')
    ensures Inv(l, s')
  {
    match e
    case BeginOp(p) =>
    case LogWrite(p, b, data) => LogWriteKeeps(l, s, p, b, data, s');
    case EndOp(p) => EndOpKeeps(l, s, p, s');
    case CommitWrite => CommitWriteKeeps(l, s, s');
    case CommitDone => CommitDoneKeeps(l, s, s');
    case Crash =>
      CrashKeeps(l, s, s');
    case RecoverWrite => RecoverKeeps(l, s, s');
    case RecoverDone => RecoverKeeps(l, s, s');
  }

  lemma {:induction false} RunInv(l: Layout, tr: seq<State>)
    requires Run(l, tr)
    ensures Inv(l, tr[|tr| - 1])
  {
    if |tr| > 1 {
      var n := |tr| - 1;
      RunInv(l, tr[..n]);
      var e :| Next(l, tr[n - 1], e, tr[n]);
      NextKeeps(l, tr[n - 1], e, tr[n]);
    }
  }

  // ----- group isolation -----

  /** A moment at which no operation is outstanding and no recovery is under way. */
  ghost predicate Quiet(s: State) {
    s.ops == map[] && !s.phase.Recovering?
  }

  ghost predicate CommitCompletes(s: State, s': State) {
    s.phase.Committing? && s'.phase.Idle?
  }

  /** Moment i is quiet and no commit has completed since. */
  ghost predicate Latest(tr: seq<State>, i: nat) {
    && i < |tr|
    && Quiet(tr[i])
    && forall k :: i < k < |tr| ==> !CommitCompletes(tr[k - 1], tr[k])
  }

  /**
   Moment i is what the disk currently stands for; while a commit runs, moment j
   is the one being committed.
   */
  ghost predicate Witness(l: Layout, tr: seq<State>, i: nat, j: nat) {
    && Latest(tr, i) && Latest(tr, j)
    && var s := tr[|tr| - 1];
       && Durable(l, s, View(tr[i]))
       && (s.phase.Committing? ==> s.phase.view == View(tr[j]))
  }

  lemma LatestExtends(tr: seq<State>, i: nat)
    requires |tr| > 1 && Latest(tr[..|tr| - 1], i)
    requires !CommitCompletes(tr[|tr| - 2], tr[|tr| - 1])
    ensures Latest(tr, i)
  {
    forall k | i < k < |tr|
      ensures !CommitCompletes(tr[k - 1], tr[k])
    {
      if k < |tr| - 1 {
        assert tr[..|tr| - 1][k] == tr[k] && tr[..|tr| - 1][k - 1] == tr[k - 1];
      }
    }
  }

  /** What a step makes durable: only the header write of a commit changes it. */
  lemma DurableStep(l: Layout, s: State, e: Event, s': State, v: Disk)
    requires Inv(l, s) && Next(l, s, e, s') && Durable(l, s, v)
    requires !e.CommitDone?
    ensures if e.CommitWrite? && s'.phase.done == |s.lh| + 1 then Durable(l, s', s.phase.view) else Durable(l, s', v)
  {
    match e
    case BeginOp(p) =>
    case LogWrite(p, b, data) =>
    case EndOp(p) =>
    case CommitWrite =>
    case Crash => DurableStandsFor(l, s, v);
    case RecoverWrite =>
    case RecoverDone => RecoverPrefix(l, s.phase.base, v, s.phase.done);
  }

  /** One step moves the witnesses along. */
  lemma WitnessStep(l: Layout, tr: seq<State>, s: State, e: Event, s': State, i: nat, j: nat)
      returns (i': nat, j': nat)
    requires |tr| > 1 && s == tr[|tr| - 2] && s' == tr[|tr| - 1]
    requires Inv(l, s) && Next(l, s, e, s')
    requires Witness(l, tr[..|tr| - 1], i, j)
    ensures Witness(l, tr, i', j')
  {
    var n := |tr| - 1;
    if e.CommitDone? {
      CommitDoneKeeps(l, s, s');
      i', j' := n, n;
    } else {
      LatestExtends(tr, i);
      LatestExtends(tr, j);
      DurableStep(l, s, e, s', View(tr[i]));
      i' := if e.CommitWrite? && s'.phase.done == |s.lh| + 1 then j else i;
      j' := if e.EndOp? && s'.phase.Committing? then n else j;
      assert e.EndOp? ==> View(s') == View(s);
    }
  }

  lemma {:induction false} FindWitness(l: Layout, tr: seq<State>) returns (i: nat, j: nat)
    requires Run(l, tr)
    ensures Witness(l, tr, i, j)
  {
    if |tr| == 1 {
      i, j := 0, 0;
    } else {
      var n := |tr| - 1;
      i, j := FindWitness(l, tr[..n]);
      RunInv(l, tr[..n]);
      var e :| Next(l, tr[n - 1], e, tr[n]);
      i, j := WitnessStep(l, tr, tr[n - 1], e, tr[n], i, j);
    }
  }

  /**
   Group isolation.  At every point of every run, with any interleaving of
   operations and any number of crashes, also inside commit and inside recovery,
   there is an earlier moment at which no operation was outstanding, no older
   than the last completed commit, such that the disk stands for exactly the
   contents the cache showed at that moment; and whenever neither a commit nor a
   recovery is running, the home blocks are those contents.
   */
  lemma GroupIsolation(l: Layout, tr: seq<State>)
    requires Run(l, tr)
    ensures exists i: nat :: Latest(tr, i)
                     && StandsFor(l, tr[|tr| - 1].disk, View(tr[i]))
                     && (tr[|tr| - 1].phase.Idle? ==> Clean(l, tr[|tr| - 1].disk, View(tr[i])))
  {
    var i, j := FindWitness(l, tr);
    RunInv(l, tr);
    DurableStandsFor(l, tr[|tr| - 1], View(tr[i]));
  }

  // ----- log space and sleepers -----

  /** Each outstanding operation has logged at most MAXOPBLOCKS distinct blocks. */
  ghost predicate Budgeted(s: State) {
    forall p :: p in s.ops ==> |s.ops[p]| <= MAXOPBLOCKS
  }

  /** The blocks that the outstanding operations may still log. */
  ghost function Unused(ops: map<Pid, set<int>>): (n: int) {
    if ops == map[] then 0
    else
      var p :| p in ops;
      MAXOPBLOCKS - |ops[p]| + Unused(ops - {p})
  }

  /** Unused does not depend on the order in which it adds. */
  lemma {:induction false} UnusedRemove(ops: map<Pid, set<int>>, p: Pid)
    requires p in ops
    ensures Unused(ops) == MAXOPBLOCKS - |ops[p]| + Unused(ops - {p})
    decreases |ops|
  {
    var q :| q in ops && Unused(ops) == MAXOPBLOCKS - |ops[q]| + Unused(ops - {q});
    if q != p {
      var rest := ops - {q};
      UnusedRemove(rest, p);
      UnusedRemove(ops - {p}, q);
      assert rest - {p} == ops - {p} - {q};
    }
  }

  lemma {:induction false} UnusedBounds(ops: map<Pid, set<int>>)
    requires forall p :: p in ops ==> |ops[p]| <= MAXOPBLOCKS
    ensures 0 <= Unused(ops) <= |ops| * MAXOPBLOCKS
    decreases |ops|
  {
    if ops != map[] {
      var p :| p in ops && Unused(ops) == MAXOPBLOCKS - |ops[p]| + Unused(ops - {p});
      UnusedBounds(ops - {p});
      assert |ops| == |ops - {p}| + 1;
    }
  }

  /** Logged blocks plus what outstanding operations may still log fit the log. */
  ghost predicate Reserved(s: State) {
    && (forall p, b :: p in s.ops && b in s.ops[p] ==> b in s.lh)
    && |s.lh| + Unused(s.ops) <= LOGSIZE
  }

  lemma BeginOpReserves(s: State, p: Pid, s': State)
    requires Reserved(s) && BeginOpStep(s, p, s') && Budgeted(s)
    ensures Reserved(s')
  {
    if s'.ops != s.ops {
      UnusedBounds(s.ops);
      UnusedRemove(s'.ops, p);
      assert s'.ops - {p} == s.ops;
    }
  }

  lemma LogWriteReserves(l: Layout, s: State, p: Pid, b: int, data: Block, s': State)
    requires Reserved(s) && LogWriteStep(l, s, p, b, data, s')
    ensures Reserved(s')
  {
    UnusedRemove(s.ops, p);
    UnusedRemove(s'.ops, p);
    assert s'.ops - {p} == s.ops - {p};
    assert b in s.ops[p] ==> s.ops[p] + {b} == s.ops[p];
  }

  lemma EndOpReserves(s: State, p: Pid, s': State)
    requires Reserved(s) && EndOpStep(s, p, s') && Budgeted(s)
    ensures Reserved(s')
  {
    UnusedRemove(s.ops, p);
  }

  lemma NextReserves(l: Layout, s: State, e: Event, s': State)
    requires Inv(l, s) && Reserved(s) && Budgeted(s) && Next(l, s, e, s')
    ensures Reserved(s')
  {
    match e
    case BeginOp(p) => BeginOpReserves(s, p, s');
    case LogWrite(p, b, data) => LogWriteReserves(l, s, p, b, data, s');
    case EndOp(p) => EndOpReserves(s, p, s');
    case _ =>
  }

  /**
   Log reservation over whole runs: while operations keep to MAXOPBLOCKS blocks,
   what is logged and what may still be logged never exceeds LOGSIZE.
   */
  lemma {:induction false} Reservation(l: Layout, tr: seq<State>)
    requires Run(l, tr)
    requires forall i :: 0 <= i < |tr| ==> Budgeted(tr[i])
    ensures Reserved(tr[|tr| - 1])
  {
    if |tr| > 1 {
      var n := |tr| - 1;
      Reservation(l, tr[..n]);
      RunInv(l, tr[..n]);
      var e :| Next(l, tr[n - 1], e, tr[n]);
      NextReserves(l, tr[n - 1], e, tr[n]);
    }
  }

  /**
   log_write of a block not yet listed, by an operation within its budget: there
   is always room in the header, so the guard trips exactly when the log area on
   disk has no block left, which cannot happen when it has more than LOGSIZE blocks.
   */
  lemma NewBlockFits(l: Layout, s: State, p: Pid, b: int)
    requires Reserved(s) && Budgeted(s)
    requires p in s.ops && b !in s.lh && |s.ops[p] + {b}| <= MAXOPBLOCKS
    ensures |s.lh| < LOGSIZE
    ensures TooBig(|s.lh|, l.size) <==> |s.lh| >= l.size - 1
    ensures l.size > LOGSIZE ==> !TooBig(|s.lh|, l.size)
  {
    UnusedRemove(s.ops, p);
    UnusedBounds(s.ops - {p});
  }

  /**
   The guard in every state of every run of operations within their budget.  It
   looks at the log before it looks for the block, so it also stops a block that is
   listed already: a new block exactly when the log area is full, a listed one also
   when the header is, that is when every reservation has been used up.
   */
  lemma GuardTrips(l: Layout, tr: seq<State>, s: State, p: Pid, b: int)
    requires Run(l, tr) && (forall i :: 0 <= i < |tr| ==> Budgeted(tr[i])) && s == tr[|tr| - 1]
    requires p in s.ops && |s.ops[p] + {b}| <= MAXOPBLOCKS
    ensures b !in s.lh ==> (TooBig(|s.lh|, l.size) <==> |s.lh| >= l.size - 1)
    ensures b in s.lh ==> (TooBig(|s.lh|, l.size) <==> |s.lh| == LOGSIZE || |s.lh| >= l.size - 1)
    ensures |s.lh| == LOGSIZE ==> Unused(s.ops) == 0
  {
    Reservation(l, tr);
    UnusedBounds(s.ops);
    if b !in s.lh {
      NewBlockFits(l, s, p, b);
    }
  }

  /** Processes sleep on the log only during a commit or when MAXOPBLOCKS blocks for one operation more do not fit. */
  ghost predicate NoneStranded(s: State) {
    s.sleeping != {} ==> s.phase.Committing? || |s.lh| + (|s.ops| + 1) * MAXOPBLOCKS > LOGSIZE
  }

  lemma NextStrandsNone(l: Layout, s: State, e: Event, s': State)
    requires Inv(l, s) && NoneStranded(s) && Next(l, s, e, s')
    ensures NoneStranded(s')
  {
    match e
    case BeginOp(p) => assert s'.ops != s.ops ==> |s'.ops| == |s.ops| + 1;
    case LogWrite(p, b, data) => assert s'.ops.Keys == s.ops.Keys; assert |s'.ops| == |s.ops|;
    case _ =>
  }

  lemma {:induction false} RunStrandsNone(l: Layout, tr: seq<State>)
    requires Run(l, tr)
    ensures NoneStranded(tr[|tr| - 1])
  {
    if |tr| > 1 {
      var n := |tr| - 1;
      RunStrandsNone(l, tr[..n]);
      RunInv(l, tr[..n]);
      var e :| Next(l, tr[n - 1], e, tr[n]);
      NextStrandsNone(l, tr[n - 1], e, tr[n]);
    }
  }

  /**
   Sleepers are never stranded: in every reachable state a sleeper implies a
   running commit or a failing reservation test, and in either case a commit or
   an outstanding operation that will wake it.
   */
  lemma SleepersHaveWaker(l: Layout, tr: seq<State>, s: State)
    requires Run(l, tr) && s == tr[|tr| - 1]
    ensures NoneStranded(s)
    ensures s.sleeping != {} ==> s.phase.Committing? || s.ops != map[]
    ensures s.phase.Idle? && s.ops == map[] ==> s.lh == []
  {
    RunStrandsNone(l, tr);
    RunInv(l, tr);
  }

  // ----- runs in which the guard trips within budget -----

  /** The log area of an mkfs image: nlog is LOGSIZE, so only LOGSIZE - 1 data blocks. */
  const MKFS_LOG := Layout(2, LOGSIZE)

  /** A log area with more data blocks than the header can list. */
  const LARGE_LOG := Layout(2, LOGSIZE + 10)

  /** A log area of at least LOGSIZE blocks below block 100. */
  predicate LogBelow100(l: Layout) {
    l.start == 2 && LOGSIZE <= l.size <= 90
  }

  ghost predicate Within(lo: int, x: int, hi: int) {
    lo <= x < hi
  }

  ghost function Interval(lo: int, hi: int): (r: set<int>) {
    set x: int | lo <= x < hi && Within(lo, x, hi)
  }

  lemma {:induction false} IntervalSize(lo: int, hi: int)
    requires lo <= hi
    ensures |Interval(lo, hi)| == hi - lo
    decreases hi - lo
  {
    if lo < hi {
      IntervalSize(lo, hi - 1);
      assert Interval(lo, hi) == Interval(lo, hi - 1) + {hi - 1};
    }
  }

  /** The blocks operation p has logged when k blocks are logged in all. */
  ghost function Share(p: nat, k: nat): (r: set<int>) {
    Interval(100 + 10 * p, if k < 10 * p then 100 + 10 * p else if k < 10 * p + 10 then 100 + k else 110 + 10 * p)
  }

  /** The first m operations are outstanding and blocks 100 .. 99 + k are logged, ten by each in turn. */
  ghost predicate Filled(s: State, m: nat, k: nat) {
    && s.disk == seq(1000, _ => seq(BWORDS, _ => 0))
    && s.lh == seq(k, i => 100 + i)
    && (forall p :: p in s.ops <==> 0 <= p < m)
    && (forall p :: p in s.ops ==> s.ops[p] == Share(p, k))
    && s.sleeping == {}
    && s.phase.Idle?
  }

  lemma ShareEmpty(p: nat)
    ensures Share(p, 0) == {}
  {
  }

  lemma FillInit(l: Layout) returns (s: State)
    requires LogBelow100(l)
    ensures Init(l, s) && Filled(s, 0, 0)
  {
    s := State(seq(1000, _ => seq(BWORDS, _ => 0)), [], map[], map[], {}, Idle);
  }

  lemma FillBegin(r: State, m: nat) returns (s: State)
    requires Filled(r, m, 0) && m < 3
    ensures BeginOpStep(r, m, s) && Filled(s, m + 1, 0)
  {
    s := r.(ops := r.ops[m := {}]);
    ShareEmpty(m);
    OpsCount(r.ops, m);
  }

  lemma {:induction false} FillStart(l: Layout, m: nat) returns (tr: seq<State>)
    requires LogBelow100(l) && m <= 3
    ensures Run(l, tr) && Filled(tr[|tr| - 1], m, 0)
    ensures forall i :: 0 <= i < |tr| ==> Budgeted(tr[i])
  {
    if m == 0 {
      var s := FillInit(l);
      tr := [s];
    } else {
      tr := FillStart(l, m - 1);
      var r := tr[|tr| - 1];
      var s := FillBegin(r, m - 1);
      assert Next(l, r, BeginOp(m - 1), s);
      RunExtend(l, tr, s);
      FilledBudgeted(s, m, 0);
      tr := tr + [s];
    }
  }

  lemma {:induction false} OpsCount(ops: map<Pid, set<int>>, k: nat)
    requires forall p :: p in ops <==> 0 <= p < k
    ensures |ops| == k
  {
    if k == 0 {
      assert ops == map[];
    } else {
      OpsCount(ops - {k - 1}, k - 1);
    }
  }

  lemma {:induction false} RunExtend(l: Layout, tr: seq<State>, s: State)
    requires Run(l, tr) && Step(l, tr[|tr| - 1], s)
    ensures Run(l, tr + [s])
  {
    assert (tr + [s])[..|tr|] == tr;
  }

  lemma ShareStep(k: nat)
    requires k < LOGSIZE
    ensures Share(k / 10, k) + {100 + k} == Share(k / 10, k + 1)
    ensures forall q: nat :: q != k / 10 ==> Share(q, k) == Share(q, k + 1)
  {
  }

  lemma FilledBudgeted(s: State, m: nat, k: nat)
    requires Filled(s, m, k)
    ensures Budgeted(s)
  {
    forall p: nat
      ensures |Share(p, k)| <= MAXOPBLOCKS
    {
      var lo := 100 + 10 * p;
      IntervalSize(lo, if k < 10 * p then lo else if k < 10 * p + 10 then 100 + k else lo + 10);
    }
  }

  lemma FillStep(l: Layout, s: State, m: nat, k: nat) returns (s': State)
    requires LogBelow100(l) && Filled(s, m, k) && k < 10 * m && k < LOGSIZE && k < l.size - 1
    ensures LogWriteStep(l, s, k / 10, 100 + k, [], s') && Filled(s', m, k + 1)
  {
    var p, b := k / 10, 100 + k;
    s' := s.(lh := Absorb(s.lh, b), dirty := s.dirty[b := []], ops := s.ops[p := s.ops[p] + {b}]);
    ShareStep(k);
    assert forall i :: 0 <= i < |s.lh| ==> s.lh[i] == 100 + i;
    assert b !in s.lh;
  }

  lemma {:induction false} FillRun(l: Layout, k: nat) returns (tr: seq<State>)
    requires LogBelow100(l) && k <= LOGSIZE && k < l.size
    ensures Run(l, tr) && Filled(tr[|tr| - 1], 3, k)
    ensures forall i :: 0 <= i < |tr| ==> Budgeted(tr[i])
  {
    if k == 0 {
      tr := FillStart(l, 3);
    } else {
      tr := FillRun(l, k - 1);
      var s := tr[|tr| - 1];
      var s' := FillStep(l, s, 3, k - 1);
      assert Next(l, s, LogWrite((k - 1) / 10, 99 + k, []), s');
      RunExtend(l, tr, s');
      FilledBudgeted(s', 3, k);
      tr := tr + [s'];
    }
  }

  // ----- how much the reservation test gives away -----

  /** A series of log_writes, each within its operation's budget, from header lh and operations ops. */
  ghost predicate Writes(lh: seq<int>, ops: map<Pid, set<int>>, ws: seq<(Pid, int)>, lh': seq<int>)
    decreases |ws|
  {
    if ws == [] then lh' == lh
    else
      var (p, b) := ws[0];
      && p in ops && |ops[p] + {b}| <= MAXOPBLOCKS
      && Writes(Absorb(lh, b), ops[p := ops[p] + {b}], ws[1..], lh')
  }

  /** What the operations have logged is listed, and within budget. */
  ghost predicate Listed(lh: seq<int>, ops: map<Pid, set<int>>) {
    forall p :: p in ops ==> |ops[p]| <= MAXOPBLOCKS && forall b :: b in ops[p] ==> b in lh
  }

  /** A log_write within budget uses up at least what it lists. */
  lemma UnusedWrite(lh: seq<int>, ops: map<Pid, set<int>>, p: Pid, b: int)
    requires p in ops && Listed(lh, ops) && |ops[p] + {b}| <= MAXOPBLOCKS
    ensures Listed(Absorb(lh, b), ops[p := ops[p] + {b}])
    ensures |Absorb(lh, b)| + Unused(ops[p := ops[p] + {b}]) <= |lh| + Unused(ops)
    ensures b !in lh ==> Unused(ops[p := ops[p] + {b}]) == Unused(ops) - 1
  {
    var ops' := ops[p := ops[p] + {b}];
    UnusedRemove(ops, p);
    UnusedRemove(ops', p);
    assert ops' - {p} == ops - {p};
    assert b in ops[p] ==> ops[p] + {b} == ops[p];
  }

  lemma {:induction false} WritesBound(lh: seq<int>, ops: map<Pid, set<int>>, ws: seq<(Pid, int)>, lh': seq<int>)
    requires Listed(lh, ops) && Writes(lh, ops, ws, lh')
    ensures |lh'| <= |lh| + Unused(ops)
    decreases |ws|
  {
    if ws == [] {
      UnusedBounds(ops);
    } else {
      var (p, b) := ws[0];
      UnusedWrite(lh, ops, p, b);
      WritesBound(Absorb(lh, b), ops[p := ops[p] + {b}], ws[1..], lh');
    }
  }

  /** A block number that is not listed. */
  lemma {:induction false} Unlisted(lh: seq<int>) returns (b: int)
    ensures forall x :: x in lh ==> x < b
  {
    b := 0;
    if lh != [] {
      var c := Unlisted(lh[1..]);
      b := if lh[0] < c then c else lh[0] + 1;
      assert lh == [lh[0]] + lh[1..];
    }
  }

  lemma {:induction false} SomeUnused(ops: map<Pid, set<int>>) returns (p: Pid)
    requires (forall q :: q in ops ==> |ops[q]| <= MAXOPBLOCKS) && Unused(ops) > 0
    ensures p in ops && |ops[p]| < MAXOPBLOCKS
    decreases |ops|
  {
    p :| p in ops && Unused(ops) == MAXOPBLOCKS - |ops[p]| + Unused(ops - {p});
    if |ops[p]| == MAXOPBLOCKS {
      p := SomeUnused(ops - {p});
    }
  }

  /** Every block of the reservations can be used. */
  lemma {:induction false} WritesFill(lh: seq<int>, ops: map<Pid, set<int>>)
    returns (ws: seq<(Pid, int)>, lh': seq<int>)
    requires Listed(lh, ops)
    ensures Writes(lh, ops, ws, lh') && |lh'| == |lh| + Unused(ops)
    decreases Unused(ops)
  {
    UnusedBounds(ops);
    ws, lh' := [], lh;
    if Unused(ops) > 0 {
      var p := SomeUnused(ops);
      var b := Unlisted(lh);
      UnusedWrite(lh, ops, p, b);
      var us;
      us, lh' := WritesFill(Absorb(lh, b), ops[p := ops[p] + {b}]);
      ws := [(p, b)] + us;
    }
  }

  /** The header can come to exceed LOGSIZE by log_writes within budget. */
  ghost predicate Overflows(lh: seq<int>, ops: map<Pid, set<int>>) {
    exists ws, lh' :: Writes(lh, ops, ws, lh') && |lh'| > LOGSIZE
  }

  lemma OverflowsExactly(lh: seq<int>, ops: map<Pid, set<int>>)
    requires Listed(lh, ops)
    ensures Overflows(lh, ops) <==> |lh| + Unused(ops) > LOGSIZE
  {
    if ws, lh' :| Writes(lh, ops, ws, lh') && |lh'| > LOGSIZE {
      WritesBound(lh, ops, ws, lh');
    }
    var ws, lh' := WritesFill(lh, ops);
  }

  /**
   What admitting one more operation risks, in every state of every run within budget:
   the header can come to exceed LOGSIZE exactly when its entries, the unused blocks of
   the reservations and MAXOPBLOCKS do together, and then begin_op puts it to sleep.
   */
  lemma Admission(l: Layout, tr: seq<State>, s: State, p: Pid, ops: map<Pid, set<int>>)
    requires Run(l, tr) && (forall i :: 0 <= i < |tr| ==> Budgeted(tr[i])) && s == tr[|tr| - 1]
    requires p !in s.ops && ops == s.ops[p := {}]
    ensures Overflows(s.lh, ops) <==> |s.lh| + Unused(s.ops) + MAXOPBLOCKS > LOGSIZE
    ensures Overflows(s.lh, ops) ==> |s.lh| + (|s.ops| + 1) * MAXOPBLOCKS > LOGSIZE
  {
    Reservation(l, tr);
    AdmissionIn(s, p, ops);
  }

  lemma AdmissionIn(s: State, p: Pid, ops: map<Pid, set<int>>)
    requires Reserved(s) && Budgeted(s) && p !in s.ops && ops == s.ops[p := {}]
    ensures Overflows(s.lh, ops) <==> |s.lh| + Unused(s.ops) + MAXOPBLOCKS > LOGSIZE
    ensures Unused(s.ops) <= |s.ops| * MAXOPBLOCKS
  {
    UnusedBounds(s.ops);
    UnusedRemove(ops, p);
    assert ops - {p} == s.ops;
    OverflowsExactly(s.lh, ops);
  }

  lemma TwoOps(s: State)
    requires Filled(s, 2, 1)
    ensures |s.lh| == 1 && |s.ops| == 2 && Unused(s.ops) == 19
  {
    OpsCount(s.ops, 2);
    UnusedRemove(s.ops, 0);
    UnusedRemove(s.ops - {0}, 1);
    assert s.ops - {0} - {1} == map[];
    assert s.ops[0] == Interval(100, 101) && s.ops[1] == Interval(110, 110);
    IntervalSize(100, 101);
    IntervalSize(110, 110);
  }

  /**
   begin_op counts MAXOPBLOCKS for operations that have used part of theirs, so it can
   refuse without need: two operations, one block logged.
   */
  lemma RefusedWithoutNeed() returns (tr: seq<State>)
    ensures Run(MKFS_LOG, tr) && (forall i :: 0 <= i < |tr| ==> Budgeted(tr[i]))
    ensures var s := tr[|tr| - 1];
            && s.phase.Idle? && |s.lh| + (|s.ops| + 1) * MAXOPBLOCKS > LOGSIZE
            && |s.lh| + Unused(s.ops) + MAXOPBLOCKS <= LOGSIZE
  {
    tr := FillStart(MKFS_LOG, 2);
    var r := tr[|tr| - 1];
    var s := FillStep(MKFS_LOG, r, 2, 0);
    assert Next(MKFS_LOG, r, LogWrite(0, 100, []), s);
    RunExtend(MKFS_LOG, tr, s);
    FilledBudgeted(s, 2, 1);
    TwoOps(s);
    tr := tr + [s];
  }

  /**
   With the log of an mkfs image an operation within its budget can panic: three
   operations may run, and the thirtieth block they log trips the guard.
   */
  lemma BudgetedPanic() returns (tr: seq<State>)
    ensures Run(MKFS_LOG, tr) && (forall i :: 0 <= i < |tr| ==> Budgeted(tr[i]))
    ensures var s := tr[|tr| - 1];
            && 2 in s.ops && 129 !in s.lh && |s.ops[2] + {129}| <= MAXOPBLOCKS
            && TooBig(|s.lh|, MKFS_LOG.size)
  {
    tr := FillRun(MKFS_LOG, 29);
    var s := tr[|tr| - 1];
    assert s.ops[2] + {129} == Interval(120, 130);
    IntervalSize(120, 130);
  }

  /**
   However large the log area, an operation can panic on a block it has logged
   before: three operations log ten blocks each, and the header is full.
   */
  lemma RelogPanic() returns (tr: seq<State>)
    ensures Run(LARGE_LOG, tr) && (forall i :: 0 <= i < |tr| ==> Budgeted(tr[i])) && LARGE_LOG.size > LOGSIZE
    ensures var s := tr[|tr| - 1];
            && 0 in s.ops && 100 in s.ops[0] && 100 in s.lh && |s.ops[0] + {100}| <= MAXOPBLOCKS
            && TooBig(|s.lh|, LARGE_LOG.size)
  {
    tr := FillRun(LARGE_LOG, LOGSIZE);
    var s := tr[|tr| - 1];
    assert Within(100, 100, 110);
    assert s.ops[0] == Interval(100, 110) && s.ops[0] + {100} == s.ops[0];
    IntervalSize(100, 110);
    assert s.lh[0] == 100;
  }
}
