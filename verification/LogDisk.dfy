/**
 The disk under log.c and the two write sequences the log issues to it: the
 single-block writes of commit() and those of recover_from_log().  A crash keeps
 a prefix of such a sequence.
 */
module LogDisk {
  import opened Collections
  import opened Params

  /** A block as its 128 32-bit words, which is how log.c reads the header block. */
  const BWORDS: nat := 128

  type Block = seq<int>

  type Disk = seq<Block>

  /** One synchronous, atomic block write (iderw with B_DIRTY set). */
  datatype Write = Write(block: nat, data: Block)

  /** Where the superblock puts the log: header at start, data after it, size blocks in all. */
  datatype Layout = Layout(start: nat, size: nat)

  predicate InLog(l: Layout, b: int) {
    l.start <= b < l.start + l.size
  }

  /** A block outside the log area. */
  predicate Home(l: Layout, d: Disk, b: int) {
    0 <= b < |d| && !InLog(l, b)
  }

  // ----- the on-disk header -----

  predicate HeaderOk(b: Block) {
    |b| == BWORDS && 0 <= b[0] <= LOGSIZE
  }

  /** The block numbers a header block lists. */
  function Header(b: Block): (lh: seq<int>)
    requires HeaderOk(b)
  {
    b[1..1 + b[0]]
  }

  /** The header on disk: a count, then that many block numbers. */
  lemma HeaderLayout(b: Block, lh: seq<int>, k: nat)
    requires |lh| <= LOGSIZE && |b| == BWORDS && 0 < k < BWORDS
    ensures WithHeader(b, lh)[0] == |lh| && WithHeader(b, lh)[k] == if k <= |lh| then lh[k - 1] else b[k]
    ensures HeaderOk(b) && k <= b[0] ==> |Header(b)| == b[0] && Header(b)[k - 1] == b[k]
  {
  }

  /** write_head: overwrite n and the first n entries, keep the other words. */
  function WithHeader(b: Block, lh: seq<int>): (r: Block)
    requires |lh| <= LOGSIZE && |b| == BWORDS
    ensures HeaderOk(r) && Header(r) == lh
  {
    [|lh|] + lh + b[1 + |lh|..]
  }

  /** Position of b in the list, or its length: the scan of log_write. */
  function Find(lh: seq<int>, b: int): (i: nat)
    ensures i <= |lh|
    ensures i < |lh| ==> lh[i] == b
    ensures b in lh <==> i < |lh|
    ensures forall j :: 0 <= j < i ==> lh[j] != b
  {
    if lh == [] then 0
    else if lh[0] == b then 0
    else 1 + Find(lh[1..], b)
  }

  /** A block list the log can carry: distinct home blocks that fit header and log area. */
  ghost predicate ListOk(l: Layout, d: Disk, lh: seq<int>) {
    && |lh| <= LOGSIZE
    && |lh| < l.size
    && l.start + l.size <= |d|
    && Distinct(lh)
    && forall i :: 0 <= i < |lh| ==> Home(l, d, lh[i])
  }

  ghost predicate DiskOk(l: Layout, d: Disk) {
    && l.size > 0
    && l.start + l.size <= |d|
    && HeaderOk(d[l.start])
    && ListOk(l, d, Header(d[l.start]))
  }

  /** What a read through the buffer cache sees when the dirty buffers are pinned. */
  ghost function Cached(d: Disk, dirty: map<int, Block>): (v: Disk)
    ensures |v| == |d|
    ensures forall b :: 0 <= b < |d| ==> v[b] == if b in dirty then dirty[b] else d[b]
  {
    seq(|d|, b requires 0 <= b < |d| => if b in dirty then dirty[b] else d[b])
  }

  // ----- write sequences -----

  ghost predicate InRange(d: Disk, ws: seq<Write>) {
    forall i :: 0 <= i < |ws| ==> ws[i].block < |d|
  }

  /** The disk after a sequence of writes. */
  ghost function Apply(d: Disk, ws: seq<Write>): (r: Disk)
    requires InRange(d, ws)
    ensures |r| == |d|
  {
    if ws == [] then d
    else
      var w := ws[|ws| - 1];
      Apply(d, ws[..|ws| - 1])[w.block := w.data]
  }

  /** write_log: cached copies go to consecutive log blocks. */
  ghost function LogWrites(l: Layout, lh: seq<int>, view: Disk): (ws: seq<Write>)
    requires forall i :: 0 <= i < |lh| ==> 0 <= lh[i] < |view|
  {
    seq(|lh|, i requires 0 <= i < |lh| => Write(l.start + 1 + i, view[lh[i]]))
  }

  /** install_trans: log blocks go to their home locations. */
  ghost function InstallWrites(l: Layout, lh: seq<int>, d: Disk): (ws: seq<Write>)
    requires ListOk(l, d, lh)
  {
    seq(|lh|, i requires 0 <= i < |lh| => Write(lh[i], d[l.start + 1 + i]))
  }

  /** The same installs, named by the cached contents they carry. */
  ghost function HomeWrites(lh: seq<int>, view: Disk): (ws: seq<Write>)
    requires forall i :: 0 <= i < |lh| ==> 0 <= lh[i] < |view|
  {
    seq(|lh|, i requires 0 <= i < |lh| => Write(lh[i], view[lh[i]]))
  }

  /** Every write of commit(), in order, from disk d with cached contents view. */
  ghost function CommitWrites(l: Layout, lh: seq<int>, view: Disk, d: Disk): (ws: seq<Write>)
    requires ListOk(l, d, lh) && |view| == |d| && HeaderOk(d[l.start])
    ensures InRange(d, ws)
    ensures |ws| == if lh == [] then 0 else 2 * |lh| + 2
  {
    if lh == [] then []
    else
      var h := WithHeader(d[l.start], lh);
      LogWrites(l, lh, view) + [Write(l.start, h)] + HomeWrites(lh, view) + [Write(l.start, WithHeader(h, []))]
  }

  /** Every write of recover_from_log(), in order. */
  ghost function RecoverWrites(l: Layout, d: Disk): (ws: seq<Write>)
    requires DiskOk(l, d)
    ensures InRange(d, ws)
    ensures |ws| == |Header(d[l.start])| + 1
  {
    InstallWrites(l, Header(d[l.start]), d) + [Write(l.start, WithHeader(d[l.start], []))]
  }

  ghost function Recover(l: Layout, d: Disk): (r: Disk)
    requires DiskOk(l, d)
    ensures |r| == |d|
  {
    Apply(d, RecoverWrites(l, d))
  }

  // ----- what a disk stands for -----

  /**
   The disk stands for contents v: a block the header lists has its contents of v
   in the log, every other home block has them in place.
   */
  ghost predicate StandsFor(l: Layout, d: Disk, v: Disk) {
    && DiskOk(l, d)
    && |v| == |d|
    && var lh := Header(d[l.start]);
       && (forall i :: 0 <= i < |lh| ==> d[l.start + 1 + i] == v[lh[i]])
       && (forall b :: Home(l, d, b) && b !in lh ==> d[b] == v[b])
  }

  /** The home blocks of the disk are exactly those of v, and the log is empty. */
  ghost predicate Clean(l: Layout, d: Disk, v: Disk) {
    && DiskOk(l, d)
    && Header(d[l.start]) == []
    && |v| == |d|
    && forall b :: Home(l, d, b) ==> d[b] == v[b]
  }

  // ----- lemmas -----

  lemma ApplyStep(d: Disk, ws: seq<Write>, k: nat)
    requires InRange(d, ws) && k < |ws|
    ensures Apply(d, ws[..k + 1]) == Apply(d, ws[..k])[ws[k].block := ws[k].data]
  {
    assert ws[..k + 1][..k] == ws[..k];
  }

  lemma {:induction false} ApplyConcat(d: Disk, us: seq<Write>, vs: seq<Write>)
    requires InRange(d, us) && InRange(d, vs)
    ensures InRange(d, us + vs)
    ensures Apply(d, us + vs) == Apply(Apply(d, us), vs)
  {
    if vs == [] {
      assert us + vs == us;
    } else {
      var n := |vs| - 1;
      assert (us + vs)[..|us + vs| - 1] == us + vs[..n];
      ApplyConcat(d, us, vs[..n]);
    }
  }

  /** e is d after its first k logged blocks were installed. */
  ghost predicate Installed(l: Layout, d: Disk, e: Disk, lh: seq<int>, k: nat) {
    && ListOk(l, d, lh)
    && |e| == |d|
    && (forall b :: 0 <= b < |d| && b !in lh ==> e[b] == d[b])
    && (forall i :: 0 <= i < |lh| ==> e[lh[i]] == if i < k then d[l.start + 1 + i] else d[lh[i]])
  }

  lemma InstallStep(l: Layout, d: Disk, e: Disk, lh: seq<int>, k: nat)
    requires Installed(l, d, e, lh, k) && k < |lh|
    ensures Installed(l, d, e[lh[k] := d[l.start + 1 + k]], lh, k + 1)
  {
    var f := e[lh[k] := d[l.start + 1 + k]];
    forall i | 0 <= i < |lh|
      ensures f[lh[i]] == if i < k + 1 then d[l.start + 1 + i] else d[lh[i]]
    {
      assert e[lh[i]] == if i < k then d[l.start + 1 + i] else d[lh[i]];
    }
  }

  ghost predicate AreInstalls(l: Layout, d: Disk, lh: seq<int>, ws: seq<Write>) {
    && ListOk(l, d, lh)
    && |ws| == |lh|
    && (forall i :: 0 <= i < |lh| ==> ws[i] == Write(lh[i], d[l.start + 1 + i]))
  }

  lemma {:induction false} InstallPrefix(l: Layout, d: Disk, lh: seq<int>, ws: seq<Write>, k: nat)
    requires AreInstalls(l, d, lh, ws) && InRange(d, ws) && k <= |lh|
    ensures Installed(l, d, Apply(d, ws[..k]), lh, k)
  {
    if k > 0 {
      var e := Apply(d, ws[..k - 1]);
      InstallPrefix(l, d, lh, ws, k - 1);
      InstallStep(l, d, e, lh, k - 1);
      ApplyStep(d, ws, k - 1);
      assert ws[k - 1] == Write(lh[k - 1], d[l.start + k]);
    }
  }

  /** The log area is not touched by installing. */
  lemma InstalledLogSame(l: Layout, d: Disk, e: Disk, lh: seq<int>, k: nat)
    requires Installed(l, d, e, lh, k)
    ensures forall b :: InLog(l, b) ==> e[b] == d[b]
  {
    assert forall i :: 0 <= i < |lh| ==> !InLog(l, lh[i]);
  }

  /** Installing, however far it got, keeps the log and what the disk stands for. */
  lemma InstalledStandsFor(l: Layout, d: Disk, e: Disk, v: Disk, lh: seq<int>, k: nat)
    requires StandsFor(l, d, v) && lh == Header(d[l.start])
    requires Installed(l, d, e, lh, k)
    ensures e[l.start] == d[l.start]
    ensures StandsFor(l, e, v)
    ensures k == |lh| ==> forall i :: 0 <= i < |lh| ==> e[lh[i]] == v[lh[i]]
  {
    InstalledLogSame(l, d, e, lh, k);
  }

  /** Clearing the header once every listed block is home leaves a clean disk. */
  lemma ClearHeader(l: Layout, d: Disk, v: Disk)
    requires StandsFor(l, d, v)
    requires forall i :: 0 <= i < |Header(d[l.start])| ==> d[Header(d[l.start])[i]] == v[Header(d[l.start])[i]]
    ensures Clean(l, d[l.start := WithHeader(d[l.start], [])], v)
    ensures StandsFor(l, d[l.start := WithHeader(d[l.start], [])], v)
  {
    var e := d[l.start := WithHeader(d[l.start], [])];
    assert forall b :: Home(l, e, b) ==> e[b] == v[b];
  }

  /** The first writes of recovery are installs. */
  lemma RecoverInstalls(l: Layout, d: Disk, lh: seq<int>, ws: seq<Write>, k: nat)
    requires DiskOk(l, d) && lh == Header(d[l.start]) && ws == RecoverWrites(l, d) && k <= |lh|
    ensures InRange(d, ws[..k]) && Installed(l, d, Apply(d, ws[..k]), lh, k)
  {
    var inst := InstallWrites(l, lh, d);
    assert ws[..k] == inst[..k];
    InstallPrefix(l, d, lh, inst, k);
  }

  /** The last write of recovery, on the disk e with every block installed. */
  lemma RecoverLast(l: Layout, d: Disk, e: Disk, v: Disk, lh: seq<int>)
    requires StandsFor(l, d, v) && lh == Header(d[l.start]) && Installed(l, d, e, lh, |lh|)
    ensures var f := e[l.start := WithHeader(d[l.start], [])]; StandsFor(l, f, v) && Clean(l, f, v)
  {
    InstalledStandsFor(l, d, e, v, lh, |lh|);
    ClearHeader(l, e, v);
  }

  lemma RecoverFull(l: Layout, d: Disk, v: Disk, lh: seq<int>, ws: seq<Write>)
    requires StandsFor(l, d, v) && lh == Header(d[l.start]) && ws == RecoverWrites(l, d)
    ensures StandsFor(l, Apply(d, ws), v) && Clean(l, Apply(d, ws), v)
  {
    RecoverInstalls(l, d, lh, ws, |lh|);
    RecoverLast(l, d, Apply(d, ws[..|lh|]), v, lh);
    assert ws[|lh|] == Write(l.start, WithHeader(d[l.start], []));
  }

  /** A crash anywhere inside recovery keeps what the disk stands for. */
  lemma RecoverPrefix(l: Layout, d: Disk, v: Disk, k: nat)
    requires StandsFor(l, d, v)
    requires k <= |RecoverWrites(l, d)|
    ensures StandsFor(l, Apply(d, RecoverWrites(l, d)[..k]), v)
    ensures k == |RecoverWrites(l, d)| ==> Clean(l, Apply(d, RecoverWrites(l, d)[..k]), v)
  {
    var lh := Header(d[l.start]);
    var ws := RecoverWrites(l, d);
    if k <= |lh| {
      RecoverInstalls(l, d, lh, ws, k);
      InstalledStandsFor(l, d, Apply(d, ws[..k]), v, lh, k);
    } else {
      assert ws[..k] == ws;
      RecoverFull(l, d, v, lh, ws);
    }
  }

  /** The disk after a crash in each of a series of recoveries; the i-th one stops after cuts[i] writes. */
  ghost function CrashingRecoveries(l: Layout, d: Disk, cuts: seq<nat>): (r: Disk)
    requires DiskOk(l, d)
    decreases |cuts|
  {
    if cuts == [] then d
    else
      var ws := RecoverWrites(l, d);
      var k := if cuts[0] <= |ws| then cuts[0] else |ws|;
      var e := Apply(d, ws[..k]);
      if DiskOk(l, e) then CrashingRecoveries(l, e, cuts[1..]) else e
  }

  lemma {:induction false} CrashingRecoveriesKeep(l: Layout, d: Disk, v: Disk, cuts: seq<nat>)
    requires StandsFor(l, d, v)
    ensures StandsFor(l, CrashingRecoveries(l, d, cuts), v)
    decreases |cuts|
  {
    if cuts != [] {
      var ws := RecoverWrites(l, d);
      var k := if cuts[0] <= |ws| then cuts[0] else |ws|;
      RecoverPrefix(l, d, v, k);
      CrashingRecoveriesKeep(l, Apply(d, ws[..k]), v, cuts[1..]);
    }
  }

  /** Recovery, however often it was itself cut short, leaves the contents the disk stood for. */
  lemma RecoveryCompletes(l: Layout, d: Disk, v: Disk, cuts: seq<nat>)
    requires StandsFor(l, d, v)
    ensures DiskOk(l, CrashingRecoveries(l, d, cuts))
    ensures Clean(l, Recover(l, CrashingRecoveries(l, d, cuts)), v)
  {
    CrashingRecoveriesKeep(l, d, v, cuts);
    var e := CrashingRecoveries(l, d, cuts);
    var ws := RecoverWrites(l, e);
    RecoverPrefix(l, e, v, |ws|);
    assert ws[..|ws|] == ws;
  }

  // ----- commit -----

  /** A commit can start: the disk is clean and the cache differs from it only on listed blocks. */
  ghost predicate CommitReady(l: Layout, lh: seq<int>, view: Disk, d: Disk) {
    && Clean(l, d, d)
    && ListOk(l, d, lh)
    && |view| == |d|
    && forall b :: Home(l, d, b) && b !in lh ==> view[b] == d[b]
  }

  /** e is d after the first k cached blocks were copied into the log. */
  ghost predicate Copied(l: Layout, lh: seq<int>, view: Disk, d: Disk, e: Disk, k: nat) {
    && ListOk(l, d, lh)
    && |e| == |view| == |d|
    && (forall b :: 0 <= b < |d| && !(l.start < b <= l.start + |lh|) ==> e[b] == d[b])
    && (forall i :: 0 <= i < k <= |lh| ==> e[l.start + 1 + i] == view[lh[i]])
  }

  ghost predicate AreCopies(l: Layout, d: Disk, lh: seq<int>, view: Disk, ws: seq<Write>) {
    && ListOk(l, d, lh)
    && |view| == |d|
    && |ws| == |lh|
    && (forall i :: 0 <= i < |lh| ==> ws[i] == Write(l.start + 1 + i, view[lh[i]]))
  }

  lemma CopyStep(l: Layout, lh: seq<int>, view: Disk, d: Disk, e: Disk, k: nat)
    requires ListOk(l, d, lh) && |view| == |d| && k < |lh| && Copied(l, lh, view, d, e, k)
    ensures Copied(l, lh, view, d, e[l.start + 1 + k := view[lh[k]]], k + 1)
  {
  }

  lemma {:induction false} CopyPrefix(l: Layout, lh: seq<int>, view: Disk, d: Disk, ws: seq<Write>, k: nat)
    requires AreCopies(l, d, lh, view, ws) && InRange(d, ws) && k <= |lh|
    ensures Copied(l, lh, view, d, Apply(d, ws[..k]), k)
  {
    if k > 0 {
      CopyPrefix(l, lh, view, d, ws, k - 1);
      CopyStep(l, lh, view, d, Apply(d, ws[..k - 1]), k - 1);
      ApplyStep(d, ws, k - 1);
      assert ws[k - 1] == Write(l.start + k, view[lh[k - 1]]);
    }
  }

  lemma LogPrefix(l: Layout, lh: seq<int>, view: Disk, d: Disk, k: nat)
    requires ListOk(l, d, lh) && |view| == |d| && k <= |lh|
    ensures InRange(d, LogWrites(l, lh, view)[..k])
    ensures Copied(l, lh, view, d, Apply(d, LogWrites(l, lh, view)[..k]), k)
  {
    var ws := LogWrites(l, lh, view);
    CopyPrefix(l, lh, view, d, ws, k);
  }

  /** Copying into the log, however far it got, changes no home block and not the header. */
  lemma CopiedStandsForOld(l: Layout, lh: seq<int>, view: Disk, d: Disk, e: Disk, k: nat)
    requires CommitReady(l, lh, view, d) && Copied(l, lh, view, d, e, k)
    ensures StandsFor(l, e, d)
  {
    assert e[l.start] == d[l.start];
  }

  /** Writing the header is the commit point: the disk now stands for the cached contents. */
  lemma HeaderCommits(l: Layout, lh: seq<int>, view: Disk, d: Disk, e: Disk)
    requires CommitReady(l, lh, view, d) && Copied(l, lh, view, d, e, |lh|)
    ensures StandsFor(l, e[l.start := WithHeader(d[l.start], lh)], view)
  {
    var f := e[l.start := WithHeader(d[l.start], lh)];
    assert forall i :: 0 <= i < |lh| ==> f[l.start + 1 + i] == view[lh[i]];
  }

  /** The writes of commit() up to and including the commit point. */
  ghost function HeadWrites(l: Layout, lh: seq<int>, view: Disk, d: Disk): (ws: seq<Write>)
    requires ListOk(l, d, lh) && |view| == |d| && HeaderOk(d[l.start])
    ensures InRange(d, ws)
  {
    LogWrites(l, lh, view) + [Write(l.start, WithHeader(d[l.start], lh))]
  }

  /** At the commit point the disk stands for the cached contents. */
  lemma HeadStandsFor(l: Layout, lh: seq<int>, view: Disk, d: Disk)
    requires CommitReady(l, lh, view, d)
    ensures StandsFor(l, Apply(d, HeadWrites(l, lh, view, d)), view)
    ensures Header(Apply(d, HeadWrites(l, lh, view, d))[l.start]) == lh
    ensures Apply(d, HeadWrites(l, lh, view, d))[l.start] == WithHeader(d[l.start], lh)
    ensures forall i :: 0 <= i < |lh| ==> Apply(d, HeadWrites(l, lh, view, d))[l.start + 1 + i] == view[lh[i]]
  {
    var lw := LogWrites(l, lh, view);
    assert lw[..|lh|] == lw;
    LogPrefix(l, lh, view, d, |lh|);
    var e := Apply(d, lw);
    HeaderCommits(l, lh, view, d, e);
    var ws := HeadWrites(l, lh, view, d);
    assert ws[..|ws| - 1] == lw;
  }

  /** What commit() writes after the commit point is exactly a recovery from there. */
  lemma CommitTailIsRecovery(l: Layout, lh: seq<int>, view: Disk, d: Disk)
    requires CommitReady(l, lh, view, d) && lh != []
    ensures StandsFor(l, Apply(d, HeadWrites(l, lh, view, d)), view)
    ensures CommitWrites(l, lh, view, d)
         == HeadWrites(l, lh, view, d) + RecoverWrites(l, Apply(d, HeadWrites(l, lh, view, d)))
  {
    HeadStandsFor(l, lh, view, d);
    var f := Apply(d, HeadWrites(l, lh, view, d));
    assert InstallWrites(l, lh, f) == HomeWrites(lh, view);
  }

  lemma PrefixBeforeCommit(l: Layout, lh: seq<int>, view: Disk, d: Disk, k: nat)
    requires CommitReady(l, lh, view, d) && lh != [] && k <= |lh|
    ensures StandsFor(l, Apply(d, CommitWrites(l, lh, view, d)[..k]), d)
  {
    var ws := CommitWrites(l, lh, view, d);
    assert ws[..k] == LogWrites(l, lh, view)[..k];
    LogPrefix(l, lh, view, d, k);
    CopiedStandsForOld(l, lh, view, d, Apply(d, ws[..k]), k);
  }

  /** Writes that end in a recovery of the disk they lead to, cut short anywhere in that recovery. */
  lemma PrefixInRecovery(l: Layout, d: Disk, head: seq<Write>, f: Disk, ws: seq<Write>, view: Disk, k: nat)
    requires InRange(d, head) && f == Apply(d, head) && StandsFor(l, f, view)
    requires ws == head + RecoverWrites(l, f) && InRange(d, ws) && |head| <= k <= |ws|
    ensures StandsFor(l, Apply(d, ws[..k]), view)
    ensures k == |ws| ==> Clean(l, Apply(d, ws[..k]), view)
  {
    var rw, j := RecoverWrites(l, f), k - |head|;
    assert ws[..k] == head + rw[..j];
    RecoverPrefix(l, f, view, j);
    assert InRange(d, rw[..j]);
    ApplyConcat(d, head, rw[..j]);
  }

  lemma PrefixAfterCommit(l: Layout, lh: seq<int>, view: Disk, d: Disk, k: nat)
    requires CommitReady(l, lh, view, d) && lh != []
    requires |lh| < k <= |CommitWrites(l, lh, view, d)|
    ensures StandsFor(l, Apply(d, CommitWrites(l, lh, view, d)[..k]), view)
    ensures k == |CommitWrites(l, lh, view, d)| ==> Clean(l, Apply(d, CommitWrites(l, lh, view, d)[..k]), view)
  {
    CommitTailIsRecovery(l, lh, view, d);
    var head := HeadWrites(l, lh, view, d);
    PrefixInRecovery(l, d, head, Apply(d, head), CommitWrites(l, lh, view, d), view, k);
  }

  /**
   A crash after the first k writes of commit(): up to and including the copying
   into the log the disk still stands for the old contents, from the header write
   on it stands for the cached ones.
   */
  lemma CommitPrefix(l: Layout, lh: seq<int>, view: Disk, d: Disk, k: nat)
    requires CommitReady(l, lh, view, d)
    requires k <= |CommitWrites(l, lh, view, d)|
    ensures StandsFor(l, Apply(d, CommitWrites(l, lh, view, d)[..k]), if k <= |lh| then d else view)
    ensures k == |CommitWrites(l, lh, view, d)| ==> Clean(l, Apply(d, CommitWrites(l, lh, view, d)[..k]), view)
  {
    if lh == [] {
    } else if k <= |lh| {
      PrefixBeforeCommit(l, lh, view, d, k);
    } else {
      PrefixAfterCommit(l, lh, view, d, k);
    }
  }

  /**
   Crash atomicity.  A crash after any number k of the writes of commit(), then
   any number of recoveries cut short anywhere, then one complete recovery: the
   home blocks are all the old ones when the header was not yet written, all the
   cached ones otherwise, blocks that were not logged never changed, and the log
   is empty.
   */
  lemma CrashAtomicity(l: Layout, lh: seq<int>, view: Disk, d: Disk, k: nat, cuts: seq<nat>)
    requires CommitReady(l, lh, view, d)
    requires k <= |CommitWrites(l, lh, view, d)|
    ensures var crashed := Apply(d, CommitWrites(l, lh, view, d)[..k]);
            && DiskOk(l, crashed)
            && var after := CrashingRecoveries(l, crashed, cuts);
               && DiskOk(l, after)
               && Clean(l, Recover(l, after), if k <= |lh| then d else view)
               && forall b :: Home(l, d, b) && b !in lh ==> Recover(l, after)[b] == d[b]
  {
    CommitPrefix(l, lh, view, d, k);
    RecoveryCompletes(l, Apply(d, CommitWrites(l, lh, view, d)[..k]), if k <= |lh| then d else view, cuts);
  }
}
