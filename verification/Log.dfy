/**
 log.c as it runs: the global log structure, its loops over the header and its
 disk writes, each proved to issue exactly the write sequence that LogDisk and
 LogMachine reason about.
 */
module Log {
  import opened Params
  import opened LogDisk
  import opened LogMachine

  class RedoLog {
    const layout: Layout
    /** lh.block */
    const block: array<int>
    /** lh.n */
    var n: nat
    var outstanding: int
    var committing: bool
    /** The device, and the buffers held back from it by B_DIRTY. */
    var disk: Disk
    var dirty: map<int, Block>
    /** Every block write issued so far. */
    ghost var history: seq<Write>

    ghost predicate Valid()
      reads this, block
    {
      && block.Length == LOGSIZE
      && n <= LOGSIZE
      && DiskOk(layout, disk)
      && (forall b :: b in dirty ==> Home(layout, disk, b))
    }

    /** The block numbers in the in-memory header. */
    ghost function Lh(): (lh: seq<int>)
      reads this, block
      requires n <= block.Length
    {
      block[..n]
    }

    constructor (l: Layout, d: Disk)
      requires DiskOk(l, d)
      ensures Valid() && fresh(block)
      ensures layout == l && disk == d && dirty == map[] && n == 0 && outstanding == 0 && !committing && history == []
    {
      layout, disk, dirty := l, d, map[];
      block := new int[LOGSIZE];
      n, outstanding, committing, history := 0, 0, false, [];
    }

    /** bread: through the cache. */
    method Bread(b: int) returns (data: Block)
      requires 0 <= b < |disk|
      ensures data == if b in dirty then dirty[b] else disk[b]
    {
      data := if b in dirty then dirty[b] else disk[b];
    }

    /** bwrite: one atomic block write, which clears the buffer's B_DIRTY. */
    method Bwrite(b: nat, data: Block)
      requires b < |disk|
      modifies this`disk, this`dirty, this`history
      ensures disk == old(disk)[b := data]
      ensures dirty == old(dirty) - {b} && (b !in old(dirty) ==> dirty == old(dirty))
      ensures history == old(history) + [Write(b, data)]
    {
      disk, dirty := disk[b := data], dirty - {b};
      history := history + [Write(b, data)];
    }

    /** install_trans: copy the log blocks to their home locations. */
    method InstallTrans()
      requires Valid() && ListOk(layout, disk, Lh())
      modifies this`disk, this`dirty, this`history
      ensures history == old(history) + InstallWrites(layout, Lh(), old(disk))
      ensures disk == Apply(old(disk), InstallWrites(layout, Lh(), old(disk)))
      ensures dirty == old(dirty) - Elems(Lh())
    {
      ghost var lh, d, h := Lh(), disk, history;
      ghost var ws := InstallWrites(layout, lh, d);
      IssuedNone(d, h, ws);
      InstallBlocks(lh, d, h, ws);
      assert ws[..|ws|] == ws;
    }

    /** The loop of install_trans. */
    method InstallBlocks(ghost lh: seq<int>, ghost d: Disk, ghost h: seq<Write>, ghost ws: seq<Write>)
      requires n <= block.Length && lh == Lh() && |ws| == n
      requires InstallsPinned(layout, d, lh, ws, dirty)
      requires Issued(d, h, ws, 0, disk, history)
      modifies this`disk, this`dirty, this`history
      ensures Issued(d, h, ws, |ws|, disk, history) && dirty == old(dirty) - Elems(lh)
    {
      ghost var pinned := dirty;
      assert pinned - Elems(lh[..0]) == pinned;
      var tail := 0;
      while tail < n
        invariant 0 <= tail <= n
        invariant Issued(d, h, ws, tail, disk, history)
        invariant dirty == pinned - Elems(lh[..tail])
      {
        InstallRead(layout, d, h, lh, ws, tail, disk, history, pinned);
        assert lh[tail] == block[tail];
        var lbuf := Bread(layout.start + tail + 1);
        Bwrite(block[tail], lbuf);
        ElemsSnoc(lh, tail);
        tail := tail + 1;
      }
      assert lh[..tail] == lh;
    }

    /** read_head: copy the on-disk header into memory. */
    method ReadHead()
      requires Valid()
      modifies this`n, block
      ensures Valid() && Lh() == Header(disk[layout.start])
    {
      var buf := Bread(layout.start);
      n := buf[0];
      var i := 0;
      while i < n
        invariant 0 <= i <= n == buf[0]
        invariant block[..i] == buf[1..1 + i]
      {
        block[i] := buf[1 + i];
        i := i + 1;
      }
    }

    /** write_head: copy the in-memory header over the start of the header block. */
    method WriteHead()
      requires Valid()
      modifies this`disk, this`dirty, this`history
      ensures history == old(history) + [Write(layout.start, WithHeader(old(disk)[layout.start], Lh()))]
      ensures disk == old(disk)[layout.start := WithHeader(old(disk)[layout.start], Lh())]
      ensures dirty == old(dirty)
    {
      var hb := Bread(layout.start);
      hb := hb[0 := n];
      var i := 0;
      while i < n
        invariant 0 <= i <= n && |hb| == BWORDS
        invariant hb == [n] + block[..i] + disk[layout.start][1 + i..]
      {
        hb := hb[1 + i := block[i]];
        i := i + 1;
      }
      assert hb == WithHeader(disk[layout.start], Lh());
      Bwrite(layout.start, hb);
    }

    /** write_log: copy the cached blocks into the log. */
    method WriteLog()
      requires Valid() && ListOk(layout, disk, Lh())
      modifies this`disk, this`dirty, this`history
      ensures InRange(old(disk), LogWrites(layout, Lh(), Cached(old(disk), old(dirty))))
      ensures history == old(history) + LogWrites(layout, Lh(), Cached(old(disk), old(dirty)))
      ensures disk == Apply(old(disk), LogWrites(layout, Lh(), Cached(old(disk), old(dirty))))
      ensures dirty == old(dirty)
    {
      ghost var lh, d, view, h := Lh(), disk, Cached(disk, dirty), history;
      ghost var ws := LogWrites(layout, lh, view);
      IssuedNone(d, h, ws);
      CopyBlocks(lh, d, view, h, ws);
      assert ws[..|ws|] == ws;
    }

    /** The loop of write_log. */
    method CopyBlocks(ghost lh: seq<int>, ghost d: Disk, ghost view: Disk, ghost h: seq<Write>, ghost ws: seq<Write>)
      requires n <= block.Length && lh == Lh() && |ws| == n
      requires CopiesPinned(layout, d, lh, view, ws, dirty)
      requires Issued(d, h, ws, 0, disk, history)
      modifies this`disk, this`dirty, this`history
      ensures Issued(d, h, ws, |ws|, disk, history) && dirty == old(dirty)
    {
      ghost var pinned := dirty;
      var tail := 0;
      while tail < n
        invariant 0 <= tail <= n
        invariant Issued(d, h, ws, tail, disk, history)
        invariant dirty == pinned
      {
        LogRead(layout, d, h, lh, view, ws, tail, disk, history, pinned);
        assert lh[tail] == block[tail];
        var from := Bread(block[tail]);
        Bwrite(layout.start + 1 + tail, from);
        tail := tail + 1;
      }
    }

    /** The common end of commit() and recover_from_log(): install, then erase the header. */
    method InstallAndErase()
      requires Valid() && Lh() == Header(disk[layout.start])
      modifies this`disk, this`dirty, this`history, this`n
      ensures Valid() && n == 0
      ensures history == old(history) + RecoverWrites(layout, old(disk))
      ensures disk == Recover(layout, old(disk))
      ensures dirty == old(dirty) - old(Elems(Lh()))
    {
      ghost var lh, d, h := Lh(), disk, history;
      InstallTrans();
      EraseIsRecovery(layout, d, disk, lh, h);
      n := 0;
      assert Lh() == [];
      WriteHead();
    }

    method RecoverFromLog()
      requires Valid() && dirty == map[]
      modifies this`disk, this`dirty, this`history, this`n, block
      ensures Valid() && n == 0 && dirty == map[]
      ensures history == old(history) + RecoverWrites(layout, old(disk))
      ensures disk == Recover(layout, old(disk))
    {
      ReadHead();
      InstallAndErase();
    }

    /** The first half of commit(): fill the log, then write the header, the commit point. */
    method LogAndCommit()
      requires Valid() && CommitReady(layout, Lh(), Cached(disk, dirty), disk)
      modifies this`disk, this`dirty, this`history
      ensures Valid() && Lh() == Header(disk[layout.start]) && dirty == old(dirty)
      ensures history == old(history) + HeadWrites(layout, Lh(), Cached(old(disk), old(dirty)), old(disk))
      ensures disk == Apply(old(disk), HeadWrites(layout, Lh(), Cached(old(disk), old(dirty)), old(disk)))
    {
      ghost var lh, d, view, h := Lh(), disk, Cached(disk, dirty), history;
      WriteLog();
      LoggedThenHeader(layout, lh, view, d, disk);
      ghost var lw := LogWrites(layout, lh, view);
      WriteHead();
      Assoc(h, lw, [Write(layout.start, WithHeader(d[layout.start], lh))]);
    }

    /** commit(): the writes of CommitWrites, in that order; afterwards nothing is logged or pinned. */
    method Commit()
      requires Valid() && dirty.Keys == Elems(Lh())
      requires CommitReady(layout, Lh(), Cached(disk, dirty), disk)
      modifies this`disk, this`dirty, this`history, this`n
      ensures Valid() && n == 0 && dirty == map[]
      ensures history == old(history) + CommitWrites(layout, old(Lh()), Cached(old(disk), old(dirty)), old(disk))
      ensures disk == Apply(old(disk), CommitWrites(layout, old(Lh()), Cached(old(disk), old(dirty)), old(disk)))
    {
      if n > 0 {
        ghost var lh, d, view, h := Lh(), disk, Cached(disk, dirty), history;
        LogAndCommit();
        ghost var f := disk;
        InstallAndErase();
        CommitTailIsRecovery(layout, lh, view, d);
        ApplyConcat(d, HeadWrites(layout, lh, view, d), RecoverWrites(layout, f));
        Assoc(h, HeadWrites(layout, lh, view, d), RecoverWrites(layout, f));
      }
    }

    /**
     One pass of the loop of begin_op under log.lock: join, or go to sleep.
     */
    method BeginOp() returns (asleep: bool)
      requires Valid()
      modifies this`outstanding
      ensures asleep <==> committing || n + (old(outstanding) + 1) * MAXOPBLOCKS > LOGSIZE
      ensures outstanding == if asleep then old(outstanding) else old(outstanding) + 1
    {
      if committing {
        asleep := true;
      } else if n + (outstanding + 1) * MAXOPBLOCKS > LOGSIZE {
        asleep := true;
      } else {
        outstanding := outstanding + 1;
        asleep := false;
      }
    }

    /**
     The first critical section of end_op: the last operation out starts the commit,
     others wake sleepers; panics exactly when a commit is running.
     */
    method EndOp() returns (doCommit: bool, wakeup: bool, panic: bool)
      requires Valid()
      modifies this`outstanding, this`committing
      ensures outstanding == old(outstanding) - 1
      ensures panic <==> old(committing)
      ensures panic ==> committing && !doCommit && !wakeup
      ensures !panic ==> doCommit == committing == (outstanding == 0) && wakeup == !doCommit
    {
      outstanding := outstanding - 1;
      doCommit, wakeup, panic := false, false, false;
      if committing {
        panic := true;
      } else if outstanding == 0 {
        doCommit := true;
        committing := true;
      } else {
        wakeup := true;
      }
    }

    /** log_write: record the block once, pin its new contents; false stands for the panic. */
    method LogWrite(b: int, data: Block) returns (ok: bool)
      requires Valid() && Home(layout, disk, b)
      modifies this`n, this`dirty, block
      ensures Valid()
      ensures ok <==> old(n) < LOGSIZE && old(n) < layout.size - 1 && outstanding >= 1
      ensures ok ==> Lh() == Absorb(old(Lh()), b) && dirty == old(dirty)[b := data]
      ensures !ok ==> n == old(n) && Lh() == old(Lh()) && dirty == old(dirty)
    {
      if n >= LOGSIZE || n >= layout.size - 1 {
        return false;
      }
      if outstanding < 1 {
        return false;
      }
      ghost var lh := Lh();
      var i := 0;
      while i < n && block[i] != b
        invariant 0 <= i <= n && n == old(n) && dirty == old(dirty)
        invariant forall j :: 0 <= j < i ==> block[j] != b
        invariant block[..n] == lh && unchanged(block)
      {
        i := i + 1;
      }
      assert i == Find(lh, b);
      block[i] := b;
      if i == n {
        n := n + 1;
      }
      dirty := dirty[b := data];
      ok := true;
      assert Lh() == Absorb(lh, b);
    }
  }

  /** Installing a well-formed log leaves the header block as it was. */
  lemma InstalledOk(l: Layout, d: Disk, e: Disk)
    requires DiskOk(l, d) && e == Apply(d, InstallWrites(l, Header(d[l.start]), d))
    ensures DiskOk(l, e) && e[l.start] == d[l.start]
  {
    var lh := Header(d[l.start]);
    var ws := InstallWrites(l, lh, d);
    assert ws[..|lh|] == ws;
    InstallPrefix(l, d, lh, ws, |lh|);
    var v := SomeContents(l, d);
    InstalledStandsFor(l, d, e, v, lh, |lh|);
  }

  /** Erasing the header of the installed disk e ends a recovery of d. */
  lemma EraseIsRecovery(l: Layout, d: Disk, e: Disk, lh: seq<int>, h: seq<Write>)
    requires DiskOk(l, d) && lh == Header(d[l.start]) && e == Apply(d, InstallWrites(l, lh, d))
    ensures DiskOk(l, e) && e[l.start] == d[l.start]
    ensures h + InstallWrites(l, lh, d) + [Write(l.start, WithHeader(d[l.start], []))] == h + RecoverWrites(l, d)
    ensures e[l.start := WithHeader(d[l.start], [])] == Recover(l, d) && DiskOk(l, Recover(l, d))
  {
    InstalledOk(l, d, e);
    RecoverOk(l, d);
    var ws := RecoverWrites(l, d);
    assert ws[..|ws| - 1] == InstallWrites(l, lh, d);
  }

  lemma RecoverOk(l: Layout, d: Disk)
    requires DiskOk(l, d)
    ensures DiskOk(l, Recover(l, d))
  {
    var v := SomeContents(l, d);
    var ws := RecoverWrites(l, d);
    RecoverPrefix(l, d, v, |ws|);
    assert ws[..|ws|] == ws;
  }

  /** Between filling the log and writing the header. */
  lemma LoggedThenHeader(l: Layout, lh: seq<int>, view: Disk, d: Disk, e: Disk)
    requires CommitReady(l, lh, view, d)
    requires InRange(d, LogWrites(l, lh, view)) && e == Apply(d, LogWrites(l, lh, view))
    ensures DiskOk(l, e) && e[l.start] == d[l.start]
    ensures Apply(d, HeadWrites(l, lh, view, d)) == e[l.start := WithHeader(d[l.start], lh)]
    ensures DiskOk(l, Apply(d, HeadWrites(l, lh, view, d)))
  {
    var lw := LogWrites(l, lh, view);
    LogPrefix(l, lh, view, d, |lh|);
    assert lw[..|lh|] == lw && HeadWrites(l, lh, view, d)[..|lh|] == lw;
    CopiedStandsForOld(l, lh, view, d, e, |lh|);
    HeadStandsFor(l, lh, view, d);
  }

  lemma Assoc(a: seq<Write>, b: seq<Write>, c: seq<Write>)
    ensures a + b + c == a + (b + c)
  {
  }

  lemma TakeSnoc(h: seq<Write>, ws: seq<Write>, k: nat)
    requires k < |ws|
    ensures h + ws[..k] + [ws[k]] == h + ws[..k + 1]
  {
  }

  /** The first k writes of ws were issued since disk d and history h. */
  ghost predicate Issued(d: Disk, h: seq<Write>, ws: seq<Write>, k: nat, disk: Disk, history: seq<Write>) {
    && InRange(d, ws)
    && k <= |ws|
    && history == h + ws[..k]
    && disk == Apply(d, ws[..k])
  }

  lemma IssuedNone(d: Disk, h: seq<Write>, ws: seq<Write>)
    requires InRange(d, ws)
    ensures Issued(d, h, ws, 0, d, h)
  {
    assert h + ws[..0] == h;
  }

  /** The next write. */
  lemma IssuedNext(d: Disk, h: seq<Write>, ws: seq<Write>, k: nat, disk: Disk, history: seq<Write>, w: Write)
    requires Issued(d, h, ws, k, disk, history) && k < |ws| && w == ws[k]
    ensures w.block < |d| && Issued(d, h, ws, k + 1, disk[w.block := w.data], history + [w])
  {
    TakeSnoc(h, ws, k);
    ApplyStep(d, ws, k);
  }

  ghost predicate InstallsPinned(l: Layout, d: Disk, lh: seq<int>, ws: seq<Write>, dirty: map<int, Block>) {
    && AreInstalls(l, d, lh, ws)
    && forall b :: b in dirty ==> Home(l, d, b)
  }

  /** A round of install_trans: reads log block k, writes it home. */
  lemma InstallRead(l: Layout, d: Disk, h: seq<Write>, lh: seq<int>, ws: seq<Write>, k: nat, disk: Disk,
                    history: seq<Write>, dirty: map<int, Block>)
    requires k < |lh| && (InstallsPinned(l, d, lh, ws, dirty)) && Issued(d, h, ws, k, disk, history)
    ensures |disk| == |d| && l.start + k + 1 < |d| && 0 <= lh[k] < |d| && l.start + k + 1 !in dirty
    ensures disk[l.start + k + 1] == d[l.start + k + 1]
    ensures var w := Write(lh[k], d[l.start + k + 1]); Issued(d, h, ws, k + 1, disk[w.block := w.data], history + [w])
  {
    InstallPrefix(l, d, lh, ws, k);
    InstalledLogSame(l, d, disk, lh, k);
    assert InLog(l, l.start + k + 1) && Home(l, d, lh[k]);
    IssuedNext(d, h, ws, k, disk, history, Write(lh[k], d[l.start + k + 1]));
  }

  ghost predicate CopiesPinned(l: Layout, d: Disk, lh: seq<int>, view: Disk, ws: seq<Write>, dirty: map<int, Block>) {
    && AreCopies(l, d, lh, view, ws)
    && view == Cached(d, dirty)
    && forall b :: b in dirty ==> Home(l, d, b)
  }

  /** A round of write_log: reads a cached block, writes log block k. */
  lemma LogRead(l: Layout, d: Disk, h: seq<Write>, lh: seq<int>, view: Disk, ws: seq<Write>, k: nat,
                disk: Disk, history: seq<Write>, dirty: map<int, Block>)
    requires k < |lh| && (CopiesPinned(l, d, lh, view, ws, dirty)) && Issued(d, h, ws, k, disk, history)
    ensures |disk| == |d| && 0 <= lh[k] < |d| && l.start + k + 1 < |d| && l.start + k + 1 !in dirty
    ensures view[lh[k]] == if lh[k] in dirty then dirty[lh[k]] else disk[lh[k]]
    ensures var w := Write(l.start + 1 + k, view[lh[k]]);
            Issued(d, h, ws, k + 1, disk[w.block := w.data], history + [w])
  {
    CopyPrefix(l, lh, view, d, ws, k);
    assert Home(l, d, lh[k]) && InLog(l, l.start + k + 1);
    assert disk[lh[k]] == d[lh[k]];
    IssuedNext(d, h, ws, k, disk, history, Write(l.start + 1 + k, view[lh[k]]));
  }

  ghost function Elems(s: seq<int>): (r: set<int>) {
    set x | x in s
  }

  lemma ElemsSnoc(s: seq<int>, k: nat)
    requires k < |s|
    ensures Elems(s[..k + 1]) == Elems(s[..k]) + {s[k]}
  {
    assert s[..k + 1] == s[..k] + [s[k]];
  }
}
