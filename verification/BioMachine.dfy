/**
 The buffer cache under any interleaving of its users.  A handle is one use of a
 buffer, from bget to brelse.  Steps are the locked parts of bget and brelse, the
 sleep lock, single transfers of iderw, and what a holder does with the data: change
 it, mark it dirty as log_write does, or write it.  A panic stops the machine.
 */
module BioMachine {
  import opened Wrappers
  import opened Collections
  import opened Params
  import opened BufList
  import opened Bio

  /** Got: bget has chosen the buffer; Held: its sleep lock is held; Left: released, reference still counted. */
  datatype Handle = Free | Got(b: nat) | Held(b: nat, touched: bool) | Left(b: nat)

  datatype State = State(bufs: seq<Buf>, order: seq<nat>, disk: seq<Block>, handles: seq<Handle>)

  predicate Uses(h: Handle, b: nat) {
    h != Free && h.b == b
  }

  /** The number of handles on b. */
  function Count(hs: seq<Handle>, b: nat): (n: nat) {
    if hs == [] then 0 else Count(hs[..|hs| - 1], b) + if Uses(hs[|hs| - 1], b) then 1 else 0
  }

  // ----- steps -----

  ghost predicate Start(s: State) {
    && |s.bufs| > 0 && OrderOk(s.order, |s.bufs|)
    && (forall b :: 0 <= b < |s.bufs| ==> s.bufs[b] == Buf(0, 0, false, false, 0, None, []))
    && (forall h :: 0 <= h < |s.handles| ==> s.handles[h] == Free)
  }

  ghost predicate Bget(s: State, t: State, h: nat, dev: nat, blockno: nat, b: nat) {
    && h < |s.handles| && s.handles[h] == Free && OrderOk(s.order, |s.bufs|)
    && Gets(s.bufs, s.order, dev, blockno, b, t.bufs)
    && t == s.(bufs := t.bufs, handles := s.handles[h := Got(b)])
  }

  /** acquiresleep, once the lock is free. */
  ghost predicate Lock(s: State, t: State, h: nat) {
    && h < |s.handles| && s.handles[h].Got? && s.handles[h].b < |s.bufs|
    && var b := s.handles[h].b;
       s.bufs[b].owner == None
       && t == s.(bufs := s.bufs[b := s.bufs[b].(owner := Some(h))], handles := s.handles[h := Held(b, false)])
  }

  predicate Holds(s: State, h: nat) {
    h < |s.handles| && s.handles[h].Held? && s.handles[h].b < |s.bufs|
  }

  /** The panics of iderw. */
  predicate IdePanics(x: Buf, h: nat, disksize: nat) {
    x.owner != Some(h) || (x.valid && !x.dirty) || x.dev != 1 || x.blockno >= disksize
  }

  /** bread of a buffer that is not valid: iderw reads. */
  ghost predicate Fetch(s: State, t: State, h: nat) {
    && Holds(s, h)
    && var b := s.handles[h].b;
       var x := s.bufs[b];
       && !x.valid && !x.dirty && !IdePanics(x, h, |s.disk|)
       && t == s.(bufs := s.bufs[b := x.(valid := true, data := s.disk[x.blockno])])
  }

  ghost predicate Modify(s: State, t: State, h: nat, data: Block) {
    && Holds(s, h)
    && var b := s.handles[h].b;
       && s.bufs[b].valid
       && t == s.(bufs := s.bufs[b := s.bufs[b].(data := data)], handles := s.handles[h := Held(b, true)])
  }

  /** log_write pins the buffer. */
  ghost predicate MarkDirty(s: State, t: State, h: nat) {
    && Holds(s, h)
    && var b := s.handles[h].b;
       && s.bufs[b].valid
       && t == s.(bufs := s.bufs[b := s.bufs[b].(dirty := true)])
  }

  /** bwrite: mark dirty, then iderw writes and clears the mark. */
  ghost predicate Bwrite(s: State, t: State, h: nat) {
    && Holds(s, h)
    && var b := s.handles[h].b;
       var x := s.bufs[b].(dirty := true);
       && x.valid && !IdePanics(x, h, |s.disk|)
       && t == s.(bufs := s.bufs[b := x.(dirty := false, valid := true)], disk := s.disk[x.blockno := x.data],
                  handles := s.handles[h := Held(b, false)])
  }

  /** releasesleep in brelse; a buffer that was changed has been written or marked dirty by then. */
  ghost predicate Unlock(s: State, t: State, h: nat) {
    && Holds(s, h)
    && var b := s.handles[h].b;
       && (s.handles[h].touched ==> s.bufs[b].dirty)
       && t == s.(bufs := s.bufs[b := s.bufs[b].(owner := None)], handles := s.handles[h := Left(b)])
  }

  /** The rest of brelse. */
  ghost predicate Drop(s: State, t: State, h: nat, i: nat) {
    && h < |s.handles| && s.handles[h].Left? && OrderOk(s.order, |s.bufs|) && i < |s.order|
    && s.order[i] == s.handles[h].b
    && Drops(s.bufs, s.order, i, t.bufs, t.order)
    && t == s.(bufs := t.bufs, order := t.order, handles := s.handles[h := Free])
  }

  ghost predicate HolderNext(s: State, t: State, h: nat) {
    || Lock(s, t, h) || Fetch(s, t, h) || MarkDirty(s, t, h) || Bwrite(s, t, h) || Unlock(s, t, h)
    || exists data :: Modify(s, t, h, data)
  }

  ghost predicate Next(s: State, t: State) {
    || (exists h: nat, dev: nat, blockno: nat, b: nat :: Bget(s, t, h, dev, blockno, b))
    || (exists h: nat :: HolderNext(s, t, h))
    || (exists h: nat, i: nat :: Drop(s, t, h, i))
  }

  // ----- the invariant -----

  /** No two buffers serve one block of a real device. */
  ghost predicate Unique(s: State) {
    forall a, b :: 0 <= a < b < |s.bufs| && s.bufs[a].dev != 0 ==> !Serves(s.bufs[b], s.bufs[a].dev, s.bufs[a].blockno)
  }

  ghost predicate Counted(s: State) {
    && (forall b: nat :: b < |s.bufs| ==> s.bufs[b].refcnt == Count(s.handles, b))
    && forall h :: 0 <= h < |s.handles| && s.handles[h] != Free ==> s.handles[h].b < |s.bufs|
  }

  ghost predicate Locked(s: State) {
    && (forall h: nat :: h < |s.handles| && s.handles[h].Held? && s.handles[h].b < |s.bufs| ==>
          s.bufs[s.handles[h].b].owner == Some(h))
    && forall b: nat :: b < |s.bufs| && s.bufs[b].owner.Some? ==>
         s.bufs[b].owner.value < |s.handles| && s.handles[s.bufs[b].owner.value].Held?
         && s.handles[s.bufs[b].owner.value].b == b
  }

  /** Buffer b is in the hands of a holder that has changed it. */
  ghost predicate Touched(s: State, b: nat)
    requires b < |s.bufs|
  {
    s.bufs[b].owner.Some? && s.bufs[b].owner.value < |s.handles| && s.handles[s.bufs[b].owner.value].Held?
    && s.handles[s.bufs[b].owner.value].touched
  }

  ghost predicate Agrees(s: State, b: nat)
    requires b < |s.bufs|
  {
    var x := s.bufs[b];
    && (x.dirty ==> x.valid)
    && (x.valid ==> x.dev == 1 && x.blockno < |s.disk|)
    && (x.valid && !x.dirty && !Touched(s, b) ==> x.data == s.disk[x.blockno])
  }

  ghost predicate Coherent(s: State) {
    forall b: nat :: b < |s.bufs| ==> Agrees(s, b)
  }

  ghost predicate Inv(s: State) {
    OrderOk(s.order, |s.bufs|) && Unique(s) && Counted(s) && Locked(s) && Coherent(s)
  }

  // ----- counting -----

  lemma {:induction false} CountUpdate(hs: seq<Handle>, h: nat, x: Handle, b: nat)
    requires h < |hs|
    ensures Count(hs[h := x], b) + (if Uses(hs[h], b) then 1 else 0) == Count(hs, b) + (if Uses(x, b) then 1 else 0)
    decreases |hs|
  {
    var n := |hs| - 1;
    if h < n {
      CountUpdate(hs[..n], h, x, b);
      assert hs[h := x][..n] == hs[..n][h := x];
    } else {
      assert hs[h := x][..n] == hs[..n];
    }
  }

  lemma {:induction false} CountNone(hs: seq<Handle>, b: nat)
    requires forall h :: 0 <= h < |hs| ==> !Uses(hs[h], b)
    ensures Count(hs, b) == 0
  {
    if hs != [] {
      CountNone(hs[..|hs| - 1], b);
    }
  }

  /** A handle on b makes the count positive. */
  lemma CountSome(hs: seq<Handle>, h: nat, b: nat)
    requires h < |hs| && Uses(hs[h], b)
    ensures Count(hs, b) > 0
  {
    CountUpdate(hs, h, Free, b);
  }

  lemma StartOk(s: State)
    requires Start(s)
    ensures Inv(s)
  {
    forall b: nat | b < |s.bufs|
      ensures Count(s.handles, b) == 0
    {
      CountNone(s.handles, b);
    }
  }

  // ----- bget -----

  /** bget gives b one more reference; a recycled buffer had none, was clean, and nobody served the block. */
  lemma GetFacts(s: State, t: State, h: nat, dev: nat, blockno: nat, b: nat)
    requires Inv(s) && Bget(s, t, h, dev, blockno, b)
    ensures b < |s.bufs| && |t.bufs| == |s.bufs| && (forall c :: 0 <= c < |s.bufs| && c != b ==> t.bufs[c] == s.bufs[c])
    ensures Serves(t.bufs[b], dev, blockno) && t.bufs[b].refcnt == s.bufs[b].refcnt + 1
    ensures t.bufs[b].owner == s.bufs[b].owner
    ensures t.bufs[b] == s.bufs[b].(refcnt := s.bufs[b].refcnt + 1)
            || (t.bufs[b] == Recycled(s.bufs[b], dev, blockno) && Reusable(s.bufs[b])
        && forall c :: 0 <= c < |s.bufs| ==> !Serves(s.bufs[c], dev, blockno))
  {
    if Missing(s.bufs, s.order, dev, blockno) {
      forall c | 0 <= c < |s.bufs|
        ensures !Serves(s.bufs[c], dev, blockno)
      {
        Everything(s.order, |s.bufs|, c);
      }
    }
  }

  lemma GetUnique(s: State, t: State, h: nat, dev: nat, blockno: nat, b: nat)
    requires Inv(s) && Bget(s, t, h, dev, blockno, b)
    ensures Unique(t)
  {
    GetFacts(s, t, h, dev, blockno, b);
  }

  lemma GetCounted(s: State, t: State, h: nat, dev: nat, blockno: nat, b: nat)
    requires Inv(s) && Bget(s, t, h, dev, blockno, b)
    ensures Counted(t)
  {
    GetFacts(s, t, h, dev, blockno, b);
    forall c: nat | c < |t.bufs|
      ensures t.bufs[c].refcnt == Count(t.handles, c)
    {
      CountUpdate(s.handles, h, Got(b), c);
    }
  }

  lemma GetCoherent(s: State, t: State, h: nat, dev: nat, blockno: nat, b: nat)
    requires Inv(s) && Bget(s, t, h, dev, blockno, b)
    ensures Locked(t) && Coherent(t)
  {
    GetFacts(s, t, h, dev, blockno, b);
    forall c: nat | c < |t.bufs|
      ensures Agrees(t, c)
    {
      assert Agrees(s, c);
    }
  }

  lemma GetKeeps(s: State, t: State, h: nat, dev: nat, blockno: nat, b: nat)
    requires Inv(s) && Bget(s, t, h, dev, blockno, b)
    ensures Inv(t)
  {
    GetFacts(s, t, h, dev, blockno, b);
    GetUnique(s, t, h, dev, blockno, b);
    GetCounted(s, t, h, dev, blockno, b);
    GetCoherent(s, t, h, dev, blockno, b);
  }

  // ----- holders -----

  /** A step of handle h on its buffer: everything but lock, flags and data of that buffer is kept. */
  ghost predicate OnOwn(s: State, t: State, h: nat, b: nat) {
    && h < |s.handles| && b < |s.bufs| && Uses(s.handles[h], b)
    && |t.bufs| == |s.bufs| && |t.handles| == |s.handles| && t.order == s.order && |t.disk| == |s.disk|
    && (forall c :: 0 <= c < |s.bufs| && c != b ==> t.bufs[c] == s.bufs[c])
    && (forall k :: 0 <= k < |s.handles| && k != h ==> t.handles[k] == s.handles[k])
    && Uses(t.handles[h], b) && Serves(t.bufs[b], s.bufs[b].dev, s.bufs[b].blockno)
    && t.bufs[b].refcnt == s.bufs[b].refcnt
  }

  lemma HolderOwn(s: State, t: State, h: nat)
    requires Inv(s) && HolderNext(s, t, h)
    ensures h < |s.handles| && s.handles[h] != Free && OnOwn(s, t, h, s.handles[h].b)
  {
  }

  lemma OwnCounted(s: State, t: State, h: nat, b: nat)
    requires Unique(s) && Counted(s) && OnOwn(s, t, h, b)
    ensures Unique(t) && Counted(t)
  {
    assert t.handles == s.handles[h := t.handles[h]];
    forall c: nat | c < |t.bufs|
      ensures t.bufs[c].refcnt == Count(t.handles, c)
    {
      CountUpdate(s.handles, h, t.handles[h], c);
    }
  }

  lemma LockLocked(s: State, t: State, h: nat)
    requires Inv(s) && (Lock(s, t, h) || Unlock(s, t, h))
    ensures Locked(t)
  {
  }

  /** A step of a holder that keeps its lock. */
  lemma HeldLocked(s: State, t: State, h: nat, b: nat)
    requires Inv(s) && OnOwn(s, t, h, b) && s.handles[h].Held? && t.handles[h].Held?
    requires t.bufs[b].owner == s.bufs[b].owner
    ensures Locked(t)
  {
  }

  lemma HolderLocked(s: State, t: State, h: nat)
    requires Inv(s) && HolderNext(s, t, h)
    ensures Locked(t)
  {
    if Lock(s, t, h) || Unlock(s, t, h) {
      LockLocked(s, t, h);
    } else {
      HolderOwn(s, t, h);
      HeldLocked(s, t, h, s.handles[h].b);
    }
  }

  lemma HolderCoherent(s: State, t: State, h: nat)
    requires Inv(s) && HolderNext(s, t, h)
    ensures Coherent(t)
  {
    HolderOwn(s, t, h);
    var b := s.handles[h].b;
    forall c: nat | c < |t.bufs|
      ensures Agrees(t, c)
    {
      assert Agrees(s, c) && Agrees(s, b);
      assert c != b && s.bufs[b].dev == 1 ==> !Serves(s.bufs[c], s.bufs[b].dev, s.bufs[b].blockno);
    }
  }

  lemma HolderKeeps(s: State, t: State, h: nat)
    requires Inv(s) && HolderNext(s, t, h)
    ensures Inv(t)
  {
    HolderOwn(s, t, h);
    OwnCounted(s, t, h, s.handles[h].b);
    HolderLocked(s, t, h);
    HolderCoherent(s, t, h);
  }

  // ----- brelse -----

  lemma DropFacts(s: State, t: State, h: nat, i: nat, b: nat)
    requires Inv(s) && Drop(s, t, h, i) && b == s.order[i]
    ensures OrderOk(t.order, |t.bufs|) && |t.bufs| == |s.bufs| && t.disk == s.disk && t.handles == s.handles[h := Free]
    ensures t.bufs == s.bufs[b := s.bufs[b].(refcnt := s.bufs[b].refcnt - 1)] && s.bufs[b].refcnt > 0
    ensures s.handles[h] == Left(b)
  {
    FrontOk(s.order, |s.bufs|, i);
  }

  lemma DropCounted(s: State, t: State, h: nat, i: nat)
    requires Inv(s) && Drop(s, t, h, i)
    ensures Counted(t) && Unique(t)
  {
    DropFacts(s, t, h, i, s.order[i]);
    forall c: nat | c < |t.bufs|
      ensures t.bufs[c].refcnt == Count(t.handles, c)
    {
      CountUpdate(s.handles, h, Free, c);
    }
  }

  lemma DropKeeps(s: State, t: State, h: nat, i: nat)
    requires Inv(s) && Drop(s, t, h, i)
    ensures Inv(t)
  {
    DropFacts(s, t, h, i, s.order[i]);
    DropCounted(s, t, h, i);
    forall c: nat | c < |t.bufs|
      ensures Agrees(t, c)
    {
      assert Agrees(s, c);
    }
  }

  // ----- the cache is transparent -----

  /** Buffer b caches block n of the disk. */
  predicate Caches(s: State, b: nat, n: nat) {
    b < |s.bufs| && s.bufs[b].valid && Serves(s.bufs[b], 1, n)
  }

  /** What a user of block n sees: its buffer, or the disk. */
  ghost function View(s: State, n: nat): (d: Block)
    requires n < |s.disk|
  {
    if exists b: nat :: Caches(s, b, n) then
      var b: nat :| Caches(s, b, n);
      s.bufs[b].data
    else s.disk[n]
  }

  lemma ViewIs(s: State, n: nat, b: nat)
    requires Inv(s) && n < |s.disk| && Caches(s, b, n)
    ensures View(s, n) == s.bufs[b].data
  {
    CachesOne(s, n);
  }

  /** Of one buffer, block n looks the same in both states, and so it does of the disk when nothing caches it. */
  lemma ViewSame(s: State, t: State, n: nat)
    requires Inv(s) && Inv(t) && n < |s.disk| && |t.disk| == |s.disk|
    requires forall b: nat :: Caches(s, b, n) && Caches(t, b, n) ==> t.bufs[b].data == s.bufs[b].data
    requires forall b: nat :: Caches(s, b, n) && !Caches(t, b, n) ==> t.disk[n] == s.bufs[b].data
    requires forall b: nat :: !Caches(s, b, n) && Caches(t, b, n) ==> t.bufs[b].data == s.disk[n]
    requires (forall b: nat :: !Caches(s, b, n)) && (forall b: nat :: !Caches(t, b, n)) ==> t.disk[n] == s.disk[n]
    requires forall b: nat, c: nat :: Caches(s, b, n) && Caches(t, c, n) ==> b == c
    ensures View(t, n) == View(s, n)
  {
    if b: nat :| Caches(s, b, n) {
      ViewIs(s, n, b);
      if c: nat :| Caches(t, c, n) {
        ViewIs(t, n, c);
      }
    } else if c: nat :| Caches(t, c, n) {
      ViewIs(t, n, c);
    }
  }

  /** A clean, unlocked buffer shows what is on disk, so recycling it loses nothing. */
  lemma GetView(s: State, t: State, h: nat, dev: nat, blockno: nat, b: nat, n: nat)
    requires Inv(s) && Bget(s, t, h, dev, blockno, b) && n < |s.disk|
    ensures View(t, n) == View(s, n)
  {
    GetFacts(s, t, h, dev, blockno, b);
    GetKeeps(s, t, h, dev, blockno, b);
    assert Agrees(s, b);
    if Reusable(s.bufs[b]) {
      UnusedFree(s, b);
    }
    CachesOne(s, n);
    ViewSame(s, t, n);
  }

  lemma SameBuffer(s: State, a: nat, b: nat)
    requires Unique(s) && a < |s.bufs| && b < |s.bufs| && s.bufs[a].dev != 0
    requires Serves(s.bufs[b], s.bufs[a].dev, s.bufs[a].blockno)
    ensures a == b
  {
  }

  lemma CachesOne(s: State, n: nat)
    requires Inv(s)
    ensures forall b: nat, c: nat :: Caches(s, b, n) && Caches(s, c, n) ==> b == c
  {
    forall b: nat, c: nat | Caches(s, b, n) && Caches(s, c, n)
      ensures b == c
    {
      SameBuffer(s, b, c);
    }
  }

  /** A buffer nobody counts is nobody's. */
  lemma UnusedFree(s: State, b: nat)
    requires Inv(s) && b < |s.bufs| && s.bufs[b].refcnt == 0
    ensures s.bufs[b].owner == None && forall h: nat :: h < |s.handles| ==> !Uses(s.handles[h], b)
  {
    forall h: nat | h < |s.handles|
      ensures !Uses(s.handles[h], b)
    {
      if Uses(s.handles[h], b) {
        CountSome(s.handles, h, b);
      }
    }
    if s.bufs[b].owner.Some? {
      assert Uses(s.handles[s.bufs[b].owner.value], b);
    }
  }

  lemma HolderView(s: State, t: State, h: nat, n: nat)
    requires Inv(s) && HolderNext(s, t, h) && n < |s.disk|
    requires (forall data :: !Modify(s, t, h, data)) || !Serves(s.bufs[s.handles[h].b], 1, n)
    ensures View(t, n) == View(s, n)
  {
    HolderOwn(s, t, h);
    HolderKeeps(s, t, h);
    var b := s.handles[h].b;
    assert Agrees(s, b);
    CachesOne(s, n);
    CachesOne(t, n);
    assert forall c: nat :: c != b ==> (Caches(s, c, n) <==> Caches(t, c, n));
    assert Caches(s, b, n) ==> Caches(t, b, n);
    ViewSame(s, t, n);
  }

  lemma DropView(s: State, t: State, h: nat, i: nat, n: nat)
    requires Inv(s) && Drop(s, t, h, i) && n < |s.disk|
    ensures View(t, n) == View(s, n)
  {
    DropFacts(s, t, h, i, s.order[i]);
    DropKeeps(s, t, h, i);
    CachesOne(s, n);
    assert forall c: nat :: Caches(s, c, n) <==> Caches(t, c, n);
    ViewSame(s, t, n);
  }

  // ----- whole runs -----

  ghost predicate IsRun(r: seq<State>) {
    r != [] && Start(r[0]) && forall i: nat :: i + 1 < |r| ==> Next(r[i], r[i + 1])
  }

  lemma NextKeeps(s: State, t: State)
    requires Inv(s) && Next(s, t)
    ensures Inv(t)
  {
    if h: nat, dev: nat, blockno: nat, b: nat :| Bget(s, t, h, dev, blockno, b) {
      GetKeeps(s, t, h, dev, blockno, b);
    } else if h: nat :| HolderNext(s, t, h) {
      HolderKeeps(s, t, h);
    } else {
      var h: nat, i: nat :| Drop(s, t, h, i);
      DropKeeps(s, t, h, i);
    }
  }

  lemma {:induction false} RunInv(r: seq<State>, i: nat)
    requires IsRun(r) && i < |r|
    ensures Inv(r[i])
  {
    if i == 0 {
      StartOk(r[0]);
    } else {
      RunInv(r, i - 1);
      assert Next(r[i - 1], r[i - 1 + 1]);
      NextKeeps(r[i - 1], r[i]);
    }
  }

  /** In every run no two buffers ever serve one block of a device other than 0, and reference counts count. */
  lemma OneBuffer(r: seq<State>, i: nat, a: nat, b: nat)
    requires IsRun(r) && i < |r| && a < |r[i].bufs| && b < |r[i].bufs|
    ensures a != b && r[i].bufs[a].dev != 0 ==> !Serves(r[i].bufs[b], r[i].bufs[a].dev, r[i].bufs[a].blockno)
    ensures r[i].bufs[a].refcnt == Count(r[i].handles, a)
  {
    RunInv(r, i);
    if r[i].bufs[a].dev != 0 && Serves(r[i].bufs[b], r[i].bufs[a].dev, r[i].bufs[a].blockno) {
      SameBuffer(r[i], a, b);
    }
  }

  /** Cache coherence: a buffer that is valid, clean and not locked holds what its disk block holds. */
  lemma CleanIsDisk(r: seq<State>, i: nat, b: nat)
    requires IsRun(r) && i < |r| && b < |r[i].bufs|
    requires r[i].bufs[b].valid && !r[i].bufs[b].dirty && r[i].bufs[b].owner == None
    ensures r[i].bufs[b].dev == 1 && r[i].bufs[b].blockno < |r[i].disk|
    ensures r[i].bufs[b].data == r[i].disk[r[i].bufs[b].blockno]
  {
    RunInv(r, i);
    assert Agrees(r[i], b);
  }

  /** bget changes the block of a buffer only when nobody uses it, it is not locked and not dirty. */
  lemma RecycleSafe(r: seq<State>, i: nat, h: nat, dev: nat, blockno: nat, b: nat)
    requires IsRun(r) && i + 1 < |r| && Bget(r[i], r[i + 1], h, dev, blockno, b)
    ensures b < |r[i].bufs| == |r[i + 1].bufs| && r[i + 1].bufs[b].dev == dev && r[i + 1].bufs[b].blockno == blockno
    ensures r[i].bufs[b].dev != dev || r[i].bufs[b].blockno != blockno ==>
              && !r[i].bufs[b].dirty && r[i].bufs[b].owner == None
              && forall k: nat :: k < |r[i].handles| ==> !Uses(r[i].handles[k], b)
  {
    RunInv(r, i);
    GetFacts(r[i], r[i + 1], h, dev, blockno, b);
    if r[i].bufs[b].refcnt == 0 {
      UnusedFree(r[i], b);
    }
  }

  /** brelse never drops a reference count below zero. */
  lemma ReleaseCounts(r: seq<State>, i: nat, h: nat)
    requires IsRun(r) && i < |r| && h < |r[i].handles| && r[i].handles[h] != Free
    ensures r[i].handles[h].b < |r[i].bufs| && r[i].bufs[r[i].handles[h].b].refcnt > 0
  {
    RunInv(r, i);
    CountSome(r[i].handles, h, r[i].handles[h].b);
  }

  /** The step is a holder writing new data into the buffer of block n. */
  ghost predicate Changes(s: State, t: State, n: nat) {
    exists h: nat, data :: Modify(s, t, h, data) && Serves(s.bufs[s.handles[h].b], 1, n)
  }

  /**
   The cache is transparent: a step changes what users see of block n only if it is
   a holder changing the data of the buffer that serves n.
   */
  lemma Transparent(r: seq<State>, i: nat, n: nat)
    requires IsRun(r) && i + 1 < |r| && n < |r[i].disk|
    requires !Changes(r[i], r[i + 1], n)
    ensures |r[i + 1].disk| == |r[i].disk| && View(r[i + 1], n) == View(r[i], n)
  {
    RunInv(r, i);
    var s, t := r[i], r[i + 1];
    assert Next(s, t);
    if h: nat, dev: nat, blockno: nat, b: nat :| Bget(s, t, h, dev, blockno, b) {
      GetView(s, t, h, dev, blockno, b, n);
    } else if h: nat :| HolderNext(s, t, h) {
      HolderOwn(s, t, h);
      HolderView(s, t, h, n);
    } else {
      var h: nat, k: nat :| Drop(s, t, h, k);
      DropView(s, t, h, k, n);
    }
  }

  // ----- least recently used -----

  /** The step takes the last reference to buffer b. */
  ghost predicate Freed(s: State, t: State, b: nat) {
    b < |s.bufs| && b < |t.bufs| && s.bufs[b].refcnt > 0 && t.bufs[b].refcnt == 0
  }

  /** The last step before state i that took the last reference to b; -1 when there is none. */
  ghost function LastFree(r: seq<State>, i: nat, b: nat): (m: int)
    requires i < |r|
    ensures -1 <= m < i
  {
    if i == 0 then -1 else if Freed(r[i - 1], r[i], b) then i - 1 else LastFree(r, i - 1, b)
  }

  predicate Later(x: int, y: int) {
    x > y || x == y == -1
  }

  /** The list runs from the buffer released last to the one released first. */
  ghost predicate ByRelease(r: seq<State>, i: nat, order: seq<nat>)
    requires i < |r|
  {
    forall j, k :: 0 <= j < k < |order| ==> Later(LastFree(r, i, order[j]), LastFree(r, i, order[k]))
  }

  lemma GetOrder(s: State, t: State, h: nat, dev: nat, blockno: nat, b: nat)
    requires Inv(s) && Bget(s, t, h, dev, blockno, b)
    ensures t.order == s.order && forall c: nat :: !Freed(s, t, c)
  {
    GetFacts(s, t, h, dev, blockno, b);
  }

  lemma HolderOrder(s: State, t: State, h: nat)
    requires Inv(s) && HolderNext(s, t, h)
    ensures t.order == s.order && forall c: nat :: !Freed(s, t, c)
  {
    HolderOwn(s, t, h);
  }

  lemma DropOrder(s: State, t: State, h: nat, p: nat, b: nat)
    requires Inv(s) && Drop(s, t, h, p) && b == s.order[p]
    ensures forall c: nat :: Freed(s, t, c) <==> c == b && s.bufs[b].refcnt == 1
    ensures t.order == if s.bufs[b].refcnt == 1 then [b] + Without(s.order, p) else s.order
  {
    DropFacts(s, t, h, p, b);
  }

  /** A step takes at most one last reference, and moves that buffer, and no other, to the front. */
  lemma NextOrder(s: State, t: State) returns (freed: bool, p: nat)
    requires Inv(s) && Next(s, t)
    ensures !freed ==> t.order == s.order && forall b: nat :: !Freed(s, t, b)
    ensures freed ==> p < |s.order| && t.order == [s.order[p]] + Without(s.order, p)
    ensures freed ==> forall b: nat :: Freed(s, t, b) <==> b == s.order[p]
  {
    freed, p := false, 0;
    if h: nat, dev: nat, blockno: nat, b: nat :| Bget(s, t, h, dev, blockno, b) {
      GetOrder(s, t, h, dev, blockno, b);
    } else if h: nat :| HolderNext(s, t, h) {
      HolderOrder(s, t, h);
    } else {
      var h: nat, i: nat :| Drop(s, t, h, i);
      DropOrder(s, t, h, i, s.order[i]);
      freed, p := s.bufs[s.order[i]].refcnt == 1, i;
    }
  }

  lemma Moved(r: seq<State>, h: nat, i: nat, order: seq<nat>, p: nat, order': seq<nat>)
    requires i == h + 1 < |r| && p < |order| && Distinct(order) && order' == [order[p]] + Without(order, p)
    requires ByRelease(r, h, order) && forall b: nat :: Freed(r[h], r[i], b) <==> b == order[p]
    ensures ByRelease(r, i, order')
  {
    var w := Without(order, p);
    forall j, k | 0 <= j < k < |order'|
      ensures Later(LastFree(r, i, order'[j]), LastFree(r, i, order'[k]))
    {
      var y := if k - 1 < p then k - 1 else k;
      assert order'[k] == w[k - 1] == order[y] && order[y] != order[p];
      if j > 0 {
        var x := if j - 1 < p then j - 1 else j;
        assert order'[j] == w[j - 1] == order[x] && order[x] != order[p];
      }
    }
  }

  /** In every state of every run the list is ordered by release, the latest first. */
  lemma {:induction false} ReleaseOrder(r: seq<State>, i: nat)
    requires IsRun(r) && i < |r|
    ensures ByRelease(r, i, r[i].order)
  {
    if i > 0 {
      var h := i - 1;
      ReleaseOrder(r, h);
      RunInv(r, h);
      assert Next(r[h], r[h + 1]);
      var freed, p := NextOrder(r[h], r[i]);
      if freed {
        Moved(r, h, i, r[h].order, p, r[i].order);
      }
    }
  }

  /** bget takes the last buffer of the list that it may take. */
  lemma TakenLast(bufs: seq<Buf>, order: seq<nat>, dev: nat, blockno: nat, b: nat, bufs': seq<Buf>, c: nat)
    returns (j: nat, k: nat)
    requires OrderOk(order, |bufs|) && Gets(bufs, order, dev, blockno, b, bufs') && b < |bufs|
    requires !Serves(bufs[b], dev, blockno) && c < |bufs| && c != b && Reusable(bufs[c])
    ensures j < k < |order| && order[j] == c && order[k] == b
  {
    k :| VictimAt(bufs, order, k) && b == order[k];
    Everything(order, |bufs|, c);
    j :| 0 <= j < |order| && order[j] == c;
  }

  /** A buffer that bget takes for another block is, of those it may take, the one released longest ago. */
  lemma LeastRecent(r: seq<State>, i: nat, h: nat, dev: nat, blockno: nat, b: nat, c: nat)
    requires IsRun(r) && i + 1 < |r| && Bget(r[i], r[i + 1], h, dev, blockno, b)
    requires b < |r[i].bufs| && !Serves(r[i].bufs[b], dev, blockno)
    requires c < |r[i].bufs| && c != b && r[i].bufs[c].refcnt == 0 && !r[i].bufs[c].dirty
    ensures Later(LastFree(r, i, c), LastFree(r, i, b))
  {
    ReleaseOrder(r, i);
    var j, k := TakenLast(r[i].bufs, r[i].order, dev, blockno, b, r[i + 1].bufs, c);
  }
}
