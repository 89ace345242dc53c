/**
 The buffer cache of bio.c: the list operations of binit, bget and brelse on the
 real links.  owner is the holder of a buffer's sleep lock.
 */
module Bio {
  import opened Wrappers
  import opened Collections
  import opened Params
  import opened BufList

  type Block = seq<int>

  const NBUF: nat := MAXOPBLOCKS * 3

  datatype Buf = Buf(dev: nat, blockno: nat, valid: bool, dirty: bool, refcnt: nat, owner: Option<nat>, data: Block)

  predicate Serves(x: Buf, dev: nat, blockno: nat) {
    x.dev == dev && x.blockno == blockno
  }

  /** Neither referenced nor holding an uncommitted write. */
  predicate Reusable(x: Buf) {
    x.refcnt == 0 && !x.dirty
  }

  function Recycled(x: Buf, dev: nat, blockno: nat): (y: Buf) {
    x.(dev := dev, blockno := blockno, valid := false, dirty := false, refcnt := 1)
  }

  /** Every buffer is in the list once. */
  ghost predicate OrderOk(order: seq<nat>, n: nat) {
    |order| == n && Distinct(order) && forall i :: 0 <= i < n ==> order[i] < n
  }

  /** The first buffer in the list that serves the block is the one at position i. */
  ghost predicate HitAt(bufs: seq<Buf>, order: seq<nat>, dev: nat, blockno: nat, i: nat)
    requires OrderOk(order, |bufs|)
  {
    && i < |order| && Serves(bufs[order[i]], dev, blockno)
    && forall j :: 0 <= j < i ==> !Serves(bufs[order[j]], dev, blockno)
  }

  ghost predicate Missing(bufs: seq<Buf>, order: seq<nat>, dev: nat, blockno: nat)
    requires OrderOk(order, |bufs|)
  {
    forall j :: 0 <= j < |order| ==> !Serves(bufs[order[j]], dev, blockno)
  }

  /** The least recently released buffer that may be reused is the one at position i. */
  ghost predicate VictimAt(bufs: seq<Buf>, order: seq<nat>, i: nat)
    requires OrderOk(order, |bufs|)
  {
    && i < |order| && Reusable(bufs[order[i]])
    && forall j :: i < j < |order| ==> !Reusable(bufs[order[j]])
  }

  ghost predicate NoVictim(bufs: seq<Buf>, order: seq<nat>)
    requires OrderOk(order, |bufs|)
  {
    forall j :: 0 <= j < |order| ==> !Reusable(bufs[order[j]])
  }

  /** The locked part of bget, when it returns buffer b. */
  ghost predicate Gets(bufs: seq<Buf>, order: seq<nat>, dev: nat, blockno: nat, b: nat, bufs': seq<Buf>)
    requires OrderOk(order, |bufs|)
  {
    || (exists i: nat ::
          && HitAt(bufs, order, dev, blockno, i) && b == order[i]
          && bufs' == bufs[b := bufs[b].(refcnt := bufs[b].refcnt + 1)])
    || (Missing(bufs, order, dev, blockno)
        && exists i: nat ::
             && VictimAt(bufs, order, i) && b == order[i]
             && bufs' == bufs[b := Recycled(bufs[b], dev, blockno)])
  }

  /** bget panics. */
  ghost predicate NoBuffers(bufs: seq<Buf>, order: seq<nat>, dev: nat, blockno: nat)
    requires OrderOk(order, |bufs|)
  {
    Missing(bufs, order, dev, blockno) && NoVictim(bufs, order)
  }

  /** The locked part of brelse of the buffer at position i: it moves to the front when nobody is left. */
  ghost predicate Drops(bufs: seq<Buf>, order: seq<nat>, i: nat, bufs': seq<Buf>, order': seq<nat>)
    requires OrderOk(order, |bufs|) && i < |order|
  {
    var b := order[i];
    && bufs[b].refcnt > 0 && bufs' == bufs[b := bufs[b].(refcnt := bufs[b].refcnt - 1)]
    && order' == if bufs[b].refcnt == 1 then [b] + Without(order, i) else order
  }

  lemma FrontOk(order: seq<nat>, n: nat, i: nat)
    requires OrderOk(order, n) && i < n
    ensures OrderOk([order[i]] + Without(order, i), n)
  {
    var q, w := [order[i]] + Without(order, i), Without(order, i);
    forall k | 0 < k < |q|
      ensures q[k] == w[k - 1] && q[k] != q[0] && q[k] < n
    {
    }
    forall j, k | 0 < j < k < |q|
      ensures q[j] != q[k]
    {
      assert w[j - 1] == if j - 1 < i then order[j - 1] else order[j];
      assert w[k - 1] == if k - 1 < i then order[k - 1] else order[k];
    }
  }

  /** The neighbours of the head. */
  lemma HeadLinks(next: Links, prev: Links, head: nat, order: seq<nat>)
    requires Circle(next, prev, head, order)
    ensures head < |next| && head !in order
    ensures next[head] == (if order == [] then head else order[0]) && next[head] < |next|
    ensures prev[head] == (if order == [] then head else order[|order| - 1]) && prev[head] < |next|
  {
    var r := Around(head, order);
    assert r[0] == head && After(r, |r| - 1) == head && r[1..] == order;
    assert next[r[0]] == After(r, 0);
  }

  /** The neighbours of the buffer at position i. */
  lemma NodeLinks(next: Links, prev: Links, head: nat, order: seq<nat>, i: nat)
    requires Circle(next, prev, head, order) && i < |order|
    ensures order[i] < |next| && order[i] != head
    ensures next[order[i]] == (if i + 1 < |order| then order[i + 1] else head) && next[order[i]] < |next|
    ensures prev[order[i]] == (if i > 0 then order[i - 1] else head) && prev[order[i]] < |next|
    ensures next[order[i]] != order[i] && prev[order[i]] != order[i]
  {
    var r := Around(head, order);
    Neighbours(next, prev, r, i + 1);
    assert r[0] == head && r[1..] == order && r[i + 1] == order[i];
  }

  /** The list while binit builds it: the first k buffers. */
  lemma BuildOk(order: seq<nat>, k: nat)
    requires OrderOk(order, k)
    ensures OrderOk([k] + order, k + 1) && k !in order
  {
  }

  class Cache {
    const buf: array<Buf>
    const next: array<nat>
    const prev: array<nat>
    ghost var order: seq<nat>

    ghost predicate Shape()
      reads this
    {
      buf.Length == NBUF && next.Length == NBUF + 1 && prev.Length == NBUF + 1 && next != prev
    }

    ghost predicate Valid()
      reads this, buf, next, prev
    {
      Shape() && OrderOk(order, NBUF) && Circle(next[..], prev[..], NBUF, order)
    }

    /** The insertion that binit and brelse share. */
    method PushFront(b: nat)
      requires Shape() && Circle(next[..], prev[..], NBUF, order) && b < NBUF && b !in order
      modifies this`order, next, prev
      ensures Circle(next[..], prev[..], NBUF, order) && order == [b] + old(order)
    {
      HeadLinks(next[..], prev[..], NBUF, order);
      ghost var nx, pv := next[..], prev[..];
      ghost var f := next[NBUF];
      assert f < NBUF + 1;
      next[b] := next[NBUF];
      prev[b] := NBUF;
      assert next[NBUF] == f;
      prev[next[NBUF]] := b;
      next[NBUF] := b;
      InsertFront(nx, pv, NBUF, order, b, f, next[..], prev[..]);
      order := [b] + order;
    }

    /** binit: the zeroed buffers, linked. */
    constructor ()
      ensures Valid() && fresh(buf) && fresh(next) && fresh(prev)
      ensures forall k :: 0 <= k < NBUF ==> buf[k] == Buf(0, 0, false, false, 0, None, [])
    {
      buf := new Buf[NBUF](_ => Buf(0, 0, false, false, 0, None, []));
      next := new nat[NBUF + 1];
      prev := new nat[NBUF + 1];
      order := [];
      new;
      prev[NBUF] := NBUF;
      next[NBUF] := NBUF;
      Alone(next[..], prev[..], NBUF);
      var b := 0;
      while b < NBUF
        invariant 0 <= b <= NBUF && Shape() && OrderOk(order, b) && Circle(next[..], prev[..], NBUF, order)
        invariant forall k :: 0 <= k < NBUF ==> buf[k] == Buf(0, 0, false, false, 0, None, [])
      {
        BuildOk(order, b);
        PushFront(b);
        b := b + 1;
      }
    }

    /** The first scan of bget: forward through next. */
    method Lookup(dev: nat, blockno: nat) returns (found: bool, b: nat, ghost i: nat)
      requires Valid()
      ensures found ==> HitAt(buf[..], order, dev, blockno, i) && b == order[i]
      ensures !found ==> Missing(buf[..], order, dev, blockno)
    {
      HeadLinks(next[..], prev[..], NBUF, order);
      b, i := next[NBUF], 0;
      while b != NBUF
        invariant 0 <= i <= NBUF && b == if i < NBUF then order[i] else NBUF
        invariant forall j :: 0 <= j < i ==> !Serves(buf[order[j]], dev, blockno)
        decreases NBUF - i
      {
        if buf[b].dev == dev && buf[b].blockno == blockno {
          return true, b, i;
        }
        NodeLinks(next[..], prev[..], NBUF, order, i);
        b, i := next[b], i + 1;
      }
      found := false;
    }

    /** The second scan of bget: backward through prev. */
    method Reclaim() returns (found: bool, b: nat, ghost i: nat)
      requires Valid()
      ensures found ==> VictimAt(buf[..], order, i) && b == order[i]
      ensures !found ==> NoVictim(buf[..], order)
    {
      HeadLinks(next[..], prev[..], NBUF, order);
      b := prev[NBUF];
      ghost var k := NBUF;
      while b != NBUF
        invariant 0 <= k <= NBUF && b == if k > 0 then order[k - 1] else NBUF
        invariant forall j :: k <= j < NBUF ==> !Reusable(buf[order[j]])
        decreases k
      {
        if buf[b].refcnt == 0 && !buf[b].dirty {
          return true, b, k - 1;
        }
        NodeLinks(next[..], prev[..], NBUF, order, k - 1);
        b, k := prev[b], k - 1;
      }
      found, i := false, 0;
    }

    /** bget up to the release of bcache.lock; ok is false where it panics. */
    method Bget(dev: nat, blockno: nat) returns (ok: bool, b: nat)
      requires Valid()
      modifies buf
      ensures Valid() && order == old(order)
      ensures ok ==> b < NBUF && buf[b].dev == dev && buf[b].blockno == blockno
      ensures ok ==> buf[b].refcnt == old(buf[b].refcnt) + 1
      ensures ok ==> forall c :: 0 <= c < NBUF && c != b ==> buf[c] == old(buf[c])
      ensures ok ==> Gets(old(buf[..]), order, dev, blockno, b, buf[..])
      ensures !ok ==> NoBuffers(old(buf[..]), order, dev, blockno) && buf[..] == old(buf[..])
    {
      ghost var i;
      ok, b, i := Lookup(dev, blockno);
      if ok {
        buf[b] := buf[b].(refcnt := buf[b].refcnt + 1);
        return;
      }
      ok, b, i := Reclaim();
      if ok {
        buf[b] := Recycled(buf[b], dev, blockno);
      }
    }

    /** brelse behind releasesleep. */
    method Brelse(b: nat, ghost i: nat)
      requires Valid() && i < NBUF && b == order[i] && buf[b].refcnt > 0
      modifies this`order, buf, next, prev
      ensures Valid() && Drops(old(buf[..]), old(order), i, buf[..], order)
    {
      buf[b] := buf[b].(refcnt := buf[b].refcnt - 1);
      if buf[b].refcnt == 0 {
        FrontOk(order, NBUF, i);
        NodeLinks(next[..], prev[..], NBUF, order, i);
        ghost var nx, pv := next[..], prev[..];
        prev[next[b]] := prev[b];
        next[prev[b]] := next[b];
        Unlink(nx, pv, NBUF, order, i, b, next[..], prev[..]);
        order := Without(order, i);
        PushFront(b);
      }
    }
  }
}
