/**
 umalloc.c: malloc and free over the circular, address-ordered free list threaded
 through the headers.  Addresses count units of one header (8 bytes); 0 is the
 null pointer.
 */
module Umalloc {
  import opened Params
  import opened FreeList

  /** The units malloc asks for: the bytes rounded up, in 32-bit arithmetic, plus the header. */
  function UnitsFor(nbytes: nat): (n: nat)
    ensures n > 0
    ensures nbytes < TWO32 ==> (8 * (n - 1) >= nbytes <==> nbytes + 7 < TWO32)
  {
    (nbytes + 8 - 1) % TWO32 / 8 + 1
  }

  /** The int that the uint x becomes when it is passed to sbrk. */
  function ToInt(x: nat): (n: int)
    ensures -0x8000_0000 <= n < 0x8000_0000
  {
    var m := x % TWO32;
    if m < 0x8000_0000 then m else m - TWO32
  }

  /** The units morecore asks sbrk for. */
  function Core(nunits: nat): (nu: nat)
    ensures nu >= 4096 && nu >= nunits && (nu == 4096 || nu == nunits)
  {
    if nunits < 4096 then 4096 else nunits
  }

  /** The break, in units, after sbrk moves it by n bytes from p; a decrease past zero leaves it alone. */
  function Moved(p: int, n: int): (b: int) {
    if n >= 0 then p + n / 8 else if -n < 8 * p then p - (-n) / 8 else p
  }

  /** The bytes that morecore for nunits passes to sbrk are a positive int. */
  predicate SbrkFits(nunits: nat) {
    8 * Core(nunits) < 0x8000_0000
  }

  /** sbrk moves the break past the whole block exactly when its byte count is a positive int. */
  lemma BreakMoves(p: int, nunits: nat, n: int, b: int)
    requires 0 < p && n == ToInt(8 * Core(nunits)) && b == Moved(p, n)
    ensures SbrkFits(nunits) ==> b == p + Core(nunits)
    ensures !SbrkFits(nunits) ==> b < p + Core(nunits)
  {
  }

  /**
   The requests malloc can serve by growing: the units hold the bytes, and the break
   moves past them, exactly up to 0x7FFF_FFF0 bytes.
   */
  lemma GrowableRequests(nbytes: nat)
    requires nbytes < TWO32
    ensures 8 * (UnitsFor(nbytes) - 1) >= nbytes && SbrkFits(UnitsFor(nbytes)) <==> nbytes <= 0x7FFF_FFF0
  {
    var m := nbytes + 7;
    assert nbytes + 8 - 1 == m;
    if m < TWO32 {
      assert m % TWO32 == m;
    } else {
      assert m % TWO32 == m - TWO32 < 7;
    }
  }

  /** One byte more asks sbrk to shrink by two gigabytes; the largest rounded request asks it for nothing. */
  lemma OversizedRequests()
    ensures ToInt(8 * Core(UnitsFor(0x7FFF_FFF1))) == -0x8000_0000
    ensures ToInt(8 * Core(UnitsFor(0xFFFF_FFF8))) == 0
    ensures forall p :: p > 0x1000_0000 ==> Moved(p, -0x8000_0000) == p - 0x1000_0000
    ensures forall p :: p > 0 ==> Moved(p, 0) == p
  {
    assert UnitsFor(0x7FFF_FFF1) == 0x1000_0000;
    assert UnitsFor(0xFFFF_FFF8) == 0x2000_0000;
  }

  /** Unit u belongs to the allocated block whose header is at a. */
  ghost predicate InLive(live: Fields, a: int, u: int) {
    a in live && a <= u < a + live[a]
  }

  /** Allocated blocks have their size in the header, lie above base, and share no unit with a free block. */
  ghost predicate LiveOk(base: int, list: seq<int>, size: Fields, live: Fields) {
    && (forall a :: a in live ==> a in size && size[a] == live[a] > 0 && base < a && a !in list)
    && (forall a, u :: InLive(live, a, u) ==> !Free(list, size, u))
  }

  /** No two allocated blocks share a unit. */
  ghost predicate LiveDisjoint(live: Fields) {
    forall a, b, u :: InLive(live, a, u) && InLive(live, b, u) ==> a == b
  }

  /** Every unit obtained from sbrk is free or allocated, and no other unit is. */
  ghost predicate Partition(list: seq<int>, size: Fields, live: Fields, heap: set<int>) {
    forall u :: u in heap <==> Free(list, size, u) || exists a :: InLive(live, a, u)
  }

  /** The allocator between calls, once malloc has run. */
  ghost predicate HeapOk(base: int, list: seq<int>, ptr: Fields, size: Fields, live: Fields, heap: set<int>, brk: int) {
    && Sorted(list, size) && Linked(list, ptr) && list[0] == base && 0 < base < brk
    && LiveOk(base, list, size, live)
    && LiveDisjoint(live)
    && Partition(list, size, live, heap)
    && (forall u :: u in heap ==> base < u < brk)
  }

  /** The allocator between calls: not yet used, or with a well-formed heap. */
  ghost predicate Ready(base: int, list: seq<int>, ptr: Fields, size: Fields, live: Fields, heap: set<int>, brk: int) {
    list == [] || HeapOk(base, list, ptr, size, live, heap, brk)
  }

  /** A block above base none of whose units is free overlaps no block of the list. */
  lemma UnitsToBlocks(list: seq<int>, size: Fields, a: int, n: int)
    requires Sorted(list, size) && list[0] < a && n > 0
    requires forall u :: a <= u < a + n ==> !Free(list, size, u)
    ensures NoneFree(list, size, a, n)
  {
    forall i | 0 <= i < |list|
      ensures a + n <= list[i] || End(size, list[i]) <= a
    {
      var u := if a < list[i] then list[i] else a;
      assert a <= u < a + n ==> !Free(list, size, u);
      assert a <= u < a + n ==> !InBlock(list, size, i, u);
    }
  }

  class Allocator {
    /** The static header base, and freep. */
    const base: int
    var freep: int
    /** s.ptr and s.size of every header written so far. */
    var ptr: Fields
    var size: Fields
    /** Everything below brk may be in use; sbrk returns addresses from brk on. */
    var brk: int
    /** The free list in address order, the allocated blocks, the units sbrk has returned. */
    ghost var list: seq<int>
    ghost var live: Fields
    ghost var heap: set<int>
    /** One past the highest unit that morecore has put on the list. */
    ghost var top: int

    /** The list and the headers are well formed, wherever the break is. */
    ghost predicate Managed()
      reads this
    {
      && 0 < base < top
      && (freep == 0 ==> live == map[] && heap == {} && list == [])
      && (freep != 0 ==> freep in list)
      && Ready(base, list, ptr, size, live, heap, top)
    }

    /** And everything the allocator hands out lies below the break. */
    ghost predicate Valid()
      reads this
    {
      Managed() && top <= brk
    }

    constructor (b: int, start: int)
      requires 0 < b < start
      ensures Valid() && freep == 0 && live == map[] && heap == {}
    {
      base, brk, top, freep := b, start, start, 0;
      ptr, size, list, live, heap := map[], map[], [], map[], {};
    }

    /** The search loop of free: the header after which the block at bp belongs. */
    method Search(bp: int, ghost k: int, ghost t: int) returns (p: int)
      requires Sorted(list, size) && Linked(list, ptr) && 0 <= k < |list| && freep == list[k]
      requires Before(list, bp, t) && list[0] < bp
      ensures p == list[t]
    {
      p := freep;
      ghost var i := k;
      while !(bp > p && bp < ptr[p])
        invariant 0 <= i < |list| && p == list[i]
        decreases if i <= t then t - i else t - i + |list|
      {
        SortedDistinct(list, size);
        OrderAt(list, size, i, t);
        if p >= ptr[p] && (bp > p || bp < ptr[p]) {
          break;
        }
        p := ptr[p];
        i := if i == |list| - 1 then 0 else i + 1;
      }
      OrderAt(list, size, i, t);
    }

    /** The two merging steps of free, after header p. */
    method Merge(bp: int, p: int)
      requires p in ptr && p in size && bp in size && ptr[p] in size && ptr[p] in ptr && p != bp
      modifies this`ptr, this`size
      ensures size == MergedSizes(old(ptr), old(size), bp, p)
      ensures ptr == MergedPtrs(old(ptr), old(size), bp, p)
    {
      if bp + size[bp] == ptr[p] {
        size := size[bp := size[bp] + size[ptr[p]]];
        ptr := ptr[bp := ptr[ptr[p]]];
      } else {
        ptr := ptr[bp := ptr[p]];
      }
      if p + size[p] == bp {
        size := size[p := size[p] + size[bp]];
        ptr := ptr[p := ptr[bp]];
      } else {
        ptr := ptr[p := bp];
      }
    }

    /**
     free of the block whose header is at bp: the free units become the old ones
     and those of the block, in one sorted, gap-separated, circular list, whatever
     neighbours it merges with; the new block is then at freep or right after it.
     */
    method FreeBlock(bp: int)
      requires Sorted(list, size) && Linked(list, ptr) && freep in list && list[0] < bp
      requires bp in size && size[bp] > 0 && NoneFree(list, size, bp, size[bp])
      modifies this`ptr, this`size, this`freep, this`list
      ensures Freed(old(list), old(size), bp, list, ptr, size, freep)
    {
      ghost var l, pt, sz := list, ptr, size;
      ghost var k :| 0 <= k < |list| && list[k] == freep;
      ghost var t := FindPosition(list, ptr, size, bp);
      var p := Search(bp, k, t);
      Merge(bp, p);
      freep := p;
      list := FreedList(l, pt, sz, bp, t);
      FreedOk(l, pt, sz, bp, t, list, ptr, size, p);
    }

    /** free(ap): the block whose header is just below ap goes back to the list. */
    method Free(ap: int)
      requires Valid() && ap - 1 in live
      modifies this`ptr, this`size, this`freep, this`list, this`live
      ensures Valid() && live == old(live) - {ap - 1}
      ensures forall u :: FreeList.Free(list, size, u) <==>
                FreeList.Free(old(list), old(size), u) || InLive(old(live), ap - 1, u)
    {
      var bp := ap - 1;
      assert InLive(live, bp, bp);
      ghost var l, pt, sz := list, ptr, size;
      forall u | bp <= u < bp + size[bp]
        ensures !FreeList.Free(list, size, u)
      {
        assert InLive(live, bp, u);
      }
      UnitsToBlocks(list, size, bp, size[bp]);
      FreeBlock(bp);
      FreeKeeps(base, l, pt, sz, live, heap, top, bp, list, ptr, size, freep);
      live := live - {bp};
    }

    /**
     sbrk(n) for an int n: fails, or returns a break at or above the one last seen
     and moves it by n bytes, down when n is negative.
     */
    method Sbrk(n: int) returns (p: int)
      requires brk > 0 && -0x8000_0000 <= n < 0x8000_0000 && n % 8 == 0
      modifies this`brk
      ensures p == -1 ==> brk == old(brk)
      ensures p != -1 ==> p >= old(brk) && -n != 8 * p && brk == Moved(p, n)
    {
      var gap: int :| gap >= 0;
      p := brk + gap;
      if * {
        return -1;
      }
      if -n == 8 * p {
        return -1;
      }
      brk := Moved(p, n);
    }

    /** The sbrk of morecore moves the break past the whole block exactly when the byte count is a positive int. */
    method MoreBytes(nunits: nat, nu: nat) returns (hp: int)
      requires brk > 0 && nu == Core(nunits)
      modifies this`brk
      ensures hp == -1 ==> brk == old(brk)
      ensures hp != -1 ==> hp >= old(brk) && (hp + nu <= brk <==> SbrkFits(nunits))
    {
      hp := Sbrk(ToInt(8 * nu));
      if hp != -1 {
        BreakMoves(hp, nunits, ToInt(8 * nu), brk);
      }
    }

    /** The block of nu units at hp, fresh from sbrk, goes onto the list. */
    method AddCore(hp: int, nu: nat, ghost nunits: nat, ghost br: int)
      requires Ready(base, list, ptr, size, live, heap, br) && freep in list && br <= hp && nu > 0
      requires nunits > 0 && AllSmall(list, size, nunits)
      modifies this`ptr, this`size, this`freep, this`list, this`heap
      ensures Ready(base, list, ptr, size, live, heap, hp + nu) && freep in list && freep >= base
      ensures OnlyTop(list, size, nunits, hp + nu)
      ensures heap == old(heap) + Units(hp, nu)
      ensures Fits(ptr, size, freep, nu)
    {
      ghost var l, pt, sz := list, ptr, size;
      FreshBlock(base, list, ptr, size, live, heap, br, hp, nu);
      size := size[hp := nu];
      FreeBlock(hp);
      GrowKeeps(base, l, pt, sz, live, heap, br, hp, nu, list, ptr, size, freep);
      FreedFits(l, sz[hp := nu], hp, nu, list, ptr, size, freep);
      NewBlockAtTop(base, l, pt, sz, live, heap, br, hp, nu, nunits, list, ptr, size, freep);
      heap := heap + Units(hp, nu);
    }

    /**
     morecore: at least 4096 units from sbrk, freed onto the list; 0 when sbrk fails.
     The block that now has room is the one that ends at top, and it lies below the
     break exactly when the byte count fits sbrk's int.
     */
    method Morecore(nunits: nat) returns (p: int)
      requires Valid() && freep != 0 && nunits > 0 && AllSmall(list, size, nunits)
      modifies this`ptr, this`size, this`freep, this`brk, this`list, this`heap, this`top
      ensures Managed() && freep != 0
      ensures p == 0 ==> unchanged(this)
      ensures p != 0 ==> p == freep && Fits(ptr, size, freep, nunits) && OnlyTop(list, size, nunits, top)
      ensures p != 0 ==> Grown(old(heap), heap, nunits)
      ensures p != 0 ==> (top <= brk <==> SbrkFits(nunits))
    {
      var nu := Core(nunits);
      var hp := MoreBytes(nunits, nu);
      if hp == -1 {
        return 0;
      }
      UnitsFresh(heap, top, hp, nu);
      AddCore(hp, nu, nunits, top);
      top := hp + nu;
      return freep;
    }

    /**
     The allocating branch of malloc: all of the block at p when it is exactly
     nunits long, else its last nunits; prevp is the header before p.
     */
    method Take(p0: int, prevp: int, nunits: nat, ghost i: int) returns (p: int)
      requires Managed() && 0 < i < |list| && p0 == list[i] && prevp == list[i - 1] && 0 < nunits <= size[p0]
      modifies this`ptr, this`size, this`freep, this`list, this`live
      ensures Managed() && p > 0 && p !in old(live) && live == old(live)[p := nunits]
      ensures p + nunits <= top && (OnlyTop(old(list), old(size), nunits, top) ==> p + nunits == top)
      ensures Taken(old(list), old(size), list, size, p, nunits)
    {
      ghost var l, pt, sz := list, ptr, size;
      BlockBelowTop(base, l, pt, sz, live, heap, top, i);
      p := p0;
      if size[p] == nunits {
        ptr := ptr[prevp := ptr[p]];
        list := Rest(l, i - 1, true);
        WholeTaken(base, l, pt, sz, live, heap, top, i, p, nunits, list, ptr);
      } else {
        size := size[p := size[p] - nunits];
        p := p + size[p];
        size := size[p := nunits];
        TailTaken(base, l, pt, sz, live, heap, top, i, p0, p, nunits, size);
      }
      live := live[p := nunits];
      freep := prevp;
    }

    /** The first call of malloc starts the list with the static header, which holds no unit. */
    method Start(nunits: nat)
      requires Valid() && nunits > 0
      modifies this`ptr, this`size, this`freep, this`list
      ensures Valid() && freep != 0
      ensures forall u :: FreeList.Free(list, size, u) <==> FreeList.Free(old(list), old(size), u)
      ensures AllSmall(list, size, nunits) <==> AllSmall(old(list), old(size), nunits)
    {
      if freep == 0 {
        ptr, size, freep := ptr[base := base], size[base := 0], base;
        list := [base];
        assert forall i, u :: !InBlock(list, size, i, u);
      }
    }

    /** One way round malloc's loop from freep: the first block with room, or none back at freep. */
    method Scan(nunits: nat) returns (found: bool, p: int, prevp: int, ghost pi: int)
      requires Managed() && freep != 0 && nunits > 0
      ensures found ==> 0 < pi < |list| && p == list[pi] && prevp == list[pi - 1] && size[p] >= nunits
      ensures found <==> !AllSmall(list, size, nunits)
    {
      prevp := freep;
      ghost var fi :| 0 <= fi < |list| && list[fi] == freep;
      HeadersIn(list, ptr, size, fi, nunits);
      p := ptr[prevp];
      pi := NextPos(list, fi);
      ScanStart(list, size, nunits, fi);
      while true
        invariant 0 <= pi < |list| && p == list[pi] && prevp == list[PrevPos(list, pi)]
        invariant SmallBetween(list, size, nunits, fi, pi)
        decreases Ahead(list, fi, pi)
      {
        HeadersIn(list, ptr, size, pi, nunits);
        if size[p] >= nunits {
          return true, p, prevp, pi;
        }
        if p == freep {
          ScanEnd(list, size, nunits, fi, pi);
          return false, p, prevp, pi;
        }
        ScanStep(list, size, nunits, fi, pi);
        prevp, p, pi := p, ptr[p], NextPos(list, pi);
      }
    }

    /** malloc once nbytes is rounded up to nunits. */
    method Allocate(nunits: nat) returns (ap: int, ghost grown: bool)
      requires Valid() && nunits > 0
      modifies this`ptr, this`size, this`freep, this`brk, this`list, this`live, this`heap, this`top
      ensures Managed()
      ensures top <= brk <==> !grown || SbrkFits(nunits)
      ensures ap == 0 ==> !grown && live == old(live) && AllSmall(list, size, nunits)
      ensures ap != 0 ==> ap - 1 !in old(live) && live == old(live)[ap - 1 := nunits]
      ensures ap != 0 ==> (grown <==> AllSmall(old(list), old(size), nunits))
      ensures ap != 0 ==> ap - 1 + nunits <= top && (grown ==> ap - 1 + nunits == top)
      ensures if grown then Grown(old(heap), heap, nunits) else heap == old(heap)
    {
      Start(nunits);
      grown := false;
      ghost var h := heap;
      ghost var small := AllSmall(list, size, nunits);
      while true
        invariant Managed() && freep != 0 && live == old(live)
        invariant top <= brk <==> !grown || SbrkFits(nunits)
        invariant grown ==> Fits(ptr, size, freep, nunits) && OnlyTop(list, size, nunits, top)
        invariant if grown then Grown(h, heap, nunits) else heap == h
        invariant if grown then small else small == AllSmall(list, size, nunits)
        decreases if grown then 0 else 1
      {
        var found, p, prevp;
        ghost var pi;
        found, p, prevp, pi := Scan(nunits);
        if found {
          p := Take(p, prevp, nunits, pi);
          ap := p + 1;
          assert ap - 1 == p && p > 0;
          return;
        }
        FitsNotSmall(base, list, ptr, size, live, heap, top, freep, nunits);
        p := Morecore(nunits);
        if p == 0 {
          return 0, grown;
        }
        grown := true;
      }
    }

    /**
     malloc: a header with UnitsFor(nbytes) units, all of them free before or fresh
     from the one morecore it needs exactly when no free block is large enough, or 0
     when sbrk then fails; in that case nothing is lost.  The block lies below the
     break, and the allocator stays sound, unless morecore ran and its byte count is
     not a positive int.
     */
    method Malloc(nbytes: nat) returns (ap: int, ghost grown: bool)
      requires Valid() && nbytes < TWO32
      modifies this`ptr, this`size, this`freep, this`brk, this`list, this`live, this`heap, this`top
      ensures Managed()
      ensures Valid() <==> !grown || SbrkFits(UnitsFor(nbytes))
      ensures ap == 0 ==> !grown && live == old(live) && AllSmall(list, size, UnitsFor(nbytes))
      ensures ap != 0 ==> ap - 1 !in old(live) && live == old(live)[ap - 1 := UnitsFor(nbytes)]
      ensures ap != 0 ==> (grown <==> AllSmall(old(list), old(size), UnitsFor(nbytes)))
      ensures ap != 0 ==> (ap - 1 + UnitsFor(nbytes) <= brk <==> !grown || SbrkFits(UnitsFor(nbytes)))
      ensures if grown then Grown(old(heap), heap, UnitsFor(nbytes)) else heap == old(heap)
    {
      ap, grown := Allocate(UnitsFor(nbytes));
    }
  }

  /** The n units at p were free, and only they no longer are. */
  ghost predicate Taken(l: seq<int>, sz: Fields, list: seq<int>, size: Fields, p: int, n: int) {
    && (forall u :: p <= u < p + n ==> Free(l, sz, u))
    && (forall u :: Free(list, size, u) <==> Free(l, sz, u) && !(p <= u < p + n))
  }

  /** Every block with n units ends at top. */
  ghost predicate OnlyTop(list: seq<int>, size: Fields, n: int, top: int) {
    forall j :: 0 <= j < |list| && list[j] in size && size[list[j]] >= n ==> End(size, list[j]) == top
  }

  lemma BlockGap(list: seq<int>, size: Fields, i: int, j: int)
    requires Sorted(list, size) && 0 <= i < |list| && 0 <= j < |list|
    ensures i < j ==> End(size, list[i]) < list[j]
  {
  }

  /** No unit lies in two blocks. */
  lemma OneBlock(list: seq<int>, size: Fields, i: int, j: int, u: int)
    requires Sorted(list, size) && InBlock(list, size, i, u) && InBlock(list, size, j, u)
    ensures i == j
  {
  }

  /** The units of every free block lie below top. */
  lemma BlockBelowTop(base: int, list: seq<int>, ptr: Fields, size: Fields, live: Fields, heap: set<int>, top: int,
                      i: int)
    requires Ready(base, list, ptr, size, live, heap, top) && 0 <= i < |list|
    ensures list[i] in size && End(size, list[i]) <= top && list[i] < top
  {
    if i > 0 {
      assert InBlock(list, size, i, End(size, list[i]) - 1);
      assert Free(list, size, End(size, list[i]) - 1);
    }
  }

  /** A run of free units lies in one block. */
  lemma {:induction false} RunInBlock(list: seq<int>, size: Fields, a: int, e: int) returns (k: int)
    requires Sorted(list, size) && a < e && forall u :: a <= u < e ==> Free(list, size, u)
    ensures InBlock(list, size, k, a) && e <= End(size, list[k])
    decreases e - a
  {
    var u := e - 1;
    assert Free(list, size, u);
    var j :| InBlock(list, size, j, u);
    k := j;
    if a < u {
      k := RunInBlock(list, size, a, u);
      assert InBlock(list, size, k, u - 1);
      BlockGap(list, size, j, k);
      BlockGap(list, size, k, j);
    }
  }

  /** When every block was too small, the one with room after morecore is the new one, merged or not. */
  lemma NewBlockAtTop(base: int, l: seq<int>, pt: Fields, sz: Fields, live: Fields, heap: set<int>, top: int,
                      b: int, nu: int, n: int, list: seq<int>, ptr: Fields, size: Fields, freep: int)
    requires Ready(base, l, pt, sz, live, heap, top) && top <= b && nu > 0 && n > 0 && AllSmall(l, sz, n)
    requires Freed(l, sz[b := nu], b, list, ptr, size, freep)
    ensures OnlyTop(list, size, n, b + nu)
  {
    var s := sz[b := nu];
    FreshBlock(base, l, pt, sz, live, heap, top, b, nu);
    forall i | 0 <= i < |l|
      ensures s[l[i]] < n && End(s, l[i]) <= b
    {
      BlockBelowTop(base, l, pt, sz, live, heap, top, i);
    }
    forall j | 0 <= j < |list| && list[j] in size && size[list[j]] >= n
      ensures End(size, list[j]) == b + nu
    {
      NewBlockEnd(l, s, b, nu, n, list, ptr, size, freep, j);
    }
  }

  /** A unit of a block of the new list is an old free unit or one of the block just freed. */
  lemma NewUnit(l: seq<int>, sz: Fields, b: int, list: seq<int>, ptr: Fields, size: Fields, freep: int,
                j: int, u: int)
    requires Freed(l, sz, b, list, ptr, size, freep) && InBlock(list, size, j, u)
    requires forall i :: 0 <= i < |l| && l[i] in sz ==> End(sz, l[i]) <= b
    ensures (u < b && Free(l, sz, u)) || b <= u < b + sz[b]
  {
    assert Free(list, size, u);
    if Free(l, sz, u) {
      var i :| InBlock(l, sz, i, u);
    }
  }

  lemma NewBlockEnd(l: seq<int>, sz: Fields, b: int, nu: int, n: int, list: seq<int>, ptr: Fields,
                    size: Fields, freep: int, j: int)
    requires Freed(l, sz, b, list, ptr, size, freep) && sz[b] == nu && Sorted(l, sz) && n > 0 && nu > 0
    requires forall i :: 0 <= i < |l| ==> sz[l[i]] < n && End(sz, l[i]) <= b
    requires 0 <= j < |list| && size[list[j]] >= n
    ensures End(size, list[j]) == b + nu
  {
    var a, e := list[j], End(size, list[j]);
    forall u | a <= u < e
      ensures u < b ==> Free(l, sz, u)
    {
      NewUnit(l, sz, b, list, ptr, size, freep, j, u);
    }
    NewUnit(l, sz, b, list, ptr, size, freep, j, e - 1);
    assert a < e;
    if e <= b {
      var i := RunInBlock(l, sz, a, e);
      assert false;
    }
    var k := RunInBlock(list, size, b, b + nu);
    assert InBlock(list, size, j, e - 1) && InBlock(list, size, k, e - 1);
    OneBlock(list, size, j, k, e - 1);
  }

  /** The heap grew by what one morecore for n units asks of sbrk. */
  ghost predicate Grown(h: set<int>, h': set<int>, n: nat) {
    h <= h' && |h'| == |h| + if n < 4096 then 4096 else n
  }

  /** A list with a block of n units at freep or next to it is not all too small. */
  lemma FitsNotSmall(base: int, list: seq<int>, ptr: Fields, size: Fields, live: Fields, heap: set<int>, top: int,
                     freep: int, n: int)
    requires Ready(base, list, ptr, size, live, heap, top) && freep in list && AllSmall(list, size, n)
    ensures !Fits(ptr, size, freep, n)
  {
    var i :| 0 <= i < |list| && list[i] == freep;
    assert ptr[freep] == list[NextPos(list, i)];
  }

  ghost function NextPos(list: seq<int>, i: int): (r: int) {
    if i == |list| - 1 then 0 else i + 1
  }

  ghost function PrevPos(list: seq<int>, i: int): (r: int) {
    if i == 0 then |list| - 1 else i - 1
  }

  /** How far position f lies ahead of position i. */
  ghost function Ahead(list: seq<int>, f: int, i: int): (r: int) {
    if i <= f then f - i else f - i + |list|
  }

  lemma ScanStart(list: seq<int>, size: Fields, n: int, f: int)
    requires 0 <= f < |list|
    ensures SmallBetween(list, size, n, f, NextPos(list, f)) && PrevPos(list, NextPos(list, f)) == f
  {
  }

  /** One block further round the list. */
  lemma ScanStep(list: seq<int>, size: Fields, n: int, f: int, i: int)
    requires 0 <= f < |list| && 0 <= i < |list| && list[i] != list[f]
    requires SmallBetween(list, size, n, f, i) && n > 0 && list[i] in size && size[list[i]] < n
    ensures SmallBetween(list, size, n, f, NextPos(list, i)) && PrevPos(list, NextPos(list, i)) == i
    ensures 0 <= Ahead(list, f, NextPos(list, i)) < Ahead(list, f, i)
  {
  }

  /** All the way round. */
  lemma ScanEnd(list: seq<int>, size: Fields, n: int, f: int, i: int)
    requires Sorted(list, size) && 0 <= f < |list| && 0 <= i < |list| && list[i] == list[f]
    requires SmallBetween(list, size, n, f, i) && n > 0 && size[list[i]] < n
    ensures AllSmall(list, size, n)
  {
    SortedDistinct(list, size);
    assert i == f;
  }

  lemma HeadersIn(list: seq<int>, ptr: Fields, size: Fields, i: int, n: int)
    requires Sorted(list, size) && Linked(list, ptr) && 0 <= i < |list| && n > 0
    ensures list[i] in size && list[i] in ptr && ptr[list[i]] == list[NextPos(list, i)]
    ensures size[list[i]] >= n ==> i > 0
  {
  }

  /** No free block has n units. */
  ghost predicate AllSmall(list: seq<int>, size: Fields, n: int) {
    forall j :: 0 <= j < |list| ==> list[j] in size && size[list[j]] < n
  }

  /** The blocks passed on the way round from position f to position i are too small. */
  ghost predicate SmallBetween(list: seq<int>, size: Fields, n: int, f: int, i: int) {
    forall j :: 0 <= j < |list| && (if i > f then f < j < i else j > f || j < i) ==>
      list[j] in size && size[list[j]] < n
  }

  /** A block of n units at header p or at the one after it. */
  ghost predicate Fits(ptr: Fields, size: Fields, p: int, n: int) {
    p in size && p in ptr && ptr[p] in size && (size[p] >= n || size[ptr[p]] >= n)
  }

  /** s.size after free's merging steps. */
  function MergedSizes(ptr: Fields, size: Fields, b: int, p: int): (r: Fields)
    requires p in ptr && p in size && b in size && ptr[p] in size && p != b
  {
    var n := if b + size[b] == ptr[p] then size[b] + size[ptr[p]] else size[b];
    if p + size[p] == b then size[b := n][p := size[p] + n] else size[b := n]
  }

  /** s.ptr after free's merging steps. */
  function MergedPtrs(ptr: Fields, size: Fields, b: int, p: int): (r: Fields)
    requires p in ptr && p in size && b in size && ptr[p] in ptr && p != b
  {
    var x := if b + size[b] == ptr[p] then ptr[ptr[p]] else ptr[p];
    if p + size[p] == b then ptr[b := x][p := x] else ptr[b := x][p := b]
  }

  ghost function FreedList(list: seq<int>, ptr: Fields, size: Fields, b: int, t: int): (r: seq<int>)
    requires 0 <= t < |list| && list[t] in ptr && b in size && list[t] in size
    requires Upper(ptr, size, list[t], b) ==> t + 1 < |list|
  {
    var rest := Rest(list, t, Upper(ptr, size, list[t], b));
    if End(size, list[t]) == b then rest else Insert(rest, t, b)
  }

  /** The contract of free on the list: see FreeBlock. */
  ghost predicate Freed(l: seq<int>, sz: Fields, b: int, list: seq<int>, ptr: Fields, size: Fields, freep: int) {
    && l != [] && b in sz
    && Sorted(list, size) && Linked(list, ptr) && freep in list && list[0] == l[0]
    && (forall u :: Free(list, size, u) <==> Free(l, sz, u) || b <= u < b + sz[b])
    && (forall a :: a in sz && a != b && a !in l ==> a in size && size[a] == sz[a] && a !in list)
    && ((freep <= b && b + sz[b] <= End(size, freep)) || (ptr[freep] == b && b in size && sz[b] <= size[b]))
  }

  /** The block just freed is at freep or next to it, at least as large as it was. */
  lemma FreedFits(l: seq<int>, sz: Fields, b: int, n: int, list: seq<int>, ptr: Fields, size: Fields, freep: int)
    requires Freed(l, sz, b, list, ptr, size, freep) && sz[b] == n
    ensures Fits(ptr, size, freep, n) && freep >= list[0]
  {
    var i :| 0 <= i < |list| && list[i] == freep;
    assert ptr[freep] == list[if i == |list| - 1 then 0 else i + 1];
    OrderAt(list, size, i, 0);
  }

  lemma FindPosition(list: seq<int>, ptr: Fields, size: Fields, b: int) returns (t: int)
    requires Sorted(list, size) && Linked(list, ptr) && list[0] < b
    requires b in size && size[b] > 0 && NoneFree(list, size, b, size[b])
    ensures Insertable(list, ptr, size, b, t)
    ensures Upper(ptr, size, list[t], b) ==> t + 1 < |list| && ptr[list[t]] == list[t + 1]
    ensures list[t] != b && list[t] in ptr && ptr[list[t]] in list && ptr[list[t]] in ptr && ptr[list[t]] in size
  {
    forall i | 0 <= i < |list|
      ensures list[i] != b && size[list[i]] >= 0
    {
    }
    t := FindBefore(list, size, b, 0);
    UpperIsNext(list, ptr, size, b, t);
    assert ptr[list[t]] == list[if t == |list| - 1 then 0 else t + 1];
  }

  lemma FreedOk(l: seq<int>, pt: Fields, sz: Fields, b: int, t: int, list: seq<int>, ptr: Fields, size: Fields, p: int)
    requires Insertable(l, pt, sz, b, t) && p == l[t] && p != b && p in pt && pt[p] in sz && pt[p] in pt
    requires Upper(pt, sz, p, b) ==> t + 1 < |l| && pt[p] == l[t + 1]
    requires list == FreedList(l, pt, sz, b, t)
    requires size == MergedSizes(pt, sz, b, p) && ptr == MergedPtrs(pt, sz, b, p)
    ensures Freed(l, sz, b, list, ptr, size, p)
  {
    var upper, lower := Upper(pt, sz, p, b), End(sz, p) == b;
    var n := if upper then sz[b] + sz[l[t + 1]] else sz[b];
    FreedAs(l, pt, sz, b, t, upper, lower, n, list, ptr, size);
  }

  /** The same with the two merging decisions named. */
  lemma FreedAs(l: seq<int>, pt: Fields, sz: Fields, b: int, t: int, upper: bool, lower: bool, n: int, list: seq<int>,
                ptr: Fields, size: Fields)
    requires Merging(l, pt, sz, b, t, upper, lower, n)
    requires list == if lower then Rest(l, t, upper) else Insert(Rest(l, t, upper), t, b)
    requires size == if lower then sz[b := n][l[t] := sz[l[t]] + n] else sz[b := n]
    requires var x := Skip(l, pt, t, upper); ptr == if lower then pt[b := x][l[t] := x] else pt[b := x][l[t] := b]
    ensures Freed(l, sz, b, list, ptr, size, l[t])
  {
    FreedSorted(l, pt, sz, b, t, upper, lower, n, list, size);
    FreedLinked(l, pt, sz, b, t, upper, lower, list, ptr);
    forall u
      ensures Free(list, size, u) <==> Free(l, sz, u) || b <= u < b + sz[b]
    {
      FreedUnits(l, pt, sz, b, t, upper, lower, n, u, list, size);
    }
    assert list[t] == l[t] && list[0] == l[0];
    FreedWhere(l, pt, sz, b, t, upper, lower, n, list, ptr, size);
  }

  lemma FreedSorted(l: seq<int>, pt: Fields, sz: Fields, b: int, t: int, upper: bool, lower: bool, n: int,
                    list: seq<int>, size: Fields)
    requires Merging(l, pt, sz, b, t, upper, lower, n)
    requires list == if lower then Rest(l, t, upper) else Insert(Rest(l, t, upper), t, b)
    requires size == if lower then sz[b := n][l[t] := sz[l[t]] + n] else sz[b := n]
    ensures Sorted(list, size)
  {
    if lower {
      LowerSorted(l, pt, sz, b, t, upper, n, list, l[t], size);
    } else {
      InsertedSorted(l, pt, sz, b, t, upper, n, Rest(l, t, upper), list, size);
    }
  }

  lemma FreedLinked(l: seq<int>, pt: Fields, sz: Fields, b: int, t: int, upper: bool, lower: bool, list: seq<int>,
                    ptr: Fields)
    requires Insertable(l, pt, sz, b, t) && upper == Upper(pt, sz, l[t], b) && (upper ==> t + 1 < |l|)
    requires list == if lower then Rest(l, t, upper) else Insert(Rest(l, t, upper), t, b)
    requires var x := Skip(l, pt, t, upper); ptr == if lower then pt[b := x][l[t] := x] else pt[b := x][l[t] := b]
    ensures Linked(list, ptr)
  {
    SortedDistinct(l, sz);
    UpperIsNext(l, pt, sz, b, t);
    if lower {
      RestLinked(l, pt, t, upper, b, Skip(l, pt, t, upper));
    } else {
      InsertLinked(l, pt, t, upper, b);
    }
  }

  /** Which header holds the freed block, and which headers are untouched. */
  lemma FreedWhere(l: seq<int>, pt: Fields, sz: Fields, b: int, t: int, upper: bool, lower: bool, n: int,
                   list: seq<int>, ptr: Fields, size: Fields)
    requires Merging(l, pt, sz, b, t, upper, lower, n)
    requires list == if lower then Rest(l, t, upper) else Insert(Rest(l, t, upper), t, b)
    requires size == if lower then sz[b := n][l[t] := sz[l[t]] + n] else sz[b := n]
    requires l[t] in ptr && ptr[l[t]] == if lower then ptr[l[t]] else b
    ensures forall a :: a in sz && a != b && a !in l ==> a in size && size[a] == sz[a] && a !in list
    ensures (l[t] <= b && b + sz[b] <= End(size, l[t])) || (ptr[l[t]] == b && sz[b] <= size[b])
  {
    FreedElems(l, b, t, upper, lower, list);
  }

  lemma FreedElems(l: seq<int>, b: int, t: int, upper: bool, lower: bool, list: seq<int>)
    requires 0 <= t < |l| && (upper ==> t + 1 < |l|)
    requires list == if lower then Rest(l, t, upper) else Insert(Rest(l, t, upper), t, b)
    ensures forall a :: a in list ==> a == b || a in l
  {
    forall i | 0 <= i < |list|
      ensures list[i] == b || list[i] in l
    {
    }
  }

  /** Positions and addresses have the same order. */
  lemma OrderAt(list: seq<int>, size: Fields, i: int, t: int)
    requires Sorted(list, size) && 0 <= i < |list| && 0 <= t < |list|
    ensures i < t ==> list[i] < list[t]
    ensures t < i ==> list[t] < list[i]
    ensures i < |list| - 1 ==> list[i] < list[i + 1]
    ensures i < t ==> list[i + 1] <= list[t]
    ensures t < i ==> list[t + 1] <= list[i]
    ensures list[0] <= list[i]
  {
    assert forall j :: 0 <= j < |list| ==> list[j] <= End(size, list[j]);
  }

  // ----- the allocator invariant -----

  /** Freeing an allocated block. */
  lemma FreeKeeps(base: int, list: seq<int>, ptr: Fields, size: Fields, live: Fields, heap: set<int>, brk: int,
                  b: int, list': seq<int>, ptr': Fields, size': Fields, freep': int)
    requires Ready(base, list, ptr, size, live, heap, brk) && list != [] && b in live
    requires Freed(list, size, b, list', ptr', size', freep')
    ensures Ready(base, list', ptr', size', live - {b}, heap, brk)
  {
    var live' := live - {b};
    forall a, u | InLive(live', a, u)
      ensures InLive(live, a, u) && !Free(list', size', u)
    {
      assert InLive(live, a, u);
      assert InLive(live, b, u) ==> a == b;
      assert b <= u < b + size[b] <==> InLive(live, b, u);
    }
    forall u
      ensures u in heap <==> Free(list', size', u) || exists a :: InLive(live', a, u)
    {
      assert b <= u < b + size[b] <==> InLive(live, b, u);
      if a :| InLive(live, a, u) && a != b {
        assert InLive(live', a, u);
      }
    }
  }

  ghost predicate Within(a: int, u: int, n: int) {
    a <= u < a + n
  }

  /** The units [a, a + n). */
  ghost function Units(a: int, n: int): (r: set<int>) {
    set u: int | a <= u < a + n && Within(a, u, n)
  }

  /** Freeing a block fresh from sbrk. */
  lemma GrowKeeps(base: int, list: seq<int>, ptr: Fields, size: Fields, live: Fields, heap: set<int>, brk: int,
                  b: int, n: int, list': seq<int>, ptr': Fields, size': Fields, freep': int)
    requires Ready(base, list, ptr, size, live, heap, brk) && brk <= b && n > 0
    requires Freed(list, size[b := n], b, list', ptr', size', freep')
    requires forall u :: Free(list, size[b := n], u) <==> Free(list, size, u)
    ensures Ready(base, list', ptr', size', live, heap + Units(b, n), b + n)
  {
    forall a | a in live
      ensures a < brk
    {
      assert InLive(live, a, a);
    }
    assert forall a, u :: InLive(live, a, u) ==> u in heap;
  }

  /** A header above brk is in no block. */
  lemma FreshBlock(base: int, list: seq<int>, ptr: Fields, size: Fields, live: Fields, heap: set<int>, brk: int,
                   b: int, n: int)
    requires Ready(base, list, ptr, size, live, heap, brk) && list != [] && brk <= b && n > 0
    ensures Sorted(list, size[b := n]) && NoneFree(list, size[b := n], b, n) && b !in list
    ensures forall u :: Free(list, size[b := n], u) <==> Free(list, size, u)
  {
    forall i | 0 <= i < |list|
      ensures End(size, list[i]) <= brk && list[i] < brk
    {
      BlockBelowTop(base, list, ptr, size, live, heap, brk, i);
    }
    OtherSorted(list, size, b, n);
    var size' := size[b := n];
    forall u
      ensures Free(list, size', u) <==> Free(list, size, u)
    {
      if i :| InBlock(list, size', i, u) {
        assert InBlock(list, size, i, u);
      }
      if i :| InBlock(list, size, i, u) {
        assert InBlock(list, size', i, u);
      }
    }
  }

  /** Handing out n free units starting at q. */
  lemma TakeKeeps(base: int, list: seq<int>, ptr: Fields, size: Fields, live: Fields, heap: set<int>, brk: int,
                  q: int, n: int, list': seq<int>, ptr': Fields, size': Fields)
    requires Ready(base, list, ptr, size, live, heap, brk) && list != []
    requires Sorted(list', size') && Linked(list', ptr') && list'[0] == base && n > 0
    requires q in size' && size'[q] == n && q !in list' && q !in live
    requires forall u :: q <= u < q + n ==> Free(list, size, u)
    requires forall u :: Free(list', size', u) <==> Free(list, size, u) && !(q <= u < q + n)
    requires forall a :: a in live ==> a in size' && size'[a] == size[a] && a !in list'
    ensures Ready(base, list', ptr', size', live[q := n], heap, brk)
  {
    var live' := live[q := n];
    assert Free(list, size, q) && q in heap;
    forall u
      ensures u in heap <==> Free(list', size', u) || exists a :: InLive(live', a, u)
    {
      assert q <= u < q + n <==> InLive(live', q, u);
      if a :| InLive(live, a, u) {
        assert InLive(live', a, u);
      }
      if a :| InLive(live', a, u) && a != q {
        assert InLive(live, a, u);
      }
    }
    assert forall a, u :: InLive(live', a, u) && a != q ==> InLive(live, a, u);
  }

  lemma UnitsSnoc(a: int, m: nat, n: nat, z: int)
    requires n == m + 1 && z == a + m
    ensures z !in Units(a, m) && Units(a, n) == Units(a, m) + {z}
  {
    assert Within(a, z, n);
    assert forall u :: Within(a, u, n) <==> Within(a, u, m) || u == z;
  }

  lemma {:induction false} UnitsSize(a: int, n: nat)
    ensures |Units(a, n)| == n
  {
    if n > 0 {
      var m, z := n - 1, a + n - 1;
      UnitsSize(a, m);
      UnitsSnoc(a, m, n, z);
    }
  }

  lemma UnitsFresh(heap: set<int>, brk: int, a: int, n: nat)
    requires brk <= a && forall u :: u in heap ==> u < brk
    ensures |heap + Units(a, n)| == |heap| + n
  {
    UnitsSize(a, n);
    assert heap !! Units(a, n);
  }

  /** Handing out a whole block. */
  lemma WholeTaken(base: int, l: seq<int>, pt: Fields, sz: Fields, live: Fields, heap: set<int>, brk: int,
                   i: int, p: int, n: int, list: seq<int>, ptr: Fields)
    requires Ready(base, l, pt, sz, live, heap, brk) && 0 < i < |l| && p == l[i] && p in sz && n == sz[p]
    requires list == Rest(l, i - 1, true) && p in pt && ptr == pt[l[i - 1] := pt[p]]
    ensures Ready(base, list, ptr, sz, live[p := n], heap, brk) && l[i - 1] in list && p !in live && 0 < p
    ensures 0 < l[i - 1]
    ensures Taken(l, sz, list, sz, p, n)
  {
    TakeWhole(l, pt, sz, i - 1, p, list);
    forall u
      ensures p <= u < p + n ==> Free(l, sz, u)
      ensures Free(list, sz, u) <==> Free(l, sz, u) && !(p <= u < p + n)
    {
      WholeUnits(l, sz, i - 1, u, p, list);
      assert p <= u < p + n ==> InBlock(l, sz, i, u);
    }
    assert p !in live;
    assert forall x :: x in list ==> x in l;
    TakeKeeps(base, l, pt, sz, live, heap, brk, p, n, list, ptr, sz);
  }

  /** Handing out the end of a block. */
  lemma TailTaken(base: int, l: seq<int>, pt: Fields, sz: Fields, live: Fields, heap: set<int>, brk: int,
                  i: int, p: int, q: int, n: int, size: Fields)
    requires Ready(base, l, pt, sz, live, heap, brk) && 0 < i < |l| && p == l[i] && p in sz && 0 < n < sz[p]
    requires q == p + sz[p] - n && size == sz[p := sz[p] - n][q := n]
    ensures Ready(base, l, pt, size, live[q := n], heap, brk) && q !in live && 0 < q && 0 < l[i - 1]
    ensures Taken(l, sz, l, size, q, n)
  {
    forall u
      ensures Sorted(l, size) && q !in l
      ensures q <= u < q + n ==> Free(l, sz, u)
      ensures Free(l, size, u) <==> Free(l, sz, u) && !(q <= u < q + n)
    {
      TakeTail(l, sz, i, n, u, p, q, size);
      assert q <= u < q + n ==> InBlock(l, sz, i, u);
    }
    assert Free(l, sz, q) && (q in live ==> InLive(live, q, q));
    TakeKeeps(base, l, pt, sz, live, heap, brk, q, n, l, pt, size);
  }
}
