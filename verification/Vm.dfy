/**
 kalloc.c and vm.c as they run: the free list, page directories and page tables live
 in one memory that the methods write in place.  owner and free are ghosts that say
 whose each page is; every method keeps each page free once or owned once.
 */
module Vm {
  import Bits = Bytes
  import opened Wrappers
  import opened Params
  import opened Paging
  import opened AddressSpace

  /** perm | PTE_P. */
  function WithP(perm: nat): (flags: nat)
    ensures flags % 2 == 1 && flags / 2 == perm / 2
  {
    if perm % 2 == 1 then perm else perm + PTE_P
  }

  /** Bit by bit: bit 0 is set, every other bit is that of perm. */
  lemma WithPBits(perm: nat, k: nat)
    ensures Bits.Bit(WithP(perm), k) <==> k == 0 || Bits.Bit(perm, k)
  {
    if k > 0 {
      assert Bits.Bit(WithP(perm), k) == Bits.Bit(WithP(perm) / 2, k - 1);
      assert Bits.Bit(perm, k) == Bits.Bit(perm / 2, k - 1);
    }
  }

  /** A page of zeroes, or of ones, as memset leaves it. */
  function Filled(x: int): (p: Page)
    ensures p.Bytes? && |p.b| == PGSIZE && forall k :: 0 <= k < PGSIZE ==> p.b[k] == x
  {
    Bytes(seq(PGSIZE, _ => x))
  }

  /** A line of kmap, in pages. */
  datatype KRange = KRange(virt: nat, frame: nat, n: nat, perm: nat)

  /** The kernel's mappings; data is the frame where its data segment starts. */
  function Kmap(data: nat): (r: seq<KRange>)
    requires 0x100 < data < 0xE000
    ensures |r| == 4
  {
    [KRange(0x80000, 0, 0x100, PTE_W), KRange(0x80100, 0x100, data - 0x100, 0),
     KRange(0x80000 + data, data, 0xE000 - data, PTE_W),
     KRange(0xFE000, 0xFE000, 0x2000, PTE_W)]
  }

  /** The entry of virtual page v after the first k lines. */
  ghost function KEntry(data: nat, k: nat, v: nat): (p: Pte)
    requires 0x100 < data < 0xE000 && k <= 4
  {
    if k == 0 then Pte(0, 0)
    else
      var x := Kmap(data)[k - 1];
      if x.virt <= v < x.virt + x.n then Pte(x.frame + (v - x.virt), WithP(x.perm)) else KEntry(data, k - 1, v)
  }

  /** A line of kmap meets no earlier one and lies above user memory. */
  lemma KApart(data: nat, k: nat, v: nat, x: KRange)
    requires 0x100 < data < 0xE000 && k < 4 && x == Kmap(data)[k]
    ensures x.n > 0 && USERPAGES <= x.virt && x.virt + x.n <= VPAGES
    ensures x.virt <= v < x.virt + x.n || v < USERPAGES ==> KEntry(data, k, v) == Pte(0, 0)
  {
    assert KEntry(data, 0, v) == Pte(0, 0);
    assert k >= 1 ==> KEntry(data, 1, v) == if 0x80000 <= v < 0x80100 then Pte(v - 0x80000, 3) else Pte(0, 0);
    assert k >= 2 && !(0x80000 <= v < 0x80000 + data) ==> KEntry(data, 2, v) == Pte(0, 0);
    assert k >= 3 && !(0x80000 <= v < 0x8E000) ==> KEntry(data, 3, v) == Pte(0, 0);
  }

  /**
   The kernel's part of an address space, in numbers: KERNBASE up to PHYSTOP is physical
   memory from 0 on, read-only between EXTMEM and the kernel's data; devices are mapped
   to themselves; nothing is for users.
   */
  ghost predicate KernelPage(data: nat, v: nat, p: Pte) {
    if v < 0x80000 || 0x8E000 <= v < 0xFE000 then p == Pte(0, 0)
    else p == Pte(if v >= 0xFE000 then v else v - 0x80000, if 0x80100 <= v < 0x80000 + data then 1 else 3)
  }

  lemma KernelMap(data: nat, v: nat)
    requires 0x100 < data < 0xE000 && v < VPAGES
    ensures KernelPage(data, v, KEntry(data, 4, v))
  {
    assert KEntry(data, 0, v) == Pte(0, 0);
    assert KEntry(data, 1, v) == if 0x80000 <= v < 0x80100 then Pte(v - 0x80000, 3) else Pte(0, 0);
    assert 0x80100 <= v < 0x80000 + data ==> KEntry(data, 2, v) == Pte(v - 0x80000, 1);
    assert !(0x80100 <= v < 0x80000 + data) ==> KEntry(data, 2, v) == KEntry(data, 1, v);
    assert 0x80000 + data <= v < 0x8E000 ==> KEntry(data, 3, v) == Pte(v - 0x80000, 3);
    assert !(0x80000 + data <= v < 0x8E000) ==> KEntry(data, 3, v) == KEntry(data, 2, v);
  }

  lemma KernelSpace(mem: Mem, d: nat, data: nat, lo: nat)
    requires IsDir(mem, d) && 0x100 < data < 0xE000
    requires forall v: nat :: lo <= v < VPAGES ==> Entry(mem, d, v) == KEntry(data, 4, v)
    ensures forall v: nat :: lo <= v < VPAGES ==> KernelPage(data, v, Entry(mem, d, v))
  {
    forall v: nat | lo <= v < VPAGES
      ensures KernelPage(data, v, Entry(mem, d, v))
    {
      KernelMap(data, v);
    }
  }

  /** Virtual page w of d is present, writable and for users, in directory and table, and all its bytes are 0. */
  ghost predicate ZeroPage(mem: Mem, d: nat, w: nat) {
    && IsDir(mem, d) && w < VPAGES && Pdx(w) < NPDENTRIES && mem[d].e[Pdx(w)].flags == 7 && Entry(mem, d, w).flags == 7
    && var f := Entry(mem, d, w).frame;
       f < |mem| && mem[f].Bytes? && |mem[f].b| == 4096 && forall k :: 0 <= k < 4096 ==> mem[f].b[k] == 0
  }

  lemma GrownZero(m0: Mem, o0: Owners, m1: Mem, o1: Owners, d: nat, lo: nat, hi: nat, w: nat)
    requires Grown(m0, o0, m1, o1, d, lo, hi, Filled(0), WithP(PTE_W + PTE_U)) && lo <= w < hi
    requires PagesOk(m1, o1) && Owns(o1, d, Dir)
    ensures ZeroPage(m1, d, w)
  {
    assert Gained(o0, m1, o1, d, w, Filled(0), WithP(PTE_W + PTE_U));
    PageAt(m1, o1, d);
    SplitPage(w);
  }

  lemma GrownZeroes(m0: Mem, o0: Owners, m1: Mem, o1: Owners, d: nat, lo: nat, hi: nat)
    requires Grown(m0, o0, m1, o1, d, lo, hi, Filled(0), WithP(PTE_W + PTE_U)) && PagesOk(m1, o1) && Owns(o1, d, Dir)
    ensures forall w: nat :: lo <= w < hi ==> ZeroPage(m1, d, w)
  {
    forall w: nat | lo <= w < hi
      ensures ZeroPage(m1, d, w)
    {
      GrownZero(m0, o0, m1, o1, d, lo, hi, w);
    }
  }

  class Memory {
    /** The pool starts at the first page behind the kernel. */
    const first: nat
    var mem: Mem
    var freelist: Option<nat>
    ghost var free: seq<nat>
    ghost var owner: Owners

    ghost predicate Valid()
      reads this
    {
      first <= |mem| && Inv(mem, first, free, owner) && freelist == Head(free)
    }

    /** The body of kfree: fill with junk, link in front. */
    method Push(f: nat)
      requires first <= f < |mem|
      modifies this`mem, this`freelist
      ensures mem == old(mem)[f := Run(old(freelist))] && freelist == Some(f)
    {
      mem := mem[f := Filled(1)];
      mem := mem[f := Run(freelist)];
      freelist := Some(f);
    }

    method Kfree(f: nat)
      requires Valid() && Owns(owner, f, Other)
      modifies this`mem, this`freelist, this`free, this`owner
      ensures Valid() && free == [f] + old(free) && owner == old(owner) - {f}
      ensures |mem| == |old(mem)| && forall g :: 0 <= g < |mem| && g != f ==> mem[g] == old(mem)[g]
    {
      ghost var m := mem;
      Push(f);
      FreeKeeps(m, first, free, owner, f, mem);
      free, owner := [f] + free, owner - {f};
    }

    method Kalloc() returns (r: Option<nat>)
      requires Valid()
      modifies this`freelist, this`free, this`owner
      ensures Valid()
      ensures old(free) == [] ==> r == None && free == old(free) && owner == old(owner)
      ensures old(free) != [] ==>
                r == Some(old(free)[0]) && free == old(free)[1..] && owner == old(owner)[r.value := Other]
      ensures r.Some? ==> r.value !in old(owner) && first <= r.value < |mem|
    {
      r := freelist;
      if r.Some? {
        AllocKeeps(mem, first, free, owner, r.value);
        freelist := mem[r.value].next;
        free, owner := free[1..], owner[r.value := Other];
      }
    }

    /** kinit: freerange frees every page of the pool; until then they are nobody's. */
    constructor (first: nat, n: nat)
      requires first <= n
      ensures Valid() && this.first == first && |mem| == n && owner == map[]
    {
      this.first := first;
      mem, freelist := seq(n, _ => Bytes([])), None;
      free, owner := [], map f: nat | first <= f < n && InPool(first, f, n) :: Other;
      new;
      var f := first;
      while f < n
        invariant first <= f && Valid() && |mem| == n && this.first == first
        invariant forall g: nat :: g in owner <==> f <= g < n
        invariant forall g :: g in owner ==> owner[g] == Other
      {
        Kfree(f);
        f := f + 1;
      }
      assert owner.Keys == {};
    }

    /** walkpgdir without alloc, up to the index into the page table it returns. */
    method Find(d: nat, i: nat) returns (t: Option<nat>)
      requires Valid() && Owns(owner, d, Dir) && i < NPDENTRIES
      ensures IsDir(mem, d)
      ensures t == None <==> !Present(mem[d].e[i])
      ensures t.Some? ==> mem[d].e[i].frame == t.value && Owns(owner, t.value, Tab(d, i))
    {
      PageAt(mem, owner, d);
      t := if Present(mem[d].e[i]) then Some(mem[d].e[i].frame) else None;
    }

    /** walkpgdir with alloc: creates the page table where there is none. */
    method Walkpgdir(d: nat, i: nat) returns (t: Option<nat>)
      requires Valid() && Owns(owner, d, Dir) && i < NPDENTRIES
      modifies this`mem, this`freelist, this`free, this`owner
      ensures Valid() && Owns(owner, d, Dir) && IsDir(old(mem), d) && IsDir(mem, d)
      ensures t.Some? ==> Owns(owner, t.value, Tab(d, i)) && Present(mem[d].e[i]) && mem[d].e[i] == Pte(t.value, 7)
      ensures t == None ==>
                mem == old(mem) && owner == old(owner) && free == old(free) && !Present(mem[d].e[i]) && free == []
      ensures Adds(old(mem), old(owner), mem, owner, d)
      ensures forall v: nat :: v < VPAGES ==> Entry(mem, d, v) == Entry(old(mem), d, v)
    {
      AddsSelf(mem, first, free, owner, d);
      t := Find(d, i);
      if t == None {
        t := Kalloc();
        if t.Some? {
          LinkTable(d, i, t.value);
        }
      }
    }

    /** The part of walkpgdir that puts a new page table in place. */
    method LinkTable(d: nat, i: nat, t: nat)
      requires Valid() && Owns(owner, d, Dir) && i < NPDENTRIES && Owns(owner, t, Other) && IsDir(mem, d)
      requires !Present(mem[d].e[i])
      modifies this`mem, this`owner
      ensures Valid() && owner == old(owner)[t := Tab(d, i)] && IsDir(mem, d) && Present(mem[d].e[i])
      ensures mem[d].e[i].frame == t
      ensures |mem| == |old(mem)| && forall f :: 0 <= f < |mem| && f != d && f != t ==> mem[f] == old(mem)[f]
      ensures forall v: nat :: v < VPAGES ==> Entry(mem, d, v) == Entry(old(mem), d, v)
    {
      ghost var m0 := mem;
      FillKeeps(mem, first, free, owner, t, Zeroed());
      mem := mem[t := Zeroed()];
      ghost var m1 := mem;
      mem := mem[d := WithEntry(mem[d], i, Pte(t, PTE_P + PTE_W + PTE_U))];
      TabKeeps(m1, first, free, owner, d, i, t, PTE_P + PTE_W + PTE_U, mem);
      forall v: nat | v < VPAGES
        ensures Entry(mem, d, v) == Entry(m0, d, v)
      {
        SplitPage(v);
        PageAt(m0, owner, d);
        assert EntryAt(m1, d, Pdx(v), Ptx(v)) == EntryAt(m0, d, Pdx(v), Ptx(v));
      }
      owner := owner[t := Tab(d, i)];
    }

    /**
     One round of the loop of mappages.  A user page f in the hands of the caller
     becomes the directory's; a kernel mapping owns nothing.  Panics exactly when the
     entry is present.
     */
    method MapPage(d: nat, v: nat, f: nat, perm: nat, ghost user: bool) returns (ok: bool, panic: bool)
      requires Valid() && Owns(owner, d, Dir) && v < VPAGES && IsDir(mem, d)
      requires user ==> v < USERPAGES && Owns(owner, f, Other) && f < |mem| && mem[f].Bytes?
      requires !user ==> v >= USERPAGES
      modifies this`mem, this`freelist, this`free, this`owner
      ensures Valid() && Owns(owner, d, Dir) && IsDir(old(mem), d) && IsDir(mem, d)
      ensures Adds(old(mem), Tagged(old(owner), ok && user, f, d, v), mem, owner, d)
      ensures forall w: nat :: w < VPAGES ==>
                Entry(mem, d, w) == if ok && w == v then Pte(f, WithP(perm)) else Entry(old(mem), d, w)
      ensures panic <==> Present(Entry(old(mem), d, v))
      ensures if panic then !ok else ok || free == []
    {
      ghost var m0, o0 := mem, owner;
      SplitPage(v);
      var t := Walkpgdir(d, Pdx(v));
      if t == None {
        assert Entry(mem, d, v) == Pte(0, 0);
        return false, false;
      }
      PageAt(mem, owner, t.value);
      assert Entry(mem, d, v) == mem[t.value].e[Ptx(v)];
      if Present(mem[t.value].e[Ptx(v)]) {
        return false, true;
      }
      ghost var m1, o1 := mem, owner;
      var x := Pte(f, WithP(perm));
      mem := mem[t.value := WithEntry(mem[t.value], Ptx(v), x)];
      WriteEntry(m0, o0, m1, o1, d, v, t.value, x, user);
      return true, false;
    }

    /** The ghost side of writing a page table entry. */
    ghost method WriteEntry(m0: Mem, o0: Owners, m1: Mem, o1: Owners, d: nat, v: nat, t: nat, x: Pte, user: bool)
      requires first <= |m1| && Inv(m1, first, free, o1) && owner == o1 && freelist == Head(free) && v < VPAGES
      requires IsDir(m0, d) && IsDir(m1, d)
      requires Sets(m1, o1, mem, d, Pdx(v), Ptx(v), t, x) && Present(m1[d].e[Pdx(v)]) && m1[d].e[Pdx(v)].frame == t
      requires Adds(m0, o0, m1, o1, d) && Owns(o1, d, Dir) && !Present(Entry(m0, d, v)) && Present(x)
      requires forall w: nat :: w < VPAGES ==> Entry(m1, d, w) == Entry(m0, d, w)
      requires user ==> v < USERPAGES && Owns(o0, x.frame, Other) && x.frame < |m0| && m0[x.frame].Bytes?
      requires !user ==> v >= USERPAGES
      modifies this`owner
      ensures Valid() && Owns(owner, d, Dir) && IsDir(mem, d)
      ensures Adds(m0, Tagged(o0, user, x.frame, d, v), mem, owner, d)
      ensures forall w: nat :: w < VPAGES ==> Entry(mem, d, w) == if w == v then x else Entry(m0, d, w)
    {
      SplitPage(v);
      assert Entry(m1, d, v) == m1[t].e[Ptx(v)];
      forall w: nat | w < VPAGES
        ensures Entry(mem, d, w) == if w == v then x else Entry(m0, d, w)
      {
        SetsPage(m1, o1, mem, d, v, t, x, w);
      }
      SetsPage(m1, o1, mem, d, v, t, x, v);
      AddsMap(m0, o0, m1, o1, mem, d, t, user, x.frame, v);
      if user {
        MapKeeps(m1, first, free, o1, mem, d, Pdx(v), Ptx(v), t, x.frame, x.flags);
        owner := owner[x.frame := User(d, Pdx(v), Ptx(v))];
      } else {
        KernelKeeps(m1, first, free, o1, mem, d, Pdx(v), Ptx(v), t, x);
      }
    }

    /** The loop of mappages, over the pages from a to last. */
    method MapRange(d: nat, a: nat, last: nat, frame: nat, perm: nat, ghost user: bool) returns (ok: bool, panic: bool)
      requires Valid() && Owns(owner, d, Dir) && a <= last < VPAGES && IsDir(mem, d)
      requires user ==> a == last < USERPAGES && Owns(owner, frame, Other) && frame < |mem| && mem[frame].Bytes?
      requires !user ==> a >= USERPAGES
      modifies this`mem, this`freelist, this`free, this`owner
      ensures Valid() && Owns(owner, d, Dir)
      ensures Adds(old(mem), Tagged(old(owner), ok && user, frame, d, a), mem, owner, d)
      ensures ok ==> Unmapped(old(mem), d, a, last + 1) && Ranged(old(mem), mem, d, a, last + 1, frame, WithP(perm))
      ensures !ok ==> SameOutside(old(mem), mem, d, a, if user then a else last + 1)
      ensures if panic then !ok && !Unmapped(old(mem), d, a, last + 1) else ok || free == []
    {
      ghost var m0, o0 := mem, owner;
      AddsSelf(mem, first, free, owner, d);
      var v, pa := a, frame;
      while true
        invariant a <= v <= last && pa == frame + (v - a) && (user ==> v == a && mem == m0 && owner == o0)
        invariant Valid() && Owns(owner, d, Dir) && Adds(m0, o0, mem, owner, d)
        invariant Ranged(m0, mem, d, a, v, frame, WithP(perm))
        invariant Unmapped(m0, d, a, v)
        decreases last - v
      {
        ghost var m1, o1 := mem, owner;
        ok, panic := MapPage(d, v, pa, perm, user);
        AddsMapped(m0, o0, m1, o1, mem, owner, d, user, ok, frame, pa, a, v);
        if !ok || v == last {
          return;
        }
        v, pa := v + 1, pa + 1;
      }
    }

    /** mappages: size bytes at va map to the frames from frame on; panics at an entry that is present. */
    method Mappages(d: nat, va: nat, size: nat, frame: nat, perm: nat, ghost user: bool, ghost a: nat, ghost last: nat)
      returns (ok: bool, panic: bool)
      requires Valid() && Owns(owner, d, Dir) && size > 0 && va + size <= TWO32
      requires a == va / PGSIZE && last == (va + size - 1) / PGSIZE && IsDir(mem, d)
      requires user ==> a == last < USERPAGES && Owns(owner, frame, Other) && frame < |mem| && mem[frame].Bytes?
      requires !user ==> a >= USERPAGES
      modifies this`mem, this`freelist, this`free, this`owner
      ensures Valid() && Owns(owner, d, Dir)
      ensures Adds(old(mem), Tagged(old(owner), ok && user, frame, d, a), mem, owner, d)
      ensures ok ==> Unmapped(old(mem), d, a, last + 1) && Ranged(old(mem), mem, d, a, last + 1, frame, WithP(perm))
      ensures !ok ==> SameOutside(old(mem), mem, d, a, if user then a else last + 1)
      ensures if panic then !ok && !Unmapped(old(mem), d, a, last + 1) else ok || free == []
    {
      LastPage(va, size, a, last);
      ok, panic := MapRange(d, va / PGSIZE, (va + size - 1) % TWO32 / PGSIZE, frame, perm, user);
    }

    /** Free the page f behind the present entry j of table t, then clear the entry; m, o and l become the state. */
    method FreeEntry(t: nat, j: nat, f: nat, ghost m: Mem, ghost o: Owners, ghost l: seq<nat>)
      requires first <= f < |mem| && t < |mem| && t != f && j < NPTENTRIES && IsTable(mem[t]) && f == mem[t].e[j].frame
      requires m == mem[f := Run(freelist)][t := WithEntry(mem[t], j, Pte(0, 0))]
      modifies this`mem, this`freelist, this`free, this`owner
      ensures mem == m && freelist == Some(f) && free == l && owner == o
    {
      Push(f);
      mem := mem[t := WithEntry(mem[t], j, Pte(0, 0))];
      free, owner := l, o;
    }

    /** deallocuvm: takes exactly the pages between the two sizes away from d; page tables stay. */
    method Deallocuvm(d: nat, oldsz: nat, newsz: nat) returns (r: nat)
      requires Valid() && Owns(owner, d, Dir) && oldsz <= KERNBASE
      modifies this`mem, this`freelist, this`free, this`owner
      ensures Valid() && Owns(owner, d, Dir)
      ensures r == if newsz >= oldsz then oldsz else newsz
      ensures newsz >= oldsz ==> mem == old(mem) && owner == old(owner) && free == old(free)
      ensures newsz < oldsz ==> Cleared(old(mem), old(owner), mem, owner, d, Pages(newsz), Pages(oldsz))
    {
      if newsz >= oldsz {
        return oldsz;
      }
      ghost var m0, o0, lo, hi := mem, owner, Pages(newsz), Pages(oldsz);
      var v := Pages(newsz);
      ghost var g := v;
      ClearedNone(mem, first, free, owner, d, lo);
      PagesBelow(newsz, oldsz, lo, hi);
      while v * PGSIZE < oldsz
        invariant lo <= g <= hi <= USERPAGES && g <= v && (v < hi ==> g == v) && (v >= hi ==> g == hi)
        invariant Valid() && Owns(owner, d, Dir) && Cleared(m0, o0, mem, owner, d, lo, g)
        decreases USERPAGES - v
      {
        PageBelow(v, oldsz, hi);
        v, g := ClearRound(d, v, hi, m0, o0, lo);
      }
      PageBelow(v, oldsz, hi);
      return newsz;
    }

    /** A round of deallocuvm at page v: a missing page table is skipped as a whole. */
    method ClearRound(d: nat, v: nat, ghost hi: nat, ghost m0: Mem, ghost o0: Owners, ghost lo: nat)
      returns (v': nat, ghost g: nat)
      requires Valid() && Owns(owner, d, Dir) && lo <= v < hi <= USERPAGES && Cleared(m0, o0, mem, owner, d, lo, v)
      modifies this`mem, this`freelist, this`free, this`owner
      ensures Valid() && Owns(owner, d, Dir) && v < v' && g == (if v' < hi then v' else hi)
      ensures Cleared(m0, o0, mem, owner, d, lo, g)
    {
      SplitPage(v);
      var t := ClearEntry(d, Pdx(v), Ptx(v), m0, o0, lo, v, v + 1);
      v', g := v + 1, v + 1;
      if t == None {
        v' := NextTable(v) - 1;
        v' := v' + 1;
        g := SkipTable(m0, o0, mem, owner, d, lo, v, v', hi);
      }
    }

    /** The same where the page table exists; otherwise nothing happens. */
    method ClearEntry(d: nat, i: nat, j: nat, ghost m0: Mem, ghost o0: Owners, ghost lo: nat, ghost v: nat,
                      ghost v': nat)
      returns (t: Option<nat>)
      requires Valid() && Owns(owner, d, Dir) && AtPage(v, i, j) && v' == v + 1 && lo <= v < USERPAGES
      requires Cleared(m0, o0, mem, owner, d, lo, v)
      modifies this`mem, this`freelist, this`free, this`owner
      ensures Valid() && Owns(owner, d, Dir)
      ensures t.Some? ==> Cleared(m0, o0, mem, owner, d, lo, v')
      ensures t == None ==> mem == old(mem) && owner == old(owner) && IsDir(mem, d) && !Present(mem[d].e[i])
    {
      t := Find(d, i);
      if t.Some? {
        PageAt(mem, owner, t.value);
        if Present(mem[t.value].e[j]) {
          var f := mem[t.value].e[j].frame;
          ghost var m3, o3, l3 := EntryFreed(m0, o0, mem, owner, first, free, freelist, d, lo, v, v', i, j, t.value, f);
          FreeEntry(t.value, j, f, m3, o3, l3);
        } else {
          EntryAbsent(m0, o0, mem, owner, d, lo, v, v', i, j, t.value);
        }
      }
    }

    /** freevm: everything of directory d is free again, and nothing else changed. */
    method Freevm(d: nat)
      requires Valid() && Owns(owner, d, Dir)
      modifies this`mem, this`freelist, this`free, this`owner
      ensures Valid() && owner == Purged(old(owner), d)
      ensures |mem| == |old(mem)| && forall f :: f in owner ==> f < |mem| && mem[f] == old(mem)[f]
    {
      ghost var o0 := owner;
      FreeUser(d);
      ghost var m1, left := mem, Purged(o0, d);
      FreeTables(d);
      assert forall f :: f in left ==> f in owner && f != d;
      Kfree(d);
    }

    /** The call of deallocuvm in freevm. */
    method FreeUser(d: nat)
      requires Valid() && Owns(owner, d, Dir)
      modifies this`mem, this`freelist, this`free, this`owner
      ensures Valid() && Owns(owner, d, Dir) && |mem| == |old(mem)|
      ensures forall f :: f in owner && owner[f].User? ==> owner[f].d != d
      ensures Freeing(owner, d, NPDENTRIES) - {d} == Purged(old(owner), d)
      ensures forall f :: f in Purged(old(owner), d) ==> f < |mem| && mem[f] == old(mem)[f]
    {
      ghost var m0, o0 := mem, owner;
      var r := Deallocuvm(d, KERNBASE, 0);
      FreedUsers(m0, o0, mem, owner, d);
    }

    /** The loop of freevm over the directory. */
    method FreeTables(d: nat)
      requires Valid() && Owns(owner, d, Dir) && forall f :: f in owner && owner[f].User? ==> owner[f].d != d
      modifies this`mem, this`freelist, this`free, this`owner
      ensures Valid() && owner == Freeing(old(owner), d, NPDENTRIES) && Owns(owner, d, Other)
      ensures |mem| == |old(mem)| && forall f :: f in owner ==> f < |mem| && mem[f] == old(mem)[f]
    {
      ghost var m1, o1 := mem, owner;
      PageAt(mem, owner, d);
      DisownKeeps(mem, first, free, owner, d);
      FreeingStart(owner, d);
      owner := Disowned(owner, d);
      var i := 0;
      while i < NPDENTRIES
        invariant 0 <= i <= NPDENTRIES && Valid() && owner == Freeing(o1, d, i)
        invariant |mem| == |m1| && forall f :: f in owner ==> f < |mem| && mem[f] == m1[f]
      {
        FreeTable(d, i, m1, o1);
        i := i + 1;
      }
    }

    /** A round of that loop. */
    method FreeTable(d: nat, i: nat, ghost m1: Mem, ghost o1: Owners)
      requires Valid() && owner == Freeing(o1, d, i) && i < NPDENTRIES && Owns(o1, d, Dir) && IsDir(m1, d)
      requires PagesOk(m1, o1)
      requires |mem| == |m1| && forall f :: f in owner ==> f < |mem| && mem[f] == m1[f]
      modifies this`mem, this`freelist, this`free, this`owner
      ensures Valid() && owner == Freeing(o1, d, i + 1)
      ensures |mem| == |m1| && forall f :: f in owner ==> f < |mem| && mem[f] == m1[f]
    {
      FreeingStep(m1, o1, d, i);
      assert d in owner;
      if Present(mem[d].e[i]) {
        Kfree(mem[d].e[i].frame);
      }
    }

    /** The directory page of setupkvm. */
    method NewDir() returns (r: Option<nat>)
      requires Valid()
      modifies this`mem, this`freelist, this`free, this`owner
      ensures Valid()
      ensures r == None ==> owner == old(owner) && mem == old(mem)
      ensures r.Some? ==>
                r.value !in old(owner) && owner == old(owner)[r.value := Dir]
                && Adds(old(mem), old(owner), mem, owner, r.value)
      ensures r.Some? ==> IsDir(mem, r.value) && forall v: nat :: v < VPAGES ==> Entry(mem, r.value, v) == Pte(0, 0)
    {
      ghost var m0, o0 := mem, owner;
      r := Kalloc();
      if r.Some? {
        var d := r.value;
        FillKeeps(mem, first, free, owner, d, Zeroed());
        mem := mem[d := Zeroed()];
        AddsDir(m0, o0, mem, d);
        DirKeeps(mem, first, free, owner, d);
        owner := owner[d := Dir];
        assert owner == o0[d := Dir];
      }
    }

    /**
     setupkvm: a new directory with the kernel's mappings and no user page, or, when
     memory runs out, nothing changed hands.
     */
    method Setupkvm(data: nat) returns (r: Option<nat>)
      requires Valid() && 0x100 < data < 0xE000
      modifies this`mem, this`freelist, this`free, this`owner
      ensures Valid() && |mem| == |old(mem)|
      ensures r == None ==> owner == old(owner) && forall f :: f in owner ==> f < |mem| && mem[f] == old(mem)[f]
      ensures r.Some? ==>
                r.value !in old(owner) && Owns(owner, r.value, Dir) && Adds(old(mem), old(owner), mem, owner, r.value)
      ensures r.Some? ==> IsDir(mem, r.value) && forall v: nat :: v < VPAGES ==>
                Entry(mem, r.value, v) == KEntry(data, 4, v)
      ensures r.Some? ==> forall v: nat :: v < VPAGES ==> KernelPage(data, v, Entry(mem, r.value, v))
    {
      ghost var m0, o0 := mem, owner;
      r := NewDir();
      if r == None {
        return;
      }
      var d := r.value;
      var k := 0;
      while k < 4
        invariant 0 <= k <= 4 && Valid() && Owns(owner, d, Dir) && Adds(m0, o0, mem, owner, d)
        invariant IsDir(mem, d) && forall v: nat :: v < VPAGES ==> Entry(mem, d, v) == KEntry(data, k, v)
      {
        var ok := MapKernel(d, data, k, m0, o0);
        if !ok {
          PurgeUndoes(m0, o0, mem, owner, d);
          Freevm(d);
          return None;
        }
        k := k + 1;
      }
      KernelSpace(mem, d, data, 0);
    }

    /** One line of kmap. */
    method MapKernel(d: nat, data: nat, k: nat, ghost m0: Mem, ghost o0: Owners) returns (ok: bool)
      requires Valid() && Owns(owner, d, Dir) && 0x100 < data < 0xE000 && k < 4 && Adds(m0, o0, mem, owner, d)
      requires IsDir(mem, d) && forall v: nat :: v < VPAGES ==> Entry(mem, d, v) == KEntry(data, k, v)
      modifies this`mem, this`freelist, this`free, this`owner
      ensures Valid() && Owns(owner, d, Dir) && Adds(m0, o0, mem, owner, d)
      ensures ok ==> IsDir(mem, d) && forall v: nat :: v < VPAGES ==> Entry(mem, d, v) == KEntry(data, k + 1, v)
    {
      ghost var m1, o1 := mem, owner;
      var x := Kmap(data)[k];
      forall v: nat | v < VPAGES
        ensures x.virt <= v < x.virt + x.n ==> !Present(Entry(mem, d, v))
        ensures x.n > 0 && USERPAGES <= x.virt && x.virt + x.n <= VPAGES
      {
        KApart(data, k, v, x);
      }
      KApart(data, k, 0, x);
      RangeBytes(x.virt, x.n, x.virt * PGSIZE, x.n * PGSIZE);
      var panic;
      ok, panic := Mappages(d, x.virt * PGSIZE, x.n * PGSIZE, x.frame, x.perm, false, x.virt, x.virt + x.n - 1);
      AddsTrans(m0, o0, m1, o1, mem, owner, d);
    }

    /**
     The part that allocuvm and copyuvm share: a page from kalloc, filled with p, goes
     to virtual page v.  When mapping fails the page is left in the caller's hand;
     mapping panics when v is mapped already.
     */
    method NewPage(d: nat, v: nat, p: Page, perm: nat) returns (ok: bool, hand: Option<nat>, panic: bool, ghost f: nat)
      requires Valid() && Owns(owner, d, Dir) && v < USERPAGES && IsDir(mem, d) && p.Bytes?
      modifies this`mem, this`freelist, this`free, this`owner
      ensures Valid() && Owns(owner, d, Dir) && |mem| == |old(mem)|
      ensures ok ==>
                f !in old(owner) && Adds(old(mem), old(owner), mem, owner, d)
                && Ranged(old(mem), mem, d, v, v + 1, f, WithP(perm))
      ensures ok ==> Owns(owner, f, User(d, Pdx(v), Ptx(v))) && f < |mem| && mem[f] == p
      ensures panic || ok ==> (panic <==> !ok) && (panic <==> Present(Entry(old(mem), d, v)))
      ensures !ok && hand == None ==> mem == old(mem) && owner == old(owner)
      ensures !ok && hand.Some? ==> hand.value !in old(owner) && hand.value < |mem| && Owns(owner, hand.value, Other)
      ensures !ok && hand.Some? ==> Adds(old(mem)[hand.value := p], old(owner)[hand.value := Other], mem, owner, d)
      ensures !ok && hand.Some? ==> SameOutside(old(mem), mem, d, v, v)
    {
      ghost var m0, o0 := mem, owner;
      var r := Kalloc();
      if r == None {
        return false, None, false, 0;
      }
      var h := r.value;
      f := h;
      FillKeeps(mem, first, free, owner, h, p);
      mem := mem[h := p];
      HandMapped(m0, o0, d, h, p, v);
      RangeBytes(v, 1, v * PGSIZE, PGSIZE);
      ok, panic := Mappages(d, v * PGSIZE, PGSIZE, h, perm, true, v, v);
      hand := if ok then None else Some(h);
      if ok {
        NewPrivate(m0, o0, mem, owner, d, h, p, v);
        RangedHand(m0, o0, mem, d, h, p, v, WithP(perm));
      } else {
        SameHand(m0, o0, mem, d, h, p, v, v);
        assert h in o0[h := Other];
      }
    }

    /**
     allocuvm: the pages between the two sizes become fresh private pages of d, present,
     writable and for users, with every byte 0.  When memory runs out they are gone again,
     and only page tables were gained.  Panics at a page between the sizes that is mapped
     already.
     */
    method Allocuvm(d: nat, oldsz: nat, newsz: nat) returns (r: nat, panic: bool, ghost ok: bool)
      requires Valid() && Owns(owner, d, Dir) && oldsz < TWO32 && newsz < TWO32
      modifies this`mem, this`freelist, this`free, this`owner
      ensures Valid() && Owns(owner, d, Dir)
      ensures newsz >= KERNBASE || newsz < oldsz ==>
                !panic && mem == old(mem) && owner == old(owner) && r == if newsz >= KERNBASE then 0 else oldsz
      ensures panic ==> !ok && !Unmapped(old(mem), d, Pages(oldsz), Pages(newsz))
      ensures oldsz <= newsz < KERNBASE ==> r == if ok then newsz else 0
      ensures oldsz <= newsz < KERNBASE && ok ==> Unmapped(old(mem), d, Pages(oldsz), Pages(newsz))
      ensures oldsz <= newsz < KERNBASE && ok ==>
                Grown(old(mem), old(owner), mem, owner, d, Pages(oldsz), Pages(newsz), Filled(0), WithP(PTE_W + PTE_U))
      ensures oldsz <= newsz < KERNBASE && ok ==>
                forall w: nat :: Pages(oldsz) <= w < Pages(newsz) ==> ZeroPage(mem, d, w)
      ensures oldsz <= newsz < KERNBASE && !ok && Unmapped(old(mem), d, Pages(oldsz), Pages(newsz)) ==>
                Shrunk(old(mem), old(owner), mem, owner, d, Pages(oldsz), Pages(newsz))
    {
      if newsz >= KERNBASE {
        return 0, false, false;
      }
      if newsz < oldsz {
        return oldsz, false, true;
      }
      ghost var m0, o0 := mem, owner;
      var done;
      done, panic := AllocPages(d, oldsz, newsz);
      ok, r := done, if done then newsz else 0;
      if ok {
        GrownZeroes(m0, o0, mem, owner, d, Pages(oldsz), Pages(newsz));
      }
    }

    /** The loop of allocuvm. */
    method AllocPages(d: nat, oldsz: nat, newsz: nat) returns (ok: bool, panic: bool)
      requires Valid() && Owns(owner, d, Dir) && oldsz <= newsz < KERNBASE
      modifies this`mem, this`freelist, this`free, this`owner
      ensures Valid() && Owns(owner, d, Dir)
      ensures panic ==> !ok && !Unmapped(old(mem), d, Pages(oldsz), Pages(newsz))
      ensures ok ==> Unmapped(old(mem), d, Pages(oldsz), Pages(newsz))
      ensures ok ==>
                Grown(old(mem), old(owner), mem, owner, d, Pages(oldsz), Pages(newsz), Filled(0), WithP(PTE_W + PTE_U))
      ensures !ok && Unmapped(old(mem), d, Pages(oldsz), Pages(newsz)) ==>
                Shrunk(old(mem), old(owner), mem, owner, d, Pages(oldsz), Pages(newsz))
    {
      ghost var m0, o0, lo, hi := mem, owner, Pages(oldsz), Pages(newsz);
      PageAt(mem, owner, d);
      AddsSelf(mem, first, free, owner, d);
      PagesBelow(oldsz, newsz, lo, hi);
      var v := Pages(oldsz);
      while v * PGSIZE < newsz
        invariant lo <= v <= hi <= USERPAGES && Valid() && Owns(owner, d, Dir)
        invariant Grown(m0, o0, mem, owner, d, lo, v, Filled(0), WithP(PTE_W + PTE_U))
        invariant Unmapped(m0, d, lo, v)
        decreases hi - v
      {
        PageBelow(v, newsz, hi);
        ghost var m1, o1 := mem, owner;
        var done, hand;
        ghost var f;
        done, hand, panic, f := NewPage(d, v, Filled(0), PTE_W + PTE_U);
        UnmappedStep(m0, m1, d, lo, v, hi);
        if panic {
          return false, true;
        }
        if !done {
          AllocFails(d, oldsz, newsz, hand, m0, o0, m1, o1, v);
          return false, false;
        }
        GrownStep(m0, o0, m1, o1, mem, owner, d, lo, v, Filled(0), WithP(PTE_W + PTE_U), f);
        v := v + 1;
      }
      PageBelow(v, newsz, hi);
      return true, false;
    }

    /** The ways out of allocuvm when memory has run out. */
    method AllocFails(d: nat, oldsz: nat, newsz: nat, hand: Option<nat>, ghost m0: Mem, ghost o0: Owners,
                      ghost m1: Mem, ghost o1: Owners, ghost v: nat)
      requires Valid() && Owns(owner, d, Dir) && oldsz < newsz < KERNBASE && Pages(oldsz) <= v <= Pages(newsz)
      requires PagesOk(m0, o0) && PagesOk(m1, o1) && Owns(o0, d, Dir)
      requires Adds(m0, o0, m1, o1, d) && SameOutside(m0, m1, d, Pages(oldsz), v)
      requires hand == None ==> mem == m1 && owner == o1
      requires hand.Some? ==> Held(m1, o1, mem, owner, d, hand.value, Filled(0))
      modifies this`mem, this`freelist, this`free, this`owner
      ensures Valid() && Owns(owner, d, Dir)
      ensures Unmapped(m0, d, Pages(oldsz), Pages(newsz)) ==> Shrunk(m0, o0, mem, owner, d, Pages(oldsz), Pages(newsz))
    {
      ghost var lo, hi := Pages(oldsz), Pages(newsz);
      PagesBelow(oldsz, newsz, lo, hi);
      ghost var m2, o2 := mem, owner;
      var r := Deallocuvm(d, newsz, oldsz);
      ghost var m3, o3, clean := mem, owner, Unmapped(m0, d, lo, hi);
      if hand == None {
        if clean {
          GrowUndone(m0, o0, m1, o1, mem, owner, d, lo, hi);
        }
      } else {
        if clean {
          HandUndone(m0, o0, m1, o1, m2, o2, mem, owner, d, lo, v, hi, hand.value, Filled(0));
        }
        Kfree(hand.value);
        if clean {
          HandReturned(m0, o0, m3, o3, mem, d, lo, hi, hand.value, Filled(0));
        }
      }
    }

    /**
     copyuvm: a new directory whose first pages are byte-equal private copies with
     equal flags, or, when memory runs out, nothing changed hands.  Panics at a page
     below sz that is not present.
     */
    method Copyuvm(src: nat, sz: nat, data: nat) returns (r: Option<nat>, panic: bool)
      requires Valid() && Owns(owner, src, Dir) && IsDir(mem, src) && sz <= KERNBASE && 0x100 < data < 0xE000
      modifies this`mem, this`freelist, this`free, this`owner
      ensures Valid() && |mem| == |old(mem)|
      ensures panic ==> r == None && exists w: nat :: w < Pages(sz) && w < VPAGES && !Present(Entry(old(mem), src, w))
      ensures r == None && !panic ==> owner == old(owner) && forall f :: f in owner ==>
                f < |mem| && mem[f] == old(mem)[f]
      ensures r.Some? ==>
                r.value !in old(owner) && Owns(owner, r.value, Dir) && Adds(old(mem), old(owner), mem, owner, r.value)
      ensures r.Some? ==> Copied(old(mem), old(owner), mem, owner, src, r.value, Pages(sz))
      ensures r.Some? ==> forall w: nat :: Pages(sz) <= w < VPAGES ==> KernelPage(data, w, Entry(mem, r.value, w))
    {
      ghost var m0, o0, hi := mem, owner, Pages(sz);
      PagesBelow(0, sz, Pages(0), hi);
      r := Setupkvm(data);
      panic := false;
      if r == None {
        return;
      }
      var d, v := r.value, 0;
      while v * PGSIZE < sz
        invariant v <= hi <= USERPAGES && Valid() && Owns(owner, d, Dir) && Adds(m0, o0, mem, owner, d)
        invariant Copied(m0, o0, mem, owner, src, d, v)
        invariant IsDir(mem, d) && forall w: nat :: v <= w < VPAGES ==> Entry(mem, d, w) == KEntry(data, 4, w)
        decreases hi - v
      {
        PageBelow(v, sz, hi);
        var p, flags;
        p, flags, panic := SourcePage(src, d, v, m0, o0);
        if panic {
          return None, true;
        }
        var ok := CopyPage(src, d, v, p, flags, data, m0, o0);
        if !ok {
          PurgeUndoes(m0, o0, mem, owner, d);
          OthersIntact(m0, o0, mem, owner, d);
          Freevm(d);
          return None, false;
        }
        v := v + 1;
      }
      PageBelow(v, sz, hi);
      KernelSpace(mem, d, data, hi);
    }

    /** A round of copyuvm; on failure the page in hand has gone back to the pool. */
    method CopyPage(ghost src: nat, d: nat, v: nat, p: Page, flags: nat, ghost data: nat, ghost m0: Mem,
                    ghost o0: Owners)
      returns (ok: bool)
      requires Valid() && Owns(owner, d, Dir) && v < USERPAGES && Adds(m0, o0, mem, owner, d)
      requires Copied(m0, o0, mem, owner, src, d, v)
      requires PagesOk(m0, o0) && Owns(o0, src, Dir) && d !in o0 && IsDir(m0, src) && 0x100 < data < 0xE000
      requires Present(Entry(m0, src, v)) && Entry(m0, src, v).frame < |m0| && p == m0[Entry(m0, src, v).frame]
      requires p.Bytes?
      requires flags == Entry(m0, src, v).flags && WithP(flags) == flags
      requires IsDir(mem, d) && forall w: nat :: v <= w < VPAGES ==> Entry(mem, d, w) == KEntry(data, 4, w)
      modifies this`mem, this`freelist, this`free, this`owner
      ensures Valid() && Owns(owner, d, Dir) && Adds(m0, o0, mem, owner, d)
      ensures ok ==> Copied(m0, o0, mem, owner, src, d, v + 1)
      ensures ok ==> IsDir(mem, d) && forall w: nat :: v + 1 <= w < VPAGES ==> Entry(mem, d, w) == KEntry(data, 4, w)
    {
      ghost var m1, o1 := mem, owner;
      KUser(data, v);
      var hand;
      ghost var f;
      var panic;
      ok, hand, panic, f := NewPage(d, v, p, flags);
      if ok {
        CopiedStep(m0, o0, m1, o1, mem, owner, src, d, v, p, flags, f);
      } else if hand.Some? {
        AddsHand(m0, o0, m1, o1, d, hand.value, p);
        AddsTrans(m0[hand.value := p], o0[hand.value := Other], m1[hand.value := p], o1[hand.value := Other], mem,
                  owner, d);
        ghost var m2, o2 := mem, owner;
        Kfree(hand.value);
        AddsReturn(m0, o0, m2, o2, mem, d, hand.value, p);
      }
    }

    /** walkpgdir and the reads of copyuvm on the page to copy; panics exactly when it is not present. */
    method SourcePage(src: nat, ghost d: nat, v: nat, ghost m0: Mem, ghost o0: Owners)
      returns (p: Page, flags: nat, panic: bool)
      requires Valid() && v < USERPAGES && PagesOk(m0, o0) && Adds(m0, o0, mem, owner, d) && d !in o0
      requires Owns(o0, src, Dir)
      requires IsDir(m0, src)
      ensures panic <==> !Present(Entry(m0, src, v))
      ensures !panic ==> Entry(m0, src, v).frame < |m0| && p == m0[Entry(m0, src, v).frame] && p.Bytes?
      ensures !panic ==> flags == Entry(m0, src, v).flags && WithP(flags) == flags
    {
      SplitPage(v);
      SpaceSame(m0, o0, mem, owner, d, src, v);
      OthersIntact(m0, o0, mem, owner, d);
      p, flags, panic := Bytes([]), 0, true;
      var t := Find(src, Pdx(v));
      if t.Some? {
        PageAt(mem, owner, t.value);
        var pte := mem[t.value].e[Ptx(v)];
        if Present(pte) {
          PresentPrivate(m0, o0, src, v);
          p, flags, panic := mem[pte.frame], pte.flags, false;
        }
      }
    }
  }

  /** kmap leaves user memory alone. */
  lemma KUser(data: nat, v: nat)
    requires 0x100 < data < 0xE000 && v < USERPAGES
    ensures KEntry(data, 4, v) == Pte(0, 0)
  {
    KApart(data, 3, v, Kmap(data)[3]);
  }

  /** Growing has left page v as it was. */
  lemma UnmappedStep(m0: Mem, m1: Mem, d: nat, lo: nat, v: nat, hi: nat)
    requires SameOutside(m0, m1, d, lo, v) && lo <= v < hi <= USERPAGES && Unmapped(m0, d, lo, v)
    ensures Present(Entry(m1, d, v)) ==> !Unmapped(m0, d, lo, hi)
    ensures !Present(Entry(m1, d, v)) ==> Unmapped(m0, d, lo, v + 1)
  {
    assert Entry(m1, d, v) == Entry(m0, d, v);
  }

  lemma RangeBytes(a: nat, n: nat, va: nat, size: nat)
    requires n > 0 && a + n <= VPAGES && va == a * PGSIZE && size == n * PGSIZE
    ensures size > 0 && va + size <= TWO32 && va / PGSIZE == a && (va + size - 1) / PGSIZE == a + n - 1
  {
  }

  /** Entry j of table i is that of virtual page v. */
  ghost predicate AtPage(v: nat, i: nat, j: nat) {
    v == NPTENTRIES * i + j && i < NPDENTRIES && j < NPTENTRIES
  }

  /** Freeing the page behind the entry of v and clearing the entry, in that order. */
  lemma EntryFreed(m0: Mem, o0: Owners, m1: Mem, o1: Owners, first: nat, free: seq<nat>, freelist: Option<nat>, d: nat,
                   lo: nat, v: nat, v': nat, i: nat, j: nat, t: nat, f: nat)
    returns (m3: Mem, o3: Owners, l3: seq<nat>)
    requires first <= |m1| && Inv(m1, first, free, o1) && freelist == Head(free)
    requires AtPage(v, i, j) && v' == v + 1 && lo <= v < USERPAGES && Cleared(m0, o0, m1, o1, d, lo, v)
    requires Owns(o1, t, Tab(d, i)) && t < |m1| && IsTable(m1[t]) && Present(m1[t].e[j]) && f == m1[t].e[j].frame
    ensures first <= f < |m1| && t != f && Head(l3) == Some(f)
    ensures m3 == m1[f := Run(freelist)][t := WithEntry(m1[t], j, Pte(0, 0))] && first <= |m3|
    ensures Inv(m3, first, l3, o3) && Cleared(m0, o0, m3, o3, d, lo, v')
  {
    JoinPage(i, j, v);
    PageAt(m1, o1, t);
    PageAt(m1, o1, f);
    var m2 := m1[f := Run(Head(free))];
    o3, l3 := o1 - {f}, [f] + free;
    m3 := m2[t := WithEntry(m1[t], j, Pte(0, 0))];
    ReleaseKeeps(m1, first, free, o1, m2, m3, d, i, j, t, f);
    ClearedOne(m0, o0, m1, o1, m3, d, lo, v, t, f);
  }

  /** Page v had no entry in its table. */
  lemma EntryAbsent(m0: Mem, o0: Owners, m1: Mem, o1: Owners, d: nat, lo: nat, v: nat, v': nat, i: nat, j: nat, t: nat)
    requires PagesOk(m1, o1) && AtPage(v, i, j) && v' == v + 1 && lo <= v < USERPAGES
    requires Cleared(m0, o0, m1, o1, d, lo, v)
    requires IsDir(m1, d) && m1[d].e[i].frame == t < |m1| && IsTable(m1[t]) && !Present(m1[t].e[j])
    ensures Cleared(m0, o0, m1, o1, d, lo, v')
  {
    JoinPage(i, j, v);
    assert Unmapped(m1, d, v, v');
    ClearedSkip(m0, o0, m1, o1, d, lo, v, v');
  }

  lemma FreedUsers(m0: Mem, o0: Owners, m1: Mem, o1: Owners, d: nat)
    requires PagesOk(m0, o0) && Owns(o0, d, Dir) && Cleared(m0, o0, m1, o1, d, Pages(0), Pages(KERNBASE))
    ensures Owns(o1, d, Dir) && forall f :: f in o1 && o1[f].User? ==> o1[f].d != d
    ensures Freeing(o1, d, NPDENTRIES) - {d} == Purged(o0, d)
    ensures forall f :: f in Purged(o0, d) ==> f < |m1| && m1[f] == m0[f]
  {
    assert Pages(0) == 0 && Pages(KERNBASE) == USERPAGES;
    OnlyTables(m0, o0, o1, d);
    FreeingEnd(m0, o0, o1, d);
    PurgedSame(m0, o0, m1, o1, d);
  }

  lemma PageBelow(v: nat, sz: nat, n: nat)
    requires n == Pages(sz)
    ensures v * PGSIZE < sz <==> v < n
  {
  }

  lemma PagesBelow(a: nat, b: nat, m: nat, n: nat)
    requires a <= b <= KERNBASE && m == Pages(a) && n == Pages(b)
    ensures m <= n <= USERPAGES
  {
  }

  /** The first page of the next page table. */
  function NextTable(v: nat): (w: nat)
    ensures w > v
  {
    (Pdx(v) + 1) * NPTENTRIES
  }

  /** The pages of a missing page table, up to hi, were skipped. */
  lemma SkipTable(m0: Mem, o0: Owners, m1: Mem, o1: Owners, d: nat, lo: nat, v: nat, w: nat, hi: nat) returns (g: nat)
    requires lo <= v < hi <= USERPAGES && Cleared(m0, o0, m1, o1, d, lo, v) && PagesOk(m1, o1)
    requires IsDir(m1, d) && Pdx(v) < NPDENTRIES && !Present(m1[d].e[Pdx(v)]) && w == NextTable(v)
    ensures v < w && g == (if w < hi then w else hi) && Cleared(m0, o0, m1, o1, d, lo, g)
  {
    SkipTo(v, w);
    g := if w < hi then w else hi;
    TableUnmapped(m1, d, v, g);
    ClearedSkip(m0, o0, m1, o1, d, lo, v, g);
  }

  lemma SkipTo(v: nat, w: nat)
    requires w == (Pdx(v) + 1) * NPTENTRIES && v < USERPAGES
    ensures v < w <= USERPAGES
  {
  }

  lemma LastPage(va: nat, size: nat, a: nat, last: nat)
    requires size > 0 && va + size <= TWO32 && a == va / PGSIZE && last == (va + size - 1) / PGSIZE
    ensures a <= last == (va + size - 1) % TWO32 / PGSIZE && last < VPAGES
  {
  }

  predicate InPool(first: nat, f: nat, n: nat) {
    first <= f < n
  }
}
