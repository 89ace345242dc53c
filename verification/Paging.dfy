/**
 Physical pages under kalloc.c and vm.c: a free list threaded through the free pages
 and, for each page in use, the one thing that owns it.  The lemmas say that each
 elementary change of memory keeps every page either free once or owned once.
 */
module Paging {
  import opened Wrappers
  import opened Collections

  const NPDENTRIES: nat := 1024
  const NPTENTRIES: nat := 1024

  /** Page directory entries below this one map user memory: KERNBASE >> 22. */
  const USERDIRS: nat := 512

  const PTE_P: nat := 1
  const PTE_W: nat := 2
  const PTE_U: nat := 4

  /** An entry of a page directory or page table: a frame number and the 12 flag bits. */
  datatype Pte = Pte(frame: nat, flags: nat)

  /** What a page holds: the link of the free list, page table entries, or data. */
  datatype Page = Run(next: Option<nat>) | Table(e: seq<Pte>) | Bytes(b: seq<int>)

  type Mem = seq<Page>

  /** Other is anything but a page table: a kernel stack, a pipe, or a page in the hands of its caller. */
  datatype Owner = Dir | Tab(d: nat, i: nat) | User(d: nat, i: nat, j: nat) | Other

  type Owners = map<nat, Owner>

  predicate Present(p: Pte) {
    p.flags % 2 == 1
  }

  predicate IsTable(p: Page) {
    p.Table? && |p.e| == NPTENTRIES
  }

  function Zeroed(): (p: Page)
    ensures IsTable(p) && forall i :: 0 <= i < NPTENTRIES ==> p.e[i] == Pte(0, 0)
  {
    Table(seq(NPTENTRIES, _ => Pte(0, 0)))
  }

  ghost predicate Owns(owner: Owners, f: nat, o: Owner) {
    f in owner && owner[f] == o
  }

  // ----- the invariant -----

  function NextFree(free: seq<nat>, i: nat): (r: Option<nat>)
    requires i < |free|
  {
    if i + 1 < |free| then Some(free[i + 1]) else None
  }

  function Head(free: seq<nat>): (r: Option<nat>) {
    if free == [] then None else Some(free[0])
  }

  /** The free list: distinct pages of the pool, none of them owned, linked in this order. */
  ghost predicate FreeOk(mem: Mem, first: nat, free: seq<nat>, owner: Owners) {
    && Distinct(free)
    && (forall i :: 0 <= i < |free| ==> first <= free[i] < |mem| && free[i] !in owner)
    && (forall i {:trigger NextFree(free, i)} :: 0 <= i < |free| ==> mem[free[i]] == Run(NextFree(free, i)))
  }

  /** Every page of the pool is free or owned, and only those are. */
  ghost predicate Total(mem: Mem, first: nat, free: seq<nat>, owner: Owners) {
    && (forall f :: f in owner ==> first <= f < |mem|)
    && (forall f: nat :: first <= f < |mem| && f !in owner ==> f in free)
  }

  /** Directory d: its present entries are its page tables, and leave the permissions to them. */
  ghost predicate DirOk(mem: Mem, owner: Owners, d: nat) {
    && d < |mem| && IsTable(mem[d])
    && forall i: nat :: i < NPDENTRIES && Present(mem[d].e[i]) ==>
         Owns(owner, mem[d].e[i].frame, Tab(d, i)) && mem[d].e[i].flags == PTE_P + PTE_W + PTE_U
  }

  /** Page table t of entry i of directory d; in the user part its present entries are user pages. */
  ghost predicate TabOk(mem: Mem, owner: Owners, t: nat, d: nat, i: nat) {
    && t < |mem| && d < |mem| && i < NPDENTRIES && Owns(owner, d, Dir) && IsTable(mem[d]) && IsTable(mem[t])
    && Present(mem[d].e[i]) && mem[d].e[i].frame == t
    && (i < USERDIRS ==>
          forall j: nat :: j < NPTENTRIES && Present(mem[t].e[j]) ==> Owns(owner, mem[t].e[j].frame, User(d, i, j)))
  }

  /** User page f at entry j of table i of directory d. */
  ghost predicate UserOk(mem: Mem, owner: Owners, f: nat, d: nat, i: nat, j: nat) {
    && f < |mem| && d < |mem| && i < USERDIRS && j < NPTENTRIES && Owns(owner, d, Dir) && IsTable(mem[d])
    && Present(mem[d].e[i])
    && var t := mem[d].e[i].frame;
       && Owns(owner, t, Tab(d, i)) && t < |mem| && IsTable(mem[t]) && Present(mem[t].e[j]) && mem[t].e[j].frame == f
       && mem[f].Bytes?
  }

  ghost predicate PageOk(mem: Mem, owner: Owners, f: nat)
    requires f in owner
  {
    match owner[f]
    case Dir => DirOk(mem, owner, f)
    case Tab(d, i) => TabOk(mem, owner, f, d, i)
    case User(d, i, j) => UserOk(mem, owner, f, d, i, j)
    case Other => true
  }

  ghost predicate PagesOk(mem: Mem, owner: Owners) {
    forall f :: f in owner ==> PageOk(mem, owner, f)
  }

  lemma PageAt(mem: Mem, owner: Owners, f: nat)
    requires PagesOk(mem, owner) && f in owner
    ensures PageOk(mem, owner, f)
  {
  }

  ghost predicate Inv(mem: Mem, first: nat, free: seq<nat>, owner: Owners) {
    FreeOk(mem, first, free, owner) && Total(mem, first, free, owner) && PagesOk(mem, owner)
  }

  // ----- kalloc and kfree -----

  /** Pages in nobody's tables can hold anything. */
  lemma OtherPages(mem: Mem, owner: Owners, mem': Mem, f: nat)
    requires PagesOk(mem, owner) && |mem'| == |mem| && (forall g :: 0 <= g < |mem| && g != f ==> mem'[g] == mem[g])
    requires f !in owner || owner[f] == Other
    ensures PagesOk(mem', owner)
  {
    forall g | g in owner
      ensures PageOk(mem', owner, g)
    {
      PageAt(mem, owner, g);
    }
  }

  /** Giving a free page to its caller. */
  lemma AllocPages(mem: Mem, owner: Owners, f: nat)
    requires PagesOk(mem, owner) && f !in owner
    ensures PagesOk(mem, owner[f := Other])
  {
    var owner' := owner[f := Other];
    forall g | g in owner'
      ensures PageOk(mem, owner', g)
    {
      if g in owner {
        PageAt(mem, owner, g);
      }
    }
  }

  lemma AllocKeeps(mem: Mem, first: nat, free: seq<nat>, owner: Owners, f: nat)
    requires Inv(mem, first, free, owner) && free != [] && f == free[0]
    ensures Inv(mem, first, free[1..], owner[f := Other])
    ensures f !in owner && first <= f < |mem| && mem[f] == Run(Head(free[1..]))
  {
    assert mem[free[0]] == Run(NextFree(free, 0));
    AllocPages(mem, owner, f);
    var rest := free[1..];
    forall i | 0 <= i < |rest|
      ensures mem[rest[i]] == Run(NextFree(rest, i))
    {
      assert mem[free[i + 1]] == Run(NextFree(free, i + 1));
    }
  }

  /** A page nobody's tables mention goes back to the front of the free list. */
  lemma FreeKeeps(mem: Mem, first: nat, free: seq<nat>, owner: Owners, f: nat, mem': Mem)
    requires Inv(mem, first, free, owner) && Owns(owner, f, Other) && f < |mem| && mem' == mem[f := Run(Head(free))]
    ensures Inv(mem', first, [f] + free, owner - {f})
  {
    OtherPages(mem, owner, mem', f);
    ForgetPages(mem', owner, f);
    var more := [f] + free;
    forall i | 0 <= i < |more|
      ensures mem'[more[i]] == Run(NextFree(more, i))
    {
      if i > 0 {
        assert mem[free[i - 1]] == Run(NextFree(free, i - 1));
      }
    }
  }

  lemma ForgetPages(mem: Mem, owner: Owners, f: nat)
    requires PagesOk(mem, owner) && Owns(owner, f, Other)
    ensures PagesOk(mem, owner - {f})
  {
    var owner' := owner - {f};
    forall g | g in owner'
      ensures PageOk(mem, owner', g)
    {
      PageAt(mem, owner, g);
    }
  }

  /** memset or memmove on a page in the hands of its caller. */
  lemma FillKeeps(mem: Mem, first: nat, free: seq<nat>, owner: Owners, f: nat, p: Page)
    requires Inv(mem, first, free, owner) && Owns(owner, f, Other) && f < |mem|
    ensures Inv(mem[f := p], first, free, owner)
  {
    OtherPages(mem, owner, mem[f := p], f);
    UsedFree(mem, mem[f := p], first, free, owner, f);
  }

  /** The free list does not see what happens on owned pages. */
  lemma UsedFree(mem: Mem, mem': Mem, first: nat, free: seq<nat>, owner: Owners, f: nat)
    requires FreeOk(mem, first, free, owner) && f in owner && |mem'| == |mem|
    requires forall g :: 0 <= g < |mem| && g != f ==> mem'[g] == mem[g]
    ensures FreeOk(mem', first, free, owner)
  {
    forall i | 0 <= i < |free|
      ensures mem'[free[i]] == Run(NextFree(free, i))
    {
      assert mem[free[i]] == Run(NextFree(free, i));
    }
  }

  /** Nor does it see owned pages change owner. */
  lemma RetagFree(mem: Mem, first: nat, free: seq<nat>, owner: Owners, f: nat, o: Owner)
    requires FreeOk(mem, first, free, owner) && Total(mem, first, free, owner) && f in owner
    ensures FreeOk(mem, first, free, owner[f := o]) && Total(mem, first, free, owner[f := o])
  {
    forall i | 0 <= i < |free|
      ensures mem[free[i]] == Run(NextFree(free, i))
    {
      assert mem[free[i]] == Run(NextFree(free, i));
    }
  }

  // ----- page tables -----

  /** The entry of directory d and page table i at j; absent when the table is missing. */
  ghost function EntryAt(mem: Mem, d: nat, i: nat, j: nat): (p: Pte)
    requires d < |mem| && IsTable(mem[d]) && i < NPDENTRIES && j < NPTENTRIES
  {
    if Present(mem[d].e[i]) && mem[d].e[i].frame < |mem| && IsTable(mem[mem[d].e[i].frame])
    then mem[mem[d].e[i].frame].e[j]
    else Pte(0, 0)
  }

  /** A zeroed page becomes a directory. */
  lemma DirKeeps(mem: Mem, first: nat, free: seq<nat>, owner: Owners, d: nat)
    requires Inv(mem, first, free, owner) && Owns(owner, d, Other) && d < |mem| && mem[d] == Zeroed()
    ensures Inv(mem, first, free, owner[d := Dir])
  {
    var owner' := owner[d := Dir];
    RetagFree(mem, first, free, owner, d, Dir);
    forall g | g in owner'
      ensures PageOk(mem, owner', g)
    {
      PageAt(mem, owner, g);
    }
  }

  function WithEntry(p: Page, i: nat, x: Pte): (r: Page)
    requires IsTable(p) && i < NPTENTRIES
    ensures IsTable(r)
  {
    Table(p.e[i := x])
  }

  /** A zeroed page becomes the page table of an empty directory entry. */
  lemma TabKeeps(mem: Mem, first: nat, free: seq<nat>, owner: Owners, d: nat, i: nat, t: nat, flags: nat, mem': Mem)
    requires Inv(mem, first, free, owner) && Owns(owner, t, Other) && t < |mem| && mem[t] == Zeroed()
    requires Owns(owner, d, Dir) && d < |mem| && IsTable(mem[d]) && i < NPDENTRIES && !Present(mem[d].e[i])
    requires flags == PTE_P + PTE_W + PTE_U
    requires mem' == mem[d := WithEntry(mem[d], i, Pte(t, flags))]
    ensures Inv(mem', first, free, owner[t := Tab(d, i)])
    ensures forall k: nat, j: nat :: k < NPDENTRIES && j < NPTENTRIES ==>
              EntryAt(mem', d, k, j) == EntryAt(mem, d, k, j)
  {
    var owner' := owner[t := Tab(d, i)];
    UsedFree(mem, mem', first, free, owner, d);
    RetagFree(mem', first, free, owner, t, Tab(d, i));
    PageAt(mem, owner, d);
    forall g | g in owner'
      ensures PageOk(mem', owner', g)
    {
      PageAt(mem, owner, g);
    }
    forall k: nat, j: nat | k < NPDENTRIES && j < NPTENTRIES
      ensures EntryAt(mem', d, k, j) == EntryAt(mem, d, k, j)
    {
      assert k != i && Present(mem[d].e[k]) ==> Owns(owner, mem[d].e[k].frame, Tab(d, k));
    }
  }

  /** Entry j of page table t, which belongs to entry i of directory d, is set to x. */
  ghost predicate Sets(mem: Mem, owner: Owners, mem': Mem, d: nat, i: nat, j: nat, t: nat, x: Pte) {
    && t < |mem| && Owns(owner, t, Tab(d, i)) && IsTable(mem[t]) && j < NPTENTRIES
    && mem' == mem[t := WithEntry(mem[t], j, x)]
  }

  /** Setting one entry changes that entry alone. */
  lemma SetsEntry(mem: Mem, owner: Owners, mem': Mem, d: nat, i: nat, j: nat, t: nat, x: Pte, k: nat, l: nat)
    requires PagesOk(mem, owner) && Sets(mem, owner, mem', d, i, j, t, x) && k < NPDENTRIES && l < NPTENTRIES
    ensures d < |mem| && IsTable(mem[d]) && mem'[d] == mem[d]
    ensures EntryAt(mem', d, k, l) == if k == i && l == j then x else EntryAt(mem, d, k, l)
  {
    PageAt(mem, owner, t);
    PageAt(mem, owner, d);
    assert Present(mem[d].e[k]) ==> Owns(owner, mem[d].e[k].frame, Tab(d, k));
  }

  /** A page in the hands of its caller becomes a user page. */
  lemma MapKeeps(mem: Mem, first: nat, free: seq<nat>, owner: Owners, mem': Mem, d: nat, i: nat, j: nat, t: nat,
                 f: nat, flags: nat)
    requires Inv(mem, first, free, owner) && Sets(mem, owner, mem', d, i, j, t, Pte(f, flags)) && flags % 2 == 1
    requires i < USERDIRS
    requires !Present(mem[t].e[j]) && Owns(owner, f, Other) && f < |mem| && mem[f].Bytes?
    ensures Inv(mem', first, free, owner[f := User(d, i, j)])
  {
    var owner' := owner[f := User(d, i, j)];
    UsedFree(mem, mem', first, free, owner, t);
    RetagFree(mem', first, free, owner, f, User(d, i, j));
    PageAt(mem, owner, t);
    forall g | g in owner'
      ensures PageOk(mem', owner', g)
    {
      PageAt(mem, owner, g);
    }
  }

  /** A kernel mapping owns nothing. */
  lemma KernelKeeps(mem: Mem, first: nat, free: seq<nat>, owner: Owners, mem': Mem, d: nat, i: nat, j: nat, t: nat,
                    x: Pte)
    requires Inv(mem, first, free, owner) && Sets(mem, owner, mem', d, i, j, t, x) && i >= USERDIRS
    ensures Inv(mem', first, free, owner)
  {
    UsedFree(mem, mem', first, free, owner, t);
    PageAt(mem, owner, t);
    forall g | g in owner
      ensures PageOk(mem', owner, g)
    {
      PageAt(mem, owner, g);
    }
  }

  /** The entry is cleared: the user page is its caller's again. */
  lemma UnmapKeeps(mem: Mem, first: nat, free: seq<nat>, owner: Owners, mem': Mem, d: nat, i: nat, j: nat, t: nat,
                   f: nat)
    requires Inv(mem, first, free, owner) && Sets(mem, owner, mem', d, i, j, t, Pte(0, 0)) && i < USERDIRS
    requires Present(mem[t].e[j]) && mem[t].e[j].frame == f
    ensures Owns(owner, f, User(d, i, j)) && f < |mem| && mem'[f] == mem[f] && Inv(mem', first, free, owner[f := Other])
  {
    PageAt(mem, owner, t);
    PageAt(mem, owner, f);
    var owner' := owner[f := Other];
    UsedFree(mem, mem', first, free, owner, t);
    RetagFree(mem', first, free, owner, f, Other);
    forall g | g in owner'
      ensures PageOk(mem', owner', g)
    {
      PageAt(mem, owner, g);
    }
  }

  /** deallocuvm frees the page before it clears the entry; together they keep the pool. */
  lemma ReleaseKeeps(mem: Mem, first: nat, free: seq<nat>, owner: Owners, mem1: Mem, mem2: Mem, d: nat, i: nat,
                     j: nat, t: nat, f: nat)
    requires Inv(mem, first, free, owner) && Owns(owner, t, Tab(d, i)) && t < |mem| && i < USERDIRS && j < NPTENTRIES
    requires IsTable(mem[t])
    requires Present(mem[t].e[j]) && f == mem[t].e[j].frame && f < |mem|
    requires mem1 == mem[f := Run(Head(free))] && t < |mem1| && IsTable(mem1[t])
    requires mem2 == mem1[t := WithEntry(mem1[t], j, Pte(0, 0))]
    ensures Inv(mem2, first, [f] + free, owner - {f}) && Owns(owner, f, User(d, i, j))
  {
    var mem' := mem[t := WithEntry(mem[t], j, Pte(0, 0))];
    UnmapKeeps(mem, first, free, owner, mem', d, i, j, t, f);
    FreeKeeps(mem', first, free, owner[f := Other], f, mem'[f := Run(Head(free))]);
    assert t != f;
    assert mem'[f := Run(Head(free))] == mem2;
    assert owner[f := Other] - {f} == owner - {f};
  }

  // ----- what one address space may touch -----

  /** Page f, owned as o, belongs to directory d. */
  predicate Belongs(o: Owner, f: nat, d: nat) {
    match o
    case Dir => f == d
    case Tab(e, _) => e == d
    case User(e, _, _) => e == d
    case Other => false
  }

  /** A directory and its tables are let go of, once no user page is left in them. */
  ghost function Disowned(owner: Owners, d: nat): (r: Owners)
    ensures r.Keys == owner.Keys
    ensures forall f :: f in owner ==> r[f] == if Belongs(owner[f], f, d) then Other else owner[f]
  {
    map f | f in owner :: if Belongs(owner[f], f, d) then Other else owner[f]
  }

  lemma DisownKeeps(mem: Mem, first: nat, free: seq<nat>, owner: Owners, d: nat)
    requires Inv(mem, first, free, owner) && forall f :: f in owner && owner[f].User? ==> owner[f].d != d
    ensures Inv(mem, first, free, Disowned(owner, d))
  {
    var owner' := Disowned(owner, d);
    assert owner'.Keys == owner.Keys;
    forall i | 0 <= i < |free|
      ensures mem[free[i]] == Run(NextFree(free, i)) && free[i] !in owner'
    {
      assert mem[free[i]] == Run(NextFree(free, i));
      assert free[i] !in owner.Keys;
    }
    forall f: nat | first <= f < |mem| && f !in owner'
      ensures f in free
    {
      assert f !in owner.Keys;
    }
    forall g | g in owner'
      ensures PageOk(mem, owner', g)
    {
      assert g in owner.Keys;
      PageAt(mem, owner, g);
    }
  }

  // ----- what the invariant says -----

  ghost predicate OnceIn(free: seq<nat>, f: nat) {
    f in free && forall i, j :: 0 <= i < |free| && 0 <= j < |free| && free[i] == f && free[j] == f ==> i == j
  }

  /** Each page of the pool is on the free list exactly once, or owned and not on it. */
  lemma FreeOrOwned(mem: Mem, first: nat, free: seq<nat>, owner: Owners, f: nat)
    requires Inv(mem, first, free, owner) && first <= f < |mem|
    ensures f in owner <==> f !in free
    ensures f in free ==> OnceIn(free, f)
  {
  }

  /** The owners fix the set of free pages: giving everything back restores it, in whatever order. */
  lemma SameFree(m0: Mem, m1: Mem, first: nat, free0: seq<nat>, free1: seq<nat>, owner: Owners, f: nat)
    requires Inv(m0, first, free0, owner) && Inv(m1, first, free1, owner) && |m0| == |m1|
    ensures f in free0 <==> f in free1
  {
    if first <= f < |m0| {
      FreeOrOwned(m0, first, free0, owner, f);
      FreeOrOwned(m1, first, free1, owner, f);
    }
  }
}
