/**
 Address spaces as vm.c builds them, one level above single entries: pages numbered
 by virtual page, what an operation on one directory may add or take away, and the
 lemmas that the loops of vm.c need.
 */
module AddressSpace {
  import opened Wrappers
  import opened Params
  import opened Paging

  const PGSIZE: nat := 4096
  const KERNBASE: nat := 0x8000_0000

  /** Virtual pages in all, and those below KERNBASE. */
  const VPAGES: nat := NPDENTRIES * NPTENTRIES
  const USERPAGES: nat := USERDIRS * NPTENTRIES

  /** PGROUNDUP, in pages. */
  function Pages(sz: nat): (n: nat)
    ensures sz <= n * PGSIZE < sz + PGSIZE
  {
    (sz + PGSIZE - 1) / PGSIZE
  }

  function Pdx(v: nat): (i: nat) {
    v / NPTENTRIES
  }

  function Ptx(v: nat): (j: nat)
    ensures j < NPTENTRIES
  {
    v % NPTENTRIES
  }

  lemma SplitPage(v: nat)
    requires v < VPAGES
    ensures Pdx(v) < NPDENTRIES && v == NPTENTRIES * Pdx(v) + Ptx(v) && (v < USERPAGES <==> Pdx(v) < USERDIRS)
  {
  }

  lemma JoinPage(i: nat, j: nat, v: nat)
    requires j < NPTENTRIES && v == NPTENTRIES * i + j
    ensures Pdx(v) == i && Ptx(v) == j
  {
  }

  ghost predicate IsDir(mem: Mem, d: nat) {
    d < |mem| && IsTable(mem[d])
  }

  /** The entry for virtual page v. */
  ghost function Entry(mem: Mem, d: nat, v: nat): (p: Pte)
    requires IsDir(mem, d) && v < VPAGES
  {
    SplitPage(v);
    EntryAt(mem, d, Pdx(v), Ptx(v))
  }

  /** Setting the entry of page v changes no other. */
  lemma SetsPage(mem: Mem, owner: Owners, mem': Mem, d: nat, v: nat, t: nat, x: Pte, w: nat)
    requires PagesOk(mem, owner) && v < VPAGES && w < VPAGES && Sets(mem, owner, mem', d, Pdx(v), Ptx(v), t, x)
    ensures IsDir(mem, d) && IsDir(mem', d) && Entry(mem', d, w) == if w == v then x else Entry(mem, d, w)
  {
    SplitPage(v);
    SplitPage(w);
    SetsEntry(mem, owner, mem', d, Pdx(v), Ptx(v), t, x, Pdx(w), Ptx(w));
  }

  /** Pages from lo up to hi are mapped to the frames from frame on; every other entry of d is as in m0. */
  ghost predicate Ranged(m0: Mem, m1: Mem, d: nat, lo: nat, hi: nat, frame: nat, flags: nat) {
    && IsDir(m0, d) && IsDir(m1, d)
    && forall w: nat :: w < VPAGES ==>
         Entry(m1, d, w) == if lo <= w < hi then Pte(frame + (w - lo), flags) else Entry(m0, d, w)
  }

  /** Every entry of d outside lo up to hi is as in m0. */
  ghost predicate SameOutside(m0: Mem, m1: Mem, d: nat, lo: nat, hi: nat) {
    && IsDir(m0, d) && IsDir(m1, d)
    && forall w: nat :: w < VPAGES && !(lo <= w < hi) ==> Entry(m1, d, w) == Entry(m0, d, w)
  }

  /** No entry of d from lo up to hi is present. */
  ghost predicate Unmapped(mem: Mem, d: nat, lo: nat, hi: nat) {
    && IsDir(mem, d)
    && forall w: nat :: lo <= w < hi && w < VPAGES ==> !Present(Entry(mem, d, w))
  }

  // ----- growing -----

  /** A page of directory d that holds entries. */
  predicate TablePage(o: Owner, f: nat, d: nat) {
    (o == Dir && f == d) || (o.Tab? && o.d == d)
  }

  /** Directory d may have gained pages; nobody lost one, and only tables of d were written. */
  ghost predicate Adds(m0: Mem, o0: Owners, m1: Mem, o1: Owners, d: nat) {
    && |m1| == |m0|
    && (forall f :: f in o0 ==> f < |m0| && f in o1 && o1[f] == o0[f])
    && (forall f :: f in o0 && !TablePage(o0[f], f, d) ==> m1[f] == m0[f])
    && (forall f :: f in o1 ==> f in o0 || Belongs(o1[f], f, d))
  }

  lemma AddsSelf(mem: Mem, first: nat, free: seq<nat>, owner: Owners, d: nat)
    requires Inv(mem, first, free, owner)
    ensures Adds(mem, owner, mem, owner, d)
  {
  }

  lemma AddsTrans(m0: Mem, o0: Owners, m1: Mem, o1: Owners, m2: Mem, o2: Owners, d: nat)
    requires Adds(m0, o0, m1, o1, d) && Adds(m1, o1, m2, o2, d)
    ensures Adds(m0, o0, m2, o2, d)
  {
  }

  /** A page f fresh from kalloc was filled and mapped into d. */
  lemma AddsPage(m0: Mem, o0: Owners, m1: Mem, f: nat, o: Owner, m2: Mem, o2: Owners, d: nat)
    requires f !in o0 && Belongs(o, f, d) && |m1| == |m0| && (forall g :: g in o0 ==> g < |m0| && m1[g] == m0[g])
    requires Adds(m1, o0[f := o], m2, o2, d)
    ensures Adds(m0, o0, m2, o2, d)
  {
    forall g | g in o0
      ensures g in o2 && o2[g] == o0[g] && (!TablePage(o0[g], g, d) ==> m2[g] == m0[g])
    {
      assert g in o0[f := o];
    }
  }

  /** Owners with page f, if it was mapped at v, tagged as a user page. */
  ghost function Tagged(owner: Owners, yes: bool, f: nat, d: nat, v: nat): (r: Owners) {
    if yes then owner[f := User(d, Pdx(v), Ptx(v))] else owner
  }

  /** After the walk, an entry of table t is written and page f tagged, if it is a user page. */
  lemma AddsMap(m0: Mem, o0: Owners, m1: Mem, o1: Owners, m2: Mem, d: nat, t: nat, user: bool, f: nat, v: nat)
    requires Adds(m0, o0, m1, o1, d) && t in o1 && o1[t].Tab? && o1[t].d == d && |m2| == |m1|
    requires forall g :: 0 <= g < |m1| && g != t ==> m2[g] == m1[g]
    requires user ==> Owns(o0, f, Other)
    ensures Adds(m0, Tagged(o0, user, f, d, v), m2, Tagged(o1, user, f, d, v), d)
  {
    var p0, p1 := Tagged(o0, user, f, d, v), Tagged(o1, user, f, d, v);
    forall g | g in p0
      ensures g < |m0| && g in p1 && p1[g] == p0[g] && (!TablePage(p0[g], g, d) ==> m2[g] == m0[g])
    {
      assert g in o0;
    }
    forall g | g in p1
      ensures g in p0 || Belongs(p1[g], g, d)
    {
      assert g in o1;
    }
  }

  /** One more round of mappages; a user page is the first and only one. */
  lemma AddsMapped(m0: Mem, o0: Owners, m1: Mem, o1: Owners, m2: Mem, o2: Owners, d: nat, user: bool, ok: bool,
                   f: nat, g: nat, v: nat, w: nat)
    requires Adds(m0, o0, m1, o1, d) && Adds(m1, Tagged(o1, ok && user, g, d, w), m2, o2, d)
    requires user ==> m1 == m0 && o1 == o0 && g == f && w == v
    ensures Adds(m0, Tagged(o0, ok && user, f, d, v), m2, o2, d)
  {
    if !user {
      AddsTrans(m0, o0, m1, o1, m2, o2, d);
    }
  }

  // ----- shrinking -----

  /** A user page of d among the virtual pages from lo up to hi. */
  predicate Among(o: Owner, d: nat, lo: nat, hi: nat) {
    o.User? && o.d == d && lo <= NPTENTRIES * o.i + o.j < hi
  }

  /** The owners without those pages. */
  ghost function Trimmed(owner: Owners, d: nat, lo: nat, hi: nat): (r: Owners)
    ensures forall f :: f in r <==> f in owner && !Among(owner[f], d, lo, hi)
    ensures forall f :: f in r ==> r[f] == owner[f]
  {
    map f | f in owner && !Among(owner[f], d, lo, hi) :: owner[f]
  }

  /** The page at v is the only one owned for v. */
  lemma OnePage(mem: Mem, owner: Owners, d: nat, v: nat, f: nat)
    requires PagesOk(mem, owner) && f in owner && Among(owner[f], d, v, v + 1) && v < USERPAGES
    ensures IsDir(mem, d) && Present(Entry(mem, d, v)) && Entry(mem, d, v).frame == f && Present(mem[d].e[Pdx(v)])
  {
    PageAt(mem, owner, f);
    JoinPage(owner[f].i, owner[f].j, v);
  }

  /** One page further, when the entry for v was present. */
  lemma TrimOne(o0: Owners, mem: Mem, owner: Owners, d: nat, lo: nat, v: nat, f: nat)
    requires PagesOk(mem, owner) && owner == Trimmed(o0, d, lo, v) && lo <= v < USERPAGES
    requires Owns(owner, f, User(d, Pdx(v), Ptx(v)))
    ensures owner - {f} == Trimmed(o0, d, lo, v + 1)
  {
    SplitPage(v);
    forall g | g in owner && Among(owner[g], d, v, v + 1)
      ensures g == f
    {
      OnePage(mem, owner, d, v, g);
      OnePage(mem, owner, d, v, f);
    }
    assert forall g :: g in o0 ==>
      (Among(o0[g], d, lo, v + 1) <==> Among(o0[g], d, lo, v) || Among(o0[g], d, v, v + 1));
    assert (owner - {f}).Keys == Trimmed(o0, d, lo, v + 1).Keys;
  }

  /** Further, when nothing is owned for the pages skipped. */
  lemma TrimNone(o0: Owners, owner: Owners, d: nat, lo: nat, v: nat, w: nat)
    requires owner == Trimmed(o0, d, lo, v) && lo <= v <= w && forall f :: f in owner ==> !Among(owner[f], d, v, w)
    ensures owner == Trimmed(o0, d, lo, w)
  {
    var r := Trimmed(o0, d, lo, w);
    forall f | f in o0
      ensures f in owner <==> f in r
    {
      assert Among(o0[f], d, lo, w) <==> Among(o0[f], d, lo, v) || Among(o0[f], d, v, w);
    }
    assert owner.Keys == r.Keys;
  }

  /** Directory d may have lost pages; nobody else did, and only tables of d were written. */
  ghost predicate Removes(m0: Mem, o0: Owners, m1: Mem, o1: Owners, d: nat) {
    && |m1| == |m0|
    && (forall f :: f in o1 ==> f < |m0| && f in o0 && o1[f] == o0[f])
    && (forall f :: f in o1 && !TablePage(o1[f], f, d) ==> m1[f] == m0[f])
  }

  lemma RemovesSelf(mem: Mem, first: nat, free: seq<nat>, owner: Owners, d: nat)
    requires Inv(mem, first, free, owner)
    ensures Removes(mem, owner, mem, owner, d)
  {
  }

  lemma RemovesOne(m0: Mem, o0: Owners, m1: Mem, o1: Owners, m2: Mem, d: nat, t: nat, f: nat)
    requires Removes(m0, o0, m1, o1, d) && t in o1 && o1[t].Tab? && o1[t].d == d && |m2| == |m1|
    requires forall g :: 0 <= g < |m1| && g != t && g != f ==> m2[g] == m1[g]
    ensures Removes(m0, o0, m2, o1 - {f}, d)
  {
  }

  /** How far deallocuvm has come: pages of d from lo up to hi are gone, everything else is as it was. */
  ghost predicate Cleared(m0: Mem, o0: Owners, m1: Mem, o1: Owners, d: nat, lo: nat, hi: nat) {
    && o1 == Trimmed(o0, d, lo, hi) && Removes(m0, o0, m1, o1, d)
    && SameOutside(m0, m1, d, lo, hi) && Unmapped(m1, d, lo, hi)
  }

  lemma ClearedNone(mem: Mem, first: nat, free: seq<nat>, owner: Owners, d: nat, lo: nat)
    requires Inv(mem, first, free, owner) && Owns(owner, d, Dir)
    ensures IsDir(mem, d) && Cleared(mem, owner, mem, owner, d, lo, lo)
  {
    PageAt(mem, owner, d);
    RemovesSelf(mem, first, free, owner, d);
    assert Trimmed(owner, d, lo, lo).Keys == owner.Keys;
  }

  /** Pages from v up to w had no entry. */
  lemma ClearedSkip(m0: Mem, o0: Owners, m1: Mem, o1: Owners, d: nat, lo: nat, v: nat, w: nat)
    requires lo <= v <= w <= USERPAGES && Cleared(m0, o0, m1, o1, d, lo, v) && PagesOk(m1, o1) && Unmapped(m1, d, v, w)
    ensures Cleared(m0, o0, m1, o1, d, lo, w)
  {
    forall f | f in o1
      ensures !Among(o1[f], d, v, w)
    {
      if Among(o1[f], d, v, w) {
        OnePage(m1, o1, d, NPTENTRIES * o1[f].i + o1[f].j, f);
      }
    }
    TrimNone(o0, o1, d, lo, v, w);
  }

  /** Where a page table is missing, all its pages are unmapped. */
  lemma TableUnmapped(mem: Mem, d: nat, v: nat, w: nat)
    requires IsDir(mem, d) && v < VPAGES && !Present(mem[d].e[Pdx(v)]) && w <= (Pdx(v) + 1) * NPTENTRIES
    ensures Unmapped(mem, d, v, w)
  {
    forall u: nat | v <= u < w && u < VPAGES
      ensures !Present(Entry(mem, d, u))
    {
      SplitPage(u);
      SplitPage(v);
      assert Pdx(u) == Pdx(v);
    }
  }

  /** Page v was freed and its entry cleared. */
  lemma ClearedOne(m0: Mem, o0: Owners, m1: Mem, o1: Owners, m2: Mem, d: nat, lo: nat, v: nat, t: nat, f: nat)
    requires lo <= v < USERPAGES && Cleared(m0, o0, m1, o1, d, lo, v) && PagesOk(m1, o1)
    requires Owns(o1, t, Tab(d, Pdx(v))) && t < |m1| && IsTable(m1[t]) && Owns(o1, f, User(d, Pdx(v), Ptx(v)))
    requires |m2| == |m1| && t != f && m2[t] == WithEntry(m1[t], Ptx(v), Pte(0, 0))
    requires forall g :: 0 <= g < |m1| && g != t && g != f ==> m2[g] == m1[g]
    ensures Cleared(m0, o0, m2, o1 - {f}, d, lo, v + 1)
  {
    TrimOne(o0, m1, o1, d, lo, v, f);
    RemovesOne(m0, o0, m1, o1, m2, d, t, f);
    forall w: nat | w < VPAGES
      ensures IsDir(m2, d) && Entry(m2, d, w) == if w == v then Pte(0, 0) else Entry(m1, d, w)
    {
      ClearedEntry(m1, o1, m2, d, v, t, f, w);
    }
  }

  lemma ClearedEntry(m1: Mem, o1: Owners, m2: Mem, d: nat, v: nat, t: nat, f: nat, w: nat)
    requires v < USERPAGES && w < VPAGES && PagesOk(m1, o1)
    requires Owns(o1, t, Tab(d, Pdx(v))) && t < |m1| && IsTable(m1[t]) && Owns(o1, f, User(d, Pdx(v), Ptx(v)))
    requires |m2| == |m1| && t != f && m2[t] == WithEntry(m1[t], Ptx(v), Pte(0, 0))
    requires forall g :: 0 <= g < |m1| && g != t && g != f ==> m2[g] == m1[g]
    ensures IsDir(m1, d) && IsDir(m2, d) && Entry(m2, d, w) == if w == v then Pte(0, 0) else Entry(m1, d, w)
  {
    PageAt(m1, o1, t);
    var m := m1[t := WithEntry(m1[t], Ptx(v), Pte(0, 0))];
    SetsPage(m1, o1, m, d, v, t, Pte(0, 0), w);
    FreedPage(m1, o1, m, m2, d, f, w);
  }

  /** A user page holds no entries. */
  lemma FreedPage(m1: Mem, o1: Owners, m: Mem, m2: Mem, d: nat, f: nat, w: nat)
    requires PagesOk(m1, o1) && Owns(o1, d, Dir) && f in o1 && o1[f].User? && |m| == |m1| && |m2| == |m1| && w < VPAGES
    requires IsDir(m1, d) && m[d] == m1[d] && forall g :: 0 <= g < |m1| && g != f ==> m2[g] == m[g]
    ensures IsDir(m, d) && IsDir(m2, d) && Entry(m2, d, w) == Entry(m, d, w)
  {
    PageAt(m1, o1, d);
    PageAt(m1, o1, f);
    SplitPage(w);
  }

  // ----- letting go of a directory -----

  /** The owners without directory d and all its pages. */
  ghost function Purged(owner: Owners, d: nat): (r: Owners)
    ensures forall f :: f in r <==> f in owner && !Belongs(owner[f], f, d)
    ensures forall f :: f in r ==> r[f] == owner[f]
  {
    map f | f in owner && !Belongs(owner[f], f, d) :: owner[f]
  }

  /** Nothing belongs to a page that is no directory. */
  lemma NothingBelongs(mem: Mem, owner: Owners, d: nat)
    requires PagesOk(mem, owner) && !Owns(owner, d, Dir)
    ensures forall f :: f in owner ==> !Belongs(owner[f], f, d)
  {
    forall f | f in owner
      ensures !Belongs(owner[f], f, d)
    {
      PageAt(mem, owner, f);
    }
  }

  /** What a new directory gained is what its purge gives back. */
  lemma PurgeUndoes(m0: Mem, o0: Owners, m1: Mem, o1: Owners, d: nat)
    requires PagesOk(m0, o0) && !Owns(o0, d, Dir) && Adds(m0, o0, m1, o1, d)
    ensures Purged(o1, d) == o0
  {
    NothingBelongs(m0, o0, d);
    assert Purged(o1, d).Keys == o0.Keys;
  }

  /** The owners while freevm frees the page tables of d: those of entries below i are gone, the rest is nobody's. */
  ghost function Freeing(owner: Owners, d: nat, i: nat): (r: Owners)
    ensures forall f :: f in r <==> f in owner && !(owner[f].Tab? && owner[f].d == d && owner[f].i < i)
    ensures forall f :: f in r ==> r[f] == if Belongs(owner[f], f, d) then Other else owner[f]
  {
    map f | f in owner && !(owner[f].Tab? && owner[f].d == d && owner[f].i < i) ::
      if Belongs(owner[f], f, d) then Other else owner[f]
  }

  lemma FreeingStart(owner: Owners, d: nat)
    ensures Freeing(owner, d, 0) == Disowned(owner, d)
  {
    assert Freeing(owner, d, 0).Keys == Disowned(owner, d).Keys;
  }

  /** Entry i of directory page p is the only page table owned for it. */
  lemma FreeingStep(mem: Mem, owner: Owners, d: nat, i: nat)
    requires PagesOk(mem, owner) && Owns(owner, d, Dir) && IsDir(mem, d) && i < NPDENTRIES
    ensures Present(mem[d].e[i]) ==>
              Owns(owner, mem[d].e[i].frame, Tab(d, i))
              && Freeing(owner, d, i + 1) == Freeing(owner, d, i) - {mem[d].e[i].frame}
    ensures !Present(mem[d].e[i]) ==> Freeing(owner, d, i + 1) == Freeing(owner, d, i)
  {
    PageAt(mem, owner, d);
    forall f | f in owner && owner[f] == Tab(d, i)
      ensures Present(mem[d].e[i]) && mem[d].e[i].frame == f
    {
      PageAt(mem, owner, f);
    }
    if Present(mem[d].e[i]) {
      assert Freeing(owner, d, i + 1).Keys == (Freeing(owner, d, i) - {mem[d].e[i].frame}).Keys;
    } else {
      assert Freeing(owner, d, i + 1).Keys == Freeing(owner, d, i).Keys;
    }
  }

  /** Once every user page of d is gone, what is left of d is its directory and its page tables. */
  lemma OnlyTables(mem: Mem, o0: Owners, owner: Owners, d: nat)
    requires PagesOk(mem, o0) && owner == Trimmed(o0, d, 0, USERPAGES) && Owns(o0, d, Dir)
    ensures Owns(owner, d, Dir) && forall f :: f in owner && owner[f].User? ==> owner[f].d != d
    ensures forall f :: f in o0 ==> (f in owner && !TablePage(owner[f], f, d) <==> !Belongs(o0[f], f, d))
    ensures forall f :: f in o0 && o0[f].Tab? ==> o0[f].i < NPDENTRIES
  {
    forall f | f in o0
      ensures o0[f].Tab? ==> o0[f].i < NPDENTRIES
      ensures o0[f].User? && o0[f].d == d ==> Among(o0[f], d, 0, USERPAGES)
    {
      PageAt(mem, o0, f);
    }
  }

  /** With all tables and the directory gone, nothing of d is left. */
  lemma FreeingEnd(mem: Mem, o0: Owners, owner: Owners, d: nat)
    requires PagesOk(mem, o0) && owner == Trimmed(o0, d, 0, USERPAGES) && Owns(o0, d, Dir)
    ensures Freeing(owner, d, NPDENTRIES) - {d} == Purged(o0, d)
  {
    OnlyTables(mem, o0, owner, d);
    var r, q := Freeing(owner, d, NPDENTRIES) - {d}, Purged(o0, d);
    forall f
      ensures f in r <==> f in q
    {
      assert f in r <==> f in owner && !(owner[f].Tab? && owner[f].d == d) && f != d;
    }
    assert r.Keys == q.Keys;
  }

  /** What the purge leaves was not touched on the way. */
  lemma PurgedSame(m0: Mem, o0: Owners, m1: Mem, o1: Owners, d: nat)
    requires PagesOk(m0, o0) && o1 == Trimmed(o0, d, 0, USERPAGES) && Owns(o0, d, Dir) && Removes(m0, o0, m1, o1, d)
    ensures forall f :: f in Purged(o0, d) ==> f < |m1| && m1[f] == m0[f]
  {
    OnlyTables(m0, o0, o1, d);
  }

  // ----- user pages of one address space -----

  /** Virtual page w of d is the private page f. */
  ghost predicate Private(mem: Mem, owner: Owners, d: nat, w: nat, f: nat, flags: nat) {
    IsDir(mem, d) && w < USERPAGES && Entry(mem, d, w) == Pte(f, flags) && Owns(owner, f, User(d, Pdx(w), Ptx(w)))
    && f < |mem|
  }

  /** A present user entry points to a private page. */
  lemma PresentPrivate(mem: Mem, owner: Owners, d: nat, w: nat)
    requires PagesOk(mem, owner) && Owns(owner, d, Dir) && IsDir(mem, d) && w < USERPAGES && Present(Entry(mem, d, w))
    ensures Private(mem, owner, d, w, Entry(mem, d, w).frame, Entry(mem, d, w).flags)
    ensures mem[Entry(mem, d, w).frame].Bytes?
  {
    SplitPage(w);
    PageAt(mem, owner, d);
    var t := mem[d].e[Pdx(w)].frame;
    PageAt(mem, owner, t);
    PageAt(mem, owner, Entry(mem, d, w).frame);
  }

  /** No physical page is mapped twice: not in two address spaces, and not at two places of one. */
  lemma NoSharing(mem: Mem, owner: Owners, d: nat, w: nat, e: nat, x: nat)
    requires PagesOk(mem, owner) && Owns(owner, d, Dir) && Owns(owner, e, Dir) && IsDir(mem, d) && IsDir(mem, e)
    requires w < USERPAGES && x < USERPAGES
    requires Present(Entry(mem, d, w)) && Present(Entry(mem, e, x)) && Entry(mem, d, w).frame == Entry(mem, e, x).frame
    ensures d == e && w == x
  {
    PresentPrivate(mem, owner, d, w);
    PresentPrivate(mem, owner, e, x);
    SplitPage(w);
    SplitPage(x);
  }

  /** Adding to directory d leaves every other address space as it was. */
  lemma SpaceSame(m0: Mem, o0: Owners, m1: Mem, o1: Owners, d: nat, e: nat, w: nat)
    requires PagesOk(m0, o0) && Adds(m0, o0, m1, o1, d) && Owns(o0, e, Dir) && e != d && w < VPAGES
    ensures IsDir(m0, e) && IsDir(m1, e) && Entry(m1, e, w) == Entry(m0, e, w)
  {
    PageAt(m0, o0, e);
    SplitPage(w);
    if Present(m0[e].e[Pdx(w)]) {
      PageAt(m0, o0, m0[e].e[Pdx(w)].frame);
    }
  }

  /** Nothing was mapped between lo and hi, so nobody owned a page there. */
  lemma NoneAmong(m0: Mem, o0: Owners, d: nat, lo: nat, hi: nat)
    requires PagesOk(m0, o0) && Unmapped(m0, d, lo, hi) && hi <= USERPAGES
    ensures forall f :: f in o0 ==> !Among(o0[f], d, lo, hi)
  {
    forall f | f in o0
      ensures !Among(o0[f], d, lo, hi)
    {
      if Among(o0[f], d, lo, hi) {
        OnePage(m0, o0, d, NPTENTRIES * o0[f].i + o0[f].j, f);
      }
    }
  }

  /** User pages that came since m0 lie where the entries changed. */
  lemma NewAmong(m0: Mem, o0: Owners, m1: Mem, o1: Owners, d: nat, lo: nat, hi: nat, f: nat)
    requires PagesOk(m0, o0) && PagesOk(m1, o1) && Owns(o0, d, Dir) && SameOutside(m0, m1, d, lo, hi) && hi <= USERPAGES
    requires f in o1 && f !in o0 && o1[f].User? && o1[f].d == d
    ensures Among(o1[f], d, lo, hi)
  {
    PageAt(m1, o1, f);
    var w := NPTENTRIES * o1[f].i + o1[f].j;
    OnePage(m1, o1, d, w, f);
    if !(lo <= w < hi) {
      PresentPrivate(m0, o0, d, w);
    }
  }

  /** Undoing a growth from lo: the pages are gone, the new page tables stay. */
  lemma GrowUndone(m0: Mem, o0: Owners, m1: Mem, o1: Owners, m2: Mem, o2: Owners, d: nat, lo: nat, hi: nat)
    requires PagesOk(m0, o0) && PagesOk(m1, o1) && Owns(o0, d, Dir) && hi <= USERPAGES && Unmapped(m0, d, lo, hi)
    requires Adds(m0, o0, m1, o1, d) && SameOutside(m0, m1, d, lo, hi) && Cleared(m1, o1, m2, o2, d, lo, hi)
    ensures Adds(m0, o0, m2, o2, d) && SameOutside(m0, m2, d, lo, hi) && Unmapped(m2, d, lo, hi)
    ensures forall f :: f in o2 ==> f in o0 || (o2[f].Tab? && o2[f].d == d)
  {
    NoneAmong(m0, o0, d, lo, hi);
    forall f | f in o2 && f !in o0
      ensures o2[f].Tab? && o2[f].d == d
    {
      if o1[f].User? {
        NewAmong(m0, o0, m1, o1, d, lo, hi, f);
      }
    }
  }

  // ----- a page in the hands of the caller -----

  /** Page h was taken from the free list and filled; that is no concern of directory d. */
  lemma AddsHand(m0: Mem, o0: Owners, m1: Mem, o1: Owners, d: nat, h: nat, p: Page)
    requires Adds(m0, o0, m1, o1, d) && h !in o1 && h < |m0|
    ensures Adds(m0[h := p], o0[h := Other], m1[h := p], o1[h := Other], d)
  {
    var a, b := o0[h := Other], o1[h := Other];
    forall f | f in a
      ensures f < |m0| && f in b && b[f] == a[f] && (!TablePage(a[f], f, d) ==> m1[h := p][f] == m0[h := p][f])
    {
      assert f == h || f in o0;
    }
    forall f | f in b
      ensures f in a || Belongs(b[f], f, d)
    {
      assert f == h || f in o1;
    }
  }

  /** And it went back. */
  lemma AddsReturn(m0: Mem, o0: Owners, m2: Mem, o2: Owners, m3: Mem, d: nat, h: nat, p: Page)
    requires h !in o0 && h < |m0| && (forall f :: f in o0 ==> f < |m0|) && Adds(m0[h := p], o0[h := Other], m2, o2, d)
    requires |m3| == |m2| && forall f :: 0 <= f < |m2| && f != h ==> m3[f] == m2[f]
    ensures Adds(m0, o0, m3, o2 - {h}, d)
  {
    var a := o0[h := Other];
    forall f | f in o0
      ensures f in o2 && f != h && o2[f] == o0[f] && (!TablePage(o0[f], f, d) ==> m3[f] == m0[f])
    {
      assert f in a && a[f] == o0[f];
    }
    forall f | f in o2 - {h}
      ensures f in o0 || Belongs(o2[f], f, d)
    {
      assert f in o2 && (f in a || Belongs(o2[f], f, d));
    }
  }

  lemma HandOk(m0: Mem, o0: Owners, h: nat, p: Page)
    requires PagesOk(m0, o0) && h !in o0 && h < |m0|
    ensures PagesOk(m0[h := p], o0[h := Other])
  {
    OtherPages(m0, o0, m0[h := p], h);
    AllocPages(m0[h := p], o0, h);
  }

  /** Filling page h leaves the entries of d alone. */
  lemma HandEntries(m0: Mem, o0: Owners, d: nat, h: nat, p: Page, w: nat)
    requires PagesOk(m0, o0) && Owns(o0, d, Dir) && h !in o0 && h < |m0| && w < VPAGES
    ensures IsDir(m0, d) && IsDir(m0[h := p], d) && Entry(m0[h := p], d, w) == Entry(m0, d, w)
  {
    PageAt(m0, o0, d);
    SplitPage(w);
  }

  /** Whether virtual page v is mapped does not depend on a page in hand. */
  lemma HandMapped(m0: Mem, o0: Owners, d: nat, h: nat, p: Page, v: nat)
    requires PagesOk(m0, o0) && Owns(o0, d, Dir) && h !in o0 && h < |m0| && v < VPAGES
    ensures IsDir(m0, d) && IsDir(m0[h := p], d) && (Unmapped(m0[h := p], d, v, v + 1) <==> !Present(Entry(m0, d, v)))
  {
    HandEntries(m0, o0, d, h, p, v);
  }

  /** A fresh page became a directory without entries. */
  lemma AddsDir(m0: Mem, o0: Owners, m1: Mem, d: nat)
    requires d !in o0 && d < |m0| && (forall f :: f in o0 ==> f < |m0|) && m1 == m0[d := Zeroed()]
    ensures Adds(m0, o0, m1, o0[d := Dir], d) && IsDir(m1, d)
    ensures forall v: nat :: v < VPAGES ==> Entry(m1, d, v) == Pte(0, 0)
  {
    forall v: nat | v < VPAGES
      ensures IsDir(m1, d) && Entry(m1, d, v) == Pte(0, 0)
    {
      SplitPage(v);
    }
  }

  lemma RangedHand(m0: Mem, o0: Owners, m2: Mem, d: nat, h: nat, p: Page, v: nat, flags: nat)
    requires PagesOk(m0, o0) && Owns(o0, d, Dir) && h !in o0 && h < |m0|
    requires Ranged(m0[h := p], m2, d, v, v + 1, h, flags)
    ensures Ranged(m0, m2, d, v, v + 1, h, flags)
  {
    PageAt(m0, o0, d);
    forall w: nat | w < VPAGES
      ensures Entry(m2, d, w) == if v <= w < v + 1 then Pte(h + (w - v), flags) else Entry(m0, d, w)
    {
      HandEntries(m0, o0, d, h, p, w);
    }
  }

  lemma SameHand(m0: Mem, o0: Owners, m2: Mem, d: nat, h: nat, p: Page, lo: nat, hi: nat)
    requires PagesOk(m0, o0) && Owns(o0, d, Dir) && h !in o0 && h < |m0| && IsDir(m0, d) && IsDir(m0[h := p], d)
    ensures SameOutside(m0[h := p], m2, d, lo, hi) <==> SameOutside(m0, m2, d, lo, hi)
  {
    forall w: nat | w < VPAGES
      ensures Entry(m0[h := p], d, w) == Entry(m0, d, w)
    {
      HandEntries(m0, o0, d, h, p, w);
    }
  }

  /** The page that was mapped at v is private, and holds what it was filled with. */
  lemma NewPrivate(m0: Mem, o0: Owners, m2: Mem, o2: Owners, d: nat, h: nat, p: Page, v: nat)
    requires h !in o0 && h < |m0| && (forall f :: f in o0 ==> f < |m0|) && v < USERPAGES
    requires Adds(m0[h := p], Tagged(o0[h := Other], true, h, d, v), m2, o2, d)
    ensures Adds(m0, o0, m2, o2, d) && Owns(o2, h, User(d, Pdx(v), Ptx(v))) && m2[h] == p
  {
    var o := User(d, Pdx(v), Ptx(v));
    assert o0[h := Other][h := o] == o0[h := o];
    AddsPage(m0, o0, m0[h := p], h, o, m2, o2, d);
    assert h in o0[h := o];
  }

  // ----- pages gained since a start (m0, o0) -----

  /** Virtual page w of d is a private page that was nobody's at the start, and holds p. */
  ghost predicate Gained(o0: Owners, m1: Mem, o1: Owners, d: nat, w: nat, p: Page, flags: nat) {
    && IsDir(m1, d) && w < USERPAGES
    && var f := Entry(m1, d, w).frame;
       Private(m1, o1, d, w, f, flags) && f !in o0 && m1[f] == p
  }

  lemma GainedKept(o0: Owners, m1: Mem, o1: Owners, m2: Mem, o2: Owners, d: nat, w: nat, p: Page, flags: nat)
    requires Gained(o0, m1, o1, d, w, p, flags) && Adds(m1, o1, m2, o2, d) && IsDir(m2, d)
    requires Entry(m2, d, w) == Entry(m1, d, w)
    ensures Gained(o0, m2, o2, d, w, p, flags)
  {
  }

  /** d has grown by pages full of p from lo up to v. */
  ghost predicate Grown(m0: Mem, o0: Owners, m1: Mem, o1: Owners, d: nat, lo: nat, v: nat, p: Page, flags: nat) {
    && Adds(m0, o0, m1, o1, d) && SameOutside(m0, m1, d, lo, v)
    && forall w: nat :: lo <= w < v ==> Gained(o0, m1, o1, d, w, p, flags)
  }

  lemma GrownStep(m0: Mem, o0: Owners, m1: Mem, o1: Owners, m2: Mem, o2: Owners, d: nat, lo: nat, v: nat, p: Page,
                  flags: nat, f: nat)
    requires lo <= v < USERPAGES && Grown(m0, o0, m1, o1, d, lo, v, p, flags)
    requires Adds(m1, o1, m2, o2, d) && Ranged(m1, m2, d, v, v + 1, f, flags) && f !in o1
    requires Owns(o2, f, User(d, Pdx(v), Ptx(v))) && f < |m2| && m2[f] == p
    ensures Grown(m0, o0, m2, o2, d, lo, v + 1, p, flags)
  {
    AddsTrans(m0, o0, m1, o1, m2, o2, d);
    forall w: nat | lo <= w < v + 1
      ensures Gained(o0, m2, o2, d, w, p, flags)
    {
      assert Entry(m2, d, w) == if w == v then Pte(f, flags) else Entry(m1, d, w);
      if w < v {
        GainedKept(o0, m1, o1, m2, o2, d, w, p, flags);
      }
    }
  }

  /** A growth of d from lo to hi came to nothing: no page is left there, and d gained page tables at most. */
  ghost predicate Shrunk(m0: Mem, o0: Owners, m1: Mem, o1: Owners, d: nat, lo: nat, hi: nat) {
    && Adds(m0, o0, m1, o1, d) && SameOutside(m0, m1, d, lo, hi) && Unmapped(m1, d, lo, hi)
    && forall f :: f in o1 ==> f in o0 || (o1[f].Tab? && o1[f].d == d)
  }

  /** Since (m1, o1), page h was filled with p and could not be mapped. */
  ghost predicate Held(m1: Mem, o1: Owners, m2: Mem, o2: Owners, d: nat, h: nat, p: Page) {
    && h !in o1 && h < |m1| && Owns(o2, h, Other)
    && Adds(m1[h := p], o1[h := Other], m2, o2, d) && SameOutside(m1, m2, d, 0, 0)
  }

  lemma SameTrans(m0: Mem, m1: Mem, m2: Mem, d: nat, lo: nat, v: nat, hi: nat)
    requires lo <= v <= hi && SameOutside(m0, m1, d, lo, v) && SameOutside(m1, m2, d, 0, 0)
    ensures SameOutside(m0, m2, d, lo, hi)
  {
  }

  /** The failed growth undone, with page h still in hand. */
  lemma HandUndone(m0: Mem, o0: Owners, m1: Mem, o1: Owners, m2: Mem, o2: Owners, m3: Mem, o3: Owners,
                   d: nat, lo: nat, v: nat, hi: nat, h: nat, p: Page)
    requires PagesOk(m0, o0) && PagesOk(m2, o2) && Owns(o0, d, Dir) && lo <= v <= hi <= USERPAGES
    requires Unmapped(m0, d, lo, hi)
    requires Adds(m0, o0, m1, o1, d) && SameOutside(m0, m1, d, lo, v) && Held(m1, o1, m2, o2, d, h, p)
    requires Cleared(m2, o2, m3, o3, d, lo, hi)
    ensures h !in o0 && h < |m0| && Owns(o3, h, Other) && Shrunk(m0[h := p], o0[h := Other], m3, o3, d, lo, hi)
  {
    HandOk(m0, o0, h, p);
    AddsHand(m0, o0, m1, o1, d, h, p);
    AddsTrans(m0[h := p], o0[h := Other], m1[h := p], o1[h := Other], m2, o2, d);
    SameTrans(m0, m1, m2, d, lo, v, hi);
    HandEntries(m0, o0, d, h, p, 0);
    SameHand(m0, o0, m2, d, h, p, lo, hi);
    HandUnmapped(m0, o0, d, h, p, lo, hi);
    GrowUndone(m0[h := p], o0[h := Other], m2, o2, m3, o3, d, lo, hi);
  }

  lemma HandUnmapped(m0: Mem, o0: Owners, d: nat, h: nat, p: Page, lo: nat, hi: nat)
    requires PagesOk(m0, o0) && Owns(o0, d, Dir) && h !in o0 && h < |m0| && Unmapped(m0, d, lo, hi)
    ensures Unmapped(m0[h := p], d, lo, hi)
  {
    HandEntries(m0, o0, d, h, p, 0);
    var m := m0[h := p];
    forall w: nat | lo <= w < hi && w < VPAGES
      ensures !Present(Entry(m, d, w))
    {
      HandEntries(m0, o0, d, h, p, w);
    }
  }

  /** And page h back in the pool. */
  lemma HandReturned(m0: Mem, o0: Owners, m3: Mem, o3: Owners, m4: Mem, d: nat, lo: nat, hi: nat, h: nat, p: Page)
    requires PagesOk(m0, o0) && PagesOk(m3, o3) && Owns(o0, d, Dir) && h !in o0 && h < |m0| && Owns(o3, h, Other)
    requires Owns(o3, d, Dir)
    requires (forall f :: f in o0 ==> f < |m0|) && Shrunk(m0[h := p], o0[h := Other], m3, o3, d, lo, hi)
    requires |m4| == |m3| && forall f :: 0 <= f < |m3| && f != h ==> m4[f] == m3[f]
    ensures Shrunk(m0, o0, m4, o3 - {h}, d, lo, hi)
  {
    AddsReturn(m0, o0, m3, o3, m4, d, h, p);
    HandEntries(m0, o0, d, h, p, 0);
    forall w: nat | w < VPAGES
      ensures IsDir(m4, d) && Entry(m4, d, w) == Entry(m3, d, w) && Entry(m0[h := p], d, w) == Entry(m0, d, w)
    {
      OtherEntries(m3, o3, m4, d, h, w);
      HandEntries(m0, o0, d, h, p, w);
    }
  }

  /** A page in hand holds no entries of d. */
  lemma OtherEntries(m3: Mem, o3: Owners, m4: Mem, d: nat, h: nat, w: nat)
    requires PagesOk(m3, o3) && Owns(o3, d, Dir) && Owns(o3, h, Other) && |m4| == |m3| && w < VPAGES
    requires forall f :: 0 <= f < |m3| && f != h ==> m4[f] == m3[f]
    ensures IsDir(m3, d) && IsDir(m4, d) && Entry(m4, d, w) == Entry(m3, d, w)
  {
    PageAt(m3, o3, d);
    SplitPage(w);
  }

  // ----- copies -----

  /** The first n pages of d are private copies of those of src at the start, with the same flags. */
  ghost predicate Copied(m0: Mem, o0: Owners, m1: Mem, o1: Owners, src: nat, d: nat, n: nat) {
    && IsDir(m0, src) && IsDir(m1, d) && n <= USERPAGES
    && forall w: nat :: w < n ==>
         && Present(Entry(m0, src, w)) && Entry(m0, src, w).frame < |m0|
         && Gained(o0, m1, o1, d, w, m0[Entry(m0, src, w).frame], Entry(m0, src, w).flags)
  }

  lemma CopiedStep(m0: Mem, o0: Owners, m1: Mem, o1: Owners, m2: Mem, o2: Owners, src: nat, d: nat, v: nat, p: Page,
                   flags: nat, f: nat)
    requires v < USERPAGES && Copied(m0, o0, m1, o1, src, d, v) && Adds(m0, o0, m1, o1, d) && Adds(m1, o1, m2, o2, d)
    requires Ranged(m1, m2, d, v, v + 1, f, flags) && f !in o1 && Owns(o2, f, User(d, Pdx(v), Ptx(v))) && f < |m2|
    requires m2[f] == p
    requires Present(Entry(m0, src, v)) && Entry(m0, src, v).frame < |m0|
    requires p == m0[Entry(m0, src, v).frame] && flags == Entry(m0, src, v).flags
    ensures Copied(m0, o0, m2, o2, src, d, v + 1) && Adds(m0, o0, m2, o2, d)
  {
    AddsTrans(m0, o0, m1, o1, m2, o2, d);
    forall w: nat | w < v + 1
      ensures Entry(m0, src, w).frame < |m0|
      ensures Gained(o0, m2, o2, d, w, m0[Entry(m0, src, w).frame], Entry(m0, src, w).flags)
    {
      assert Entry(m2, d, w) == if w == v then Pte(f, flags) else Entry(m1, d, w);
      if w < v {
        GainedKept(o0, m1, o1, m2, o2, d, w, m0[Entry(m0, src, w).frame], Entry(m0, src, w).flags);
      }
    }
  }

  /** Nothing that existed before directory d did was written for it. */
  lemma OthersIntact(m0: Mem, o0: Owners, m1: Mem, o1: Owners, d: nat)
    requires PagesOk(m0, o0) && d !in o0 && Adds(m0, o0, m1, o1, d)
    ensures forall f :: f in o0 ==> f < |m1| && m1[f] == m0[f]
  {
    NothingBelongs(m0, o0, d);
  }
}
