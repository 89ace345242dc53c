/**
 fork, exit, wait and kill of proc.c as atomic steps over the process table: what
 each does while it holds ptable.lock, and the two unlocked writes of fork.  The
 locked parts are the table functions that the loops of ProcTable are proved
 against.
 */
module ProcTree {
  import opened Wrappers
  import opened ProcTable

  /** What a process is in the middle of. */
  datatype Doing = User | Forking(k: nat) | Forked(k: nat) | Waiting

  /** reaped lists the pids wait has returned, each with the pid of the process it was returned to. */
  datatype State = State(procs: Table, doing: seq<Doing>, nextpid: nat, exited: set<nat>, reaped: seq<(nat, nat)>)

  ghost predicate Start(s: State) {
    && |s.procs| > INITPROC && |s.doing| == |s.procs|
    && (forall k :: 0 <= k < |s.procs| ==> s.doing[k] == User)
    && s.procs[INITPROC] == Proc(RUNNABLE, 1, None, None, false)
    && (forall k :: 0 <= k < |s.procs| && k != INITPROC ==> s.procs[k] == Proc(UNUSED, 0, None, None, false))
    && s.nextpid == 2 && s.exited == {} && s.reaped == []
  }

  // ----- steps -----

  predicate On(s: State, p: nat, d: Doing) {
    p < |s.procs| && p < |s.doing| && s.procs[p].state == RUNNING && s.doing[p] == d
  }

  function SetState(s: State, p: nat, st: PState): (t: State)
    requires p < |s.procs|
  {
    s.(procs := s.procs[p := s.procs[p].(state := st)])
  }

  /** The scheduler picks p, or p yields. */
  ghost predicate Switch(s: State, t: State, p: nat) {
    && p < |s.procs|
    && (|| (s.procs[p].state == RUNNABLE && t == SetState(s, p, RUNNING))
        || (s.procs[p].state == RUNNING && t == SetState(s, p, RUNNABLE)))
  }

  /** sleep on something other than a child, anywhere outside wait. */
  ghost predicate SleepOn(s: State, t: State, p: nat, a: nat) {
    && p < |s.procs| && p < |s.doing| && s.procs[p].state == RUNNING && s.doing[p] != Waiting
    && t == s.(procs := s.procs[p := s.procs[p].(state := SLEEPING, chan := Some(Other(a)))])
  }

  ghost predicate Wakeup(s: State, t: State, a: nat) {
    WakesAll(s.procs, t.procs, Other(a)) && t == s.(procs := t.procs)
  }

  /** kill takes the first slot with the pid, in whatever state it is. */
  ghost predicate Kill(s: State, t: State, k: nat) {
    && k < |s.procs| && (forall j :: 0 <= j < k ==> s.procs[j].pid != s.procs[k].pid)
    && var x := s.procs[k].(killed := true);
       t == s.(procs := s.procs[k := if x.state == SLEEPING then x.(state := RUNNABLE) else x])
  }

  /** fork: allocproc found a slot. */
  ghost predicate Alloc(s: State, t: State, p: nat, k: nat) {
    && On(s, p, User) && FirstUnused(s.procs, k) && k < |s.procs|
    && t == s.(procs := s.procs[k := s.procs[k].(state := EMBRYO, pid := s.nextpid)], doing := s.doing[p := Forking(k)],
               nextpid := s.nextpid + 1)
  }

  /** fork gives up: no memory.  The slot is returned without the lock. */
  ghost predicate ForkFails(s: State, t: State, p: nat, k: nat) {
    && On(s, p, Forking(k)) && k < |s.procs|
    && t == s.(procs := s.procs[k := s.procs[k].(state := UNUSED)], doing := s.doing[p := User])
  }

  /** np->parent = curproc, without the lock. */
  ghost predicate SetParent(s: State, t: State, p: nat, k: nat) {
    && On(s, p, Forking(k)) && k < |s.procs|
    && t == s.(procs := s.procs[k := s.procs[k].(parent := Some(p))], doing := s.doing[p := Forked(k)])
  }

  ghost predicate Publish(s: State, t: State, p: nat, k: nat) {
    && On(s, p, Forked(k)) && k < |s.procs| && k < |s.doing|
    && t == s.(procs := s.procs[k := s.procs[k].(state := RUNNABLE)], doing := s.doing[p := User][k := User])
  }

  ghost predicate Exit(s: State, t: State, p: nat) {
    && On(s, p, User) && p != INITPROC && Exits(s.procs, t.procs, p)
    && t == s.(procs := t.procs, exited := s.exited + {s.procs[p].pid})
  }

  /** wait, from its call or after a wakeup. */
  predicate InWait(s: State, p: nat) {
    On(s, p, User) || On(s, p, Waiting)
  }

  ghost predicate WaitReaps(s: State, t: State, p: nat, k: nat) {
    && InWait(s, p) && FirstZombie(s.procs, p, k) && k < |s.procs|
    && t == s.(procs := s.procs[k := Emptied(s.procs[k])], doing := s.doing[p := User],
               reaped := s.reaped + [(s.procs[k].pid, s.procs[p].pid)])
  }

  /** wait returns -1. */
  ghost predicate WaitFails(s: State, t: State, p: nat) {
    && InWait(s, p) && !HasZombie(s.procs, p) && (!HasKids(s.procs, p) || s.procs[p].killed)
    && t == s.(doing := s.doing[p := User])
  }

  ghost predicate WaitSleeps(s: State, t: State, p: nat) {
    && InWait(s, p) && !HasZombie(s.procs, p) && HasKids(s.procs, p) && !s.procs[p].killed
    && t == s.(procs := s.procs[p := s.procs[p].(state := SLEEPING, chan := Some(OfProc(p)))],
               doing := s.doing[p := Waiting])
  }

  ghost predicate ForkNext(s: State, t: State, p: nat, k: nat) {
    Alloc(s, t, p, k) || ForkFails(s, t, p, k) || SetParent(s, t, p, k) || Publish(s, t, p, k)
  }

  ghost predicate WaitNext(s: State, t: State, p: nat, k: nat) {
    WaitReaps(s, t, p, k) || WaitFails(s, t, p) || WaitSleeps(s, t, p)
  }

  ghost predicate StateNext(s: State, t: State, p: nat, a: nat) {
    Switch(s, t, p) || SleepOn(s, t, p, a) || Wakeup(s, t, a) || Kill(s, t, p)
  }

  ghost predicate Next(s: State, t: State) {
    || (exists p: nat, a: nat :: StateNext(s, t, p, a))
    || (exists p: nat, k: nat :: ForkNext(s, t, p, k))
    || (exists p: nat, k: nat :: WaitNext(s, t, p, k))
    || (exists p: nat :: Exit(s, t, p))
  }

  // ----- the invariant -----

  predicate Published(x: Proc) {
    x.state != UNUSED && x.state != EMBRYO
  }

  predicate Alive(x: Proc) {
    Published(x) && x.state != ZOMBIE
  }

  /** Slot k knows its place in the tree. */
  ghost predicate ParentOk(s: State, k: nat)
    requires k < |s.procs|
  {
    var x := s.procs[k];
    && (x.state == UNUSED ==> x.parent == None) && x.parent != Some(k)
    && (x.state == EMBRYO && x.parent.Some? ==> x.parent.value < |s.doing| && s.doing[x.parent.value] == Forked(k))
    && (Published(x) && k != INITPROC ==>
          x.parent.Some? && x.parent.value < |s.procs| && Alive(s.procs[x.parent.value]))
  }

  /** What p is doing fits the table. */
  ghost predicate DoingOk(s: State, p: nat)
    requires p < |s.procs| && p < |s.doing|
  {
    match s.doing[p]
    case User => true
    case Waiting => Alive(s.procs[p])
    case Forking(k) => Alive(s.procs[p]) && k < |s.procs| && s.procs[k].state == EMBRYO && s.procs[k].parent == None
    case Forked(k) => Alive(s.procs[p]) && k < |s.procs| && s.procs[k].state == EMBRYO && s.procs[k].parent == Some(p)
  }

  predicate Making(d: Doing, k: nat) {
    d == Forking(k) || d == Forked(k)
  }

  /** A new slot is in the hands of one fork. */
  ghost predicate OneMaker(s: State) {
    forall p, q, k: nat ::
      0 <= p < |s.doing| && 0 <= q < |s.doing| && Making(s.doing[p], k) && Making(s.doing[q], k) ==> p == q
  }

  ghost predicate Shape(s: State) {
    && |s.doing| == |s.procs| && INITPROC < |s.procs| && Alive(s.procs[INITPROC]) && s.procs[INITPROC].parent == None
    && (forall k: nat :: k < |s.procs| ==> ParentOk(s, k))
    && (forall p: nat :: p < |s.procs| ==> DoingOk(s, p))
    && OneMaker(s)
  }

  ghost predicate PidsOk(s: State) {
    && (forall k: nat :: k < |s.procs| && s.procs[k].state != UNUSED ==> 0 < s.procs[k].pid < s.nextpid)
    && (forall j: nat, k: nat :: j < k < |s.procs| && s.procs[j].state != UNUSED && s.procs[k].state != UNUSED ==>
          s.procs[j].pid != s.procs[k].pid)
  }

  predicate WasReaped(s: State, pid: nat) {
    exists i :: 0 <= i < |s.reaped| && s.reaped[i].0 == pid
  }

  ghost predicate ZombiePid(s: State, pid: nat) {
    exists k :: 0 <= k < |s.procs| && s.procs[k].state == ZOMBIE && s.procs[k].pid == pid
  }

  /** Every pid that exited is either waiting to be reaped or was reaped, once. */
  ghost predicate ExitsOk(s: State) {
    && (forall pid :: pid in s.exited ==> pid < s.nextpid && (WasReaped(s, pid) != ZombiePid(s, pid)))
    && (forall i :: 0 <= i < |s.reaped| ==> s.reaped[i].0 in s.exited)
    && (forall i, j :: 0 <= i < j < |s.reaped| ==> s.reaped[i].0 != s.reaped[j].0)
    && (forall k: nat :: k < |s.procs| && s.procs[k].state != UNUSED ==>
          (s.procs[k].pid in s.exited <==> s.procs[k].state == ZOMBIE))
  }

  /** A process asleep in wait has children and no zombie among them. */
  ghost predicate WaitOk(s: State, p: nat)
    requires p < |s.procs| && p < |s.doing|
  {
    s.procs[p].state == SLEEPING ==>
      && s.procs[p].chan.Some?
      && (s.procs[p].chan.value.OfProc? <==> s.doing[p] == Waiting)
      && (s.doing[p] == Waiting ==> s.procs[p].chan == Some(OfProc(p)) && HasKids(s.procs, p) && !HasZombie(s.procs, p))
  }

  ghost predicate WaitsOk(s: State) {
    |s.doing| == |s.procs| && forall p: nat :: p < |s.procs| ==> WaitOk(s, p)
  }

  ghost predicate Inv(s: State) {
    Shape(s) && PidsOk(s) && ExitsOk(s) && WaitsOk(s)
  }

  lemma StartOk(s: State)
    requires Start(s)
    ensures Inv(s)
  {
  }

  // ----- changes between runnable, running and sleeping -----

  /** Same place in the tree, same pid, and still a zombie, new, unused or none of these. */
  predicate SameKind(x: Proc, y: Proc) {
    && x.parent == y.parent && x.pid == y.pid
    && (x.state == UNUSED <==> y.state == UNUSED)
    && (x.state == EMBRYO <==> y.state == EMBRYO)
    && (x.state == ZOMBIE <==> y.state == ZOMBIE)
  }

  ghost predicate SameKinds(s: State, t: State) {
    && |t.procs| == |s.procs| && t == s.(procs := t.procs, doing := t.doing)
    && forall k: nat :: k < |s.procs| ==> SameKind(s.procs[k], t.procs[k])
  }

  predicate Plain(d: Doing) {
    d == User || d == Waiting
  }

  lemma KindsShape(s: State, t: State)
    requires Shape(s) && SameKinds(s, t) && |t.doing| == |s.doing|
    requires forall p: nat :: p < |s.doing| ==>
               t.doing[p] == s.doing[p]
               || (Plain(s.doing[p]) && Plain(t.doing[p]) && (t.doing[p] == Waiting ==> Alive(s.procs[p])))
    ensures Shape(t)
  {
    forall k: nat | k < |t.procs|
      ensures ParentOk(t, k)
    {
      assert ParentOk(s, k) && SameKind(s.procs[k], t.procs[k]);
      if t.procs[k].parent.Some? && t.procs[k].parent.value < |s.procs| {
        assert SameKind(s.procs[t.procs[k].parent.value], t.procs[t.procs[k].parent.value]);
      }
    }
    forall p: nat | p < |t.procs|
      ensures DoingOk(t, p)
    {
      assert DoingOk(s, p) && SameKind(s.procs[p], t.procs[p]);
      if t.doing[p].Forking? || t.doing[p].Forked? {
        assert SameKind(s.procs[t.doing[p].k], t.procs[t.doing[p].k]);
      }
    }
    assert SameKind(s.procs[INITPROC], t.procs[INITPROC]);
  }

  lemma KindsPids(s: State, t: State)
    requires PidsOk(s) && SameKinds(s, t)
    ensures PidsOk(t)
  {
    forall j: nat, k: nat | j < k < |t.procs| && t.procs[j].state != UNUSED && t.procs[k].state != UNUSED
      ensures t.procs[j].pid != t.procs[k].pid
    {
      assert SameKind(s.procs[j], t.procs[j]) && SameKind(s.procs[k], t.procs[k]);
    }
    forall k: nat | k < |t.procs| && t.procs[k].state != UNUSED
      ensures 0 < t.procs[k].pid < t.nextpid
    {
      assert SameKind(s.procs[k], t.procs[k]);
    }
  }

  lemma KindsExits(s: State, t: State)
    requires ExitsOk(s) && SameKinds(s, t)
    ensures ExitsOk(t)
  {
    forall pid | pid in t.exited
      ensures pid < t.nextpid && (WasReaped(t, pid) != ZombiePid(t, pid))
    {
      if k :| 0 <= k < |s.procs| && s.procs[k].state == ZOMBIE && s.procs[k].pid == pid {
        assert SameKind(s.procs[k], t.procs[k]);
      }
      if k :| 0 <= k < |t.procs| && t.procs[k].state == ZOMBIE && t.procs[k].pid == pid {
        assert SameKind(s.procs[k], t.procs[k]);
      }
    }
    forall k: nat | k < |t.procs| && t.procs[k].state != UNUSED
      ensures t.procs[k].pid in t.exited <==> t.procs[k].state == ZOMBIE
    {
      assert SameKind(s.procs[k], t.procs[k]);
    }
  }

  /** Children and zombie children of p are the same in both tables. */
  lemma KindsKids(a: Table, b: Table, p: nat)
    requires |a| == |b| && forall k: nat :: k < |a| ==> SameKind(a[k], b[k])
    ensures HasKids(a, p) <==> HasKids(b, p)
    ensures HasZombie(a, p) <==> HasZombie(b, p)
  {
    forall k: nat | k < |a|
      ensures ChildOf(a[k], p) <==> ChildOf(b[k], p)
      ensures ZombieChild(a[k], p) <==> ZombieChild(b[k], p)
    {
      assert SameKind(a[k], b[k]);
    }
  }

  /** Every step that only wakes, schedules, kills or puts to sleep outside wait. */
  lemma StateNextKinds(s: State, t: State, p: nat, a: nat)
    requires Inv(s) && StateNext(s, t, p, a)
    ensures SameKinds(s, t) && t.doing == s.doing
  {
  }

  lemma StateNextWaits(s: State, t: State, p: nat, a: nat)
    requires Inv(s) && StateNext(s, t, p, a)
    ensures WaitsOk(t)
  {
    StateNextKinds(s, t, p, a);
    forall q: nat | q < |t.procs|
      ensures WaitOk(t, q)
    {
      assert WaitOk(s, q);
      KindsKids(s.procs, t.procs, q);
    }
  }

  lemma StateNextKeeps(s: State, t: State, p: nat, a: nat)
    requires Inv(s) && StateNext(s, t, p, a)
    ensures Inv(t)
  {
    StateNextKinds(s, t, p, a);
    KindsShape(s, t);
    KindsPids(s, t);
    KindsExits(s, t);
    StateNextWaits(s, t, p, a);
  }

  // ----- fork -----

  /** One slot k that is unused or new changes, with its maker p. */
  ghost predicate Makes(s: State, t: State, p: nat, k: nat) {
    && |t.procs| == |s.procs| && |t.doing| == |s.doing| == |s.procs| && p < |s.procs| && k < |s.procs| && p != k
    && (forall j: nat :: j < |s.procs| && j != k ==> t.procs[j] == s.procs[j])
    && (forall j: nat :: j < |s.procs| && j != p && j != k ==> t.doing[j] == s.doing[j])
    && !Published(s.procs[k]) && t.exited == s.exited && t.reaped == s.reaped
  }

  lemma ForkMakes(s: State, t: State, p: nat, k: nat)
    requires Shape(s) && ForkNext(s, t, p, k)
    ensures Makes(s, t, p, k)
  {
    assert DoingOk(s, p) && DoingOk(s, k);
  }

  lemma ForkShape(s: State, t: State, p: nat, k: nat)
    requires Shape(s) && ForkNext(s, t, p, k)
    ensures Shape(t)
  {
    ForkMakes(s, t, p, k);
    assert DoingOk(s, p) && DoingOk(s, k) && ParentOk(s, k);
    forall j: nat | j < |t.procs|
      ensures ParentOk(t, j)
    {
      assert ParentOk(s, j);
    }
    forall q: nat | q < |t.procs|
      ensures DoingOk(t, q)
    {
      assert DoingOk(s, q);
      assert q != p && Making(s.doing[p], k) ==> !Making(s.doing[q], k);
    }
    ForkMakers(s, t, p, k);
  }

  lemma ForkMakers(s: State, t: State, p: nat, k: nat)
    requires Shape(s) && ForkNext(s, t, p, k)
    ensures OneMaker(t)
  {
    assert DoingOk(s, p) && DoingOk(s, k);
    forall q, r, j: nat | 0 <= q < |t.doing| && 0 <= r < |t.doing| && Making(t.doing[q], j) && Making(t.doing[r], j)
      ensures q == r
    {
      assert DoingOk(s, q) && DoingOk(s, r);
      assert q != p && r != p ==> Making(s.doing[q], j) && Making(s.doing[r], j);
      assert Making(s.doing[p], j) && Making(s.doing[q], j) ==> q == p;
      assert Making(s.doing[p], j) && Making(s.doing[r], j) ==> r == p;
    }
  }

  lemma ForkPids(s: State, t: State, p: nat, k: nat)
    requires Shape(s) && PidsOk(s) && ForkNext(s, t, p, k)
    ensures PidsOk(t)
  {
    ForkMakes(s, t, p, k);
    assert DoingOk(s, p);
  }

  lemma ForkExits(s: State, t: State, p: nat, k: nat)
    requires Shape(s) && PidsOk(s) && ExitsOk(s) && ForkNext(s, t, p, k)
    ensures ExitsOk(t)
  {
    ForkMakes(s, t, p, k);
    assert DoingOk(s, p);
    forall pid | pid in t.exited
      ensures pid < t.nextpid && (WasReaped(t, pid) != ZombiePid(t, pid))
    {
      if j :| 0 <= j < |s.procs| && s.procs[j].state == ZOMBIE && s.procs[j].pid == pid {
        assert t.procs[j] == s.procs[j];
      }
      if j :| 0 <= j < |t.procs| && t.procs[j].state == ZOMBIE && t.procs[j].pid == pid {
        assert t.procs[j] == s.procs[j];
      }
    }
  }

  lemma ForkWaits(s: State, t: State, p: nat, k: nat)
    requires Shape(s) && WaitsOk(s) && ForkNext(s, t, p, k)
    ensures WaitsOk(t)
  {
    ForkMakes(s, t, p, k);
    assert DoingOk(s, p) && ParentOk(s, k);
    forall q: nat | q < |t.procs|
      ensures WaitOk(t, q)
    {
      assert WaitOk(s, q);
      if q != p {
        forall j | 0 <= j < |s.procs|
          ensures ChildOf(s.procs[j], q) <==> ChildOf(t.procs[j], q)
          ensures ZombieChild(s.procs[j], q) <==> ZombieChild(t.procs[j], q)
        {
        }
      }
    }
  }

  // ----- wait -----

  lemma WaitPlain(s: State, t: State, p: nat)
    requires Inv(s) && (WaitFails(s, t, p) || WaitSleeps(s, t, p))
    ensures Inv(t)
  {
    assert SameKinds(s, t);
    KindsShape(s, t);
    KindsPids(s, t);
    KindsExits(s, t);
    forall q: nat | q < |t.procs|
      ensures WaitOk(t, q)
    {
      assert WaitOk(s, q);
      KindsKids(s.procs, t.procs, q);
    }
  }

  lemma ReapShape(s: State, t: State, p: nat, k: nat)
    requires Shape(s) && WaitReaps(s, t, p, k)
    ensures Shape(t)
  {
    assert DoingOk(s, k) && DoingOk(s, p);
    forall j: nat | j < |t.procs|
      ensures ParentOk(t, j)
    {
      assert ParentOk(s, j);
    }
    forall q: nat | q < |t.procs|
      ensures DoingOk(t, q)
    {
      assert DoingOk(s, q);
    }
  }

  lemma ReapExits(s: State, t: State, p: nat, k: nat)
    requires Shape(s) && PidsOk(s) && ExitsOk(s) && WaitReaps(s, t, p, k)
    ensures ExitsOk(t)
  {
    var dead := s.procs[k].pid;
    assert dead in s.exited && ZombiePid(s, dead) && !WasReaped(s, dead);
    forall pid | pid in t.exited
      ensures pid < t.nextpid && (WasReaped(t, pid) != ZombiePid(t, pid))
    {
      assert t.reaped[|s.reaped|].0 == dead;
      if i :| 0 <= i < |s.reaped| && s.reaped[i].0 == pid {
        assert t.reaped[i].0 == pid;
      }
      if j :| 0 <= j < |s.procs| && s.procs[j].state == ZOMBIE && s.procs[j].pid == pid {
        assert pid != dead ==> t.procs[j] == s.procs[j];
      }
    }
    forall i | 0 <= i < |t.reaped|
      ensures t.reaped[i].0 in t.exited
    {
      assert i < |s.reaped| ==> t.reaped[i] == s.reaped[i];
    }
  }

  lemma ReapWaits(s: State, t: State, p: nat, k: nat)
    requires Shape(s) && WaitsOk(s) && WaitReaps(s, t, p, k)
    ensures WaitsOk(t)
  {
    forall q: nat | q < |t.procs|
      ensures WaitOk(t, q)
    {
      assert WaitOk(s, q);
      if q != p {
        forall j | 0 <= j < |s.procs|
          ensures ChildOf(s.procs[j], q) <==> ChildOf(t.procs[j], q)
          ensures ZombieChild(s.procs[j], q) <==> ZombieChild(t.procs[j], q)
        {
        }
      }
    }
  }

  // ----- exit -----

  /** What exit of p does to the place of slot k in the tree. */
  lemma ExitSlot(s: State, t: State, p: nat, k: nat)
    requires Shape(s) && Exit(s, t, p) && k < |s.procs|
    ensures t.procs[k].pid == s.procs[k].pid
    ensures t.procs[k].parent == if ChildOf(s.procs[k], p) then Some(INITPROC) else s.procs[k].parent
    ensures t.procs[k].state == UNUSED <==> s.procs[k].state == UNUSED
    ensures t.procs[k].state == EMBRYO <==> s.procs[k].state == EMBRYO
    ensures t.procs[k].state == ZOMBIE <==> s.procs[k].state == ZOMBIE || k == p
  {
  }

  lemma ExitShape(s: State, t: State, p: nat)
    requires Shape(s) && Exit(s, t, p)
    ensures Shape(t)
  {
    ExitSlot(s, t, p, INITPROC);
    ExitSlot(s, t, p, p);
    assert DoingOk(s, p);
    forall k: nat | k < |t.procs|
      ensures ParentOk(t, k)
    {
      assert ParentOk(s, k);
      ExitSlot(s, t, p, k);
      if t.procs[k].parent.Some? && t.procs[k].parent.value < |t.procs| {
        ExitSlot(s, t, p, t.procs[k].parent.value);
      }
    }
    forall q: nat | q < |t.procs|
      ensures DoingOk(t, q)
    {
      assert DoingOk(s, q);
      ExitSlot(s, t, p, q);
      if s.doing[q].Forking? || s.doing[q].Forked? {
        ExitSlot(s, t, p, s.doing[q].k);
      }
    }
  }

  lemma ExitPids(s: State, t: State, p: nat)
    requires Shape(s) && PidsOk(s) && Exit(s, t, p)
    ensures PidsOk(t)
  {
    forall k: nat | k < |t.procs|
      ensures t.procs[k].pid == s.procs[k].pid && (t.procs[k].state == UNUSED <==> s.procs[k].state == UNUSED)
    {
      ExitSlot(s, t, p, k);
    }
  }

  lemma ExitExits(s: State, t: State, p: nat)
    requires Shape(s) && PidsOk(s) && ExitsOk(s) && Exit(s, t, p)
    ensures ExitsOk(t)
  {
    var dead := s.procs[p].pid;
    ExitSlot(s, t, p, p);
    assert dead !in s.exited;
    forall pid | pid in t.exited
      ensures pid < t.nextpid && (WasReaped(t, pid) != ZombiePid(t, pid))
    {
      if pid == dead {
        assert t.procs[p].state == ZOMBIE && t.procs[p].pid == pid;
        assert ZombiePid(t, pid);
      } else {
        ExitOtherPid(s, t, p, pid);
      }
    }
    forall k: nat | k < |t.procs| && t.procs[k].state != UNUSED
      ensures t.procs[k].pid in t.exited <==> t.procs[k].state == ZOMBIE
    {
      ExitSlot(s, t, p, k);
    }
  }

  lemma ExitOtherPid(s: State, t: State, p: nat, pid: nat)
    requires Shape(s) && Exit(s, t, p) && pid != s.procs[p].pid
    ensures ZombiePid(t, pid) <==> ZombiePid(s, pid)
  {
    if k :| 0 <= k < |s.procs| && s.procs[k].state == ZOMBIE && s.procs[k].pid == pid {
      ExitSlot(s, t, p, k);
      assert t.procs[k].state == ZOMBIE;
    }
    if k :| 0 <= k < |t.procs| && t.procs[k].state == ZOMBIE && t.procs[k].pid == pid {
      ExitSlot(s, t, p, k);
      assert s.procs[k].state == ZOMBIE;
    }
  }

  /** A process still asleep in wait after the exit of p is neither its parent nor an heir of its zombies. */
  lemma ExitSleeper(s: State, t: State, p: nat, q: nat)
    requires Shape(s) && WaitsOk(s) && Exit(s, t, p) && q < |s.procs| && t.procs[q].state == SLEEPING
    ensures q != p && s.procs[q].state == SLEEPING && t.procs[q].chan == s.procs[q].chan
    ensures s.doing[q] == Waiting ==> s.procs[p].parent != Some(q) && (q == INITPROC ==> !HasZombie(s.procs, p))
  {
    assert WaitOk(s, q);
  }

  lemma ExitKids(s: State, t: State, p: nat, q: nat)
    requires Shape(s) && WaitsOk(s) && Exit(s, t, p) && q < |s.procs| && t.procs[q].state == SLEEPING
    requires s.doing[q] == Waiting
    ensures HasKids(t.procs, q) && !HasZombie(t.procs, q)
  {
    ExitSleeper(s, t, p, q);
    assert WaitOk(s, q) && ParentOk(s, p);
    var j :| 0 <= j < |s.procs| && ChildOf(s.procs[j], q);
    ExitSlot(s, t, p, j);
    assert ChildOf(t.procs[j], q);
    forall k: nat | k < |t.procs|
      ensures !ZombieChild(t.procs[k], q)
    {
      ExitSlot(s, t, p, k);
      assert !ZombieChild(s.procs[k], q);
      assert q == INITPROC ==> !ZombieChild(s.procs[k], p);
    }
  }

  lemma ExitWaits(s: State, t: State, p: nat)
    requires Shape(s) && WaitsOk(s) && Exit(s, t, p)
    ensures WaitsOk(t)
  {
    forall q: nat | q < |t.procs|
      ensures WaitOk(t, q)
    {
      assert WaitOk(s, q);
      if t.procs[q].state == SLEEPING {
        ExitSleeper(s, t, p, q);
        if s.doing[q] == Waiting {
          ExitKids(s, t, p, q);
        }
      }
    }
  }

  // ----- whole runs -----

  lemma ForkKeeps(s: State, t: State, p: nat, k: nat)
    requires Inv(s) && ForkNext(s, t, p, k)
    ensures Inv(t)
  {
    ForkShape(s, t, p, k);
    ForkPids(s, t, p, k);
    ForkExits(s, t, p, k);
    ForkWaits(s, t, p, k);
  }

  lemma WaitKeeps(s: State, t: State, p: nat, k: nat)
    requires Inv(s) && WaitNext(s, t, p, k)
    ensures Inv(t)
  {
    if WaitReaps(s, t, p, k) {
      ReapShape(s, t, p, k);
      assert PidsOk(t);
      ReapExits(s, t, p, k);
      ReapWaits(s, t, p, k);
    } else {
      WaitPlain(s, t, p);
    }
  }

  lemma ExitKeeps(s: State, t: State, p: nat)
    requires Inv(s) && Exit(s, t, p)
    ensures Inv(t)
  {
    ExitShape(s, t, p);
    ExitPids(s, t, p);
    ExitExits(s, t, p);
    ExitWaits(s, t, p);
  }

  lemma NextKeeps(s: State, t: State)
    requires Inv(s) && Next(s, t)
    ensures Inv(t)
  {
    if p: nat, a: nat :| StateNext(s, t, p, a) {
      StateNextKeeps(s, t, p, a);
    } else if p: nat, k: nat :| ForkNext(s, t, p, k) {
      ForkKeeps(s, t, p, k);
    } else if p: nat, k: nat :| WaitNext(s, t, p, k) {
      WaitKeeps(s, t, p, k);
    } else {
      var p: nat :| Exit(s, t, p);
      ExitKeeps(s, t, p);
    }
  }

  ghost predicate IsRun(r: seq<State>) {
    r != [] && Start(r[0]) && forall i: nat :: i + 1 < |r| ==> Next(r[i], r[i + 1])
  }

  lemma {:induction false} RunInv(r: seq<State>, i: nat)
    requires IsRun(r) && i < |r|
    ensures Inv(r[i])
  {
    if i == 0 {
      StartOk(r[0]);
    } else {
      RunInv(r, i - 1);
      assert Next(r[i - 1], r[i - 1 + 1]);
      NextKeeps(r[i - 1], r[i]);
    }
  }

  /**
   In every state of every run, each process that fork has published, except init,
   has a parent that is neither unused, new nor a zombie; in particular a parent is
   never reaped before its children.  init has no parent and lives.
   */
  lemma ParentsLive(r: seq<State>, i: nat, k: nat)
    requires IsRun(r) && i < |r| && k < |r[i].procs| && Published(r[i].procs[k])
    ensures k == INITPROC ==> Alive(r[i].procs[k])
    ensures k != INITPROC ==>
              && r[i].procs[k].parent.Some? && r[i].procs[k].parent.value < |r[i].procs|
              && Alive(r[i].procs[r[i].procs[k].parent.value])
  {
    RunInv(r, i);
    assert ParentOk(r[i], k);
  }

  /** Orphans belong to init: right after the exit of p, every child it had, new ones included, is a child of init. */
  lemma OrphansToInit(r: seq<State>, i: nat, p: nat, k: nat)
    requires IsRun(r) && i + 1 < |r| && Exit(r[i], r[i + 1], p) && k < |r[i].procs|
    ensures ChildOf(r[i].procs[k], p) ==> ChildOf(r[i + 1].procs[k], INITPROC)
    ensures !HasKids(r[i + 1].procs, p)
  {
    RunInv(r, i);
    ExitSlot(r[i], r[i + 1], p, k);
    var s, t := r[i], r[i + 1];
    forall j: nat | j < |s.procs|
      ensures !ChildOf(t.procs[j], p)
    {
      ExitSlot(s, t, p, j);
    }
  }

  /**
   Every pid that has exited is held by exactly one zombie that no wait has returned,
   or was returned by exactly one wait; nothing else is ever returned.
   */
  lemma ReapedOnce(r: seq<State>, i: nat, pid: nat)
    requires IsRun(r) && i < |r|
    ensures pid in r[i].exited ==> (WasReaped(r[i], pid) <==> !ZombiePid(r[i], pid))
    ensures pid !in r[i].exited ==> !WasReaped(r[i], pid) && !ZombiePid(r[i], pid)
    ensures forall a, b :: 0 <= a < b < |r[i].reaped| ==> r[i].reaped[a].0 != r[i].reaped[b].0
    ensures forall a, b ::
              0 <= a < b < |r[i].procs| && r[i].procs[a].state != UNUSED && r[i].procs[b].state != UNUSED ==>
              r[i].procs[a].pid != r[i].procs[b].pid
  {
    RunInv(r, i);
  }

  /** Process p, in wait, reaps its zombie child in slot k. */
  ghost predicate Reaps(s: State, t: State, p: nat, k: nat) {
    && p < |s.procs| && k < |s.procs| == |t.procs|
    && s.procs[p].state == RUNNING && s.procs[k].state == ZOMBIE && s.procs[k].parent == Some(p)
    && t.procs[k].state == UNUSED
  }

  /** A step returns at most one pid from wait, and that from a zombie to its parent. */
  lemma StepReaps(r: seq<State>, j: nat, i: nat) returns (p: nat, k: nat)
    requires IsRun(r) && i == j + 1 < |r|
    ensures r[i].reaped != r[j].reaped ==>
              Reaps(r[j], r[i], p, k) && r[i].reaped == r[j].reaped + [(r[j].procs[k].pid, r[j].procs[p].pid)]
  {
    p, k := 0, 0;
    assert Next(r[j], r[j + 1]);
    if r[i].reaped != r[j].reaped {
      p, k :| WaitNext(r[j], r[i], p, k);
    }
  }

  /** Every pid that a wait has returned went to the process that was the parent of that zombie at that step. */
  lemma {:induction false} ReapedByParent(r: seq<State>, i: nat, a: nat) returns (m: nat, p: nat, k: nat)
    requires IsRun(r) && i < |r| && a < |r[i].reaped|
    ensures m < i && Reaps(r[m], r[m + 1], p, k)
    ensures r[i].reaped[a] == (r[m].procs[k].pid, r[m].procs[p].pid)
  {
    if i > 0 {
      m := i - 1;
      p, k := StepReaps(r, m, i);
      if a < |r[m].reaped| {
        m, p, k := ReapedByParent(r, m, a);
      }
    }
  }

  /** wakeup(a) in every run: everyone asleep on a is runnable after it, and no other slot changes. */
  lemma WakeupWakes(r: seq<State>, i: nat, a: nat, k: nat)
    requires IsRun(r) && i + 1 < |r| && Wakeup(r[i], r[i + 1], a) && k < |r[i].procs|
    ensures k < |r[i + 1].procs| && !(r[i + 1].procs[k].state == SLEEPING && r[i + 1].procs[k].chan == Some(Other(a)))
    ensures r[i].procs[k].state == SLEEPING && r[i].procs[k].chan == Some(Other(a)) ==>
              r[i + 1].procs[k] == r[i].procs[k].(state := RUNNABLE)
    ensures !(r[i].procs[k].state == SLEEPING && r[i].procs[k].chan == Some(Other(a))) ==>
              r[i + 1].procs[k] == r[i].procs[k]
  {
  }

  /** kill in every run: the process is marked and not asleep after it, and no other slot changes. */
  lemma KillWakes(r: seq<State>, i: nat, k: nat, j: nat)
    requires IsRun(r) && i + 1 < |r| && Kill(r[i], r[i + 1], k) && j < |r[i].procs|
    ensures k < |r[i + 1].procs| == |r[i].procs| && r[i + 1].procs[k].killed && r[i + 1].procs[k].state != SLEEPING
    ensures r[i].procs[k].state != SLEEPING ==> r[i + 1].procs[k].state == r[i].procs[k].state
    ensures j != k ==> r[i + 1].procs[j] == r[i].procs[j]
  {
  }

  /**
   A pass of wait by p in every run: it returns the pid of its first zombie child; without
   one it sleeps if it has a child and is not killed, and else returns -1.
   */
  lemma WaitOutcome(r: seq<State>, i: nat, p: nat, k: nat)
    requires IsRun(r) && i + 1 < |r| && WaitNext(r[i], r[i + 1], p, k) && p < |r[i].procs|
    ensures r[i + 1].reaped != r[i].reaped <==>
              exists c :: 0 <= c < |r[i].procs| && r[i].procs[c].parent == Some(p) && r[i].procs[c].state == ZOMBIE
    ensures r[i + 1].procs[p].state == SLEEPING <==>
              && !r[i].procs[p].killed
              && (exists c :: 0 <= c < |r[i].procs| && r[i].procs[c].parent == Some(p))
              && forall c :: 0 <= c < |r[i].procs| && r[i].procs[c].parent == Some(p) ==> r[i].procs[c].state != ZOMBIE
  {
    var s, t := r[i], r[i + 1];
    RunInv(r, i);
    if WaitReaps(s, t, p, k) {
      assert ZombieChild(s.procs[k], p) && k != p;
    } else if WaitSleeps(s, t, p) {
      var c :| 0 <= c < |s.procs| && ChildOf(s.procs[c], p);
      assert s.procs[c].parent == Some(p);
    } else if !HasKids(s.procs, p) {
      assert forall c :: 0 <= c < |s.procs| ==> !ChildOf(s.procs[c], p);
    }
    assert HasZombie(s.procs, p) <==>
           exists c :: 0 <= c < |s.procs| && s.procs[c].parent == Some(p) && s.procs[c].state == ZOMBIE;
  }

  /** A parent asleep in wait while ptable.lock is free has a child and no zombie child. */
  lemma SleepingParent(r: seq<State>, i: nat, p: nat)
    requires IsRun(r) && i < |r| && p < |r[i].procs| && r[i].procs[p].state == SLEEPING
    requires r[i].procs[p].chan == Some(OfProc(p))
    ensures HasKids(r[i].procs, p) && !HasZombie(r[i].procs, p)
  {
    RunInv(r, i);
    assert WaitOk(r[i], p);
  }

  // ----- kill and slots that are not in use -----

  predicate Unborn(x: Proc) {
    x.state == UNUSED || x.state == EMBRYO
  }

  /** What a step does to the mark of kill on slot k: an unborn slot is marked by a kill only, a freed one is clean. */
  ghost predicate MarksKept(s: State, t: State, k: nat) {
    && |t.procs| == |s.procs| && k < |s.procs|
    && (Unborn(s.procs[k]) ==> (t.procs[k].killed <==> s.procs[k].killed || Kill(s, t, k)))
    && (!Unborn(s.procs[k]) && Unborn(t.procs[k]) ==> !t.procs[k].killed)
  }

  lemma StateMarks(s: State, t: State, p: nat, a: nat, k: nat)
    requires StateNext(s, t, p, a) && k < |s.procs|
    ensures MarksKept(s, t, k)
  {
  }

  lemma ForkMarks(s: State, t: State, p: nat, j: nat, k: nat)
    requires Shape(s) && ForkNext(s, t, p, j) && k < |s.procs|
    ensures MarksKept(s, t, k)
  {
    assert DoingOk(s, p);
  }

  lemma WaitMarks(s: State, t: State, p: nat, j: nat, k: nat)
    requires WaitNext(s, t, p, j) && k < |s.procs|
    ensures MarksKept(s, t, k)
  {
  }

  lemma ExitMarks(s: State, t: State, p: nat, k: nat)
    requires Exit(s, t, p) && k < |s.procs|
    ensures MarksKept(s, t, k)
  {
    ExitSlots(s.procs, t.procs, p, k);
  }

  lemma NextMarks(s: State, t: State, k: nat)
    requires Shape(s) && Next(s, t) && k < |s.procs|
    ensures MarksKept(s, t, k)
  {
    if p: nat, a: nat :| StateNext(s, t, p, a) {
      StateMarks(s, t, p, a, k);
    } else if p: nat, j: nat :| ForkNext(s, t, p, j) {
      ForkMarks(s, t, p, j, k);
    } else if p: nat, j: nat :| WaitNext(s, t, p, j) {
      WaitMarks(s, t, p, j, k);
    } else {
      var p: nat :| Exit(s, t, p);
      ExitMarks(s, t, p, k);
    }
  }

  /** Slot k was marked by kill at some step before state i, and has been unborn from then on. */
  ghost predicate Marked(r: seq<State>, i: nat, k: nat) {
    exists m: nat :: MarkedAt(r, m, i, k)
  }

  ghost predicate MarkedAt(r: seq<State>, m: nat, i: nat, k: nat) {
    && m < i < |r| && Kill(r[m], r[m + 1], k)
    && forall j: nat :: m <= j <= i ==> k < |r[j].procs| && Unborn(r[j].procs[k])
  }

  lemma MarkStep(r: seq<State>, h: nat, i: nat, k: nat)
    requires i == h + 1 < |r| && k < |r[h].procs| && k < |r[i].procs| && Unborn(r[i].procs[k])
    ensures Marked(r, i, k) <==> Unborn(r[h].procs[k]) && (Marked(r, h, k) || Kill(r[h], r[i], k))
  {
    if Unborn(r[h].procs[k]) && Kill(r[h], r[i], k) {
      assert MarkedAt(r, h, i, k);
    }
    if m: nat :| MarkedAt(r, m, h, k) {
      assert MarkedAt(r, m, i, k);
    }
    if m: nat :| MarkedAt(r, m, i, k) {
      if m < h {
        assert MarkedAt(r, m, h, k);
      }
    }
  }

  /**
   In every run a slot that is unused or new carries the mark of kill exactly when kill
   has hit it since it was last freed; so a process can be killed before it exists.
   */
  lemma {:induction false} BornKilled(r: seq<State>, i: nat, k: nat)
    requires IsRun(r) && i < |r| && k < |r[i].procs| && Unborn(r[i].procs[k])
    ensures r[i].procs[k].killed <==> Marked(r, i, k)
  {
    if i > 0 {
      var h := i - 1;
      assert Next(r[h], r[h + 1]);
      RunInv(r, h);
      SameSize(r[h], r[i]);
      NextMarks(r[h], r[i], k);
      MarkStep(r, h, i, k);
      if Unborn(r[h].procs[k]) {
        BornKilled(r, h, k);
      }
    }
  }

  lemma SameSize(s: State, t: State)
    requires Next(s, t)
    ensures |t.procs| == |s.procs|
  {
  }

  /** Such a run: kill(0) hits the first unused slot, and the child that fork puts there is killed from the start. */
  lemma KilledBeforeBirth() returns (r: seq<State>)
    ensures IsRun(r) && |r[|r| - 1].procs| == 2
    ensures var x := r[|r| - 1].procs[1]; x.state == RUNNABLE && x.killed && x.pid == 2
    ensures forall i: nat, k: nat :: i + 1 < |r| && k < |r[i].procs| && Kill(r[i], r[i + 1], k) ==>
              r[i].procs[k].pid == 0 || r[i].procs[k].killed
  {
    var u := Proc(UNUSED, 0, None, None, false);
    var x := Proc(RUNNING, 1, None, None, false);
    var s0 := State([x.(state := RUNNABLE), u], [User, User], 2, {}, []);
    var s1 := s0.(procs := [x, u]);
    var s2 := s0.(procs := [x, u.(killed := true)]);
    var y := Proc(EMBRYO, 2, None, None, true);
    var s3 := State([x, y], [Forking(1), User], 3, {}, []);
    var s4 := State([x, y.(parent := Some(0))], [Forked(1), User], 3, {}, []);
    var s5 := State([x, y.(parent := Some(0), state := RUNNABLE)], [User, User], 3, {}, []);
    assert Switch(s0, s1, 0) && StateNext(s0, s1, 0, 0);
    assert Kill(s1, s2, 1) && StateNext(s1, s2, 1, 0);
    assert Alloc(s2, s3, 0, 1) && ForkNext(s2, s3, 0, 1);
    assert SetParent(s3, s4, 0, 1) && ForkNext(s3, s4, 0, 1);
    assert Publish(s4, s5, 0, 1) && ForkNext(s4, s5, 0, 1);
    r := [s0, s1, s2, s3, s4, s5];
  }
}
