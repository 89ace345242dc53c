/**
 The process table of proc.c and the loops over it: allocproc, wakeup1, the part of
 exit that hands over children, and the scan of wait.  Each loop is proved against
 the function of the table that the process-tree machine uses.
 */
module ProcTable {
  import opened Wrappers

  datatype PState = UNUSED | EMBRYO | SLEEPING | RUNNABLE | RUNNING | ZOMBIE

  /** Channels are addresses; those of process structures are the ones wait uses. */
  datatype Chan = OfProc(slot: nat) | Other(addr: nat)

  /** A slot of the table; parent is a slot number. */
  datatype Proc = Proc(state: PState, pid: nat, parent: Option<nat>, chan: Option<Chan>, killed: bool)

  type Table = seq<Proc>

  /** userinit takes the first slot. */
  const INITPROC: nat := 0

  predicate ChildOf(x: Proc, p: nat) {
    x.parent == Some(p)
  }

  predicate ZombieChild(x: Proc, p: nat) {
    x.parent == Some(p) && x.state == ZOMBIE
  }

  ghost predicate HasKids(t: Table, p: nat) {
    exists k :: 0 <= k < |t| && ChildOf(t[k], p)
  }

  ghost predicate HasZombie(t: Table, p: nat) {
    exists k :: 0 <= k < |t| && ZombieChild(t[k], p)
  }

  /** The first unused slot, or the size of the table. */
  ghost predicate FirstUnused(t: Table, k: nat) {
    && k <= |t|
    && (k < |t| ==> t[k].state == UNUSED)
    && forall i :: 0 <= i < k ==> t[i].state != UNUSED
  }

  /** The first zombie child of p, or the size of the table. */
  ghost predicate FirstZombie(t: Table, p: nat, k: nat) {
    && k <= |t|
    && (k < |t| ==> ZombieChild(t[k], p))
    && forall i :: 0 <= i < k ==> !ZombieChild(t[i], p)
  }

  function Woken(x: Proc, ch: Chan): (y: Proc) {
    if x.state == SLEEPING && x.chan == Some(ch) then x.(state := RUNNABLE) else x
  }

  /** wakeup1 on the whole table. */
  ghost predicate WakesAll(t: Table, u: Table, ch: Chan) {
    |u| == |t| && forall k :: 0 <= k < |t| ==> u[k] == Woken(t[k], ch)
  }

  /** One slot as exit of p leaves it; stir says whether init has to be woken for an inherited zombie. */
  function Left(x: Proc, p: nat, parent: Option<nat>, stir: bool): (y: Proc) {
    var a := if parent.Some? then Woken(x, OfProc(parent.value)) else x;
    var b := if stir then Woken(a, OfProc(INITPROC)) else a;
    if ChildOf(x, p) then b.(parent := Some(INITPROC)) else b
  }

  /** The same for a slot the loop over the children has yet to reach. */
  function Kept(x: Proc, p: nat, parent: Option<nat>, stir: bool): (y: Proc) {
    Left(x, p, parent, stir).(parent := x.parent)
  }

  lemma KeptSame(x: Proc, p: nat, parent: Option<nat>, stir: bool)
    ensures Kept(x, p, parent, stir).parent == x.parent
    ensures (Kept(x, p, parent, stir).state == ZOMBIE <==> x.state == ZOMBIE)
    ensures ChildOf(x, p) ==> Kept(x, p, parent, stir).(parent := Some(INITPROC)) == Left(x, p, parent, stir)
    ensures !ChildOf(x, p) ==> Kept(x, p, parent, stir) == Left(x, p, parent, stir)
  {
  }

  lemma Stirred(x: Proc, p: nat, parent: Option<nat>, stir: bool)
    ensures Woken(Left(x, p, parent, stir), OfProc(INITPROC)) == Left(x, p, parent, true)
    ensures Woken(Kept(x, p, parent, stir), OfProc(INITPROC)) == Kept(x, p, parent, true)
  {
  }

  /** Waking init in the middle of the loop over the children. */
  lemma StirAll(t: Table, p: nat, parent: Option<nat>, stir: bool, k: nat, u: Table, v: Table)
    requires |u| == |t| && k <= |t| && WakesAll(u, v, OfProc(INITPROC))
    requires forall i :: 0 <= i < k ==> u[i] == Left(t[i], p, parent, stir)
    requires forall i :: k <= i < |t| ==> u[i] == Kept(t[i], p, parent, stir)
    ensures forall i :: 0 <= i < k ==> v[i] == Left(t[i], p, parent, true)
    ensures forall i :: k <= i < |t| ==> v[i] == Kept(t[i], p, parent, true)
  {
    forall i | 0 <= i < |t|
      ensures v[i] == if i < k then Left(t[i], p, parent, true) else Kept(t[i], p, parent, true)
    {
      Stirred(t[i], p, parent, stir);
    }
  }

  /** The table after exit of p, up to its sched. */
  ghost predicate Exits(t: Table, u: Table, p: nat) {
    && p < |t| && |u| == |t|
    && (forall k :: 0 <= k < |t| && k != p ==> u[k] == Left(t[k], p, t[p].parent, HasZombie(t, p)))
    && u[p] == Left(t[p], p, t[p].parent, HasZombie(t, p)).(state := ZOMBIE)
  }

  /** Slot k of table t, apart from the state of p itself, after exit of p, field by field. */
  ghost predicate ExitSlot(t: Table, p: nat, k: nat, y: Proc)
    requires p < |t| && k < |t|
  {
    && y.pid == t[k].pid && y.chan == t[k].chan && y.killed == t[k].killed
    && y.parent == (if t[k].parent == Some(p) then Some(INITPROC) else t[k].parent)
    && (k != p ==> y.state == if ExitWakes(t, p, t[k]) then RUNNABLE else t[k].state)
  }

  /** x sleeps where exit of p looks for someone to wake. */
  ghost predicate ExitWakes(t: Table, p: nat, x: Proc)
    requires p < |t|
  {
    && x.state == SLEEPING && x.chan.Some? && x.chan.value.OfProc?
    && (t[p].parent == Some(x.chan.value.slot) || (x.chan.value.slot == INITPROC && HasZombie(t, p)))
  }

  lemma ExitSlots(t: Table, u: Table, p: nat, k: nat)
    requires Exits(t, u, p) && k < |t|
    ensures ExitSlot(t, p, k, u[k])
  {
  }

  /** The slot wait leaves when it has found a zombie. */
  function Emptied(x: Proc): (y: Proc) {
    x.(state := UNUSED, pid := 0, parent := None, killed := false)
  }

  class PTable {
    const proc: array<Proc>
    var nextpid: nat

    constructor (n: nat)
      ensures fresh(proc) && proc.Length == n && nextpid == 1
      ensures forall k :: 0 <= k < n ==> proc[k] == Proc(UNUSED, 0, None, None, false)
    {
      proc := new Proc[n](_ => Proc(UNUSED, 0, None, None, false));
      nextpid := 1;
    }

    /** allocproc up to its release: the slot, or the table size when there is none. */
    method Allocproc() returns (k: nat)
      modifies proc, this`nextpid
      ensures FirstUnused(old(proc[..]), k)
      ensures k == proc.Length ==> proc[..] == old(proc[..]) && nextpid == old(nextpid)
      ensures k < proc.Length ==>
                && proc[..] == old(proc[..])[k := old(proc[k]).(state := EMBRYO, pid := old(nextpid))]
                && nextpid == old(nextpid) + 1
    {
      k := 0;
      while k < proc.Length
        invariant 0 <= k <= proc.Length && proc[..] == old(proc[..]) && nextpid == old(nextpid)
        invariant forall i :: 0 <= i < k ==> proc[i].state != UNUSED
      {
        if proc[k].state == UNUSED {
          proc[k] := proc[k].(state := EMBRYO, pid := nextpid);
          nextpid := nextpid + 1;
          return;
        }
        k := k + 1;
      }
    }

    /** wakeup1: exactly the slots that sleep on ch become runnable, and nothing else changes. */
    method Wakeup1(ch: Chan)
      modifies proc
      ensures forall k :: 0 <= k < proc.Length && old(proc[k].state == SLEEPING && proc[k].chan == Some(ch)) ==>
                proc[k] == old(proc[k]).(state := RUNNABLE)
      ensures forall k :: 0 <= k < proc.Length && !old(proc[k].state == SLEEPING && proc[k].chan == Some(ch)) ==>
                proc[k] == old(proc[k])
      ensures WakesAll(old(proc[..]), proc[..], ch)
    {
      var k := 0;
      while k < proc.Length
        invariant 0 <= k <= proc.Length
        invariant forall i :: 0 <= i < k ==> proc[i] == Woken(old(proc[i]), ch)
        invariant forall i :: k <= i < proc.Length ==> proc[i] == old(proc[i])
      {
        if proc[k].state == SLEEPING && proc[k].chan == Some(ch) {
          proc[k] := proc[k].(state := RUNNABLE);
        }
        k := k + 1;
      }
    }

    /**
     kill(pid): exactly the first slot with the pid is marked, whatever its state, and
     made runnable if it sleeps; found is false when there is none.
     */
    method Kill(pid: nat) returns (found: bool, k: nat)
      modifies proc
      ensures k <= proc.Length && (found <==> k < proc.Length) && forall i :: 0 <= i < k ==> old(proc[i]).pid != pid
      ensures found ==> old(proc[k]).pid == pid && proc[k].killed
      ensures found ==> proc[k] == old(proc[k]).(killed := true, state := proc[k].state)
      ensures found ==> proc[k].state == if old(proc[k]).state == SLEEPING then RUNNABLE else old(proc[k]).state
      ensures forall i :: 0 <= i < proc.Length && i != k ==> proc[i] == old(proc[i])
    {
      k := 0;
      while k < proc.Length
        invariant 0 <= k <= proc.Length && proc[..] == old(proc[..])
        invariant forall i :: 0 <= i < k ==> proc[i].pid != pid
      {
        if proc[k].pid == pid {
          proc[k] := proc[k].(killed := true);
          if proc[k].state == SLEEPING {
            proc[k] := proc[k].(state := RUNNABLE);
          }
          return true, k;
        }
        k := k + 1;
      }
      found := false;
    }

    /**
     The locked part of exit.  p becomes a zombie; exactly its children get init as their
     parent; a sleeper on the channel of p's parent, or on that of init when a child of p
     is a zombie, becomes runnable; nothing else changes.
     */
    method Exit(p: nat)
      requires p < proc.Length
      modifies proc
      ensures proc[p].state == ZOMBIE
      ensures forall k :: 0 <= k < proc.Length ==> ExitSlot(old(proc[..]), p, k, proc[k])
      ensures Exits(old(proc[..]), proc[..], p)
    {
      ghost var t := proc[..];
      var parent := proc[p].parent;
      if parent.Some? {
        Wakeup1(OfProc(parent.value));
      }
      PassChildren(p, t, parent);
      proc[p] := proc[p].(state := ZOMBIE);
      forall k | 0 <= k < proc.Length
        ensures ExitSlot(t, p, k, proc[k])
      {
        ExitSlots(t, proc[..], p, k);
      }
    }

    /** The loop of exit over its children; t is the table before the parent was woken. */
    method PassChildren(p: nat, ghost t: Table, ghost parent: Option<nat>)
      requires proc.Length == |t| && forall i :: 0 <= i < |t| ==> proc[i] == Kept(t[i], p, parent, false)
      modifies proc
      ensures forall i :: 0 <= i < |t| ==> proc[i] == Left(t[i], p, parent, HasZombie(t, p))
    {
      ghost var stir := false;
      var k := 0;
      while k < proc.Length
        invariant 0 <= k <= proc.Length
        invariant stir <==> exists j :: 0 <= j < k && ZombieChild(t[j], p)
        invariant forall i :: 0 <= i < k ==> proc[i] == Left(t[i], p, parent, stir)
        invariant forall i :: k <= i < proc.Length ==> proc[i] == Kept(t[i], p, parent, stir)
      {
        KeptSame(t[k], p, parent, stir);
        if proc[k].parent == Some(p) {
          proc[k] := proc[k].(parent := Some(INITPROC));
          if proc[k].state == ZOMBIE {
            assert ZombieChild(t[k], p);
            ghost var before := proc[..];
            Wakeup1(OfProc(INITPROC));
            StirAll(t, p, parent, stir, k + 1, before, proc[..]);
            stir := true;
          }
        }
        k := k + 1;
      }
    }

    /**
     One scan of wait by p: either the pid of the first zombie child, whose slot is
     emptied, or whether p has children at all.
     */
    method WaitScan(p: nat) returns (found: bool, pid: nat, havekids: bool, k: nat)
      modifies proc
      ensures FirstZombie(old(proc[..]), p, k)
      ensures found <==> k < proc.Length
      ensures found ==> pid == old(proc[k]).pid && proc[k] == Proc(UNUSED, 0, None, old(proc[k]).chan, false)
      ensures found ==> proc[..] == old(proc[..])[k := Emptied(old(proc[k]))]
      ensures !found ==> proc[..] == old(proc[..]) && (havekids <==> HasKids(old(proc[..]), p))
    {
      havekids, found, pid, k := false, false, 0, 0;
      while k < proc.Length
        invariant 0 <= k <= proc.Length && proc[..] == old(proc[..]) && !found
        invariant havekids <==> exists i :: 0 <= i < k && ChildOf(proc[i], p)
        invariant forall i :: 0 <= i < k ==> !ZombieChild(proc[i], p)
      {
        if proc[k].parent == Some(p) {
          havekids := true;
          if proc[k].state == ZOMBIE {
            found, pid := true, proc[k].pid;
            proc[k] := Emptied(proc[k]);
            return;
          }
        }
        k := k + 1;
      }
    }
  }
}
