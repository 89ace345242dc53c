/**
 Scheduler hand-off and sleep/wakeup of proc.c, as atomic steps of any number of
 CPUs and processes.  A step is what one CPU does next in the context it executes:
 its own scheduler loop or the kernel thread of a process.  ptable.lock is a field
 that steps take, keep across swtch, and drop.

 Each channel l stands for a condition value[l] > 0 that is changed and tested only
 under its own spin lock, as in sleep1.p.
 */
module Sched {
  import opened Wrappers
  import opened ProcTable

  /** Where the kernel thread of a process is. */
  datatype Pc =
    | Run                              // holds no lock
    | Crit(l: nat)                     // holds the lock of l
    | Owe(l: nat, locked: bool)        // made the condition true, is about to call wakeup
    | WakeHeld(l: nat, locked: bool)   // in wakeup, holds ptable.lock
    | WakeDone(l: nat, locked: bool)   // wakeup1 has returned
    | Tested(l: nat)                   // found the condition false, is about to call sleep
    | SleepBoth(l: nat)                // in sleep, holds both locks
    | SleepPt(l: nat)                  // has released the lock of l
    | SleepSched(l: nat)               // is SLEEPING, about to swtch
    | SleepBack(l: nat)                // behind that swtch
    | SleepDone(l: nat)                // has cleared chan
    | SleepRetake(l: nat)              // about to take the lock of l again
    | YieldHeld | YieldSched | YieldBack
    | ExitHeld | ExitSched
    | KillHeld(t: nat) | KillDone
    | ForkRet                          // first scheduling of a new process
    | Gone

  /** live: the CPU whose registers hold this thread; None while the context is saved. */
  datatype Thread = Thread(state: PState, chan: Option<nat>, pc: Pc, live: Option<nat>)

  /** Where the scheduler loop of a CPU is; Back is behind its swtch. */
  datatype SPc = Idle | Scan | Chosen(p: nat) | Switch(p: nat) | Back

  /** proc is cpu->proc; run is the process whose thread the CPU executes, None for the scheduler. */
  datatype Cpu = Cpu(proc: Option<nat>, run: Option<nat>, spc: SPc)

  /** lock is the holder of ptable.lock, lks the holders of the other locks. */
  datatype State = State(procs: seq<Thread>, cpus: seq<Cpu>, lock: Option<nat>, lks: seq<Option<nat>>, value: seq<nat>)

  predicate HoldsPt(pc: Pc) {
    match pc
    case Run | Crit(_) | Owe(_, _) | Tested(_) | SleepRetake(_) | Gone => false
    case _ => true
  }

  function LkOf(pc: Pc): (r: Option<nat>) {
    match pc
    case Crit(l) => Some(l)
    case Owe(l, k) => if k then Some(l) else None
    case WakeHeld(l, k) => if k then Some(l) else None
    case WakeDone(l, k) => if k then Some(l) else None
    case Tested(l) => Some(l)
    case SleepBoth(l) => Some(l)
    case _ => None
  }

  /** A thread that still has to do the wakeup for a condition it made true. */
  predicate Owes(pc: Pc, l: nat) {
    (pc.Owe? && pc.l == l) || (pc.WakeHeld? && pc.l == l)
  }

  // ----- steps of the scheduler loop -----

  predicate InSched(s: State, c: nat) {
    c < |s.cpus| && s.cpus[c].run == None
  }

  ghost predicate SchedAcquire(s: State, t: State, c: nat) {
    && InSched(s, c) && s.cpus[c].spc == Idle && s.lock == None
    && t == s.(lock := Some(c), cpus := s.cpus[c := s.cpus[c].(spc := Scan)])
  }

  ghost predicate Choose(s: State, t: State, c: nat, p: nat) {
    && InSched(s, c) && s.cpus[c].spc == Scan && p < |s.procs| && s.procs[p].state == RUNNABLE
    && t == s.(cpus := s.cpus[c := s.cpus[c].(proc := Some(p), spc := Chosen(p))])
  }

  ghost predicate MarkRunning(s: State, t: State, c: nat) {
    && InSched(s, c) && s.cpus[c].spc.Chosen? && s.cpus[c].spc.p < |s.procs|
    && var p := s.cpus[c].spc.p;
       t == s.(procs := s.procs[p := s.procs[p].(state := RUNNING)], cpus := s.cpus[c := s.cpus[c].(spc := Switch(p))])
  }

  ghost predicate SwtchTo(s: State, t: State, c: nat) {
    && InSched(s, c) && s.cpus[c].spc.Switch? && s.cpus[c].spc.p < |s.procs|
    && var p := s.cpus[c].spc.p;
       t == s.(procs := s.procs[p := s.procs[p].(live := Some(c))],
               cpus := s.cpus[c := s.cpus[c].(run := Some(p), spc := Back)])
  }

  ghost predicate ClearProc(s: State, t: State, c: nat) {
    && InSched(s, c) && s.cpus[c].spc == Back
    && t == s.(cpus := s.cpus[c := s.cpus[c].(proc := None, spc := Scan)])
  }

  ghost predicate SchedRelease(s: State, t: State, c: nat) {
    && InSched(s, c) && s.cpus[c].spc == Scan
    && t == s.(lock := None, cpus := s.cpus[c := s.cpus[c].(spc := Idle)])
  }

  // ----- steps of processes -----

  /** CPU c executes the thread of p. */
  predicate Runs(s: State, c: nat, p: nat) {
    c < |s.cpus| && p < |s.procs| && s.cpus[c].run == Some(p)
  }

  function SetPc(s: State, p: nat, pc: Pc): (t: State)
    requires p < |s.procs|
  {
    s.(procs := s.procs[p := s.procs[p].(pc := pc)])
  }

  /** acquire(&ptable.lock): in yield, exit, kill, wakeup and sleep. */
  predicate PtAcquire(a: Pc, b: Pc) {
    || (a.Run? && (b.YieldHeld? || b.ExitHeld? || b.KillHeld?))
    || (a.Owe? && b == WakeHeld(a.l, a.locked))
    || (a.Tested? && b == SleepBoth(a.l))
  }

  ghost predicate AcquirePt(s: State, t: State, c: nat, p: nat, pc: Pc) {
    && Runs(s, c, p) && s.lock == None && PtAcquire(s.procs[p].pc, pc)
    && t == SetPc(s, p, pc).(lock := Some(c))
  }

  /** release(&ptable.lock): in yield, forkret, kill, wakeup and sleep. */
  predicate PtRelease(a: Pc, b: Pc) {
    || ((a.YieldBack? || a.ForkRet? || a.KillDone?) && b.Run?)
    || (a.WakeDone? && b == if a.locked then Crit(a.l) else Run)
    || (a.SleepDone? && b == SleepRetake(a.l))
  }

  ghost predicate ReleasePt(s: State, t: State, c: nat, p: nat, pc: Pc) {
    && Runs(s, c, p) && PtRelease(s.procs[p].pc, pc)
    && t == SetPc(s, p, pc).(lock := None)
  }

  ghost predicate AcquireLk(s: State, t: State, c: nat, p: nat, l: nat) {
    && Runs(s, c, p) && l < |s.lks| && s.lks[l] == None && (s.procs[p].pc == Run || s.procs[p].pc == SleepRetake(l))
    && t == SetPc(s, p, Crit(l)).(lks := s.lks[l := Some(c)])
  }

  /** release of the lock of l: at the end of a critical section, before wakeup, or in sleep. */
  predicate LkRelease(a: Pc, b: Pc, l: nat) {
    || (a == Crit(l) && b == Run)
    || (a == Owe(l, true) && b == Owe(l, false))
    || (a == SleepBoth(l) && b == SleepPt(l))
  }

  ghost predicate ReleaseLk(s: State, t: State, c: nat, p: nat, l: nat, pc: Pc) {
    && Runs(s, c, p) && l < |s.lks| && LkRelease(s.procs[p].pc, pc, l)
    && t == SetPc(s, p, pc).(lks := s.lks[l := None])
  }

  /** What yield, sleep and exit do to myproc() before they call sched. */
  predicate Leave(a: Pc, b: Pc, x: Thread, y: Thread) {
    || (a.YieldHeld? && b.YieldSched? && y == x.(state := RUNNABLE))
    || (a.SleepPt? && b == SleepSched(a.l) && y == x.(state := SLEEPING, chan := Some(a.l)))
    || (a.ExitHeld? && b.ExitSched? && y == x.(state := ZOMBIE))
  }

  /** The state change applies to myproc(), that is to cpu->proc. */
  ghost predicate LeaveState(s: State, t: State, c: nat, p: nat, pc: Pc, y: Thread) {
    && Runs(s, c, p) && s.cpus[c].proc.Some? && s.cpus[c].proc.value < |s.procs|
    && var me := s.cpus[c].proc.value;
       var u := SetPc(s, p, pc);
       Leave(s.procs[p].pc, pc, u.procs[me], y) && t == u.(procs := u.procs[me := y])
  }

  predicate SchedPoint(pc: Pc) {
    pc.YieldSched? || pc.SleepSched? || pc.ExitSched?
  }

  /** Where a thread is once sched has switched away from it. */
  function Saved(pc: Pc): (r: Pc) {
    match pc
    case YieldSched => YieldBack
    case SleepSched(l) => SleepBack(l)
    case _ => Gone
  }

  /** The checks of sched: ptable.lock held, no other lock held, state changed. */
  ghost predicate SchedPanics(s: State, c: nat, p: nat)
    requires Runs(s, c, p)
  {
    || s.lock != Some(c)
    || (exists l :: 0 <= l < |s.lks| && s.lks[l] == Some(c))
    || s.cpus[c].proc == None || s.cpus[c].proc.value >= |s.procs|
    || s.procs[s.cpus[c].proc.value].state == RUNNING
  }

  /** The swtch of sched back into the scheduler loop. */
  ghost predicate SwtchBack(s: State, t: State, c: nat, p: nat) {
    && Runs(s, c, p) && SchedPoint(s.procs[p].pc)
    && t == s.(procs := s.procs[p := s.procs[p].(pc := Saved(s.procs[p].pc), live := None)],
               cpus := s.cpus[c := s.cpus[c].(run := None)])
  }

  /** sleep clears p->chan once it is back. */
  ghost predicate Tidy(s: State, t: State, c: nat, p: nat) {
    && Runs(s, c, p) && s.procs[p].pc.SleepBack?
    && t == s.(procs := s.procs[p := s.procs[p].(pc := SleepDone(s.procs[p].pc.l), chan := None)])
  }

  /** Under the lock of l: the condition is false, so call sleep. */
  ghost predicate Test(s: State, t: State, c: nat, p: nat, l: nat) {
    && Runs(s, c, p) && s.procs[p].pc == Crit(l) && l < |s.value| && s.value[l] == 0
    && t == SetPc(s, p, Tested(l))
  }

  ghost predicate Consume(s: State, t: State, c: nat, p: nat, l: nat) {
    && Runs(s, c, p) && s.procs[p].pc == Crit(l) && l < |s.value| && s.value[l] > 0
    && t == s.(value := s.value[l := s.value[l] - 1])
  }

  /** Make the condition true; the wakeup comes before or after the release. */
  ghost predicate Produce(s: State, t: State, c: nat, p: nat, l: nat, n: nat) {
    && Runs(s, c, p) && s.procs[p].pc == Crit(l) && l < |s.value|
    && t == SetPc(s, p, Owe(l, true)).(value := s.value[l := s.value[l] + n])
  }

  function Woken(x: Thread, l: nat): (y: Thread) {
    if x.state == SLEEPING && x.chan == Some(l) then x.(state := RUNNABLE) else x
  }

  /** wakeup1: every process asleep on l becomes runnable. */
  ghost predicate Wakeup1(s: State, t: State, c: nat, p: nat) {
    && Runs(s, c, p) && s.procs[p].pc.WakeHeld?
    && var l := s.procs[p].pc.l;
       && |t.procs| == |s.procs|
       && (forall q :: 0 <= q < |s.procs| ==>
             t.procs[q] == if q == p then Woken(s.procs[p],
                                                l).(pc := WakeDone(l, s.procs[p].pc.locked)) else Woken(s.procs[q], l))
       && t == s.(procs := t.procs)
  }

  ghost predicate KillAct(s: State, t: State, c: nat, p: nat) {
    && Runs(s, c, p) && s.procs[p].pc.KillHeld?
    && var u := SetPc(s, p, KillDone);
       var k := s.procs[p].pc.t;
       if k < |s.procs| && u.procs[k].state == SLEEPING
       then t == u.(procs := u.procs[k := u.procs[k].(state := RUNNABLE)])
       else t == u
  }

  /** fork publishes a new process, under ptable.lock. */
  ghost predicate Fork(s: State, t: State, c: nat, p: nat, k: nat) {
    && Runs(s, c, p) && s.procs[p].pc == Run && s.lock == None && k < |s.procs| && s.procs[k].state == UNUSED
    && t == s.(procs := s.procs[k := Thread(RUNNABLE, None, ForkRet, None)])
  }

  /** wait frees the slot of a zombie, under ptable.lock. */
  ghost predicate Reap(s: State, t: State, c: nat, p: nat, k: nat) {
    && Runs(s, c, p) && s.procs[p].pc == Run && s.lock == None && k < |s.procs| && s.procs[k].state == ZOMBIE
    && t == s.(procs := s.procs[k := s.procs[k].(state := UNUSED)])
  }

  ghost predicate SchedNext(s: State, t: State, c: nat) {
    || SchedAcquire(s, t, c) || MarkRunning(s, t, c) || SwtchTo(s, t, c) || ClearProc(s, t, c) || SchedRelease(s, t, c)
    || exists p: nat :: Choose(s, t, c, p)
  }

  ghost predicate LockNext(s: State, t: State, c: nat, p: nat) {
    || (exists pc :: AcquirePt(s, t, c, p, pc))
    || (exists pc :: ReleasePt(s, t, c, p, pc))
    || (exists l: nat :: AcquireLk(s, t, c, p, l))
    || (exists l: nat, pc :: ReleaseLk(s, t, c, p, l, pc))
  }

  ghost predicate ProcNext(s: State, t: State, c: nat, p: nat) {
    || LockNext(s, t, c, p)
    || (exists pc, y :: LeaveState(s, t, c, p, pc, y))
    || SwtchBack(s, t, c, p) || Tidy(s, t, c, p)
    || (exists l: nat :: Test(s, t, c, p, l))
    || (exists l: nat :: Consume(s, t, c, p, l))
    || (exists l: nat, n: nat :: Produce(s, t, c, p, l, n))
    || Wakeup1(s, t, c, p) || KillAct(s, t, c, p)
    || (exists k: nat :: Fork(s, t, c, p, k))
    || (exists k: nat :: Reap(s, t, c, p, k))
  }

  ghost predicate Next(s: State, t: State) {
    (exists c: nat :: SchedNext(s, t, c)) || (exists c: nat, p: nat :: ProcNext(s, t, c, p))
  }

  ghost predicate Start(s: State) {
    && |s.lks| == |s.value| && s.lock == None
    && (forall l :: 0 <= l < |s.lks| ==> s.lks[l] == None)
    && (forall c :: 0 <= c < |s.cpus| ==> s.cpus[c] == Cpu(None, None, Idle))
    && (forall p :: 0 <= p < |s.procs| ==>
          s.procs[p] == Thread(UNUSED, None, Gone, None) || s.procs[p] == Thread(RUNNABLE, None, ForkRet, None))
  }

  // ----- the invariant -----

  /** A saved context the scheduler may resume. */
  predicate Resumable(pc: Pc) {
    pc.YieldBack? || pc.SleepBack? || pc.ForkRet?
  }

  /** State, chan, program counter and liveness of a process fit together. */
  predicate PcOk(x: Thread) {
    match x.state
    case UNUSED => x.live == None && x.pc == Gone
    case EMBRYO => false
    case RUNNABLE => if x.live == None then Resumable(x.pc) else x.pc == YieldSched
    case SLEEPING =>
      x.chan.Some? && x.pc == if x.live == None then SleepBack(x.chan.value) else SleepSched(x.chan.value)
    case RUNNING => if x.live == None then Resumable(x.pc) else !SchedPoint(x.pc) && x.pc != Gone
    case ZOMBIE => x.pc == if x.live == None then Gone else ExitSched
  }

  predicate ChanIn(pc: Pc, n: nat) {
    match pc
    case Crit(l) => l < n
    case Owe(l, _) => l < n
    case WakeHeld(l, _) => l < n
    case WakeDone(l, _) => l < n
    case Tested(l) => l < n
    case SleepBoth(l) => l < n
    case SleepPt(l) => l < n
    case SleepSched(l) => l < n
    case SleepBack(l) => l < n
    case SleepDone(l) => l < n
    case SleepRetake(l) => l < n
    case _ => true
  }

  ghost predicate ProcOk(s: State, p: nat)
    requires p < |s.procs|
  {
    var x := s.procs[p];
    && PcOk(x) && ChanIn(x.pc, |s.value|)
    && (x.live.Some? ==> x.live.value < |s.cpus| && s.cpus[x.live.value].run == Some(p))
  }

  /** The scheduler of c has picked p, which is not executing. */
  predicate Picked(s: State, c: nat, p: nat, st: PState)
    requires c < |s.cpus|
  {
    p < |s.procs| && s.cpus[c].proc == Some(p) && s.procs[p].live == None && s.procs[p].state == st
  }

  ghost predicate CpuOk(s: State, c: nat)
    requires c < |s.cpus|
  {
    var k := s.cpus[c];
    if k.run.Some? then
      k.run.value < |s.procs| && s.procs[k.run.value].live == Some(c) && k.proc == k.run && k.spc == Back
    else match k.spc
      case Idle => k.proc == None
      case Scan => k.proc == None
      case Chosen(p) => Picked(s, c, p, RUNNABLE)
      case Switch(p) => Picked(s, c, p, RUNNING)
      case Back => true
  }

  /** The context that CPU c executes is inside a ptable.lock region. */
  predicate CtxHolds(s: State, c: nat)
    requires c < |s.cpus|
  {
    if s.cpus[c].run.Some? then s.cpus[c].run.value < |s.procs| && HoldsPt(s.procs[s.cpus[c].run.value].pc)
    else s.cpus[c].spc != Idle
  }

  ghost predicate LockOk(s: State) {
    && (s.lock.Some? ==> s.lock.value < |s.cpus|)
    && forall c: nat :: c < |s.cpus| ==> (s.lock == Some(c) <==> CtxHolds(s, c))
  }

  ghost predicate LkHeld(s: State, l: nat)
    requires l < |s.lks|
  {
    s.lks[l].Some? ==>
      && s.lks[l].value < |s.cpus| && s.cpus[s.lks[l].value].run.Some?
      && s.cpus[s.lks[l].value].run.value < |s.procs|
      && LkOf(s.procs[s.cpus[s.lks[l].value].run.value].pc) == Some(l)
  }

  ghost predicate LksOk(s: State) {
    && |s.lks| == |s.value|
    && (forall l: nat :: l < |s.lks| ==> LkHeld(s, l))
    && (forall p: nat :: p < |s.procs| && LkOf(s.procs[p].pc).Some? ==>
          LkOf(s.procs[p].pc).value < |s.lks| && s.procs[p].live.Some?
          && s.lks[LkOf(s.procs[p].pc).value] == s.procs[p].live)
  }

  /** A RUNNING process that does not execute is being switched to. */
  ghost predicate SwitchOk(s: State) {
    forall p: nat :: p < |s.procs| && s.procs[p].state == RUNNING && s.procs[p].live == None ==>
      s.lock.Some? && s.lock.value < |s.cpus| && s.cpus[s.lock.value].run == None
      && s.cpus[s.lock.value].spc == Switch(p)
  }

  ghost predicate ProcsOk(s: State) {
    forall p: nat :: p < |s.procs| ==> ProcOk(s, p)
  }

  ghost predicate CpusOk(s: State) {
    forall c: nat :: c < |s.cpus| ==> CpuOk(s, c)
  }

  ghost predicate Inv(s: State) {
    ProcsOk(s) && CpusOk(s) && LockOk(s) && LksOk(s) && SwitchOk(s)
  }

  lemma StartOk(s: State)
    requires Start(s)
    ensures Inv(s)
  {
  }

  // ----- steps of the scheduler loop keep it -----

  /** A step that changes CPU c, process p if there is one, and no lock but ptable.lock. */
  ghost predicate CpuStep(s: State, t: State, c: nat, p: nat) {
    && InSched(s, c) && |t.procs| == |s.procs| && |t.cpus| == |s.cpus| && t.lks == s.lks && t.value == s.value
    && (forall q :: 0 <= q < |s.procs| && q != p ==> t.procs[q] == s.procs[q])
    && (forall d :: 0 <= d < |s.cpus| && d != c ==> t.cpus[d] == s.cpus[d])
    && (p < |s.procs| ==> t.procs[p].pc == s.procs[p].pc && s.procs[p].live == None && LkOf(s.procs[p].pc) == None)
  }

  /** It keeps the invariant if CPU c and process p are in order after it and no other CPU holds ptable.lock. */
  lemma CpuStepKeeps(s: State, t: State, c: nat, p: nat)
    requires Inv(s) && CpuStep(s, t, c, p)
    requires CpuOk(t, c) && (p < |s.procs| ==> ProcOk(t, p)) && SwitchOk(t)
    requires (s.lock == None || s.lock == Some(c)) && t.lock == if CtxHolds(t, c) then Some(c) else None
    ensures Inv(t)
  {
    forall q: nat | q < |t.procs|
      ensures ProcOk(t, q)
    {
      assert ProcOk(s, q);
    }
    forall d: nat | d < |t.cpus|
      ensures CpuOk(t, d) && (t.lock == Some(d) <==> CtxHolds(t, d))
    {
      assert CpuOk(s, d);
      assert s.lock == Some(d) <==> CtxHolds(s, d);
    }
    forall l: nat | l < |t.lks|
      ensures LkHeld(t, l)
    {
      assert LkHeld(s, l);
    }
  }

  lemma SchedAcquireKeeps(s: State, t: State, c: nat)
    requires Inv(s) && SchedAcquire(s, t, c)
    ensures Inv(t)
  {
    assert CpuOk(s, c);
    CpuStepKeeps(s, t, c, |s.procs|);
  }

  /** With the scheduler of c inside its lock region, a process that is not running executes nowhere. */
  lemma NotLive(s: State, c: nat, p: nat)
    requires Inv(s) && InSched(s, c) && s.cpus[c].spc != Idle && p < |s.procs| && s.procs[p].state != RUNNING
    ensures s.procs[p].live == None
  {
    assert ProcOk(s, p);
    assert s.lock == Some(c) <==> CtxHolds(s, c);
    if s.procs[p].live.Some? {
      assert CtxHolds(s, s.procs[p].live.value);
    }
  }

  /** What the scheduler knows while it holds ptable.lock. */
  lemma SchedHolds(s: State, c: nat)
    requires Inv(s) && InSched(s, c) && s.cpus[c].spc != Idle
    ensures s.lock == Some(c) && CpuOk(s, c)
    ensures s.cpus[c].spc.Chosen? || s.cpus[c].spc.Switch? ==> s.cpus[c].spc.p < |s.procs| && ProcOk(s, s.cpus[c].spc.p)
  {
    assert CpuOk(s, c);
    assert s.lock == Some(c) <==> CtxHolds(s, c);
  }

  lemma ChooseKeeps(s: State, t: State, c: nat, p: nat)
    requires Inv(s) && Choose(s, t, c, p)
    ensures Inv(t)
  {
    SchedHolds(s, c);
    NotLive(s, c, p);
    CpuStepKeeps(s, t, c, |s.procs|);
  }

  lemma MarkRunningKeeps(s: State, t: State, c: nat)
    requires Inv(s) && MarkRunning(s, t, c)
    ensures Inv(t)
  {
    SchedHolds(s, c);
    CpuStepKeeps(s, t, c, s.cpus[c].spc.p);
  }

  lemma SwtchToKeeps(s: State, t: State, c: nat)
    requires Inv(s) && SwtchTo(s, t, c)
    ensures Inv(t)
  {
    SchedHolds(s, c);
    CpuStepKeeps(s, t, c, s.cpus[c].spc.p);
  }

  lemma ClearProcKeeps(s: State, t: State, c: nat)
    requires Inv(s) && ClearProc(s, t, c)
    ensures Inv(t)
  {
    SchedHolds(s, c);
    CpuStepKeeps(s, t, c, |s.procs|);
  }

  lemma SchedReleaseKeeps(s: State, t: State, c: nat)
    requires Inv(s) && SchedRelease(s, t, c)
    ensures Inv(t)
  {
    SchedHolds(s, c);
    CpuStepKeeps(s, t, c, |s.procs|);
  }

  // ----- steps of a process that change only itself and the locks it handles -----

  /** How ptable.lock moves when the thread on CPU c goes from a to b. */
  predicate PtMoves(a: Pc, b: Pc, c: nat, lock: Option<nat>, lock': Option<nat>) {
    if HoldsPt(a) == HoldsPt(b) then lock' == lock
    else if HoldsPt(b) then lock == None && lock' == Some(c)
    else lock' == None
  }

  /** How the other locks move. */
  predicate LkMoves(a: Pc, b: Pc, c: nat, lks: seq<Option<nat>>, lks': seq<Option<nat>>) {
    if LkOf(a) == LkOf(b) then lks' == lks
    else if LkOf(a) == None then
      LkOf(b).value < |lks| && lks[LkOf(b).value] == None && lks' == lks[LkOf(b).value := Some(c)]
    else LkOf(b) == None && LkOf(a).value < |lks| && lks' == lks[LkOf(a).value := None]
  }

  ghost predicate Local(s: State, t: State, c: nat, p: nat, x: Thread) {
    && Runs(s, c, p)
    && x.live == s.procs[p].live && PcOk(x) && ChanIn(x.pc, |s.value|)
    && t == s.(procs := s.procs[p := x], lock := t.lock, lks := t.lks, value := t.value)
    && |t.value| == |s.value|
    && PtMoves(s.procs[p].pc, x.pc, c, s.lock, t.lock) && LkMoves(s.procs[p].pc, x.pc, c, s.lks, t.lks)
  }

  lemma LocalProcs(s: State, t: State, c: nat, p: nat, x: Thread)
    requires Inv(s) && Local(s, t, c, p, x)
    ensures ProcsOk(t) && CpusOk(t)
  {
    assert CpuOk(s, c);
    forall q: nat | q < |t.procs|
      ensures ProcOk(t, q)
    {
      assert ProcOk(s, q);
    }
    forall d: nat | d < |t.cpus|
      ensures CpuOk(t, d)
    {
      assert CpuOk(s, d);
    }
  }

  lemma LocalLock(s: State, t: State, c: nat, p: nat, x: Thread)
    requires Inv(s) && Local(s, t, c, p, x)
    ensures LockOk(t)
  {
    assert CpuOk(s, c);
    assert s.lock == Some(c) <==> CtxHolds(s, c);
    forall d: nat | d < |t.cpus|
      ensures t.lock == Some(d) <==> CtxHolds(t, d)
    {
      assert CpuOk(s, d);
      assert s.lock == Some(d) <==> CtxHolds(s, d);
    }
  }

  lemma LocalLks(s: State, t: State, c: nat, p: nat, x: Thread)
    requires Inv(s) && Local(s, t, c, p, x)
    ensures LksOk(t)
  {
    assert CpuOk(s, c);
    forall l: nat | l < |t.lks|
      ensures LkHeld(t, l)
    {
      assert LkHeld(s, l);
    }
    forall q: nat | q < |t.procs| && LkOf(t.procs[q].pc).Some?
      ensures LkOf(t.procs[q].pc).value < |t.lks| && t.procs[q].live.Some?
      ensures t.lks[LkOf(t.procs[q].pc).value] == t.procs[q].live
    {
      assert ProcOk(s, q) && ProcOk(s, p);
    }
  }

  lemma LocalSwitch(s: State, t: State, c: nat, p: nat, x: Thread)
    requires Inv(s) && Local(s, t, c, p, x)
    ensures SwitchOk(t)
  {
    assert CpuOk(s, c);
    assert s.lock == Some(c) <==> CtxHolds(s, c);
  }

  lemma LocalKeeps(s: State, t: State, c: nat, p: nat, x: Thread)
    requires Inv(s) && Local(s, t, c, p, x)
    ensures Inv(t)
  {
    LocalProcs(s, t, c, p, x);
    LocalLock(s, t, c, p, x);
    LocalLks(s, t, c, p, x);
    LocalSwitch(s, t, c, p, x);
  }

  /** The process a CPU executes is RUNNING until it has prepared to leave. */
  lemma RunsOk(s: State, c: nat, p: nat)
    requires Inv(s) && Runs(s, c, p)
    ensures s.procs[p].live == Some(c) && s.cpus[c].proc == Some(p) && s.cpus[c].spc == Back
    ensures PcOk(s.procs[p]) && ChanIn(s.procs[p].pc, |s.value|)
    ensures !SchedPoint(s.procs[p].pc) ==> s.procs[p].state == RUNNING
    ensures HoldsPt(s.procs[p].pc) <==> s.lock == Some(c)
  {
    assert CpuOk(s, c) && ProcOk(s, p);
    assert s.lock == Some(c) <==> CtxHolds(s, c);
  }

  lemma AcquirePtKeeps(s: State, t: State, c: nat, p: nat, pc: Pc)
    requires Inv(s) && AcquirePt(s, t, c, p, pc)
    ensures Inv(t)
  {
    RunsOk(s, c, p);
    LocalKeeps(s, t, c, p, t.procs[p]);
  }

  lemma ReleasePtKeeps(s: State, t: State, c: nat, p: nat, pc: Pc)
    requires Inv(s) && ReleasePt(s, t, c, p, pc)
    ensures Inv(t)
  {
    RunsOk(s, c, p);
    LocalKeeps(s, t, c, p, t.procs[p]);
  }

  lemma AcquireLkKeeps(s: State, t: State, c: nat, p: nat, l: nat)
    requires Inv(s) && AcquireLk(s, t, c, p, l)
    ensures Inv(t)
  {
    RunsOk(s, c, p);
    LocalKeeps(s, t, c, p, t.procs[p]);
  }

  lemma ReleaseLkKeeps(s: State, t: State, c: nat, p: nat, l: nat, pc: Pc)
    requires Inv(s) && ReleaseLk(s, t, c, p, l, pc)
    ensures Inv(t)
  {
    RunsOk(s, c, p);
    LocalKeeps(s, t, c, p, t.procs[p]);
  }

  lemma LockKeeps(s: State, t: State, c: nat, p: nat)
    requires Inv(s) && LockNext(s, t, c, p)
    ensures Inv(t)
  {
    if pc :| AcquirePt(s, t, c, p, pc) {
      AcquirePtKeeps(s, t, c, p, pc);
    } else if pc :| ReleasePt(s, t, c, p, pc) {
      ReleasePtKeeps(s, t, c, p, pc);
    } else if l: nat :| AcquireLk(s, t, c, p, l) {
      AcquireLkKeeps(s, t, c, p, l);
    } else {
      var l: nat, pc :| ReleaseLk(s, t, c, p, l, pc);
      ReleaseLkKeeps(s, t, c, p, l, pc);
    }
  }

  lemma LeaveKeeps(s: State, t: State, c: nat, p: nat, pc: Pc, y: Thread)
    requires Inv(s) && LeaveState(s, t, c, p, pc, y)
    ensures Inv(t)
  {
    RunsOk(s, c, p);
    LocalKeeps(s, t, c, p, y);
  }

  lemma CondKeeps(s: State, t: State, c: nat, p: nat, l: nat, n: nat)
    requires Inv(s) && (Test(s, t, c, p, l) || Consume(s, t, c, p, l) || Produce(s, t, c, p, l, n) || Tidy(s, t, c, p))
    ensures Inv(t)
  {
    RunsOk(s, c, p);
    LocalKeeps(s, t, c, p, t.procs[p]);
  }

  // ----- steps that change other processes -----

  /** Processes other than p change only from one saved state to another, with their context untouched. */
  ghost predicate Others(s: State, t: State, p: nat) {
    && |t.procs| == |s.procs|
    && t == s.(procs := t.procs)
    && forall q: nat :: q < |s.procs| && q != p ==>
         && t.procs[q].live == s.procs[q].live && PcOk(t.procs[q]) && ChanIn(t.procs[q].pc, |s.value|)
         && (t.procs[q] == s.procs[q]
             || (s.procs[q].live == None && s.procs[q].state != RUNNING && t.procs[q].state != RUNNING
                 && !(s.procs[q].state == RUNNABLE && t.procs[q].state != RUNNABLE) && LkOf(t.procs[q].pc) == None))
  }

  lemma OthersKeep(s: State, t: State, c: nat, p: nat)
    requires Inv(s) && Runs(s, c, p) && Others(s, t, p) && t.procs[p].live == Some(c) && t.procs[p].state == RUNNING
    requires PcOk(t.procs[p]) && ChanIn(t.procs[p].pc, |s.value|)
    requires HoldsPt(t.procs[p].pc) == HoldsPt(s.procs[p].pc) && LkOf(t.procs[p].pc) == LkOf(s.procs[p].pc)
    ensures Inv(t)
  {
    RunsOk(s, c, p);
    forall q: nat | q < |t.procs|
      ensures ProcOk(t, q)
    {
      assert ProcOk(s, q);
    }
    forall d: nat | d < |t.cpus|
      ensures CpuOk(t, d) && (t.lock == Some(d) <==> CtxHolds(t, d))
    {
      assert CpuOk(s, d);
      assert s.lock == Some(d) <==> CtxHolds(s, d);
    }
    forall l: nat | l < |t.lks|
      ensures LkHeld(t, l)
    {
      assert LkHeld(s, l);
    }
  }

  /** With ptable.lock held by CPU c, or held by nobody, no other process is between leaving and swtch. */
  lemma OnlySaved(s: State, c: nat, p: nat, q: nat)
    requires Inv(s) && Runs(s, c, p) && (s.lock == Some(c) || s.lock == None) && q < |s.procs| && q != p
    requires s.procs[q].state != RUNNING
    ensures s.procs[q].live == None && PcOk(s.procs[q]) && ChanIn(s.procs[q].pc, |s.value|)
  {
    assert ProcOk(s, q);
    if s.procs[q].live.Some? {
      RunsOk(s, s.procs[q].live.value, q);
    }
  }

  lemma Wakeup1Keeps(s: State, t: State, c: nat, p: nat)
    requires Inv(s) && Wakeup1(s, t, c, p)
    ensures Inv(t)
  {
    RunsOk(s, c, p);
    forall q: nat | q < |s.procs| && q != p
      ensures t.procs[q].live == s.procs[q].live && PcOk(t.procs[q]) && ChanIn(t.procs[q].pc, |s.value|)
      ensures t.procs[q] == s.procs[q]
              || (s.procs[q].live == None && s.procs[q].state == SLEEPING && t.procs[q].state == RUNNABLE
                  && LkOf(t.procs[q].pc) == None)
    {
      assert ProcOk(s, q);
      if s.procs[q].state == SLEEPING {
        OnlySaved(s, c, p, q);
      }
    }
    OthersKeep(s, t, c, p);
  }

  lemma KillKeeps(s: State, t: State, c: nat, p: nat)
    requires Inv(s) && KillAct(s, t, c, p)
    ensures Inv(t)
  {
    RunsOk(s, c, p);
    forall q: nat | q < |s.procs| && q != p
      ensures t.procs[q].live == s.procs[q].live && PcOk(t.procs[q]) && ChanIn(t.procs[q].pc, |s.value|)
      ensures t.procs[q] == s.procs[q]
              || (s.procs[q].live == None && s.procs[q].state == SLEEPING && t.procs[q].state == RUNNABLE
                  && LkOf(t.procs[q].pc) == None)
    {
      assert ProcOk(s, q);
      if s.procs[q].state == SLEEPING {
        OnlySaved(s, c, p, q);
      }
    }
    OthersKeep(s, t, c, p);
  }

  lemma ForkKeeps(s: State, t: State, c: nat, p: nat, k: nat)
    requires Inv(s) && (Fork(s, t, c, p, k) || Reap(s, t, c, p, k))
    ensures Inv(t)
  {
    RunsOk(s, c, p);
    OnlySaved(s, c, p, k);
    forall q: nat | q < |s.procs| && q != p
      ensures PcOk(t.procs[q]) && ChanIn(t.procs[q].pc, |s.value|)
    {
      assert ProcOk(s, q);
    }
    OthersKeep(s, t, c, p);
  }

  lemma SwtchBackKeeps(s: State, t: State, c: nat, p: nat)
    requires Inv(s) && SwtchBack(s, t, c, p)
    ensures Inv(t)
  {
    RunsOk(s, c, p);
    forall q: nat | q < |t.procs|
      ensures ProcOk(t, q)
    {
      assert ProcOk(s, q);
    }
    forall d: nat | d < |t.cpus|
      ensures CpuOk(t, d) && (t.lock == Some(d) <==> CtxHolds(t, d))
    {
      assert CpuOk(s, d);
      assert s.lock == Some(d) <==> CtxHolds(s, d);
    }
    forall l: nat | l < |t.lks|
      ensures LkHeld(t, l)
    {
      assert LkHeld(s, l);
    }
  }

  lemma SchedNextKeeps(s: State, t: State, c: nat)
    requires Inv(s) && SchedNext(s, t, c)
    ensures Inv(t)
  {
    if SchedAcquire(s, t, c) {
      SchedAcquireKeeps(s, t, c);
    } else if MarkRunning(s, t, c) {
      MarkRunningKeeps(s, t, c);
    } else if SwtchTo(s, t, c) {
      SwtchToKeeps(s, t, c);
    } else if ClearProc(s, t, c) {
      ClearProcKeeps(s, t, c);
    } else if SchedRelease(s, t, c) {
      SchedReleaseKeeps(s, t, c);
    } else {
      var p: nat :| Choose(s, t, c, p);
      ChooseKeeps(s, t, c, p);
    }
  }

  lemma ProcNextKeeps(s: State, t: State, c: nat, p: nat)
    requires Inv(s) && ProcNext(s, t, c, p)
    ensures Inv(t)
  {
    if LockNext(s, t, c, p) {
      LockKeeps(s, t, c, p);
    } else if pc, y :| LeaveState(s, t, c, p, pc, y) {
      LeaveKeeps(s, t, c, p, pc, y);
    } else if SwtchBack(s, t, c, p) {
      SwtchBackKeeps(s, t, c, p);
    } else if Tidy(s, t, c, p) {
      CondKeeps(s, t, c, p, 0, 0);
    } else if l: nat :| Test(s, t, c, p, l) {
      CondKeeps(s, t, c, p, l, 0);
    } else if l: nat :| Consume(s, t, c, p, l) {
      CondKeeps(s, t, c, p, l, 0);
    } else if l: nat, n: nat :| Produce(s, t, c, p, l, n) {
      CondKeeps(s, t, c, p, l, n);
    } else if Wakeup1(s, t, c, p) {
      Wakeup1Keeps(s, t, c, p);
    } else if KillAct(s, t, c, p) {
      KillKeeps(s, t, c, p);
    } else if k: nat :| Fork(s, t, c, p, k) {
      ForkKeeps(s, t, c, p, k);
    } else {
      var k: nat :| Reap(s, t, c, p, k);
      ForkKeeps(s, t, c, p, k);
    }
  }

  // ----- no wakeup is lost -----

  /** Some thread made the condition of l true and has not done its wakeup yet. */
  ghost predicate Owed(s: State, l: nat) {
    exists q: nat :: q < |s.procs| && Owes(s.procs[q].pc, l)
  }

  /** Found the condition false and still holds its lock. */
  predicate JustTested(x: Thread) {
    x.pc.Tested? || x.pc.SleepBoth?
  }

  /** Committed to sleep, or asleep. */
  predicate Dozing(x: Thread) {
    x.pc.SleepPt? || x.pc.SleepSched? || (x.pc.SleepBack? && x.state == SLEEPING)
  }

  ghost predicate WaitOk(s: State, p: nat)
    requires p < |s.procs|
  {
    var x := s.procs[p];
    && (JustTested(x) && x.pc.l < |s.value| ==> s.value[x.pc.l] == 0)
    && (Dozing(x) && x.pc.l < |s.value| && s.value[x.pc.l] > 0 ==> Owed(s, x.pc.l))
  }

  ghost predicate NoneLost(s: State) {
    forall p: nat :: p < |s.procs| ==> WaitOk(s, p)
  }

  /** Threads that owe a wakeup still do, the condition is unchanged, and new sleepers are as before. */
  ghost predicate Quiet(s: State, t: State) {
    && |t.procs| == |s.procs| && t.value == s.value
    && (forall q: nat, l: nat :: q < |s.procs| && Owes(s.procs[q].pc, l) ==> Owes(t.procs[q].pc, l))
    && (forall q: nat :: q < |t.procs| && JustTested(t.procs[q]) ==>
          (JustTested(s.procs[q]) && s.procs[q].pc.l == t.procs[q].pc.l)
          || (t.procs[q].pc.l < |s.value| && s.value[t.procs[q].pc.l] == 0))
    && (forall q: nat :: q < |t.procs| && Dozing(t.procs[q]) ==>
          (Dozing(s.procs[q]) || JustTested(s.procs[q])) && s.procs[q].pc.l == t.procs[q].pc.l)
  }

  lemma QuietKeeps(s: State, t: State)
    requires NoneLost(s) && Quiet(s, t)
    ensures NoneLost(t)
  {
    forall q: nat | q < |t.procs|
      ensures WaitOk(t, q)
    {
      assert WaitOk(s, q);
      var x := t.procs[q];
      if Dozing(x) && x.pc.l < |t.value| && t.value[x.pc.l] > 0 {
        assert Owed(s, x.pc.l);
        var r: nat :| r < |s.procs| && Owes(s.procs[r].pc, x.pc.l);
        assert Owes(t.procs[r].pc, x.pc.l);
      }
    }
  }

  lemma SchedQuiet(s: State, t: State, c: nat)
    requires Inv(s) && SchedNext(s, t, c)
    ensures Quiet(s, t)
  {
    assert CpuOk(s, c);
    if s.cpus[c].spc.Chosen? || s.cpus[c].spc.Switch? {
      assert ProcOk(s, s.cpus[c].spc.p);
    }
  }

  lemma PtQuiet(s: State, t: State, c: nat, p: nat, pc: Pc)
    requires AcquirePt(s, t, c, p, pc) || ReleasePt(s, t, c, p, pc)
    ensures Quiet(s, t)
  {
  }

  lemma LkQuiet(s: State, t: State, c: nat, p: nat, l: nat, pc: Pc)
    requires AcquireLk(s, t, c, p, l) || ReleaseLk(s, t, c, p, l, pc)
    ensures Quiet(s, t)
  {
  }

  lemma LockQuiet(s: State, t: State, c: nat, p: nat)
    requires LockNext(s, t, c, p)
    ensures Quiet(s, t)
  {
    if pc :| AcquirePt(s, t, c, p, pc) {
      PtQuiet(s, t, c, p, pc);
    } else if pc :| ReleasePt(s, t, c, p, pc) {
      PtQuiet(s, t, c, p, pc);
    } else if l: nat :| AcquireLk(s, t, c, p, l) {
      LkQuiet(s, t, c, p, l, Run);
    } else {
      var l: nat, pc :| ReleaseLk(s, t, c, p, l, pc);
      LkQuiet(s, t, c, p, l, pc);
    }
  }

  lemma LeaveQuiet(s: State, t: State, c: nat, p: nat, pc: Pc, y: Thread)
    requires Inv(s) && LeaveState(s, t, c, p, pc, y)
    ensures Quiet(s, t)
  {
    RunsOk(s, c, p);
  }

  lemma OtherQuiet(s: State, t: State, c: nat, p: nat, l: nat, k: nat)
    requires Inv(s)
    requires SwtchBack(s, t, c, p) || Tidy(s, t, c, p) || Test(s, t, c, p, l) || Fork(s, t, c, p, k)
             || Reap(s, t, c, p, k)
    ensures Quiet(s, t)
  {
    RunsOk(s, c, p);
    if k < |s.procs| {
      assert ProcOk(s, k);
    }
  }

  lemma KillQuiet(s: State, t: State, c: nat, p: nat)
    requires Inv(s) && KillAct(s, t, c, p)
    ensures Quiet(s, t)
  {
    RunsOk(s, c, p);
  }

  /** Holding the lock of l, p is the only thread between test and sleep on it. */
  lemma AloneInside(s: State, c: nat, p: nat, l: nat, q: nat)
    requires Inv(s) && Runs(s, c, p) && LkOf(s.procs[p].pc) == Some(l) && q < |s.procs| && q != p
    ensures LkOf(s.procs[q].pc) != Some(l)
  {
    RunsOk(s, c, p);
    assert ProcOk(s, q);
  }

  lemma ValueWaits(s: State, t: State, c: nat, p: nat, l: nat, n: nat)
    requires Inv(s) && NoneLost(s) && (Consume(s, t, c, p, l) || Produce(s, t, c, p, l, n))
    ensures NoneLost(t)
  {
    forall q: nat | q < |t.procs|
      ensures WaitOk(t, q)
    {
      assert WaitOk(s, q);
      if q != p {
        AloneInside(s, c, p, l, q);
      }
      var x := t.procs[q];
      if Dozing(x) && x.pc.l < |t.value| && t.value[x.pc.l] > 0 {
        if Produce(s, t, c, p, l, n) && x.pc.l == l {
          assert Owes(t.procs[p].pc, l);
        } else {
          assert Owed(s, x.pc.l);
          var r: nat :| r < |s.procs| && Owes(s.procs[r].pc, x.pc.l);
          assert Owes(t.procs[r].pc, x.pc.l);
        }
      }
    }
  }

  /** wakeup1 reaches every process that dozes on l: none is still on its way to sleep. */
  lemma WakeReaches(s: State, t: State, c: nat, p: nat, q: nat)
    requires Inv(s) && Wakeup1(s, t, c, p) && q < |s.procs| && Dozing(t.procs[q])
    ensures Dozing(s.procs[q]) && t.procs[q] == s.procs[q] && s.procs[q].pc.l != s.procs[p].pc.l
  {
    RunsOk(s, c, p);
    assert ProcOk(s, q);
    if s.procs[q].live.Some? {
      RunsOk(s, s.procs[q].live.value, q);
    }
  }

  lemma WakeupWaits(s: State, t: State, c: nat, p: nat)
    requires Inv(s) && NoneLost(s) && Wakeup1(s, t, c, p)
    ensures NoneLost(t)
  {
    forall q: nat | q < |t.procs|
      ensures WaitOk(t, q)
    {
      assert WaitOk(s, q);
      var x := t.procs[q];
      if Dozing(x) && x.pc.l < |t.value| && t.value[x.pc.l] > 0 {
        WakeReaches(s, t, c, p, q);
        assert Owed(s, x.pc.l);
        var r: nat :| r < |s.procs| && Owes(s.procs[r].pc, x.pc.l);
        assert Owes(t.procs[r].pc, x.pc.l);
      }
    }
  }

  lemma ProcNextWaits(s: State, t: State, c: nat, p: nat)
    requires Inv(s) && NoneLost(s) && ProcNext(s, t, c, p)
    ensures NoneLost(t)
  {
    if l: nat :| Consume(s, t, c, p, l) {
      ValueWaits(s, t, c, p, l, 0);
    } else if l: nat, n: nat :| Produce(s, t, c, p, l, n) {
      ValueWaits(s, t, c, p, l, n);
    } else if Wakeup1(s, t, c, p) {
      WakeupWaits(s, t, c, p);
    } else {
      ProcNextQuiet(s, t, c, p);
      QuietKeeps(s, t);
    }
  }

  /** Every other step of a process is quiet. */
  lemma ProcNextQuiet(s: State, t: State, c: nat, p: nat)
    requires Inv(s) && ProcNext(s, t, c, p) && !Wakeup1(s, t, c, p)
    requires forall l: nat :: !Consume(s, t, c, p, l)
    requires forall l: nat, n: nat :: !Produce(s, t, c, p, l, n)
    ensures Quiet(s, t)
  {
    if LockNext(s, t, c, p) {
      LockQuiet(s, t, c, p);
    } else if pc, y :| LeaveState(s, t, c, p, pc, y) {
      LeaveQuiet(s, t, c, p, pc, y);
    } else if SwtchBack(s, t, c, p) || Tidy(s, t, c, p) {
      OtherQuiet(s, t, c, p, 0, 0);
    } else if l: nat :| Test(s, t, c, p, l) {
      OtherQuiet(s, t, c, p, l, 0);
    } else if KillAct(s, t, c, p) {
      KillQuiet(s, t, c, p);
    } else if k: nat :| Fork(s, t, c, p, k) {
      OtherQuiet(s, t, c, p, 0, k);
    } else {
      var k: nat :| Reap(s, t, c, p, k);
      OtherQuiet(s, t, c, p, 0, k);
    }
  }

  // ----- whole runs -----

  /** A run: a start state and any number of steps of any CPUs. */
  ghost predicate IsRun(r: seq<State>) {
    r != [] && Start(r[0]) && forall i: nat :: i + 1 < |r| ==> Next(r[i], r[i + 1])
  }

  lemma NextKeeps(s: State, t: State)
    requires Inv(s) && NoneLost(s) && Next(s, t)
    ensures Inv(t) && NoneLost(t)
  {
    if c: nat :| SchedNext(s, t, c) {
      SchedNextKeeps(s, t, c);
      SchedQuiet(s, t, c);
      QuietKeeps(s, t);
    } else {
      var c: nat, p: nat :| ProcNext(s, t, c, p);
      ProcNextKeeps(s, t, c, p);
      ProcNextWaits(s, t, c, p);
    }
  }

  lemma {:induction false} RunInv(r: seq<State>, i: nat)
    requires IsRun(r) && i < |r|
    ensures Inv(r[i]) && NoneLost(r[i])
  {
    if i == 0 {
      StartOk(r[0]);
    } else {
      RunInv(r, i - 1);
      assert Next(r[i - 1], r[i - 1 + 1]);
      NextKeeps(r[i - 1], r[i]);
    }
  }

  /** In every state of every run, no process executes on two CPUs, and no CPU thinks it runs another's process. */
  lemma OneCpuEach(r: seq<State>, i: nat, c: nat, d: nat)
    requires IsRun(r) && i < |r| && c < |r[i].cpus| && d < |r[i].cpus| && c != d
    ensures r[i].cpus[c].run.Some? ==> r[i].cpus[c].run != r[i].cpus[d].run
    ensures r[i].cpus[c].run.Some? ==> r[i].cpus[c].proc == r[i].cpus[c].run
  {
    RunInv(r, i);
    assert CpuOk(r[i], c) && CpuOk(r[i], d);
  }

  /**
   While ptable.lock is free, a RUNNING process executes on exactly the CPU its
   thread is live on, and a process in any other state executes nowhere: its context
   is saved, so it may be resumed, or its kernel stack freed, by anybody.
   */
  lemma LockFree(r: seq<State>, i: nat, p: nat)
    requires IsRun(r) && i < |r| && r[i].lock == None && p < |r[i].procs|
    ensures r[i].procs[p].state == RUNNING <==> exists c: nat :: Runs(r[i], c, p)
  {
    RunInv(r, i);
    var s := r[i];
    assert ProcOk(s, p);
    if s.procs[p].state == RUNNING {
      assert Runs(s, s.procs[p].live.value, p);
    }
    if c: nat :| Runs(s, c, p) {
      RunsOk(s, c, p);
    }
  }

  /** Between changing its state and being switched away from, a process keeps its CPU and the CPU keeps ptable.lock. */
  lemma LeavingHolds(r: seq<State>, i: nat, c: nat, p: nat)
    requires IsRun(r) && i < |r| && Runs(r[i], c, p) && r[i].procs[p].state != RUNNING
    ensures r[i].lock == Some(c)
  {
    RunInv(r, i);
    RunsOk(r[i], c, p);
  }

  /**
   Hand-off: at every swtch, in either direction, the CPU holds ptable.lock before
   and after, and the context it lands in is one that releases it.
   */
  lemma HandOff(r: seq<State>, i: nat, c: nat, p: nat)
    requires IsRun(r) && i + 1 < |r| && (SwtchTo(r[i], r[i + 1], c) || SwtchBack(r[i], r[i + 1], c, p))
    ensures r[i].lock == Some(c) && r[i + 1].lock == Some(c)
    ensures CtxHolds(r[i], c) && CtxHolds(r[i + 1], c)
  {
    RunInv(r, i);
    RunInv(r, i + 1);
    var s, t := r[i], r[i + 1];
    assert s.lock == Some(c) <==> CtxHolds(s, c);
    assert t.lock == Some(c) <==> CtxHolds(t, c);
    if SwtchBack(s, t, c, p) {
      RunsOk(s, c, p);
    }
  }

  /** The panics of sched never happen. */
  lemma SchedNeverPanics(r: seq<State>, i: nat, c: nat, p: nat)
    requires IsRun(r) && i < |r| && Runs(r[i], c, p) && SchedPoint(r[i].procs[p].pc)
    ensures !SchedPanics(r[i], c, p)
  {
    RunInv(r, i);
    var s := r[i];
    RunsOk(s, c, p);
    forall l: nat | l < |s.lks|
      ensures s.lks[l] != Some(c)
    {
      assert LkHeld(s, l);
    }
  }

  /**
   No lost wakeup: whenever a process is asleep on l, or has given up the lock of l
   on its way to sleep, while the condition of l is true, some thread that made it
   true has its wakeup still to do.
   */
  lemma NoLostWakeup(r: seq<State>, i: nat, p: nat)
    requires IsRun(r) && i < |r| && p < |r[i].procs| && Dozing(r[i].procs[p])
    ensures r[i].procs[p].pc.l < |r[i].value|
    ensures r[i].value[r[i].procs[p].pc.l] == 0 || Owed(r[i], r[i].procs[p].pc.l)
  {
    RunInv(r, i);
    assert WaitOk(r[i], p) && ProcOk(r[i], p);
  }

  /**
   And that wakeup misses nobody: right after it, every process dozing on l is one
   nobody owes, so l is false or it is woken.
   */
  lemma WakeupMissesNobody(r: seq<State>, i: nat, c: nat, p: nat, q: nat)
    requires IsRun(r) && i + 1 < |r| && Wakeup1(r[i], r[i + 1], c, p) && q < |r[i + 1].procs|
    ensures !(Dozing(r[i + 1].procs[q]) && r[i + 1].procs[q].pc.l == r[i].procs[p].pc.l)
  {
    RunInv(r, i);
    if Dozing(r[i + 1].procs[q]) {
      WakeReaches(r[i], r[i + 1], c, p, q);
    }
  }

  /** kill in every run: its target is not asleep after it, and of other processes only the killer moves on. */
  lemma KillReaches(r: seq<State>, i: nat, c: nat, p: nat, q: nat)
    requires IsRun(r) && i + 1 < |r| && KillAct(r[i], r[i + 1], c, p) && q < |r[i].procs|
    ensures q < |r[i + 1].procs|
    ensures q == r[i].procs[p].pc.t ==> r[i + 1].procs[q].state != SLEEPING
    ensures q == r[i].procs[p].pc.t && r[i].procs[q].state == SLEEPING ==> r[i + 1].procs[q].state == RUNNABLE
    ensures q != r[i].procs[p].pc.t && q != p ==> r[i + 1].procs[q] == r[i].procs[q]
  {
  }
}
