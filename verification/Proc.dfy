/**
 Processes and their scheduling (kernel/proc.c): fork, exit, wait, sleep,
 wakeup, kill, yield, sched and scheduler, on any number of CPUs. One step is
 one critical section: what a thread does from acquiring a lock to releasing
 it. p->lock is explicit because it stays held across swtch, from the thread
 that gives up the CPU to the scheduler that releases it and back; wait_lock is
 explicit because exit and wait hold it over whole table scans.
 */
module Proc {
  import opened Options

  const NPROC := 64
  const NCPU := 8


  datatype PState = UNUSED | USED | SLEEPING | RUNNABLE | RUNNING | ZOMBIE

  /** A sleep channel: the address of a proc entry (used by wait), or another. */
  datatype Chan = OfProc(p: nat) | Other(n: nat)

  /** Where a process's kernel thread is. */
  datatype Pc =
    | Run                               // outside these routines, no lock held
    | New                               // made by fork, forkret still to run
    | Yielding(back: Pc)                // in sched called by yield, perhaps from a timer interrupt
    | Sleeping                          // in sched called by sleep, on another channel
    | WaitScan(i: nat, havekids: bool)  // wait: next entry to look at; holds wait_lock
    | WaitToSleep                       // wait: children, none exited; holds wait_lock
    | WaitAsleep                        // wait: in sched called by sleep
    | WaitAgain                         // wait: awake, wait_lock to be reacquired
    | ExitScan(i: nat)                  // exit: reparent at entry i; holds wait_lock
    | ExitWakeInit(i: nat, j: nat)      // exit: reparent's wakeup(initproc), at entry j
    | ExitWakeParent(j: nat)            // exit: wakeup(p->parent), at entry j
    | Dead                              // exit: in sched, never to return
    | ForkSet(np: nat)                  // fork: np allocated, parent to be set
    | ForkGo(np: nat)                   // fork: parent set, np to be made RUNNABLE

  /** lock is the CPU that holds p->lock across swtch, if any. */
  datatype Proc = Proc(state: PState, chan: Option<Chan>, killed: bool, pid: nat,
                       parent: Option<nat>, pc: Pc, lock: Option<nat>)

  /** scan is the entry at which this CPU's scheduler loop stands. */
  datatype Cpu = Cpu(proc: Option<nat>, scan: nat)

  /** exited and reaped are history variables: the pids that have become
      ZOMBIE, and those that a wait has freed. */
  datatype State = State(procs: seq<Proc>, cpus: seq<Cpu>, waitLock: Option<nat>, init: nat,
                         nextpid: nat, exited: set<nat>, reaped: set<nat>)

  datatype Step =
    | Dispatch(c: nat)                 // scheduler: RUNNABLE -> RUNNING, swtch to it
    | Skip(c: nat)                     // scheduler: not RUNNABLE, next entry
    | SwitchOut(c: nat)                // sched's swtch, c->proc = 0, release(&p->lock)
    | Resume(c: nat)                   // the thread's first act after swtch: release p->lock
    | Yield(c: nat)
    | Sleep(c: nat, n: nat)
    | Wakeup(n: nat, q: nat)           // one iteration of a wakeup on another channel
    | Kill(c: nat, q: nat)
    | WaitEnter(c: nat)
    | WaitLook(c: nat, copyFails: bool)
    | WaitEnd(c: nat)
    | WaitSleep(c: nat)
    | ExitEnter(c: nat)
    | ExitStep(c: nat)
    | ExitDie(c: nat)
    | ForkAlloc(c: nat, q: nat)
    | ForkParent(c: nat)
    | ForkReady(c: nat)
    | ForkFail(c: nat, q: nat)         // fork: uvmcopy failed, np freed under np->lock

  ghost predicate Shape(s: State) {
    |s.procs| == NPROC && |s.cpus| == NCPU && s.init < NPROC
    && (forall c :: 0 <= c < NCPU ==> s.cpus[c].scan < NPROC)
    && (forall c :: 0 <= c < NCPU ==> s.cpus[c].proc.Some? ==> s.cpus[c].proc.value < NPROC)
  }

  /** CPU c runs process p's thread, and no switch is in progress. */
  ghost predicate Runs(s: State, c: nat, p: nat)
    requires Shape(s)
  {
    && c < NCPU && s.cpus[c].proc == Some(p) && p < NPROC
    && s.procs[p].state.RUNNING? && s.procs[p].lock.None?
  }

  /** The process on CPU c, meaningful when there is one. */
  function On(s: State, c: nat): (p: nat)
    requires c < |s.cpus|
  {
    if s.cpus[c].proc.Some? then s.cpus[c].proc.value else 0
  }

  /** Asleep in wait: sleeping on its own proc entry. */
  predicate Asleep(s: State, p: nat)
    requires p < |s.procs|
  {
    s.procs[p].state.SLEEPING? && s.procs[p].chan == Some(OfProc(p))
  }

  function Woken(x: Proc, ch: Chan): (r: Proc) {
    if x.state.SLEEPING? && x.chan == Some(ch) then x.(state := RUNNABLE) else x
  }

  function Freed(x: Proc): (r: Proc) {
    Proc(UNUSED, None, false, 0, None, New, None)
  }

  /** Where the thread continues once it is running again. */
  function AfterSwitch(pc: Pc): (r: Pc) {
    match pc
    case Yielding(back) => back
    case WaitAsleep => WaitAgain
    case _ => Run
  }

  /** No spinlock is held here, so interrupts may be on and the timer may make the
      thread yield. */
  predicate Preemptible(pc: Pc) { pc.Run? || pc.WaitAgain? || pc.ForkSet? || pc.ForkGo? }

  /** Where the thread is, looking through a yield. */
  function Base(pc: Pc): (r: Pc) { if pc.Yielding? then pc.back else pc }

  function Set(s: State, p: nat, x: Proc): (t: State)
    requires p < |s.procs|
  {
    s.(procs := s.procs[p := x])
  }

  // ----- steps of the scheduler -----

  ghost predicate DispatchStep(s: State, t: State, c: nat)
    requires Shape(s)
  {
    && c < NCPU && s.cpus[c].proc.None?
    && var p := s.cpus[c].scan;
       var x := s.procs[p];
       && x.lock.None? && x.state.RUNNABLE?
       && t == Set(s, p, x.(state := RUNNING, lock := Some(c))).(cpus := s.cpus[c := Cpu(Some(p), p)])
  }

  ghost predicate SkipStep(s: State, t: State, c: nat)
    requires Shape(s)
  {
    && c < NCPU && s.cpus[c].proc.None?
    && var p := s.cpus[c].scan;
       && s.procs[p].lock.None? && !s.procs[p].state.RUNNABLE?
       && t == s.(cpus := s.cpus[c := Cpu(None, (p + 1) % NPROC)])
  }

  ghost predicate SwitchOutStep(s: State, t: State, c: nat)
    requires Shape(s)
  {
    && c < NCPU && s.cpus[c].proc.Some?
    && var p := s.cpus[c].proc.value;
       var x := s.procs[p];
       && x.lock == Some(c) && !x.state.RUNNING?
       && t == Set(s, p, x.(lock := None)).(cpus := s.cpus[c := Cpu(None, (s.cpus[c].scan + 1) % NPROC)])
  }

  ghost predicate ResumeStep(s: State, t: State, c: nat)
    requires Shape(s)
  {
    && c < NCPU && s.cpus[c].proc.Some?
    && var p := s.cpus[c].proc.value;
       var x := s.procs[p];
       && x.lock == Some(c) && x.state.RUNNING?
       && t == Set(s, p, x.(lock := None, chan := None, pc := AfterSwitch(x.pc)))
  }

  // ----- steps of a running process p on CPU c -----

  ghost predicate YieldStep(s: State, t: State, c: nat, p: nat)
    requires Shape(s) && Runs(s, c, p)
  {
    var x := s.procs[p];
    Preemptible(x.pc) && t == Set(s, p, x.(state := RUNNABLE, lock := Some(c), pc := Yielding(x.pc)))
  }

  ghost predicate SleepStep(s: State, t: State, c: nat, p: nat, n: nat)
    requires Shape(s) && Runs(s, c, p)
  {
    var x := s.procs[p];
    x.pc.Run? && t == Set(s, p, x.(state := SLEEPING, chan := Some(Other(n)), lock := Some(c), pc := Sleeping))
  }

  /** By a process or by an interrupt handler. */
  ghost predicate WakeupStep(s: State, t: State, n: nat, q: nat)
    requires Shape(s)
  {
    q < NPROC && s.procs[q].lock.None? && t == Set(s, q, Woken(s.procs[q], Other(n)))
  }

  ghost predicate KillStep(s: State, t: State, q: nat)
    requires Shape(s)
  {
    && q < NPROC && s.procs[q].lock.None?
    && var x := s.procs[q];
       t == Set(s, q, x.(killed := true, state := if x.state.SLEEPING? then RUNNABLE else x.state))
  }

  ghost predicate WaitEnterStep(s: State, t: State, p: nat)
    requires Shape(s) && p < NPROC
  {
    && (s.procs[p].pc.Run? || s.procs[p].pc.WaitAgain?) && s.waitLock.None?
    && t == Set(s, p, s.procs[p].(pc := WaitScan(0, false))).(waitLock := Some(p))
  }

  /** One iteration of wait's scan. */
  ghost predicate WaitLookStep(s: State, t: State, p: nat, copyFails: bool)
    requires Shape(s) && p < NPROC
  {
    && s.procs[p].pc.WaitScan? && s.procs[p].pc.i < NPROC
    && var i := s.procs[p].pc.i;
       if s.procs[i].parent != Some(p) then
         t == Set(s, p, s.procs[p].(pc := WaitScan(i + 1, s.procs[p].pc.havekids)))
       else
         && s.procs[i].lock.None?
         && if !s.procs[i].state.ZOMBIE? then
              t == Set(s, p, s.procs[p].(pc := WaitScan(i + 1, true)))
            else if copyFails then
              t == Set(s, p, s.procs[p].(pc := Run)).(waitLock := None)
            else
              // freeproc
              t == Set(Set(s, i, Freed(s.procs[i])), p, s.procs[p].(pc := Run))
                   .(waitLock := None, reaped := s.reaped + {s.procs[i].pid})
  }

  /** After the scan: nothing to wait for, or killed, or about to sleep. */
  ghost predicate WaitEndStep(s: State, t: State, p: nat)
    requires Shape(s) && p < NPROC
  {
    && s.procs[p].pc.WaitScan? && s.procs[p].pc.i == NPROC
    && if !s.procs[p].pc.havekids || s.procs[p].killed then
         t == Set(s, p, s.procs[p].(pc := Run)).(waitLock := None)
       else t == Set(s, p, s.procs[p].(pc := WaitToSleep))
  }

  /** sleep(p, &wait_lock): acquire p->lock, release wait_lock, SLEEPING. */
  ghost predicate WaitSleepStep(s: State, t: State, c: nat, p: nat)
    requires Shape(s) && p < NPROC
  {
    && s.procs[p].pc.WaitToSleep?
    && t == Set(s, p, s.procs[p].(state := SLEEPING, chan := Some(OfProc(p)), lock := Some(c), pc := WaitAsleep))
            .(waitLock := None)
  }

  ghost predicate ExitEnterStep(s: State, t: State, p: nat)
    requires Shape(s) && p < NPROC
  {
    && s.procs[p].pc.Run? && p != s.init && s.waitLock.None?
    && t == Set(s, p, s.procs[p].(pc := ExitScan(0))).(waitLock := Some(p))
  }

  /** One iteration of reparent's loop. */
  ghost predicate ExitScanStep(s: State, t: State, p: nat, i: nat)
    requires Shape(s) && p < NPROC
  {
    if i >= NPROC then t == Set(s, p, s.procs[p].(pc := ExitWakeParent(0)))
    else if s.procs[i].parent == Some(p) && i != p then
      t == Set(Set(s, i, s.procs[i].(parent := Some(s.init))), p, s.procs[p].(pc := ExitWakeInit(i + 1, 0)))
    else t == Set(s, p, s.procs[p].(pc := ExitScan(i + 1)))
  }

  /** One iteration of reparent's wakeup(initproc). */
  ghost predicate ExitWakeInitStep(s: State, t: State, p: nat, i: nat, j: nat)
    requires Shape(s) && p < NPROC
  {
    if j >= NPROC then t == Set(s, p, s.procs[p].(pc := ExitScan(i)))
    else if j == p then t == Set(s, p, s.procs[p].(pc := ExitWakeInit(i, j + 1)))
    else
      && s.procs[j].lock.None?
      && t == Set(Set(s, j, Woken(s.procs[j], OfProc(s.init))), p, s.procs[p].(pc := ExitWakeInit(i, j + 1)))
  }

  /** One iteration of exit's wakeup(p->parent). */
  ghost predicate ExitWakeParentStep(s: State, t: State, p: nat, j: nat)
    requires Shape(s) && p < NPROC
  {
    && j < NPROC
    && if j == p then t == Set(s, p, s.procs[p].(pc := ExitWakeParent(j + 1)))
       else
         && s.procs[j].lock.None? && s.procs[p].parent.Some?
         && t == Set(Set(s, j, Woken(s.procs[j], OfProc(s.procs[p].parent.value))), p,
                     s.procs[p].(pc := ExitWakeParent(j + 1)))
  }

  ghost predicate ExitStepStep(s: State, t: State, p: nat)
    requires Shape(s) && p < NPROC
  {
    match s.procs[p].pc
    case ExitScan(i) => ExitScanStep(s, t, p, i)
    case ExitWakeInit(i, j) => ExitWakeInitStep(s, t, p, i, j)
    case ExitWakeParent(j) => ExitWakeParentStep(s, t, p, j)
    case _ => false
  }

  /** acquire p->lock, ZOMBIE, release wait_lock. */
  ghost predicate ExitDieStep(s: State, t: State, c: nat, p: nat)
    requires Shape(s) && p < NPROC
  {
    && s.procs[p].pc == ExitWakeParent(NPROC)
    && t == Set(s, p, s.procs[p].(state := ZOMBIE, lock := Some(c), pc := Dead))
            .(waitLock := None, exited := s.exited + {s.procs[p].pid})
  }

  ghost predicate ForkAllocStep(s: State, t: State, p: nat, q: nat)
    requires Shape(s) && p < NPROC
  {
    && q < NPROC && q != p && s.procs[p].pc.Run? && s.procs[q].state.UNUSED? && s.procs[q].lock.None?
    && t == Set(Set(s, q, s.procs[q].(state := USED, pid := s.nextpid)), p, s.procs[p].(pc := ForkSet(q)))
            .(nextpid := s.nextpid + 1)
  }

  ghost predicate ForkParentStep(s: State, t: State, p: nat)
    requires Shape(s) && p < NPROC
  {
    && s.procs[p].pc.ForkSet? && s.procs[p].pc.np < NPROC && s.procs[p].pc.np != p && s.waitLock.None?
    && var q := s.procs[p].pc.np;
       t == Set(Set(s, q, s.procs[q].(parent := Some(p))), p, s.procs[p].(pc := ForkGo(q)))
  }

  ghost predicate ForkReadyStep(s: State, t: State, p: nat)
    requires Shape(s) && p < NPROC
  {
    && s.procs[p].pc.ForkGo? && s.procs[p].pc.np < NPROC && s.procs[p].pc.np != p
    && var q := s.procs[p].pc.np;
       && s.procs[q].lock.None?
       && t == Set(Set(s, q, s.procs[q].(state := RUNNABLE)), p, s.procs[p].(pc := Run))
  }

  /** allocproc and freeproc within one hold of np->lock. */
  ghost predicate ForkFailStep(s: State, t: State, p: nat, q: nat)
    requires Shape(s) && p < NPROC
  {
    && q < NPROC && q != p && s.procs[p].pc.Run? && s.procs[q].state.UNUSED? && s.procs[q].lock.None?
    && t == Set(s, q, Freed(s.procs[q])).(nextpid := s.nextpid + 1)
  }

  ghost predicate Next(s: State, t: State, step: Step)
    requires Shape(s)
  {
    match step
    case Dispatch(c) => DispatchStep(s, t, c)
    case Skip(c) => SkipStep(s, t, c)
    case SwitchOut(c) => SwitchOutStep(s, t, c)
    case Resume(c) => ResumeStep(s, t, c)
    case Yield(c) => c < NCPU && Runs(s, c, On(s, c)) && YieldStep(s, t, c, On(s, c))
    case Sleep(c, n) => c < NCPU && Runs(s, c, On(s, c)) && SleepStep(s, t, c, On(s, c), n)
    case Wakeup(n, q) => WakeupStep(s, t, n, q)
    case Kill(c, q) => c < NCPU && Runs(s, c, On(s, c)) && KillStep(s, t, q)
    case WaitEnter(c) => c < NCPU && Runs(s, c, On(s, c)) && WaitEnterStep(s, t, On(s, c))
    case WaitLook(c, fails) => c < NCPU && Runs(s, c, On(s, c)) && WaitLookStep(s, t, On(s, c), fails)
    case WaitEnd(c) => c < NCPU && Runs(s, c, On(s, c)) && WaitEndStep(s, t, On(s, c))
    case WaitSleep(c) => c < NCPU && Runs(s, c, On(s, c)) && WaitSleepStep(s, t, c, On(s, c))
    case ExitEnter(c) => c < NCPU && Runs(s, c, On(s, c)) && ExitEnterStep(s, t, On(s, c))
    case ExitStep(c) => c < NCPU && Runs(s, c, On(s, c)) && ExitStepStep(s, t, On(s, c))
    case ExitDie(c) => c < NCPU && Runs(s, c, On(s, c)) && ExitDieStep(s, t, c, On(s, c))
    case ForkAlloc(c, q) => c < NCPU && Runs(s, c, On(s, c)) && ForkAllocStep(s, t, On(s, c), q)
    case ForkParent(c) => c < NCPU && Runs(s, c, On(s, c)) && ForkParentStep(s, t, On(s, c))
    case ForkReady(c) => c < NCPU && Runs(s, c, On(s, c)) && ForkReadyStep(s, t, On(s, c))
    case ForkFail(c, q) => c < NCPU && Runs(s, c, On(s, c)) && ForkFailStep(s, t, On(s, c), q)
  }

  /** After boot: initproc alone, RUNNABLE; nothing else in the table. */
  ghost predicate Init(s: State) {
    && Shape(s) && s.waitLock.None? && s.exited == {} && s.reaped == {} && s.nextpid == 2
    && (forall c :: 0 <= c < NCPU ==> s.cpus[c].proc.None?)
    && s.procs[s.init] == Proc(RUNNABLE, None, false, 1, None, New, None)
    && (forall p :: 0 <= p < NPROC && p != s.init ==> s.procs[p] == Proc(UNUSED, None, false, 0, None, New, None))
  }

  ghost predicate StepAt(run: seq<State>, steps: seq<Step>, k: nat)
    requires |run| == |steps| + 1 && k < |steps| && Shape(run[k])
  {
    Next(run[k], run[k + 1], steps[k])
  }

  ghost predicate IsRun(run: seq<State>, steps: seq<Step>) {
    && |run| == |steps| + 1 && Init(run[0])
    && (forall k :: 0 <= k < |run| ==> Shape(run[k]))
    && (forall k :: 0 <= k < |steps| ==> StepAt(run, steps, k))
  }

  // ----- scheduling invariant -----

  predicate HoldsWait(pc: Pc) {
    pc.WaitScan? || pc.WaitToSleep? || pc.ExitScan? || pc.ExitWakeInit? || pc.ExitWakeParent?
  }

  /** The thread is inside sched, or has never run. */
  predicate Switched(pc: Pc) {
    pc.New? || (pc.Yielding? && Preemptible(pc.back)) || pc.Sleeping? || pc.WaitAsleep?
  }

  /** state, chan, pc and the locks of one process agree. */
  ghost predicate ProcAt(s: State, p: nat)
    requires Shape(s) && p < NPROC
  {
    var x := s.procs[p];
    && (match x.state
        case UNUSED => x.lock.None? && x.parent.None? && x.chan.None? && x.pc.New?
        case USED => x.lock.None? && x.chan.None? && x.pc.New?
        case SLEEPING =>
          (x.pc.Sleeping? && x.chan.Some? && x.chan.value.Other?)
          || (x.pc.WaitAsleep? && x.chan == Some(OfProc(p)))
        case RUNNABLE => Switched(x.pc)
        case RUNNING => if x.lock.None? then !Switched(x.pc) && !x.pc.Dead? else Switched(x.pc)
        case ZOMBIE => x.pc.Dead?)
    && (HoldsWait(x.pc) <==> s.waitLock == Some(p))
  }

  /** p->lock is held across swtch only by the CPU whose current process is p. */
  ghost predicate LockAt(s: State, p: nat)
    requires Shape(s) && p < NPROC
  {
    s.procs[p].lock.Some? ==> s.procs[p].lock.value < NCPU && s.cpus[s.procs[p].lock.value].proc == Some(p)
  }

  ghost predicate CpuAt(s: State, c: nat)
    requires Shape(s) && c < NCPU
  {
    s.cpus[c].proc.Some? ==>
      var x := s.procs[s.cpus[c].proc.value];
      s.cpus[c].proc.value == s.cpus[c].scan && (x.lock == Some(c) || (x.lock.None? && x.state.RUNNING?))
  }

  ghost predicate OneCpuAt(s: State, c: nat, d: nat)
    requires Shape(s) && c < NCPU && d < NCPU
  {
    c != d && s.cpus[c].proc.Some? ==> s.cpus[c].proc != s.cpus[d].proc
  }

  ghost predicate RunningAt(s: State, p: nat)
    requires Shape(s) && p < NPROC
  {
    s.procs[p].state.RUNNING? ==> exists c :: 0 <= c < NCPU && s.cpus[c].proc == Some(p)
  }

  ghost predicate SchedInv(s: State) {
    && Shape(s) && (s.waitLock.Some? ==> s.waitLock.value < NPROC)
    && (forall p {:trigger ProcAt(s, p)} :: 0 <= p < NPROC ==> ProcAt(s, p))
    && (forall p {:trigger LockAt(s, p)} :: 0 <= p < NPROC ==> LockAt(s, p))
    && (forall p {:trigger RunningAt(s, p)} :: 0 <= p < NPROC ==> RunningAt(s, p))
    && (forall c {:trigger CpuAt(s, c)} :: 0 <= c < NCPU ==> CpuAt(s, c))
    && (forall c, d {:trigger OneCpuAt(s, c, d)} :: 0 <= c < NCPU && 0 <= d < NCPU ==> OneCpuAt(s, c, d))
  }

  lemma PickKeepsSchedInv(s: State, t: State, step: Step)
    requires SchedInv(s) && Next(s, t, step) && (step.Dispatch? || step.Skip?)
    ensures SchedInv(t)
  {
    var c := step.c;
    var p := s.cpus[c].scan;
    forall q | 0 <= q < NPROC
      ensures ProcAt(t, q) && LockAt(t, q)
    {
      assert ProcAt(s, q) && LockAt(s, q);
    }
    forall q | 0 <= q < NPROC
      ensures RunningAt(t, q)
    {
      assert RunningAt(s, q);
      if t.procs[q].state.RUNNING? {
        if s.procs[q].state.RUNNING? {
          var d :| 0 <= d < NCPU && s.cpus[d].proc == Some(q);
          assert t.cpus[d].proc == Some(q);
        } else {
          assert t.cpus[c].proc == Some(q);
        }
      }
    }
    forall d | 0 <= d < NCPU
      ensures CpuAt(t, d)
    {
      assert CpuAt(s, d) && OneCpuAt(s, d, c) && CpuAt(s, c) && LockAt(s, p);
    }
    forall d, e | 0 <= d < NCPU && 0 <= e < NCPU
      ensures OneCpuAt(t, d, e)
    {
      assert OneCpuAt(s, d, e) && CpuAt(s, d) && CpuAt(s, e) && ProcAt(s, p);
    }
  }

  lemma SwitchKeepsSchedInv(s: State, t: State, step: Step)
    requires SchedInv(s) && Next(s, t, step) && (step.SwitchOut? || step.Resume?)
    ensures SchedInv(t)
  {
    var c := step.c;
    var p := s.cpus[c].proc.value;
    forall q | 0 <= q < NPROC
      ensures ProcAt(t, q) && LockAt(t, q)
    {
      assert ProcAt(s, q) && LockAt(s, q);
    }
    forall q | 0 <= q < NPROC
      ensures RunningAt(t, q)
    {
      assert RunningAt(s, q);
      if t.procs[q].state.RUNNING? {
        if s.procs[q].state.RUNNING? {
          var d :| 0 <= d < NCPU && s.cpus[d].proc == Some(q);
          assert t.cpus[d].proc == Some(q);
        }
      }
    }
    forall d | 0 <= d < NCPU
      ensures CpuAt(t, d)
    {
      assert CpuAt(s, d) && OneCpuAt(s, d, c) && CpuAt(s, c) && LockAt(s, p);
    }
    forall d, e | 0 <= d < NCPU && 0 <= e < NCPU
      ensures OneCpuAt(t, d, e)
    {
      assert OneCpuAt(s, d, e) && CpuAt(s, d) && CpuAt(s, e) && ProcAt(s, p);
    }
  }

  /** A step that rewrites entries p and q, keeps the CPUs and every held lock,
      and starts or stops no process running. */
  ghost predicate TableStep(s: State, t: State, p: nat, q: nat)
    requires Shape(s)
  {
    && p < NPROC && q < NPROC && Shape(t) && t.cpus == s.cpus && t.init == s.init
    && (forall r :: 0 <= r < NPROC && r != p && r != q ==> t.procs[r] == s.procs[r])
    && (|| t.waitLock == s.waitLock
        || ((s.waitLock.None? || s.waitLock == Some(p)) && (t.waitLock.None? || t.waitLock == Some(p))))
  }

  lemma TableStepKeepsSchedInv(s: State, t: State, c: nat, p: nat, q: nat)
    requires SchedInv(s) && TableStep(s, t, p, q) && Runs(s, c, p)
    requires ProcAt(t, p) && ProcAt(t, q)
    requires t.procs[p].lock == Some(c) || (t.procs[p].lock.None? && t.procs[p].state.RUNNING?)
    requires q != p ==> t.procs[q].lock == s.procs[q].lock
    requires q != p ==> (t.procs[q].state.RUNNING? <==> s.procs[q].state.RUNNING?)
    ensures SchedInv(t)
  {
    forall r | 0 <= r < NPROC
      ensures ProcAt(t, r) && LockAt(t, r) && RunningAt(t, r)
    {
      assert ProcAt(s, r) && LockAt(s, r) && RunningAt(s, r);
    }
    forall d | 0 <= d < NCPU
      ensures CpuAt(t, d)
    {
      assert CpuAt(s, d) && OneCpuAt(s, d, c);
    }
    forall d, e | 0 <= d < NCPU && 0 <= e < NCPU
      ensures OneCpuAt(t, d, e)
    {
      assert OneCpuAt(s, d, e);
    }
  }

  /** wakeup, kill and a fork that fails touch one entry, under its lock. */
  lemma EntryStepKeepsSchedInv(s: State, t: State, q: nat)
    requires SchedInv(s) && TableStep(s, t, q, q) && t.waitLock == s.waitLock
    requires ProcAt(t, q) && s.procs[q].lock.None? && t.procs[q].lock.None?
    requires t.procs[q].state.RUNNING? <==> s.procs[q].state.RUNNING?
    ensures SchedInv(t)
  {
    forall r | 0 <= r < NPROC
      ensures ProcAt(t, r) && LockAt(t, r) && RunningAt(t, r)
    {
      assert ProcAt(s, r) && LockAt(s, r) && RunningAt(s, r);
    }
    forall d | 0 <= d < NCPU
      ensures CpuAt(t, d)
    {
      assert CpuAt(s, d);
    }
    forall d, e | 0 <= d < NCPU && 0 <= e < NCPU
      ensures OneCpuAt(t, d, e)
    {
      assert OneCpuAt(s, d, e);
    }
  }

  lemma SignalKeepsSchedInv(s: State, t: State, step: Step)
    requires SchedInv(s) && Next(s, t, step) && (step.Wakeup? || step.Kill? || step.ForkFail?)
    ensures SchedInv(t)
  {
    assert ProcAt(s, step.q);
    EntryStepKeepsSchedInv(s, t, step.q);
  }

  lemma StayKeepsSchedInv(s: State, t: State, step: Step)
    requires SchedInv(s) && Next(s, t, step) && (step.WaitEnter? || step.WaitEnd? || step.ExitEnter?)
    ensures SchedInv(t)
  {
    var p := On(s, step.c);
    assert ProcAt(s, p);
    TableStepKeepsSchedInv(s, t, step.c, p, p);
  }

  lemma LeaveKeepsSchedInv(s: State, t: State, step: Step)
    requires SchedInv(s) && Next(s, t, step) && (step.Yield? || step.Sleep? || step.WaitSleep? || step.ExitDie?)
    ensures SchedInv(t)
  {
    var p := On(s, step.c);
    assert ProcAt(s, p);
    TableStepKeepsSchedInv(s, t, step.c, p, p);
  }

  lemma OwnStepKeepsSchedInv(s: State, t: State, step: Step)
    requires SchedInv(s) && Next(s, t, step)
    requires step.Yield? || step.Sleep? || step.WaitEnter? || step.WaitEnd? || step.WaitSleep?
             || step.ExitEnter? || step.ExitDie?
    ensures SchedInv(t)
  {
    if step.WaitEnter? || step.WaitEnd? || step.ExitEnter? {
      StayKeepsSchedInv(s, t, step);
    } else {
      LeaveKeepsSchedInv(s, t, step);
    }
  }

  lemma WaitLookKeepsSchedInv(s: State, t: State, step: Step)
    requires SchedInv(s) && Next(s, t, step) && step.WaitLook?
    ensures SchedInv(t)
  {
    var p := On(s, step.c);
    var i := s.procs[p].pc.i;
    assert ProcAt(s, p) && ProcAt(s, i);
    TableStepKeepsSchedInv(s, t, step.c, p, i);
  }

  lemma ExitStepKeepsSchedInv(s: State, t: State, step: Step)
    requires SchedInv(s) && Next(s, t, step) && step.ExitStep?
    ensures SchedInv(t)
  {
    var p := On(s, step.c);
    var pc := s.procs[p].pc;
    var q := if pc.ExitScan? then pc.i else pc.j;
    var q' := if q < NPROC then q else p;
    assert ProcAt(s, p) && ProcAt(s, q');
    TableStepKeepsSchedInv(s, t, step.c, p, q');
  }

  lemma ForkKeepsSchedInv(s: State, t: State, step: Step)
    requires SchedInv(s) && Next(s, t, step)
    requires step.ForkAlloc? || step.ForkParent? || step.ForkReady?
    requires !step.ForkAlloc? ==> s.procs[s.procs[On(s, step.c)].pc.np].state.USED?
    ensures SchedInv(t)
  {
    var p := On(s, step.c);
    var q := if step.ForkAlloc? then step.q else s.procs[p].pc.np;
    assert ProcAt(s, p) && ProcAt(s, q);
    TableStepKeepsSchedInv(s, t, step.c, p, q);
  }
}
