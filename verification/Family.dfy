/**
 Parents and children (kernel/proc.c): no exit is lost and every exited child
 is reaped exactly once, on every interleaving of module Proc's steps.
 */
module Family {
  import opened Proc
  import opened Options

  predicate Live(x: PState) { x.SLEEPING? || x.RUNNABLE? || x.RUNNING? }

  predicate Exiting(pc: Pc) { pc.ExitScan? || pc.ExitWakeInit? || pc.ExitWakeParent? || pc.Dead? }

  /** exit is handing children to init and has not yet reached init's entry in
      the wakeup that follows. */
  ghost predicate InitToBeWoken(s: State)
    requires Shape(s)
  {
    && s.waitLock.Some? && s.waitLock.value < NPROC
    && s.procs[s.waitLock.value].pc.ExitWakeInit? && s.procs[s.waitLock.value].pc.j <= s.init
  }

  /** Child i: its parent is alive, and is not asleep in wait if i has exited. */
  ghost predicate KidAt(s: State, i: nat)
    requires Shape(s) && i < NPROC
  {
    var x := s.procs[i];
    && (x.parent.Some? ==> x.parent.value < NPROC && x.parent.value != i && Live(s.procs[x.parent.value].state))
    && ((Live(x.state) || x.state.ZOMBIE?) && i != s.init ==> x.parent.Some?)
    && (x.state.ZOMBIE? && x.parent.Some? && Asleep(s, x.parent.value) ==>
          x.parent.value == s.init && InitToBeWoken(s))
  }

  /** What the holder of wait_lock has established about entry i so far. */
  ghost predicate ScanAt(s: State, i: nat)
    requires Shape(s) && i < NPROC
  {
    s.waitLock.Some? && s.waitLock.value < NPROC ==>
      var p := s.waitLock.value;
      var x := s.procs[i];
      match s.procs[p].pc
      case WaitScan(k, _) => i < k && x.parent == Some(p) ==> !x.state.ZOMBIE?
      case WaitToSleep => x.parent == Some(p) ==> !x.state.ZOMBIE?
      case ExitScan(k) => i < k ==> x.parent != Some(p)
      case ExitWakeInit(k, _) => i < k ==> x.parent != Some(p)
      case ExitWakeParent(j) => x.parent != Some(p) && (i < j && s.procs[p].parent == Some(i) ==> !Asleep(s, i))
      case _ => true
  }

  /** Inside fork with np allocated, possibly preempted there. */
  predicate InFork(pc: Pc) { Base(pc).ForkSet? || Base(pc).ForkGo? }

  predicate Forks(pc: Pc, q: nat) { InFork(pc) && Base(pc).np == q }

  ghost predicate ForkAt(s: State, p: nat)
    requires Shape(s) && p < NPROC
  {
    var pc := Base(s.procs[p].pc);
    InFork(s.procs[p].pc) ==>
      && pc.np < NPROC && pc.np != p && s.procs[pc.np].state.USED?
      && s.procs[pc.np].parent == (if pc.ForkSet? then None else Some(p))
  }

  ghost predicate OneForkAt(s: State, p: nat, q: nat)
    requires Shape(s) && p < NPROC && q < NPROC
  {
    p != q && InFork(s.procs[p].pc) ==> !Forks(s.procs[q].pc, Base(s.procs[p].pc).np)
  }

  ghost predicate ForkInv(s: State)
    requires Shape(s)
  {
    && (forall p {:trigger ForkAt(s, p)} :: 0 <= p < NPROC ==> ForkAt(s, p))
    && (forall p, q {:trigger OneForkAt(s, p, q)} :: 0 <= p < NPROC && 0 <= q < NPROC ==> OneForkAt(s, p, q))
  }

  ghost predicate TreeInv(s: State)
    requires Shape(s)
  {
    && Live(s.procs[s.init].state) && !Exiting(s.procs[s.init].pc) && s.procs[s.init].parent.None?
    && (forall i {:trigger KidAt(s, i)} :: 0 <= i < NPROC ==> KidAt(s, i))
    && (forall i {:trigger ScanAt(s, i)} :: 0 <= i < NPROC ==> ScanAt(s, i))
  }

  ghost predicate FamilyInv(s: State) {
    SchedInv(s) && TreeInv(s) && ForkInv(s)
  }

  /** Entry p changes in nothing that the family depends on. */
  ghost predicate QuietAt(s: State, t: State, p: nat)
    requires Shape(s) && Shape(t) && p < NPROC
  {
    var x, y := s.procs[p], t.procs[p];
    && y.parent == x.parent && (Live(x.state) <==> Live(y.state))
    && (y.pc == x.pc || !(HoldsWait(y.pc) || Exiting(y.pc)))
    && (InFork(y.pc) ==> Base(y.pc) == Base(x.pc))
    && (y.state.USED? <==> x.state.USED?) && (y.state.ZOMBIE? <==> x.state.ZOMBIE?)
    && (Asleep(t, p) ==> Asleep(s, p))
  }

  ghost predicate Quiet(s: State, t: State)
    requires Shape(s) && Shape(t)
  {
    && t.init == s.init && t.waitLock == s.waitLock
    && forall p {:trigger QuietAt(s, t, p)} :: 0 <= p < NPROC ==> QuietAt(s, t, p)
  }

  /** Scheduler steps and signals leave the family alone. */
  lemma QuietKeepsTree(s: State, t: State)
    requires FamilyInv(s) && SchedInv(t) && Quiet(s, t)
    ensures TreeInv(t)
  {
    assert QuietAt(s, t, s.init);
    forall i | 0 <= i < NPROC
      ensures KidAt(t, i) && ScanAt(t, i)
    {
      assert KidAt(s, i) && ScanAt(s, i) && QuietAt(s, t, i);
      if s.procs[i].parent.Some? {
        assert QuietAt(s, t, s.procs[i].parent.value);
      }
      if s.waitLock.Some? {
        var w := s.waitLock.value;
        assert ProcAt(s, w) && ProcAt(t, w) && QuietAt(s, t, w);
      }
    }
  }

  lemma QuietKeepsForks(s: State, t: State)
    requires Shape(s) && Shape(t) && ForkInv(s) && Quiet(s, t)
    ensures ForkInv(t)
  {
    forall p | 0 <= p < NPROC
      ensures ForkAt(t, p)
    {
      assert ForkAt(s, p) && QuietAt(s, t, p);
      if InFork(t.procs[p].pc) {
        assert QuietAt(s, t, Base(s.procs[p].pc).np);
      }
    }
    forall p, q | 0 <= p < NPROC && 0 <= q < NPROC
      ensures OneForkAt(t, p, q)
    {
      assert OneForkAt(s, p, q) && QuietAt(s, t, p) && QuietAt(s, t, q);
    }
  }

  /** The scheduler's own steps. */
  lemma PickIsQuiet(s: State, t: State, step: Step)
    requires SchedInv(s) && Next(s, t, step) && (step.Dispatch? || step.Skip? || step.SwitchOut?)
    ensures Shape(t) && Quiet(s, t)
  {
    forall p | 0 <= p < NPROC
      ensures Shape(t) && QuietAt(s, t, p)
    {
      assert ProcAt(s, p);
    }
  }

  lemma ResumeIsQuiet(s: State, t: State, c: nat)
    requires SchedInv(s) && ResumeStep(s, t, c)
    ensures Shape(t) && Quiet(s, t)
  {
    assert ProcAt(s, s.cpus[c].proc.value);
    forall p | 0 <= p < NPROC
      ensures Shape(t) && QuietAt(s, t, p)
    {
    }
  }

  /** yield, at any point where the timer may force it, and sleep. */
  lemma SwitchIsQuiet(s: State, t: State, step: Step)
    requires SchedInv(s) && Next(s, t, step) && (step.Yield? || step.Sleep?)
    ensures Shape(t) && Quiet(s, t)
  {
    assert ProcAt(s, On(s, step.c));
    forall p | 0 <= p < NPROC
      ensures Shape(t) && QuietAt(s, t, p)
    {
    }
  }

  lemma SignalIsQuiet(s: State, t: State, step: Step)
    requires SchedInv(s) && Next(s, t, step) && (step.Wakeup? || step.Kill? || step.ForkFail?)
    ensures Shape(t) && Quiet(s, t)
  {
    assert ProcAt(s, step.q);
    forall p | 0 <= p < NPROC
      ensures Shape(t) && QuietAt(s, t, p)
    {
    }
  }

  lemma QuietStepKeepsFamily(s: State, t: State, step: Step)
    requires FamilyInv(s) && Next(s, t, step)
    requires step.Dispatch? || step.Skip? || step.SwitchOut? || step.Resume? || step.Wakeup? || step.Kill?
             || step.Yield? || step.Sleep? || step.ForkFail?
    ensures FamilyInv(t)
  {
    if step.Dispatch? || step.Skip? {
      PickKeepsSchedInv(s, t, step);
      PickIsQuiet(s, t, step);
    } else if step.SwitchOut? {
      SwitchKeepsSchedInv(s, t, step);
      PickIsQuiet(s, t, step);
    } else if step.Resume? {
      SwitchKeepsSchedInv(s, t, step);
      ResumeIsQuiet(s, t, step.c);
    } else if step.Yield? || step.Sleep? {
      OwnStepKeepsSchedInv(s, t, step);
      SwitchIsQuiet(s, t, step);
    } else {
      SignalKeepsSchedInv(s, t, step);
      SignalIsQuiet(s, t, step);
    }
    QuietKeepsTree(s, t);
    QuietKeepsForks(s, t);
  }

  ghost predicate ForkKeptAt(s: State, t: State, p: nat, r: nat)
    requires Shape(s) && Shape(t) && r < NPROC
  {
    && (InFork(t.procs[r].pc) ==> Base(t.procs[r].pc) == Base(s.procs[r].pc))
    && (s.procs[r].state.USED? ==>
          t.procs[r].state.USED? && (t.procs[r].parent == s.procs[r].parent || s.procs[r].parent == Some(p)))
  }

  /** A step of p that begins no fork and unmakes no USED entry. */
  lemma ForksKept(s: State, t: State, p: nat)
    requires Shape(s) && Shape(t) && ForkInv(s) && p < NPROC && !InFork(s.procs[p].pc)
    requires forall r {:trigger ForkKeptAt(s, t, p, r)} :: 0 <= r < NPROC ==> ForkKeptAt(s, t, p, r)
    ensures ForkInv(t)
  {
    forall r | 0 <= r < NPROC
      ensures ForkAt(t, r)
    {
      assert ForkAt(s, r) && ForkKeptAt(s, t, p, r);
      if InFork(t.procs[r].pc) {
        assert ForkKeptAt(s, t, p, Base(t.procs[r].pc).np);
      }
    }
    forall r, q | 0 <= r < NPROC && 0 <= q < NPROC
      ensures OneForkAt(t, r, q)
    {
      assert OneForkAt(s, r, q) && ForkKeptAt(s, t, p, r) && ForkKeptAt(s, t, p, q);
    }
  }

  // ----- wait -----

  lemma WaitEnterTree(s: State, t: State, p: nat, i: nat)
    requires Shape(s) && p < NPROC && i < NPROC && WaitEnterStep(s, t, p) && KidAt(s, i)
    requires s.procs[p].state.RUNNING?
    ensures Shape(t) && KidAt(t, i) && ScanAt(t, i)
  {
  }

  lemma WaitEndTree(s: State, t: State, p: nat, i: nat)
    requires Shape(s) && p < NPROC && i < NPROC && WaitEndStep(s, t, p) && KidAt(s, i) && ScanAt(s, i)
    requires s.procs[p].state.RUNNING? && s.waitLock == Some(p)
    ensures Shape(t) && KidAt(t, i) && ScanAt(t, i)
  {
  }

  lemma WaitSleepTree(s: State, t: State, c: nat, p: nat, i: nat)
    requires Shape(s) && p < NPROC && i < NPROC && WaitSleepStep(s, t, c, p) && KidAt(s, i) && ScanAt(s, i)
    requires s.procs[p].state.RUNNING? && s.waitLock == Some(p)
    ensures Shape(t) && KidAt(t, i) && ScanAt(t, i)
  {
  }

  lemma WaitStepKeepsTree(s: State, t: State, step: Step, p: nat)
    requires Shape(s) && TreeInv(s) && Next(s, t, step) && (step.WaitEnter? || step.WaitEnd? || step.WaitSleep?)
    requires p == On(s, step.c) && (step.WaitEnter? || s.waitLock == Some(p))
    ensures Shape(t) && TreeInv(t)
  {
    forall i | 0 <= i < NPROC
      ensures KidAt(t, i) && ScanAt(t, i)
    {
      assert KidAt(s, i) && ScanAt(s, i);
      match step
      case WaitEnter(_) => WaitEnterTree(s, t, p, i);
      case WaitEnd(_) => WaitEndTree(s, t, p, i);
      case WaitSleep(c) => WaitSleepTree(s, t, c, p, i);
    }
  }

  lemma WaitStepKeepsFamily(s: State, t: State, step: Step)
    requires FamilyInv(s) && Next(s, t, step) && (step.WaitEnter? || step.WaitEnd? || step.WaitSleep?)
    ensures FamilyInv(t)
  {
    var p := On(s, step.c);
    assert ProcAt(s, p);
    OwnStepKeepsSchedInv(s, t, step);
    WaitStepKeepsTree(s, t, step, p);
    ForksKept(s, t, p);
  }

  lemma WaitLookTree(s: State, t: State, p: nat, copyFails: bool, i: nat)
    requires Shape(s) && p < NPROC && i < NPROC && WaitLookStep(s, t, p, copyFails) && KidAt(s, i) && ScanAt(s, i)
    requires KidAt(s, s.procs[p].pc.i)
    requires s.procs[p].state.RUNNING? && s.waitLock == Some(p)
    ensures Shape(t) && KidAt(t, i) && ScanAt(t, i)
  {
    WaitLookKid(s, t, p, copyFails, i);
  }

  lemma WaitLookKid(s: State, t: State, p: nat, copyFails: bool, i: nat)
    requires Shape(s) && p < NPROC && i < NPROC
    requires WaitLookStep(s, t, p, copyFails) && KidAt(s, i) && KidAt(s, s.procs[p].pc.i)
    requires s.procs[p].state.RUNNING? && s.waitLock == Some(p)
    ensures Shape(t) && KidAt(t, i)
  {
  }

  lemma WaitLookKeepsTree(s: State, t: State, p: nat, copyFails: bool)
    requires Shape(s) && TreeInv(s) && p < NPROC && WaitLookStep(s, t, p, copyFails)
    requires s.procs[p].state.RUNNING? && s.waitLock == Some(p)
    ensures Shape(t) && TreeInv(t)
  {
    assert KidAt(s, s.procs[p].pc.i);
    forall i | 0 <= i < NPROC
      ensures KidAt(t, i) && ScanAt(t, i)
    {
      assert KidAt(s, i) && ScanAt(s, i);
      WaitLookTree(s, t, p, copyFails, i);
    }
  }

  lemma WaitLookKeepsFamily(s: State, t: State, step: Step)
    requires FamilyInv(s) && Next(s, t, step) && step.WaitLook?
    ensures FamilyInv(t)
  {
    var p := On(s, step.c);
    assert ProcAt(s, p) && ProcAt(s, s.procs[p].pc.i);
    WaitLookKeepsSchedInv(s, t, step);
    WaitLookKeepsTree(s, t, p, step.copyFails);
    ForksKept(s, t, p);
  }

  // ----- exit -----

  lemma ExitScanTree(s: State, t: State, p: nat, i: nat)
    requires Shape(s) && p < NPROC && i < NPROC && s.procs[p].pc.ExitScan? && ExitScanStep(s, t, p, s.procs[p].pc.i)
    requires KidAt(s, i) && ScanAt(s, i) && KidAt(s, p)
    requires s.procs[p].state.RUNNING? && s.waitLock == Some(p) && p != s.init
    requires Live(s.procs[s.init].state) && s.procs[s.init].parent.None?
    ensures Shape(t) && KidAt(t, i) && ScanAt(t, i)
  {
    ExitScanKid(s, t, p, i);
  }

  lemma ExitScanKid(s: State, t: State, p: nat, i: nat)
    requires Shape(s) && p < NPROC && i < NPROC && s.procs[p].pc.ExitScan? && ExitScanStep(s, t, p, s.procs[p].pc.i)
    requires KidAt(s, i) && KidAt(s, p)
    requires s.procs[p].state.RUNNING? && s.waitLock == Some(p) && p != s.init
    requires Live(s.procs[s.init].state) && s.procs[s.init].parent.None?
    ensures Shape(t) && KidAt(t, i)
  {
    ExitScanSame(s, t, p, i);
    if t.procs[i].parent.Some? {
      ExitScanSame(s, t, p, t.procs[i].parent.value);
    }
  }

  lemma ExitScanSame(s: State, t: State, p: nat, i: nat)
    requires Shape(s) && p < NPROC && i < NPROC && s.procs[p].pc.ExitScan? && ExitScanStep(s, t, p, s.procs[p].pc.i)
    requires s.procs[p].state.RUNNING?
    ensures Shape(t) && t.procs[i].state == s.procs[i].state && Asleep(t, i) == Asleep(s, i)
    ensures || t.procs[i].parent == s.procs[i].parent
            || (s.procs[i].parent == Some(p) && t.procs[i].parent == Some(s.init))
  {
  }

  lemma ExitWakeInitTree(s: State, t: State, p: nat, i: nat)
    requires Shape(s) && p < NPROC && i < NPROC && s.procs[p].pc.ExitWakeInit?
    requires ExitWakeInitStep(s, t, p, s.procs[p].pc.i, s.procs[p].pc.j)
    requires KidAt(s, i) && ScanAt(s, i)
    requires s.procs[p].state.RUNNING? && s.waitLock == Some(p) && p != s.init
    ensures Shape(t) && KidAt(t, i) && ScanAt(t, i)
  {
  }

  lemma ExitWakeParentTree(s: State, t: State, p: nat, i: nat)
    requires Shape(s) && p < NPROC && i < NPROC && s.procs[p].pc.ExitWakeParent?
    requires ExitWakeParentStep(s, t, p, s.procs[p].pc.j)
    requires KidAt(s, i) && ScanAt(s, i)
    requires s.procs[p].state.RUNNING? && s.waitLock == Some(p)
    ensures Shape(t) && KidAt(t, i) && ScanAt(t, i)
  {
  }

  lemma ExitStepKeepsTree(s: State, t: State, p: nat)
    requires Shape(s) && p < NPROC && TreeInv(s) && ExitStepStep(s, t, p)
    requires s.procs[p].state.RUNNING? && s.waitLock == Some(p)
    ensures Shape(t) && TreeInv(t)
  {
    assert KidAt(s, p);
    forall i | 0 <= i < NPROC
      ensures KidAt(t, i) && ScanAt(t, i)
    {
      assert KidAt(s, i) && ScanAt(s, i);
      match s.procs[p].pc
      case ExitScan(_) => ExitScanTree(s, t, p, i);
      case ExitWakeInit(_, _) => ExitWakeInitTree(s, t, p, i);
      case ExitWakeParent(_) => ExitWakeParentTree(s, t, p, i);
    }
  }

  lemma ExitStepKeepsFamily(s: State, t: State, step: Step)
    requires FamilyInv(s) && Next(s, t, step) && step.ExitStep?
    ensures FamilyInv(t)
  {
    var p := ExitStepRuns(s, t, step);
    ExitStepKeepsSchedInv(s, t, step);
    ExitStepKeepsTree(s, t, p);
    ExitStepKeepsForks(s, t, p);
  }

  lemma ExitStepKeepsForks(s: State, t: State, p: nat)
    requires Shape(s) && ForkInv(s) && p < NPROC && ExitStepStep(s, t, p)
    ensures Shape(t) && ForkInv(t)
  {
    forall r | 0 <= r < NPROC
      ensures Shape(t) && ForkKeptAt(s, t, p, r)
    {
      ExitStepForkAt(s, t, p, r);
    }
    ForksKept(s, t, p);
  }

  lemma ExitStepForkAt(s: State, t: State, p: nat, r: nat)
    requires Shape(s) && p < NPROC && r < NPROC && ExitStepStep(s, t, p)
    ensures Shape(t) && ForkKeptAt(s, t, p, r) && !InFork(s.procs[p].pc)
  {
  }

  lemma ExitStepRuns(s: State, t: State, step: Step) returns (p: nat)
    requires SchedInv(s) && Next(s, t, step) && step.ExitStep?
    ensures p < NPROC && ExitStepStep(s, t, p) && s.procs[p].state.RUNNING? && s.waitLock == Some(p)
  {
    p := On(s, step.c);
    assert ProcAt(s, p);
  }

  lemma ExitEnterTree(s: State, t: State, p: nat, i: nat)
    requires Shape(s) && p < NPROC && i < NPROC && ExitEnterStep(s, t, p) && KidAt(s, i)
    requires s.procs[p].state.RUNNING?
    ensures Shape(t) && KidAt(t, i) && ScanAt(t, i)
  {
  }

  lemma ExitDieTree(s: State, t: State, c: nat, p: nat, i: nat)
    requires Shape(s) && p < NPROC && i < NPROC && ExitDieStep(s, t, c, p) && KidAt(s, i) && ScanAt(s, i)
    requires s.procs[p].state.RUNNING? && s.waitLock == Some(p)
    requires i == p && s.procs[p].parent.Some? ==> s.procs[p].parent.value < NPROC && ScanAt(s, s.procs[p].parent.value)
    ensures Shape(t) && KidAt(t, i) && ScanAt(t, i)
  {
  }

  lemma ExitEdgeKeepsFamily(s: State, t: State, step: Step)
    requires FamilyInv(s) && Next(s, t, step) && (step.ExitEnter? || step.ExitDie?)
    ensures FamilyInv(t)
  {
    OwnStepKeepsSchedInv(s, t, step);
    var p := On(s, step.c);
    assert ProcAt(s, p) && KidAt(s, p);
    forall i | 0 <= i < NPROC
      ensures KidAt(t, i) && ScanAt(t, i)
    {
      assert KidAt(s, i) && ScanAt(s, i);
      if step.ExitEnter? {
        ExitEnterTree(s, t, p, i);
      } else {
        ExitDieTree(s, t, step.c, p, i);
      }
    }
    ForksKept(s, t, p);
  }

  // ----- fork -----

  lemma ForkAllocTree(s: State, t: State, p: nat, q: nat, i: nat)
    requires Shape(s) && p < NPROC && i < NPROC && ForkAllocStep(s, t, p, q)
    requires KidAt(s, i) && ScanAt(s, i) && s.procs[p].state.RUNNING? && s.waitLock != Some(p) && s.waitLock != Some(q)
    requires s.procs[q].parent.None?
    ensures Shape(t) && KidAt(t, i) && ScanAt(t, i)
  {
  }

  lemma ForkParentTree(s: State, t: State, p: nat, i: nat)
    requires Shape(s) && p < NPROC && i < NPROC && ForkParentStep(s, t, p)
    requires KidAt(s, i) && s.procs[p].state.RUNNING? && s.procs[s.procs[p].pc.np].state.USED?
    ensures Shape(t) && KidAt(t, i) && ScanAt(t, i)
  {
  }

  lemma ForkReadyTree(s: State, t: State, p: nat, i: nat)
    requires Shape(s) && p < NPROC && i < NPROC && ForkReadyStep(s, t, p)
    requires KidAt(s, i) && ScanAt(s, i) && s.procs[p].state.RUNNING? && s.waitLock != Some(p)
    requires s.procs[s.procs[p].pc.np].state.USED? && s.procs[s.procs[p].pc.np].parent == Some(p)
    requires s.waitLock != Some(s.procs[p].pc.np)
    ensures Shape(t) && KidAt(t, i) && ScanAt(t, i)
  {
  }

  lemma ForkForks(s: State, t: State, step: Step)
    requires Shape(s) && ForkInv(s) && Next(s, t, step) && (step.ForkAlloc? || step.ForkParent? || step.ForkReady?)
    requires step.ForkAlloc? ==> s.procs[step.q].parent.None? && s.procs[step.q].pc.New?
    ensures Shape(t) && ForkInv(t)
  {
    var p := On(s, step.c);
    assert ForkAt(s, p);
    forall r | 0 <= r < NPROC
      ensures ForkAt(t, r)
    {
      assert ForkAt(s, r) && OneForkAt(s, p, r) && OneForkAt(s, r, p);
    }
    forall r, q | 0 <= r < NPROC && 0 <= q < NPROC
      ensures OneForkAt(t, r, q)
    {
      assert OneForkAt(s, r, q) && ForkAt(s, r) && ForkAt(s, q);
    }
  }

  lemma ForkKeepsTree(s: State, t: State, step: Step, p: nat, q: nat)
    requires Shape(s) && TreeInv(s) && Next(s, t, step) && (step.ForkAlloc? || step.ForkParent? || step.ForkReady?)
    requires p == On(s, step.c) && q == (if step.ForkAlloc? then step.q else s.procs[p].pc.np) && q < NPROC
    requires s.waitLock != Some(p) && s.waitLock != Some(q)
    requires if step.ForkAlloc? then s.procs[q].parent.None? else s.procs[q].state.USED?
    requires step.ForkReady? ==> s.procs[q].parent == Some(p)
    ensures Shape(t) && TreeInv(t)
  {
    forall i | 0 <= i < NPROC
      ensures KidAt(t, i) && ScanAt(t, i)
    {
      assert KidAt(s, i) && ScanAt(s, i);
      match step
      case ForkAlloc(_, _) => ForkAllocTree(s, t, p, q, i);
      case ForkParent(_) => ForkParentTree(s, t, p, i);
      case ForkReady(_) => ForkReadyTree(s, t, p, i);
    }
  }

  lemma ForkKeepsFamily(s: State, t: State, step: Step)
    requires FamilyInv(s) && Next(s, t, step) && (step.ForkAlloc? || step.ForkParent? || step.ForkReady?)
    ensures FamilyInv(t)
  {
    var p := On(s, step.c);
    var q := if step.ForkAlloc? then step.q else s.procs[p].pc.np;
    assert ForkAt(s, p) && ProcAt(s, p) && ProcAt(s, q);
    ForkKeepsSchedInv(s, t, step);
    ForkForks(s, t, step);
    ForkKeepsTree(s, t, step, p, q);
  }

  // ----- every run -----

  lemma NextKeepsFamily(s: State, t: State, step: Step)
    requires FamilyInv(s) && Next(s, t, step)
    ensures FamilyInv(t)
  {
    match step
    case WaitEnter(_) => WaitStepKeepsFamily(s, t, step);
    case WaitEnd(_) => WaitStepKeepsFamily(s, t, step);
    case WaitSleep(_) => WaitStepKeepsFamily(s, t, step);
    case WaitLook(_, _) => WaitLookKeepsFamily(s, t, step);
    case ExitEnter(_) => ExitEdgeKeepsFamily(s, t, step);
    case ExitDie(_) => ExitEdgeKeepsFamily(s, t, step);
    case ExitStep(_) => ExitStepKeepsFamily(s, t, step);
    case ForkAlloc(_, _) => ForkKeepsFamily(s, t, step);
    case ForkParent(_) => ForkKeepsFamily(s, t, step);
    case ForkReady(_) => ForkKeepsFamily(s, t, step);
    case _ => QuietStepKeepsFamily(s, t, step);
  }

  lemma InitIsFamily(s: State)
    requires Init(s)
    ensures FamilyInv(s)
  {
  }

  lemma {:induction false} RunKeepsFamily(run: seq<State>, steps: seq<Step>, k: nat)
    requires IsRun(run, steps) && k < |run|
    ensures FamilyInv(run[k])
  {
    if k == 0 {
      InitIsFamily(run[0]);
    } else {
      RunKeepsFamily(run, steps, k - 1);
      assert StepAt(run, steps, k - 1);
      NextKeepsFamily(run[k - 1], run[k], steps[k - 1]);
    }
  }

  /**
   No lost exit: whenever wait_lock is free, a process asleep in wait has no
   exited child, not even one just handed to init; and every exited or live
   process but init has a live parent that can wait for it.
   */
  lemma NoLostExit(run: seq<State>, steps: seq<Step>, k: nat, p: nat, i: nat)
    requires IsRun(run, steps) && k < |run| && p < NPROC && i < NPROC
    ensures run[k].waitLock.None? && Asleep(run[k], p) && run[k].procs[i].parent == Some(p) ==>
              !run[k].procs[i].state.ZOMBIE?
    ensures i != run[k].init && (Live(run[k].procs[i].state) || run[k].procs[i].state.ZOMBIE?) ==>
              run[k].procs[i].parent.Some? && run[k].procs[i].parent.value < NPROC
              && Live(run[k].procs[run[k].procs[i].parent.value].state)
  {
    RunKeepsFamily(run, steps, k);
    assert KidAt(run[k], i);
  }

  /**
   Scheduler safety: whenever p->lock is free, p is RUNNING exactly when one
   CPU has it as its current process, and then only one. While p->lock is held
   across swtch its holder is the CPU whose current process is p, so the
   release on the other side of the switch is by the acquirer, and that CPU
   holds no other lock.
   */
  lemma SchedulerSafety(run: seq<State>, steps: seq<Step>, k: nat, p: nat)
    requires IsRun(run, steps) && k < |run| && p < NPROC
    ensures var s := run[k];
            s.procs[p].lock.None? ==>
              (s.procs[p].state.RUNNING? <==> exists c :: 0 <= c < NCPU && s.cpus[c].proc == Some(p))
    ensures forall c, d ::
                 0 <= c < NCPU && 0 <= d < NCPU && run[k].cpus[c].proc == Some(p) == run[k].cpus[d].proc ==> c == d
    ensures run[k].procs[p].lock.Some? ==>
              var c := run[k].procs[p].lock.value;
              && c < NCPU && run[k].cpus[c].proc == Some(p) && run[k].waitLock != Some(p)
              && forall q :: 0 <= q < NPROC && q != p ==> run[k].procs[q].lock != Some(c)
  {
    RunKeepsFamily(run, steps, k);
    var s := run[k];
    assert RunningAt(s, p) && LockAt(s, p) && ProcAt(s, p);
    forall c, d | 0 <= c < NCPU && 0 <= d < NCPU && s.cpus[c].proc == Some(p) == s.cpus[d].proc
      ensures c == d
    {
      assert OneCpuAt(s, c, d);
    }
    if s.procs[p].lock.None? && exists c :: 0 <= c < NCPU && s.cpus[c].proc == Some(p) {
      var c :| 0 <= c < NCPU && s.cpus[c].proc == Some(p);
      assert CpuAt(s, c);
    }
    forall q | 0 <= q < NPROC && q != p && s.procs[p].lock.Some?
      ensures s.procs[q].lock != s.procs[p].lock
    {
      assert LockAt(s, q);
    }
  }
}
