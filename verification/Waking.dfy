/**
 What wakeup, kill, fork and wait achieve (kernel/proc.c): the sleeper that wakeup or
 kill finds runs again before it can sleep again, a kill is not forgotten, fork's
 child is ready to run, and wait gives up exactly when there is nothing to wait for.
 */
module Waking {
  import opened Options
  import opened Proc
  import opened Family

  /** p sleeps on channel n, outside wait. */
  ghost predicate SleepsOn(s: State, p: nat, n: nat)
    requires Shape(s) && p < NPROC
  {
    s.procs[p].state.SLEEPING? && s.procs[p].chan == Some(Other(n))
  }

  /** Only a running process goes to sleep. */
  lemma OnlyRunningSleeps(s: State, t: State, step: Step, p: nat)
    requires Shape(s) && Shape(t) && Next(s, t, step) && p < NPROC
    requires !s.procs[p].state.SLEEPING? && t.procs[p].state.SLEEPING?
    ensures s.procs[p].state.RUNNING?
  {
  }

  ghost predicate RanAt(run: seq<State>, k: nat, p: nat)
    requires k < |run| && Shape(run[k]) && p < NPROC
  {
    run[k].procs[p].state.RUNNING?
  }

  lemma {:induction false} SleepersRan(run: seq<State>, steps: seq<Step>, i: nat, j: nat, p: nat)
    requires IsRun(run, steps) && i < j < |run| && p < NPROC
    requires !run[i].procs[p].state.SLEEPING? && run[j].procs[p].state.SLEEPING?
    ensures exists m {:trigger RanAt(run, m, p)} :: i <= m < j && RanAt(run, m, p)
  {
    assert StepAt(run, steps, j - 1);
    if run[j - 1].procs[p].state.SLEEPING? {
      SleepersRan(run, steps, i, j - 1, p);
    } else {
      OnlyRunningSleeps(run[j - 1], run[j], steps[j - 1], p);
      assert RanAt(run, j - 1, p);
    }
  }

  /** Step k is wakeup's iteration for p, asleep on the channel, or a kill of p. */
  ghost predicate Rouses(run: seq<State>, steps: seq<Step>, k: nat, p: nat)
    requires k < |steps| < |run| && Shape(run[k]) && p < NPROC
  {
    match steps[k]
    case Wakeup(n, q) => q == p && SleepsOn(run[k], p, n)
    case Kill(_, q) => q == p
    case _ => false
  }

  /**
   On every interleaving, whoever is found asleep by a wakeup or a kill is RUNNABLE
   then, and if it sleeps at any later point it has run in between.
   */
  lemma RousedRuns(run: seq<State>, steps: seq<Step>, k: nat, j: nat, p: nat)
    requires IsRun(run, steps) && k < |steps| && k < j < |run| && p < NPROC && Rouses(run, steps, k, p)
    ensures run[k].procs[p].state.SLEEPING? ==> run[k + 1].procs[p].state.RUNNABLE?
    ensures run[j].procs[p].state.SLEEPING? ==>
              exists m {:trigger RanAt(run, m, p)} :: k < m < j && RanAt(run, m, p)
  {
    assert StepAt(run, steps, k);
    if run[j].procs[p].state.SLEEPING? {
      SleepersRan(run, steps, k + 1, j, p);
    }
  }

  ghost predicate UnusedAt(run: seq<State>, k: nat, p: nat)
    requires k < |run| && Shape(run[k]) && p < NPROC
  {
    run[k].procs[p].state.UNUSED?
  }

  lemma KilledKept(s: State, t: State, step: Step, p: nat)
    requires Shape(s) && Shape(t) && Next(s, t, step) && p < NPROC && s.procs[p].killed
    ensures t.procs[p].killed || t.procs[p].state.UNUSED?
  {
  }

  /** Once killed, a process stays killed until its entry is freed. */
  lemma {:induction false} KillIsKept(run: seq<State>, steps: seq<Step>, k: nat, j: nat, p: nat)
    requires IsRun(run, steps) && k < |steps| && k < j < |run| && p < NPROC && steps[k].Kill? && steps[k].q == p
    requires forall m {:trigger UnusedAt(run, m, p)} :: k < m <= j ==> !UnusedAt(run, m, p)
    ensures run[j].procs[p].killed
  {
    assert StepAt(run, steps, j - 1);
    if k + 1 < j {
      KillIsKept(run, steps, k, j - 1, p);
      assert !UnusedAt(run, j, p);
      KilledKept(run[j - 1], run[j], steps[j - 1], p);
    }
  }

  // ----- fork -----

  /** When fork is done its child, in use by nobody else until then, can be picked. */
  lemma ForkedIsReady(run: seq<State>, steps: seq<Step>, k: nat)
    requires IsRun(run, steps) && k < |steps| && steps[k].ForkReady?
    ensures steps[k].c < NCPU && On(run[k], steps[k].c) < NPROC
    ensures var p := On(run[k], steps[k].c);
            && run[k].procs[p].pc.ForkGo? && run[k].procs[p].pc.np < NPROC && run[k].procs[p].pc.np != p
            && var q := run[k].procs[p].pc.np;
               && run[k].procs[q].state.USED? && run[k + 1].procs[q].state.RUNNABLE?
               && run[k + 1].procs[q].parent == Some(p) && run[k + 1].procs[q].pid == run[k].procs[q].pid
               && run[k + 1].procs[p].pc.Run?
  {
    RunKeepsFamily(run, steps, k);
    assert StepAt(run, steps, k);
    assert ForkAt(run[k], On(run[k], steps[k].c));
  }

  // ----- wait -----

  ghost predicate KidOf(s: State, i: nat, p: nat)
    requires Shape(s) && i < NPROC
  {
    s.procs[i].parent == Some(p)
  }

  /** Some entry below n is a child of p. */
  ghost predicate HasKid(s: State, p: nat, n: nat)
    requires Shape(s) && n <= NPROC
  {
    exists i {:trigger KidOf(s, i, p)} :: 0 <= i < n && KidOf(s, i, p)
  }

  lemma ScansAlone(s: State, t: State, step: Step, p: nat, i: nat)
    requires FamilyInv(s) && Shape(t) && Next(s, t, step) && p < NPROC && i < NPROC
    requires s.procs[p].pc.WaitScan? && t.procs[p].pc.WaitScan? && (step.ExitStep? || step.WaitLook?)
    ensures t.procs[i].parent == s.procs[i].parent
  {
    assert ProcAt(s, p) && ProcAt(s, On(s, step.c));
  }

  /** While wait scans the table, nobody's parent changes. */
  lemma ParentsKept(s: State, t: State, step: Step, p: nat, i: nat)
    requires FamilyInv(s) && Shape(t) && Next(s, t, step) && p < NPROC && i < NPROC
    requires s.procs[p].pc.WaitScan? && t.procs[p].pc.WaitScan?
    ensures t.procs[i].parent == s.procs[i].parent
  {
    assert ProcAt(s, p) && ProcAt(s, i);
    if step.ExitStep? || step.WaitLook? {
      ScansAlone(s, t, step, p, i);
    }
  }

  lemma HasKidKept(s: State, t: State, step: Step, p: nat, n: nat)
    requires FamilyInv(s) && Shape(t) && Next(s, t, step) && p < NPROC && n <= NPROC
    requires s.procs[p].pc.WaitScan? && t.procs[p].pc.WaitScan?
    ensures HasKid(s, p, n) <==> HasKid(t, p, n)
  {
    forall i | 0 <= i < n
      ensures KidOf(s, i, p) <==> KidOf(t, i, p)
    {
      ParentsKept(s, t, step, p, i);
    }
  }

  /** From s to t, p's scan has begun, stands, or has looked at one more entry. */
  ghost predicate ScanMoved(s: State, t: State, p: nat)
    requires Shape(s) && Shape(t) && p < NPROC
  {
    var x, y := s.procs[p].pc, t.procs[p].pc;
    if !x.WaitScan? then y == WaitScan(0, false)
    else y == x || (x.i < NPROC && y == WaitScan(x.i + 1, x.havekids || KidOf(s, x.i, p)))
  }

  lemma ScanMoves(s: State, t: State, step: Step, p: nat)
    requires FamilyInv(s) && Shape(t) && Next(s, t, step) && p < NPROC && t.procs[p].pc.WaitScan?
    ensures ScanMoved(s, t, p)
  {
    if step.WaitLook? {
      LookMoves(s, t, step, p);
    } else if !step.WaitEnter? {
      OthersStand(s, t, step, p);
    }
  }

  lemma LookMoves(s: State, t: State, step: Step, p: nat)
    requires Shape(s) && Shape(t) && Next(s, t, step) && step.WaitLook? && p < NPROC && t.procs[p].pc.WaitScan?
    ensures ScanMoved(s, t, p)
  {
  }

  lemma OthersStand(s: State, t: State, step: Step, p: nat)
    requires SchedInv(s) && Shape(t) && Next(s, t, step) && !step.WaitLook? && !step.WaitEnter?
    requires p < NPROC && t.procs[p].pc.WaitScan?
    ensures t.procs[p].pc == s.procs[p].pc
  {
    assert ProcAt(s, p);
    if step.ExitStep? {
      ExitStands(s, t, On(s, step.c), p);
    } else if step.ForkAlloc? || step.ForkParent? || step.ForkReady? || step.ForkFail? {
      ForkStands(s, t, step, p);
    }
  }

  lemma ExitStands(s: State, t: State, q: nat, p: nat)
    requires Shape(s) && Shape(t) && q < NPROC && ExitStepStep(s, t, q) && p < NPROC && t.procs[p].pc.WaitScan?
    ensures t.procs[p].pc == s.procs[p].pc
  {
  }

  lemma ForkStands(s: State, t: State, step: Step, p: nat)
    requires Shape(s) && Shape(t) && Next(s, t, step) && p < NPROC && t.procs[p].pc.WaitScan?
    requires step.ForkAlloc? || step.ForkParent? || step.ForkReady? || step.ForkFail?
    ensures t.procs[p].pc == s.procs[p].pc
  {
  }

  /** havekids is whether the entries looked at hold a child. */
  lemma {:induction false} ScanKnows(run: seq<State>, steps: seq<Step>, k: nat, p: nat)
    requires IsRun(run, steps) && k < |run| && p < NPROC && run[k].procs[p].pc.WaitScan?
    ensures var pc := run[k].procs[p].pc; pc.i <= NPROC && (pc.havekids <==> HasKid(run[k], p, pc.i))
  {
    if k > 0 {
      var s, t, step := run[k - 1], run[k], steps[k - 1];
      RunKeepsFamily(run, steps, k - 1);
      assert StepAt(run, steps, k - 1);
      ScanMoves(s, t, step, p);
      if s.procs[p].pc.WaitScan? {
        ScanKnows(run, steps, k - 1, p);
        ScanOne(s, t, step, p);
      }
    }
  }

  lemma ScanOne(s: State, t: State, step: Step, p: nat)
    requires FamilyInv(s) && Shape(t) && Next(s, t, step) && p < NPROC
    requires s.procs[p].pc.WaitScan? && t.procs[p].pc.WaitScan?
    requires s.procs[p].pc.i <= NPROC && (s.procs[p].pc.havekids <==> HasKid(s, p, s.procs[p].pc.i))
    ensures var pc := t.procs[p].pc; pc.i <= NPROC && (pc.havekids <==> HasKid(t, p, pc.i))
  {
    var i := s.procs[p].pc.i;
    ScanMoves(s, t, step, p);
    HasKidKept(s, t, step, p, i);
    if t.procs[p].pc != s.procs[p].pc {
      HasKidKept(s, t, step, p, i + 1);
      MoreKids(s, p, i);
    }
  }

  lemma MoreKids(s: State, p: nat, i: nat)
    requires Shape(s) && i < NPROC
    ensures HasKid(s, p, i + 1) <==> HasKid(s, p, i) || KidOf(s, i, p)
  {
    if HasKid(s, p, i + 1) {
      var j :| 0 <= j < i + 1 && KidOf(s, j, p);
      assert j < i ==> KidOf(s, j, p);
    }
  }

  /**
   On every interleaving, wait gives up after its scan exactly if the process has been
   killed or has no child at all.
   */
  lemma WaitGivesUpExactly(run: seq<State>, steps: seq<Step>, k: nat)
    requires IsRun(run, steps) && k < |steps| && steps[k].WaitEnd?
    ensures steps[k].c < NCPU && On(run[k], steps[k].c) < NPROC
    ensures var p := On(run[k], steps[k].c);
            run[k + 1].procs[p].pc.Run? <==> run[k].procs[p].killed || !HasKid(run[k], p, NPROC)
  {
    assert StepAt(run, steps, k);
    ScanKnows(run, steps, k, On(run[k], steps[k].c));
  }
}
