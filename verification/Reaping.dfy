/**
 Two facts about whole runs of module Proc: each exit is matched by exactly one
 reap, and the scheduler's table scan is a round robin.
 */
module Reaping {
  import opened Proc
  import opened Options
  import opened Family

  // ----- exited children are reaped exactly once -----

  ghost predicate PidAt(s: State, i: nat)
    requires Shape(s) && i < NPROC
  {
    var x := s.procs[i];
    && (!x.state.UNUSED? ==> x.pid < s.nextpid)
    && (x.state.ZOMBIE? ==> x.pid in s.exited && x.pid !in s.reaped)
    && (!x.state.ZOMBIE? && !x.state.UNUSED? ==> x.pid !in s.exited)
  }

  ghost predicate PidsDifferAt(s: State, i: nat, j: nat)
    requires Shape(s) && i < NPROC && j < NPROC
  {
    i != j && !s.procs[i].state.UNUSED? && !s.procs[j].state.UNUSED? ==> s.procs[i].pid != s.procs[j].pid
  }

  ghost predicate AwaitsAt(s: State, pid: nat, i: nat)
    requires Shape(s) && i < NPROC
  {
    s.procs[i].state.ZOMBIE? && s.procs[i].pid == pid
  }

  /** Some entry still holds the exit status of pid. */
  ghost predicate Awaits(s: State, pid: nat)
    requires Shape(s)
  {
    exists i {:trigger AwaitsAt(s, pid, i)} :: 0 <= i < NPROC && AwaitsAt(s, pid, i)
  }

  ghost predicate ExitedAt(s: State, pid: nat)
    requires Shape(s)
  {
    pid in s.exited ==> pid < s.nextpid && (pid in s.reaped || Awaits(s, pid))
  }

  ghost predicate PidInv(s: State)
    requires Shape(s)
  {
    && (forall i {:trigger PidAt(s, i)} :: 0 <= i < NPROC ==> PidAt(s, i))
    && (forall i, j {:trigger PidsDifferAt(s, i, j)} :: 0 <= i < NPROC && 0 <= j < NPROC ==> PidsDifferAt(s, i, j))
    && (forall pid {:trigger ExitedAt(s, pid)} :: 0 <= pid ==> ExitedAt(s, pid))
    && s.reaped <= s.exited
  }

  /** Entry i keeps its pid, and neither begins nor ends to be in use or a ZOMBIE. */
  ghost predicate SamePidAt(s: State, t: State, i: nat)
    requires Shape(s) && Shape(t) && i < NPROC
  {
    && (s.procs[i].state.UNUSED? || t.procs[i].pid == s.procs[i].pid)
    && (t.procs[i].state.UNUSED? <==> s.procs[i].state.UNUSED?)
    && (t.procs[i].state.ZOMBIE? <==> s.procs[i].state.ZOMBIE?)
  }

  ghost predicate SamePids(s: State, t: State)
    requires Shape(s) && Shape(t)
  {
    && s.nextpid <= t.nextpid && t.exited == s.exited && t.reaped == s.reaped
    && forall i {:trigger SamePidAt(s, t, i)} :: 0 <= i < NPROC ==> SamePidAt(s, t, i)
  }

  /** Steps that create, end or free no process. */
  lemma PidsKept(s: State, t: State)
    requires Shape(s) && Shape(t) && PidInv(s) && SamePids(s, t)
    ensures PidInv(t)
  {
    forall i | 0 <= i < NPROC
      ensures PidAt(t, i)
    {
      assert PidAt(s, i) && SamePidAt(s, t, i);
    }
    forall i, j | 0 <= i < NPROC && 0 <= j < NPROC
      ensures PidsDifferAt(t, i, j)
    {
      assert PidsDifferAt(s, i, j) && SamePidAt(s, t, i) && SamePidAt(s, t, j);
    }
    forall pid | 0 <= pid
      ensures ExitedAt(t, pid)
    {
      assert ExitedAt(s, pid);
      if pid in s.exited && pid !in s.reaped {
        var i: nat :| i < NPROC && AwaitsAt(s, pid, i);
        assert SamePidAt(s, t, i);
        assert AwaitsAt(t, pid, i);
      }
    }
  }

  lemma DieKeepsPids(s: State, t: State, c: nat, p: nat)
    requires Shape(s) && Shape(t) && PidInv(s) && p < NPROC && ExitDieStep(s, t, c, p) && s.procs[p].state.RUNNING?
    ensures PidInv(t)
  {
    assert PidAt(s, p);
    forall i | 0 <= i < NPROC
      ensures PidAt(t, i)
    {
      assert PidAt(s, i) && PidsDifferAt(s, i, p);
    }
    forall i, j | 0 <= i < NPROC && 0 <= j < NPROC
      ensures PidsDifferAt(t, i, j)
    {
      assert PidsDifferAt(s, i, j);
    }
    forall pid | 0 <= pid
      ensures ExitedAt(t, pid)
    {
      DieExited(s, t, c, p, pid);
    }
    assert ExitedAt(s, s.procs[p].pid);
  }

  lemma DieExited(s: State, t: State, c: nat, p: nat, pid: nat)
    requires Shape(s) && Shape(t) && p < NPROC && ExitDieStep(s, t, c, p) && s.procs[p].state.RUNNING?
    requires PidAt(s, p) && ExitedAt(s, pid)
    ensures ExitedAt(t, pid)
  {
    if pid == s.procs[p].pid {
      assert AwaitsAt(t, pid, p);
    } else if pid in s.exited && pid !in s.reaped {
      var i: nat :| i < NPROC && AwaitsAt(s, pid, i);
      assert AwaitsAt(t, pid, i);
    }
  }

  lemma ReapKeepsPids(s: State, t: State, p: nat, i: nat)
    requires Shape(s) && Shape(t) && PidInv(s) && p < NPROC && i < NPROC && i != p
    requires s.procs[i].state.ZOMBIE? && s.procs[p].state.RUNNING?
    requires t.nextpid == s.nextpid && t.exited == s.exited && t.reaped == s.reaped + {s.procs[i].pid}
    requires t.procs == s.procs[i := Freed(s.procs[i])][p := t.procs[p]]
    requires t.procs[p].pid == s.procs[p].pid && t.procs[p].state.RUNNING?
    ensures PidInv(t)
  {
    assert PidAt(s, i);
    forall j | 0 <= j < NPROC
      ensures PidAt(t, j)
    {
      assert PidAt(s, j) && PidsDifferAt(s, i, j);
    }
    forall j, k | 0 <= j < NPROC && 0 <= k < NPROC
      ensures PidsDifferAt(t, j, k)
    {
      assert PidsDifferAt(s, j, k);
    }
    forall pid | 0 <= pid
      ensures ExitedAt(t, pid)
    {
      assert ExitedAt(s, pid);
      if pid in t.exited && pid !in t.reaped {
        var j: nat :| j < NPROC && AwaitsAt(s, pid, j);
        assert AwaitsAt(t, pid, j);
      }
    }
  }

  lemma AllocKeepsPids(s: State, t: State, p: nat, q: nat)
    requires Shape(s) && Shape(t) && PidInv(s) && p < NPROC && ForkAllocStep(s, t, p, q)
    ensures PidInv(t)
  {
    assert ExitedAt(s, s.nextpid);
    forall i | 0 <= i < NPROC
      ensures PidAt(t, i)
    {
      assert PidAt(s, i);
    }
    forall i, j | 0 <= i < NPROC && 0 <= j < NPROC
      ensures PidsDifferAt(t, i, j)
    {
      assert PidsDifferAt(s, i, j) && PidAt(s, i) && PidAt(s, j);
    }
    forall pid | 0 <= pid
      ensures ExitedAt(t, pid)
    {
      assert ExitedAt(s, pid);
      if pid in t.exited && pid !in t.reaped {
        var i: nat :| i < NPROC && AwaitsAt(s, pid, i);
        assert AwaitsAt(t, pid, i);
      }
    }
  }

  /** This step is the freeproc of a wait. */
  ghost predicate Reaps(s: State, step: Step)
    requires Shape(s)
  {
    && step.WaitLook? && !step.copyFails && step.c < NCPU && On(s, step.c) < NPROC
    && s.procs[On(s, step.c)].pc.WaitScan? && s.procs[On(s, step.c)].pc.i < NPROC
    && var x := s.procs[s.procs[On(s, step.c)].pc.i];
       x.parent == Some(On(s, step.c)) && x.state.ZOMBIE?
  }

  lemma SchedSamePids(s: State, t: State, step: Step)
    requires Shape(s) && Shape(t) && Next(s, t, step)
    requires step.Dispatch? || step.Skip? || step.SwitchOut? || step.Resume? || step.Yield? || step.Sleep?
    requires forall p :: 0 <= p < NPROC ==> ProcAt(s, p)
    ensures SamePids(s, t)
  {
    forall i | 0 <= i < NPROC
      ensures SamePidAt(s, t, i)
    {
      assert ProcAt(s, i);
    }
  }

  lemma SignalSamePids(s: State, t: State, step: Step)
    requires Shape(s) && Shape(t) && Next(s, t, step) && (step.Wakeup? || step.Kill? || step.ForkFail?)
    ensures SamePids(s, t)
  {
    forall i | 0 <= i < NPROC
      ensures SamePidAt(s, t, i)
    {
    }
  }

  lemma WaitSamePids(s: State, t: State, step: Step)
    requires Shape(s) && Shape(t) && Next(s, t, step) && !Reaps(s, step)
    requires step.WaitEnter? || step.WaitLook? || step.WaitEnd? || step.WaitSleep?
    ensures SamePids(s, t)
  {
    forall i | 0 <= i < NPROC
      ensures SamePidAt(s, t, i)
    {
    }
  }

  lemma ExitSamePids(s: State, t: State, step: Step)
    requires Shape(s) && Shape(t) && Next(s, t, step) && (step.ExitEnter? || step.ExitStep?)
    ensures SamePids(s, t)
  {
    forall i | 0 <= i < NPROC
      ensures SamePidAt(s, t, i)
    {
    }
  }

  lemma ForkSamePids(s: State, t: State, step: Step)
    requires Shape(s) && Shape(t) && Next(s, t, step)
    requires (step.ForkParent? || step.ForkReady?) && ForkAt(s, On(s, step.c))
    ensures SamePids(s, t)
  {
    forall i | 0 <= i < NPROC
      ensures SamePidAt(s, t, i)
    {
    }
  }

  lemma PlainKeepsPids(s: State, t: State, step: Step)
    requires FamilyInv(s) && PidInv(s) && Next(s, t, step) && Shape(t)
    requires !step.ExitDie? && !step.ForkAlloc? && !Reaps(s, step)
    ensures PidInv(t)
  {
    if step.Wakeup? || step.Kill? || step.ForkFail? {
      SignalSamePids(s, t, step);
    } else if step.WaitEnter? || step.WaitLook? || step.WaitEnd? || step.WaitSleep? {
      WaitSamePids(s, t, step);
    } else if step.ExitEnter? || step.ExitStep? {
      ExitSamePids(s, t, step);
    } else if step.ForkParent? || step.ForkReady? {
      assert ForkAt(s, On(s, step.c));
      ForkSamePids(s, t, step);
    } else {
      SchedSamePids(s, t, step);
    }
    PidsKept(s, t);
  }

  lemma NextKeepsPids(s: State, t: State, step: Step)
    requires FamilyInv(s) && PidInv(s) && Next(s, t, step) && Shape(t)
    ensures PidInv(t)
  {
    if step.ExitDie? {
      DieKeepsPids(s, t, step.c, On(s, step.c));
    } else if step.ForkAlloc? {
      AllocKeepsPids(s, t, On(s, step.c), step.q);
    } else if Reaps(s, step) {
      var p := On(s, step.c);
      ReapKeepsPids(s, t, p, s.procs[p].pc.i);
    } else {
      PlainKeepsPids(s, t, step);
    }
  }

  lemma InitIsPid(s: State)
    requires Init(s)
    ensures PidInv(s)
  {
  }

  lemma {:induction false} RunKeepsPids(run: seq<State>, steps: seq<Step>, k: nat)
    requires IsRun(run, steps) && k < |run|
    ensures PidInv(run[k])
  {
    if k == 0 {
      InitIsPid(run[0]);
    } else {
      RunKeepsPids(run, steps, k - 1);
      RunKeepsFamily(run, steps, k - 1);
      assert StepAt(run, steps, k - 1);
      NextKeepsPids(run[k - 1], run[k], steps[k - 1]);
    }
  }

  /**
   Exactly once: every pid that has exited is either still held by one ZOMBIE
   entry or has been reaped, never both; and a step that reaps takes a pid that
   had exited and had not been reaped before.
   */
  lemma ReapedExactlyOnce(run: seq<State>, steps: seq<Step>, k: nat, pid: nat)
    requires IsRun(run, steps) && k < |run|
    ensures pid in run[k].exited ==> (pid in run[k].reaped <==> !Awaits(run[k], pid))
    ensures pid in run[k].reaped ==> pid in run[k].exited
    ensures k < |steps| && Reaps(run[k], steps[k]) ==>
              var s := run[k];
              var child := s.procs[s.procs[On(s, steps[k].c)].pc.i].pid;
              && child in s.exited && child !in s.reaped
              && run[k + 1].reaped == s.reaped + {child} && !Awaits(run[k + 1], child)
  {
    RunKeepsPids(run, steps, k);
    RunKeepsFamily(run, steps, k);
    var s := run[k];
    assert ExitedAt(s, pid);
    if pid in s.exited && Awaits(s, pid) {
      var i: nat :| i < NPROC && AwaitsAt(s, pid, i);
      assert PidAt(s, i);
    }
    if k < |steps| && Reaps(s, steps[k]) {
      assert StepAt(run, steps, k);
      var i := s.procs[On(s, steps[k].c)].pc.i;
      assert PidAt(s, i);
      RunKeepsPids(run, steps, k + 1);
      var t := run[k + 1];
      forall j | 0 <= j < NPROC
        ensures !AwaitsAt(t, s.procs[i].pid, j)
      {
        assert PidAt(t, j);
      }
    }
  }

  // ----- round robin -----

  /** Entries CPU c still has to look at before it reaches p. */
  function Distance(scan: nat, p: nat): (d: int) {
    if scan <= p then p - scan else p + NPROC - scan
  }

  /** How many times CPU c picks a process in steps[i..j]. */
  function Picks(steps: seq<Step>, c: nat, i: nat, j: nat): (n: nat)
    requires i <= j <= |steps|
  {
    if i == j then 0 else Picks(steps, c, i, j - 1) + if steps[j - 1] == Dispatch(c) then 1 else 0
  }

  /** A bound on the picks CPU c can still make before it must pick p. */
  function Credit(x: Cpu, p: nat): (n: int) {
    if x.proc == Some(p) then NPROC - 1
    else Distance(x.scan, p) - if x.proc.Some? then 1 else 0
  }

  lemma CreditStep(s: State, t: State, step: Step, c: nat, p: nat)
    requires Shape(s) && c < NCPU && CpuAt(s, c) && Shape(t) && Next(s, t, step) && p < NPROC
    requires s.procs[p].state.RUNNABLE? && t.procs[p].state.RUNNABLE?
    ensures Credit(t.cpus[c], p) + (if step == Dispatch(c) then 1 else 0) <= Credit(s.cpus[c], p)
  {
    if !step.Dispatch? && !step.Skip? && !step.SwitchOut? {
      CpusKept(s, t, step);
    }
  }

  lemma CpusKept(s: State, t: State, step: Step)
    requires Shape(s) && Next(s, t, step) && !step.Dispatch? && !step.Skip? && !step.SwitchOut?
    ensures t.cpus == s.cpus
  {
  }

  lemma CreditRunStep(run: seq<State>, steps: seq<Step>, k: nat, c: nat, p: nat)
    requires IsRun(run, steps) && k < |steps| && c < NCPU && p < NPROC
    requires run[k].procs[p].state.RUNNABLE? && run[k + 1].procs[p].state.RUNNABLE?
    ensures Credit(run[k + 1].cpus[c], p) + (if steps[k] == Dispatch(c) then 1 else 0) <= Credit(run[k].cpus[c], p)
  {
    RunKeepsCpu(run, steps, k, c);
    assert StepAt(run, steps, k);
    CreditStep(run[k], run[k + 1], steps[k], c, p);
  }

  lemma RunKeepsCpu(run: seq<State>, steps: seq<Step>, k: nat, c: nat)
    requires IsRun(run, steps) && k < |run| && c < NCPU
    ensures CpuAt(run[k], c)
  {
    RunKeepsFamily(run, steps, k);
  }

  lemma {:induction false} CreditSpent(run: seq<State>, steps: seq<Step>, i: nat, j: nat, c: nat, p: nat)
    requires IsRun(run, steps) && i <= j < |run| && c < NCPU && p < NPROC
    requires forall k :: i <= k <= j ==> run[k].procs[p].state.RUNNABLE?
    ensures Picks(steps, c, i, j) + Credit(run[j].cpus[c], p) <= Credit(run[i].cpus[c], p)
  {
    if i < j {
      CreditSpent(run, steps, i, j - 1, c, p);
      CreditRunStep(run, steps, j - 1, c, p);
    }
  }

  /**
   Round robin: while p stays RUNNABLE no CPU makes NPROC picks; it would have
   had to pick p first.
   */
  lemma RoundRobin(run: seq<State>, steps: seq<Step>, i: nat, j: nat, c: nat, p: nat)
    requires IsRun(run, steps) && i <= j < |run| && c < NCPU && p < NPROC
    requires forall k :: i <= k <= j ==> run[k].procs[p].state.RUNNABLE?
    ensures Picks(steps, c, i, j) < NPROC
  {
    CreditSpent(run, steps, i, j, c, p);
    RunKeepsCpu(run, steps, j, c);
  }
}
