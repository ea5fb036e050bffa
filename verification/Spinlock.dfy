/**
 Interrupt nesting (kernel/spinlock.c push_off and pop_off) and its hand-over
 in sched (kernel/proc.c): noff counts a CPU's acquires, and intena travels with
 the thread when it moves between CPUs.
 */
module Spinlock {
  /** intr is the hardware's interrupt enable. */
  datatype Cpu = Cpu(noff: nat, intena: bool, intr: bool)

  class CpuState {
    var noff: nat
    var intena: bool
    var intr: bool

    function View(): (c: Cpu)
      reads this
    {
      Cpu(noff, intena, intr)
    }

    constructor (on: bool)
      ensures View() == Cpu(0, false, on)
    {
      noff, intena, intr := 0, false, on;
    }

    /** push_off */
    method PushOff()
      modifies this
      ensures View() == Pushed(old(View()))
    {
      var was := intr;
      intr := false;
      if noff == 0 {
        intena := was;
      }
      noff := noff + 1;
    }

    /** pop_off; true is either of its panics. */
    method PopOff() returns (panicked: bool)
      modifies this
      ensures panicked <==> old(intr) || old(noff) == 0
      ensures View() == if panicked then old(View()) else Popped(old(View()))
    {
      if intr || noff < 1 {
        return true;
      }
      noff := noff - 1;
      if noff == 0 && intena {
        intr := true;
      }
      return false;
    }
  }

  function Pushed(c: Cpu): (d: Cpu) {
    Cpu(c.noff + 1, if c.noff == 0 then c.intr else c.intena, false)
  }

  function Popped(c: Cpu): (d: Cpu)
    requires c.noff > 0
  {
    Cpu(c.noff - 1, c.intena, c.intr || (c.noff == 1 && c.intena))
  }

  // ----- matched calls on one CPU -----

  datatype Call = Push | Pop

  /** How many push_offs of calls[..k] are not yet matched. */
  function Depth(calls: seq<Call>, k: nat): (d: int)
    requires k <= |calls|
  {
    if k == 0 then 0 else Depth(calls, k - 1) + if calls[k - 1].Push? then 1 else -1
  }

  ghost predicate NestedAt(calls: seq<Call>, k: nat)
    requires k <= |calls|
  {
    Depth(calls, k) >= 0
  }

  ghost predicate Nested(calls: seq<Call>) {
    forall k {:trigger NestedAt(calls, k)} :: 0 <= k <= |calls| ==> NestedAt(calls, k)
  }

  /** The CPU after calls[..k]; a pop_off that would panic changes nothing. */
  function Called(c: Cpu, calls: seq<Call>, k: nat): (r: Cpu)
    requires k <= |calls|
  {
    if k == 0 then c
    else
      var b := Called(c, calls, k - 1);
      if calls[k - 1].Push? then Pushed(b) else if b.intr || b.noff == 0 then b else Popped(b)
  }

  /** The next call is not a pop_off that panics. */
  predicate Fine(c: Cpu, call: Call) { call.Pop? ==> !c.intr && c.noff > 0 }

  /** push_off and pop_off are matched: over any nested sequence of calls, however
      deep the CPU already was, none panics, interrupts are off while a call is
      unmatched, and whenever all are matched interrupts and noff are as before. */
  lemma {:induction false} MatchedCallsRestore(c: Cpu, calls: seq<Call>, k: nat)
    requires k <= |calls| && Nested(calls) && (c.noff > 0 ==> !c.intr)
    ensures var b, d := Called(c, calls, k), Depth(calls, k);
            && b.noff == c.noff + d
            && (if d == 0 then b.intr == c.intr && (c.noff > 0 ==> b.intena == c.intena)
                else !b.intr && b.intena == if c.noff == 0 then c.intr else c.intena)
            && (k < |calls| ==> Fine(b, calls[k]))
  {
    assert NestedAt(calls, k);
    if k > 0 {
      MatchedCallsRestore(c, calls, k - 1);
      assert NestedAt(calls, k - 1);
    }
    if k < |calls| {
      assert NestedAt(calls, k + 1);
    }
  }

  // ----- threads that move between CPUs -----

  /** Where a kernel thread is (-1 when switched out), whether it has yet to run for
      the first time, the intena sched saved for it, and, as a history variable,
      what interrupts were when it last held no lock. */
  datatype Thread = Thread(on: int, isNew: bool, saved: bool, wants: bool, depth: nat)

  /** A CPU with no thread on it is in scheduler(). */
  datatype State = State(cpus: seq<Cpu>, threads: seq<Thread>)

  datatype Step =
    | Acquire(t: nat)
    | Release(t: nat)
    | SetIntr(t: nat, on: bool) // intr_on or intr_off by a thread that holds no lock
    | SwitchOut(t: nat)         // sched: save intena, swtch to the scheduler
    | SchedRelease(c: nat)      // scheduler: release(&p->lock)
    | SchedOn(c: nat)           // scheduler: intr_on()
    | SchedAcquire(c: nat)      // scheduler: acquire(&p->lock)
    | SwitchIn(c: nat, t: nat)  // scheduler's swtch, then mycpu()->intena = intena
    | Fork                      // allocproc: a thread that will start in forkret
    | FirstIn(c: nat, t: nat)   // scheduler's swtch to forkret, which holds p->lock

  predicate Idle(s: State, c: nat) { c < |s.cpus| && forall t :: 0 <= t < |s.threads| ==> s.threads[t].on != c }

  predicate Placed(s: State, t: nat) { t < |s.threads| && 0 <= s.threads[t].on < |s.cpus| }

  ghost predicate Next(s: State, step: Step, r: State) {
    match step
    case Acquire(t) =>
      && Placed(s, t)
      && var x, c := s.threads[t], s.cpus[s.threads[t].on];
         r == State(s.cpus[x.on := Pushed(c)],
                    s.threads[t := x.(wants := if x.depth == 0 then c.intr else x.wants, depth := x.depth + 1)])
    case Release(t) =>
      && Placed(s, t) && s.threads[t].depth > 0 && s.cpus[s.threads[t].on].noff > 0
      && r == State(s.cpus[s.threads[t].on := Popped(s.cpus[s.threads[t].on])],
                    s.threads[t := s.threads[t].(depth := s.threads[t].depth - 1)])
    case SetIntr(t, on) =>
      && Placed(s, t) && s.threads[t].depth == 0
      && r == State(s.cpus[s.threads[t].on := s.cpus[s.threads[t].on].(intr := on)],
                    s.threads[t := s.threads[t].(wants := on)])
    case SwitchOut(t) =>
      // "sched locks": exactly p->lock is held.
      && Placed(s, t) && s.cpus[s.threads[t].on].noff == 1
      && r == s.(threads := s.threads[t := s.threads[t].(on := -1, saved := s.cpus[s.threads[t].on].intena)])
    case SchedRelease(c) => Idle(s, c) && s.cpus[c].noff > 0 && r == s.(cpus := s.cpus[c := Popped(s.cpus[c])])
    case SchedOn(c) => Idle(s, c) && s.cpus[c].noff == 0 && r == s.(cpus := s.cpus[c := s.cpus[c].(intr := true)])
    case SchedAcquire(c) => Idle(s, c) && s.cpus[c].noff == 0 && r == s.(cpus := s.cpus[c := Pushed(s.cpus[c])])
    case SwitchIn(c, t) =>
      && Idle(s, c) && s.cpus[c].noff == 1 && t < |s.threads| && s.threads[t].on == -1 && !s.threads[t].isNew
      && r == State(s.cpus[c := s.cpus[c].(intena := s.threads[t].saved)], s.threads[t := s.threads[t].(on := c)])
    case Fork => r == s.(threads := s.threads + [Thread(-1, true, false, false, 1)])
    case FirstIn(c, t) =>
      // forkret has no saved intena: the CPU's own holds, as the scheduler's acquire left it.
      && Idle(s, c) && s.cpus[c].noff == 1 && t < |s.threads| && s.threads[t].on == -1 && s.threads[t].isNew
      && r == s.(threads := s.threads[t := s.threads[t].(on := c, isNew := false, wants := s.cpus[c].intena)])
  }

  /** Interrupts are off while a lock is held, and the CPU remembers what the
      thread wants them to be. */
  ghost predicate ThreadAt(s: State, t: nat)
    requires t < |s.threads|
  {
    var x := s.threads[t];
    if x.on < 0 then x.on == -1 && x.depth == 1 && (x.isNew || x.saved == x.wants)
    else
      && x.on < |s.cpus| && !x.isNew
      && var c := s.cpus[x.on];
         c.noff == x.depth && (if x.depth == 0 then c.intr == x.wants else !c.intr && c.intena == x.wants)
  }

  ghost predicate CpuAt(s: State, c: nat)
    requires c < |s.cpus|
  {
    s.cpus[c].noff > 0 ==> !s.cpus[c].intr
  }

  ghost predicate Apart(s: State, t: nat, u: nat)
    requires t < |s.threads| && u < |s.threads|
  {
    t != u && s.threads[t].on >= 0 ==> s.threads[t].on != s.threads[u].on
  }

  ghost predicate Inv(s: State) {
    && (forall t {:trigger ThreadAt(s, t)} :: 0 <= t < |s.threads| ==> ThreadAt(s, t))
    && (forall c {:trigger CpuAt(s, c)} :: 0 <= c < |s.cpus| ==> CpuAt(s, c))
    && (forall t, u {:trigger Apart(s, t, u)} :: 0 <= t < |s.threads| && 0 <= u < |s.threads| ==> Apart(s, t, u))
  }

  lemma ThreadKept(s: State, step: Step, r: State, t: nat)
    requires Inv(s) && Next(s, step, r) && t < |r.threads|
    ensures ThreadAt(r, t)
  {
    if t < |s.threads| {
      assert ThreadAt(s, t);
      if step.Acquire? || step.Release? || step.SetIntr? || step.SwitchOut? {
        assert Apart(s, t, step.t) && ThreadAt(s, step.t);
      }
      if step.SwitchIn? || step.FirstIn? {
        assert CpuAt(s, step.c);
      }
    }
  }

  lemma CpuKept(s: State, step: Step, r: State, c: nat)
    requires Inv(s) && Next(s, step, r) && c < |r.cpus|
    ensures CpuAt(r, c)
  {
    assert CpuAt(s, c);
    if step.SetIntr? {
      assert ThreadAt(s, step.t);
    }
  }

  lemma ApartKept(s: State, step: Step, r: State, t: nat, u: nat)
    requires Inv(s) && Next(s, step, r) && t < |r.threads| && u < |r.threads|
    ensures Apart(r, t, u)
  {
    if t < |s.threads| && u < |s.threads| {
      assert Apart(s, t, u);
    }
  }

  lemma NextKeepsInv(s: State, step: Step, r: State)
    requires Inv(s) && Next(s, step, r)
    ensures Inv(r)
  {
    forall t | 0 <= t < |r.threads|
      ensures ThreadAt(r, t)
    {
      ThreadKept(s, step, r, t);
    }
    forall c | 0 <= c < |r.cpus|
      ensures CpuAt(r, c)
    {
      CpuKept(s, step, r, c);
    }
    forall t, u | 0 <= t < |r.threads| && 0 <= u < |r.threads|
      ensures Apart(r, t, u)
    {
      ApartKept(s, step, r, t, u);
    }
  }

  ghost predicate StepAt(run: seq<State>, steps: seq<Step>, i: nat)
    requires i + 1 < |run| && i < |steps|
  {
    Next(run[i], steps[i], run[i + 1])
  }

  /** Every thread runs without a lock on a CPU of its own, or waits in sched. */
  ghost predicate Init(s: State) {
    && (forall c :: 0 <= c < |s.cpus| ==> s.cpus[c].noff == 0)
    && (forall t, u {:trigger Apart(s, t, u)} :: 0 <= t < |s.threads| && 0 <= u < |s.threads| ==> Apart(s, t, u))
    && forall t :: 0 <= t < |s.threads| ==>
         var x := s.threads[t];
         if x.on < 0 then x.on == -1 && x.depth == 1 && (x.isNew || x.saved == x.wants)
         else x.on < |s.cpus| && !x.isNew && x.depth == 0 && s.cpus[x.on].intr == x.wants
  }

  ghost predicate IsRun(run: seq<State>, steps: seq<Step>) {
    && |run| == |steps| + 1 && Init(run[0])
    && forall i {:trigger StepAt(run, steps, i)} :: 0 <= i < |steps| ==> StepAt(run, steps, i)
  }

  lemma {:induction false} RunKeepsInv(run: seq<State>, steps: seq<Step>, i: nat)
    requires IsRun(run, steps) && i < |run|
    ensures Inv(run[i])
  {
    if i > 0 {
      RunKeepsInv(run, steps, i - 1);
      assert StepAt(run, steps, i - 1);
      NextKeepsInv(run[i - 1], steps[i - 1], run[i]);
    }
  }

  /** Thread t holds a lock at point k. */
  ghost predicate HeldAt(run: seq<State>, t: nat, k: nat)
    requires k < |run|
  {
    t < |run[k].threads| && run[k].threads[t].depth > 0
  }

  /**
   From a thread's outermost acquire to the release that leaves it no lock, on
   whatever CPUs sched has put it in between, interrupts are off wherever it
   runs; afterwards they are as they were before.
   */
  lemma InterruptsRestored(run: seq<State>, steps: seq<Step>, i: nat, j: nat, t: nat)
    requires IsRun(run, steps) && i < j < |run| && t < |run[i].threads| && t < |run[j].threads|
    requires Placed(run[i], t) && run[i].threads[t].depth == 0 && Placed(run[j], t) && run[j].threads[t].depth == 0
    requires forall k {:trigger HeldAt(run, t, k)} :: i < k < j ==> HeldAt(run, t, k)
    requires forall k :: i <= k < j ==> !(steps[k].SetIntr? && steps[k].t == t)
    ensures run[j].cpus[run[j].threads[t].on].intr == run[i].cpus[run[i].threads[t].on].intr
    ensures forall k :: i < k < j && Placed(run[k], t) ==> !run[k].cpus[run[k].threads[t].on].intr
  {
    RunKeepsInv(run, steps, i);
    RunKeepsInv(run, steps, j);
    WantsKept(run, steps, i, j, t);
    assert ThreadAt(run[i], t) && ThreadAt(run[j], t);
    forall k | i < k < j && Placed(run[k], t)
      ensures !run[k].cpus[run[k].threads[t].on].intr
    {
      RunKeepsInv(run, steps, k);
      assert HeldAt(run, t, k) && ThreadAt(run[k], t);
    }
  }

  lemma {:induction false} WantsKept(run: seq<State>, steps: seq<Step>, i: nat, j: nat, t: nat)
    requires IsRun(run, steps) && i <= j < |run| && t < |run[i].threads|
    requires Placed(run[i], t) && run[i].threads[t].depth == 0
    requires forall k {:trigger HeldAt(run, t, k)} :: i < k < j ==> HeldAt(run, t, k)
    requires forall k :: i <= k < j ==> !(steps[k].SetIntr? && steps[k].t == t)
    ensures t < |run[j].threads| && !run[j].threads[t].isNew && run[j].threads[t].wants == run[i].threads[t].wants
    decreases j
  {
    RunKeepsInv(run, steps, i);
    assert ThreadAt(run[i], t);
    if i < j {
      WantsKept(run, steps, i, j - 1, t);
      assert StepAt(run, steps, j - 1);
      if i < j - 1 {
        assert HeldAt(run, t, j - 1);
      }
      OneStep(run[j - 1], steps[j - 1], run[j], t);
    }
  }

  lemma OneStep(s: State, step: Step, r: State, t: nat)
    requires Next(s, step, r) && t < |s.threads| && !s.threads[t].isNew && !(step.SetIntr? && step.t == t)
    requires s.threads[t].depth > 0 || (Placed(s, t) && s.cpus[s.threads[t].on].intr == s.threads[t].wants)
    ensures t < |r.threads| && !r.threads[t].isNew && r.threads[t].wants == s.threads[t].wants
  {
  }
}
