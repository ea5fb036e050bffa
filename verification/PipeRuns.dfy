/**
 Any number of readers and writers on one pipe. Each step is one stretch under
 pi->lock, as the methods of class Pipe.Pipe specify it, or the arrival or wakeup
 of a process.
 */
module PipeRuns {
  import opened Pipe

  /** A process inside piperead or pipewrite: about to take the lock, or asleep. */
  datatype Phase =
    | Writing(src: seq<int>, i: nat)
    | WSleep(src: seq<int>, i: nat)
    | Reading(want: nat)
    | RSleep(want: nat)

  /** ins and outs are history variables: the bytes ever stored in the ring, and
      the bytes ever found there by a reader. */
  datatype State = State(ring: Ring, ins: seq<int>, outs: seq<int>, readopen: bool, writeopen: bool,
                         procs: map<nat, Phase>)

  datatype Step =
    | BeginWrite(t: nat, src: seq<int>)
    | WriteRun(t: nat, j: nat, out: Outcome)
    | BeginRead(t: nat, want: nat)
    | ReadRun(t: nat, m: nat, got: nat, out: Outcome)
    | Rouse(t: nat) // kill, or a wakeup meant for another
    | CloseRead
    | CloseWrite

  function Woken(ph: Phase): (r: Phase) {
    match ph
    case WSleep(src, i) => Writing(src, i)
    case RSleep(want) => Reading(want)
    case _ => ph
  }

  /** wakeup(&pi->nread), wakeup(&pi->nwrite) */
  function WakeReaders(procs: map<nat, Phase>): (r: map<nat, Phase>) {
    map t | t in procs :: if procs[t].RSleep? then Woken(procs[t]) else procs[t]
  }

  function WakeWriters(procs: map<nat, Phase>): (r: map<nat, Phase>) {
    map t | t in procs :: if procs[t].WSleep? then Woken(procs[t]) else procs[t]
  }

  ghost predicate NextWrite(s: State, s': State, t: nat, j: nat, out: Outcome) {
    && t in s.procs && s.procs[t].Writing? && s.procs[t].i <= j <= |s.procs[t].src|
    && var src, i := s.procs[t].src, s.procs[t].i;
       && Writes(s.ring, s'.ring, s.readopen, src, i, j, out)
       && s' == s.(ring := s'.ring, ins := s.ins + src[i..j],
                   procs := match out
                            case Asleep => WakeReaders(s.procs)[t := WSleep(src, j)]
                            case Returned => WakeReaders(s.procs) - {t}
                            case Refused => s.procs - {t})
  }

  ghost predicate NextRead(s: State, s': State, t: nat, m: nat, got: nat, out: Outcome) {
    && t in s.procs && s.procs[t].Reading? && Reads(s.ring, s'.ring, s.writeopen, s.procs[t].want, m, got, out)
    && s' == s.(ring := s'.ring, outs := s.outs + Taken(s.ring, m),
                procs := match out
                         case Asleep => s.procs[t := RSleep(s.procs[t].want)]
                         case Returned => WakeWriters(s.procs) - {t}
                         case Refused => s.procs - {t})
  }

  predicate IsReader(ph: Phase) { ph.Reading? || ph.RSleep? }

  ghost predicate Next(s: State, step: Step, s': State) {
    match step
    case BeginWrite(t, src) => t !in s.procs && s.writeopen && s' == s.(procs := s.procs[t := Writing(src, 0)])
    case BeginRead(t, want) => t !in s.procs && s.readopen && s' == s.(procs := s.procs[t := Reading(want)])
    case WriteRun(t, j, out) => NextWrite(s, s', t, j, out)
    case ReadRun(t, m, got, out) => NextRead(s, s', t, m, got, out)
    case Rouse(t) => t in s.procs && s' == s.(procs := s.procs[t := Woken(s.procs[t])])
    // A process in piperead holds the read end open, and so for writers.
    case CloseRead =>
      && (forall t :: t in s.procs ==> !IsReader(s.procs[t]))
      && s' == s.(readopen := false, procs := WakeWriters(s.procs))
    case CloseWrite =>
      && (forall t :: t in s.procs ==> IsReader(s.procs[t]))
      && s' == s.(writeopen := false, procs := WakeReaders(s.procs))
  }

  /** pipealloc: whatever the page held before. */
  ghost predicate Init(s: State) {
    |s.ring.data| == PIPESIZE && s == State(Ring(s.ring.data, 0, 0), [], [], true, true, map[])
  }

  ghost predicate StepAt(run: seq<State>, steps: seq<Step>, i: nat)
    requires i + 1 < |run| && i < |steps|
  {
    Next(run[i], steps[i], run[i + 1])
  }

  ghost predicate IsRun(run: seq<State>, steps: seq<Step>) {
    && |run| == |steps| + 1 && Init(run[0])
    && forall i {:trigger StepAt(run, steps, i)} :: 0 <= i < |steps| ==> StepAt(run, steps, i)
  }

  // ----- the queue, on every run -----

  /** The ring holds what was written and not yet read, and what was read is what
      was written first. */
  ghost predicate Queue(s: State) {
    Holds(s.ring, s.ins, |s.outs|) && s.outs == s.ins[..|s.outs|]
  }

  lemma WriteKeepsQueue(s: State, s': State, t: nat, j: nat, out: Outcome)
    requires Queue(s) && NextWrite(s, s', t, j, out)
    ensures Queue(s') && s.ins <= s'.ins && s.outs == s'.outs
  {
    PushAllHolds(s.ring, s.ins, |s.outs|, s.procs[t].src[s.procs[t].i..j]);
  }

  lemma ReadKeepsQueue(s: State, s': State, t: nat, m: nat, got: nat, out: Outcome)
    requires Queue(s) && NextRead(s, s', t, m, got, out)
    ensures Queue(s') && s.ins == s'.ins && s.outs <= s'.outs
  {
    PullAllHolds(s.ring, s.ins, |s.outs|, m);
  }

  lemma StepKeepsQueue(s: State, step: Step, s': State)
    requires Queue(s) && Next(s, step, s')
    ensures Queue(s') && s.ins <= s'.ins && s.outs <= s'.outs
  {
    match step {
      case WriteRun(t, j, out) => WriteKeepsQueue(s, s', t, j, out);
      case ReadRun(t, m, got, out) => ReadKeepsQueue(s, s', t, m, got, out);
      case _ => {}
    }
  }

  /** Bytes leave the ring in the order they came, each exactly once, never more
      than PIPESIZE wait, and both histories only grow: at every two points of any
      run, however often the counters have wrapped. */
  lemma {:induction false} PipeIsFifo(run: seq<State>, steps: seq<Step>, i: nat, j: nat)
    requires IsRun(run, steps) && i <= j < |run|
    ensures Queue(run[i]) && Queue(run[j])
    ensures run[i].ins <= run[j].ins && run[i].outs <= run[j].outs <= run[j].ins
    ensures |run[j].outs| <= |run[j].ins| <= |run[j].outs| + PIPESIZE
    decreases j
  {
    if j > 0 {
      PipeIsFifo(run, steps, if i < j then i else j - 1, j - 1);
      assert StepAt(run, steps, j - 1);
      StepKeepsQueue(run[j - 1], steps[j - 1], run[j]);
    }
  }

  // ----- sleepers -----

  ghost predicate EndAt(s: State, t: nat)
    requires t in s.procs
  {
    match s.procs[t]
    case Reading(_) => s.readopen
    case Writing(_, _) => s.writeopen
    case _ => s.readopen && s.writeopen
  }

  /** A process in the pipe holds its own end open; nobody sleeps once the other is closed. */
  ghost predicate Ends(s: State) {
    forall t {:trigger EndAt(s, t)} :: t in s.procs ==> EndAt(s, t)
  }

  lemma StepKeepsEnds(s: State, step: Step, s': State)
    requires Ends(s) && Next(s, step, s')
    ensures Ends(s')
  {
    forall t | t in s'.procs
      ensures EndAt(s', t)
    {
      if t in s.procs {
        assert EndAt(s, t);
      }
    }
  }

  /** pipeclose's wakeups reach everybody: on every run, once one end is closed no
      process sleeps waiting for it. */
  lemma {:induction false} ClosedEndsWake(run: seq<State>, steps: seq<Step>, i: nat, t: nat)
    requires IsRun(run, steps) && i < |run|
    ensures Ends(run[i])
    ensures t in run[i].procs ==>
              (run[i].procs[t].RSleep? ==> run[i].writeopen) && (run[i].procs[t].WSleep? ==> run[i].readopen)
    decreases i
  {
    if i > 0 {
      ClosedEndsWake(run, steps, i - 1, t);
      assert StepAt(run, steps, i - 1);
      StepKeepsEnds(run[i - 1], steps[i - 1], run[i]);
    }
    assert t in run[i].procs ==> EndAt(run[i], t);
  }

  ghost predicate SleeperAt(s: State, t: nat)
    requires t in s.procs
  {
    match s.procs[t]
    case RSleep(_) => Empty(s.ring) && s.writeopen
    case WSleep(_, _) => Full(s.ring) && s.readopen
    case _ => true
  }

  /** With the lock free, a sleeping reader means the pipe is empty and may yet be
      written; a sleeping writer means it is full and may yet be read. */
  ghost predicate Justified(s: State) {
    forall t {:trigger SleeperAt(s, t)} :: t in s.procs ==> SleeperAt(s, t)
  }

  /** A writer that is killed after storing some bytes, and so returns without
      wakeup, while a reader sleeps. */
  ghost predicate Strands(s: State, step: Step) {
    && step.WriteRun? && step.out.Refused? && step.t in s.procs
    && s.procs[step.t].Writing? && step.j > s.procs[step.t].i
    && exists t :: t in s.procs && s.procs[t].RSleep?
  }

  /** A step leaves all sleepers a reason exactly if it does not strand a reader. */
  lemma StepAndSleepers(s: State, step: Step, s': State)
    requires Queue(s) && Ends(s) && Justified(s) && Next(s, step, s')
    ensures Justified(s') <==> !Strands(s, step)
  {
    StepKeepsQueue(s, step, s');
    TestsAreExact(s.ring, s.ins, |s.outs|);
    TestsAreExact(s'.ring, s'.ins, |s'.outs|);
    if Strands(s, step) {
      var t :| t in s.procs && s.procs[t].RSleep?;
      assert SleeperAt(s, t);
      assert t in s'.procs && !SleeperAt(s', t);
    } else {
      forall t | t in s'.procs
        ensures SleeperAt(s', t)
      {
        if t in s.procs {
          assert SleeperAt(s, t) && EndAt(s, t);
        }
      }
    }
  }

  ghost predicate JustifiedAt(run: seq<State>, i: nat)
    requires i < |run|
  {
    Justified(run[i])
  }

  ghost predicate StrandsAt(run: seq<State>, steps: seq<Step>, i: nat)
    requires i < |run| && i < |steps|
  {
    Strands(run[i], steps[i])
  }

  lemma {:induction false} JustifiedSoFar(run: seq<State>, steps: seq<Step>, n: nat)
    requires IsRun(run, steps) && n < |run|
    requires forall i {:trigger StrandsAt(run, steps, i)} :: 0 <= i < n ==> !StrandsAt(run, steps, i)
    ensures JustifiedAt(run, n)
  {
    if n > 0 {
      JustifiedSoFar(run, steps, n - 1);
      assert StepAt(run, steps, n - 1) && JustifiedAt(run, n - 1) && !StrandsAt(run, steps, n - 1);
      PipeIsFifo(run, steps, n - 1, n - 1);
      ClosedEndsWake(run, steps, n - 1, 0);
      StepAndSleepers(run[n - 1], steps[n - 1], run[n]);
    }
  }

  /** Every sleeper has a reason at every point of a run if and only if no step of
      the run strands a reader. */
  lemma SleepersHaveReason(run: seq<State>, steps: seq<Step>)
    requires IsRun(run, steps)
    ensures (forall i {:trigger JustifiedAt(run, i)} :: 0 <= i < |run| ==> JustifiedAt(run, i)) <==>
            (forall i {:trigger StrandsAt(run, steps, i)} :: 0 <= i < |steps| ==> !StrandsAt(run, steps, i))
  {
    if forall i {:trigger StrandsAt(run, steps, i)} :: 0 <= i < |steps| ==> !StrandsAt(run, steps, i) {
      forall i | 0 <= i < |run|
        ensures JustifiedAt(run, i)
      {
        JustifiedSoFar(run, steps, i);
      }
    }
    if forall i {:trigger JustifiedAt(run, i)} :: 0 <= i < |run| ==> JustifiedAt(run, i) {
      forall i | 0 <= i < |steps|
        ensures !StrandsAt(run, steps, i)
      {
        assert JustifiedAt(run, i) && JustifiedAt(run, i + 1) && StepAt(run, steps, i);
        PipeIsFifo(run, steps, i, i);
        ClosedEndsWake(run, steps, i, 0);
        StepAndSleepers(run[i], steps[i], run[i + 1]);
      }
    }
  }

  // The run that strands a reader, state by state.

  function Opened(data: seq<int>): (s: State) { State(Ring(data, 0, 0), [], [], true, true, map[]) }
  function OneReads(data: seq<int>): (s: State) { Opened(data).(procs := map[0 := Reading(1)]) }
  function OneSleeps(data: seq<int>): (s: State) { Opened(data).(procs := map[0 := RSleep(1)]) }
  function OneWrites(data: seq<int>): (s: State) {
    Opened(data).(procs := map[0 := RSleep(1), 1 := Writing([7, 7], 0)])
  }
  function OneStored(data: seq<int>): (s: State)
    requires |data| == PIPESIZE
  {
    OneSleeps(data).(ring := Push(Ring(data, 0, 0), 7), ins := [7])
  }

  lemma FallsAsleep(data: seq<int>)
    requires |data| == PIPESIZE
    ensures Next(OneReads(data), ReadRun(0, 0, 0, Asleep), OneSleeps(data))
  {
    assert OneReads(data).procs[0 := RSleep(1)] == OneSleeps(data).procs;
  }

  lemma EntersWrite(data: seq<int>)
    ensures Next(Opened(data), BeginRead(0, 1), OneReads(data))
    ensures Next(OneSleeps(data), BeginWrite(1, [7, 7]), OneWrites(data))
  {
    assert OneSleeps(data).procs[1 := Writing([7, 7], 0)] == OneWrites(data).procs;
  }

  lemma IsKilled(data: seq<int>)
    requires |data| == PIPESIZE
    ensures Next(OneWrites(data), WriteRun(1, 1, Refused), OneStored(data))
    ensures Strands(OneWrites(data), WriteRun(1, 1, Refused))
  {
    var s := OneWrites(data);
    OneByte(s.ring);
    assert s.procs - {1} == OneStored(data).procs && [7, 7][0..1] == [7];
    assert 0 in s.procs && s.procs[0].RSleep?;
  }

  lemma OneByte(r: Ring)
    requires |r.data| == PIPESIZE && r.nread == r.nwrite == 0
    ensures CanPush(r, [7]) && PushAll(r, [7]) == Push(r, 7)
  {
    assert [7][..0] == [];
  }

  /** The kernel allows it: a reader asleep beside a byte it could have. */
  lemma StrandedReader(data: seq<int>) returns (run: seq<State>, steps: seq<Step>)
    requires |data| == PIPESIZE
    ensures IsRun(run, steps) && |steps| == 4 && StrandsAt(run, steps, 3)
    ensures |run[4].ins| == |run[4].outs| + 1 && run[4].writeopen && 0 in run[4].procs && run[4].procs[0].RSleep?
  {
    run := [Opened(data), OneReads(data), OneSleeps(data), OneWrites(data), OneStored(data)];
    steps := [BeginRead(0, 1), ReadRun(0, 0, 0, Asleep), BeginWrite(1, [7, 7]), WriteRun(1, 1, Refused)];
    EntersWrite(data);
    FallsAsleep(data);
    IsKilled(data);
    assert StepAt(run, steps, 0) && StepAt(run, steps, 1) && StepAt(run, steps, 2) && StepAt(run, steps, 3);
  }
}
