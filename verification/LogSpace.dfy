/**
 Log space: begin_op's reservation arithmetic against log_write's size panic,
 over every interleaving of operations that each add a bounded number of
 blocks. mkfs sets nlog to LOGSIZE, so log.size is LOGSIZE.
 */
module LogSpace {
  import opened Log
  import opened Logger
  import opened LogRuns

  /** What the open operations may still add if each adds at most limit. */
  function Slack(ops: seq<nat>, limit: int): (r: int) {
    if ops == [] then 0 else limit - ops[0] + Slack(ops[1..], limit)
  }

  ghost predicate OpsWithin(ops: seq<nat>, limit: int) {
    forall i :: 0 <= i < |ops| ==> ops[i] <= limit
  }

  ghost predicate RunWithin(run: seq<State>, limit: int) {
    forall k :: 0 <= k < |run| ==> OpsWithin(run[k].ops, limit)
  }

  lemma {:induction false} SlackBound(ops: seq<nat>, limit: nat)
    ensures Slack(ops, limit) <= limit * |ops|
  {
    if ops != [] {
      SlackBound(ops[1..], limit);
    }
  }

  lemma {:induction false} SlackAppend(ops: seq<nat>, more: seq<nat>, limit: int)
    ensures Slack(ops + more, limit) == Slack(ops, limit) + Slack(more, limit)
  {
    if ops == [] {
      assert ops + more == more;
    } else {
      assert (ops + more)[1..] == ops[1..] + more;
      SlackAppend(ops[1..], more, limit);
    }
  }

  lemma SlackSplit(ops: seq<nat>, i: nat, limit: int)
    requires i < |ops|
    ensures Slack(ops, limit) == Slack(ops[..i], limit) + (limit - ops[i]) + Slack(ops[i + 1..], limit)
  {
    assert ops == ops[..i] + ops[i..];
    SlackAppend(ops[..i], ops[i..], limit);
  }

  lemma SlackUpdate(ops: seq<nat>, i: nat, v: nat, limit: int)
    requires i < |ops|
    ensures Slack(ops[i := v], limit) == Slack(ops, limit) + ops[i] - v
  {
    SlackSplit(ops, i, limit);
    SlackSplit(ops[i := v], i, limit);
    assert ops[i := v][..i] == ops[..i] && ops[i := v][i + 1..] == ops[i + 1..];
  }

  lemma SlackRemove(ops: seq<nat>, i: nat, limit: int)
    requires i < |ops|
    ensures Slack(ops[..i] + ops[i + 1..], limit) == Slack(ops, limit) - (limit - ops[i])
  {
    SlackSplit(ops, i, limit);
    SlackAppend(ops[..i], ops[i + 1..], limit);
  }

  lemma {:induction false} SlackNonNegative(ops: seq<nat>, limit: int)
    requires OpsWithin(ops, limit)
    ensures Slack(ops, limit) >= 0
  {
    if ops != [] {
      SlackNonNegative(ops[1..], limit);
    }
  }

  /** Operations that add at most limit blocks each stay within cap log blocks. */
  ghost predicate Reserved(s: State, limit: nat, cap: nat) {
    if s.mode.Idle? then |s.lh| + Slack(s.ops, limit) <= cap && (s.ops == [] ==> s.lh == [])
    else s.ops == []
  }

  /** Whenever begin_op lets in one more operation, there is room for it. */
  ghost predicate Admits(limit: nat, cap: nat) {
    && limit <= cap
    && forall n: nat, o: nat :: MayBegin(n, o, false) && o > 0 ==> n + limit * o + limit <= cap
  }

  lemma NextKeepsReserved(a: Area, s: State, t: State, step: Step, limit: nat, cap: nat)
    requires Reserved(s, limit, cap) && OpsWithin(s.ops, limit) && Admits(limit, cap)
    requires Next(a, s, t, step)
    ensures Reserved(t, limit, cap)
  {
    match step
    case Begin =>
      SlackBound(s.ops, limit);
      SlackAppend(s.ops, [0], limit);
      assert Slack([0], limit) == limit;
    case LogWrite(i, b, data) =>
      if b !in s.lh {
        SlackUpdate(s.ops, i, s.ops[i] + 1, limit);
      }
    case End(i) =>
      if |s.ops| > 1 {
        SlackRemove(s.ops, i, limit);
      }
    case DiskWrite =>
    case Finish =>
    case Crash =>
  }

  lemma {:induction false} RunKeepsReserved(a: Area, run: seq<State>, steps: seq<Step>, k: nat, limit: nat, cap: nat)
    requires IsRun(a, run, steps) && RunWithin(run, limit) && Admits(limit, cap) && k < |run|
    ensures Reserved(run[k], limit, cap)
  {
    if k > 0 {
      RunKeepsReserved(a, run, steps, k - 1, limit, cap);
      NextKeepsReserved(a, run[k - 1], run[k], steps[k - 1], limit, cap);
    }
  }

  /** begin_op admits an operation exactly when the log has room for it and for all
      that the open ones may still add, however little each has added so far. */
  lemma AdmittedExactly(n: nat, outstanding: nat)
    ensures MayBegin(n, outstanding, false) <==>
            forall ops: seq<nat> {:trigger Slack(ops, MAXOPBLOCKS)} :: |ops| == outstanding ==>
              n + Slack(ops, MAXOPBLOCKS) + MAXOPBLOCKS <= LOGSIZE
  {
    forall ops: seq<nat> | |ops| == outstanding
      ensures Slack(ops, MAXOPBLOCKS) <= MAXOPBLOCKS * outstanding
    {
      SlackBound(ops, MAXOPBLOCKS);
    }
    var unused := seq(outstanding, _ => 0);
    SlackFresh(outstanding);
    assert |unused| == outstanding && Slack(unused, MAXOPBLOCKS) == MAXOPBLOCKS * outstanding;
  }

  lemma {:induction false} SlackFresh(k: nat)
    ensures Slack(seq(k, _ => 0), MAXOPBLOCKS) == MAXOPBLOCKS * k
  {
    if k > 0 {
      var ops: seq<nat> := seq(k, _ => 0);
      assert ops[1..] == seq(k - 1, _ => 0);
      SlackFresh(k - 1);
    }
  }

  /** The header plus the unused reservations of the open operations fit LOGSIZE. */
  lemma ReservationHolds(a: Area, run: seq<State>, steps: seq<Step>, k: nat)
    requires IsRun(a, run, steps) && RunWithin(run, MAXOPBLOCKS) && k < |run|
    ensures run[k].mode.Idle? ==> |run[k].lh| + Slack(run[k].ops, MAXOPBLOCKS) <= LOGSIZE
    ensures OpsWithin(run[k].ops, MAXOPBLOCKS) && run[k].mode.Idle? ==> |run[k].lh| <= LOGSIZE
  {
    RunKeepsReserved(a, run, steps, k, MAXOPBLOCKS, LOGSIZE);
    SlackNonNegative(run[k].ops, MAXOPBLOCKS);
  }

  /** Operations that add fewer than MAXOPBLOCKS blocks never meet the panic. */
  lemma NoSizePanic(a: Area, run: seq<State>, steps: seq<Step>, k: nat)
    requires IsRun(a, run, steps) && RunWithin(run, MAXOPBLOCKS - 1) && k < |run|
    requires a.size == LOGSIZE
    ensures run[k].ops != [] ==> !TooBig(a, |run[k].lh|)
  {
    RunKeepsReserved(a, run, steps, k, MAXOPBLOCKS - 1, LOGSIZE - 2);
    SlackNonNegative(run[k].ops, MAXOPBLOCKS - 1);
  }

  // ----- the bound is exact: MAXOPBLOCKS blocks each can panic -----

  ghost predicate AddsFrom(s: State, i: nat, first: nat, count: nat) {
    && s.mode.Idle? && i < |s.ops| && first + count <= |s.cache|
    && forall b :: b in s.lh ==> b < first
  }

  /** Operation i logs the count blocks first, first + 1, ... */
  lemma {:induction false} AddBlocks(a: Area, run: seq<State>, steps: seq<Step>, i: nat, first: nat, count: nat)
    returns (run': seq<State>, steps': seq<Step>)
    requires IsRun(a, run, steps) && RunWithin(run, MAXOPBLOCKS)
    requires var s := run[|run| - 1];
             && AddsFrom(s, i, first, count) && first >= a.start + a.size
             && s.ops[i] + count <= MAXOPBLOCKS
             && |s.lh| + count <= LOGSIZE - 1 && |s.lh| + count <= a.size - 1
    ensures IsRun(a, run', steps') && RunWithin(run', MAXOPBLOCKS)
    ensures run'[0] == run[0]
    ensures var s, t := run[|run| - 1], run'[|run'| - 1];
            && AddsFrom(t, i, first + count, 0) && |t.lh| == |s.lh| + count && |t.cache| == |s.cache|
            && t.ops == s.ops[i := s.ops[i] + count]
    decreases count
  {
    var s := run[|run| - 1];
    if count == 0 {
      run', steps' := run, steps;
      assert s.ops == s.ops[i := s.ops[i]];
    } else {
      var t := s.(cache := s.cache[first := s.cache[first]], lh := s.lh + [first], ops := s.ops[i := s.ops[i] + 1]);
      assert first !in s.lh;
      assert Next(a, s, t, LogWrite(i, first, s.cache[first]));
      run', steps' := AddBlocks(a, run + [t], steps + [LogWrite(i, first, s.cache[first])], i, first + 1, count - 1);
    }
  }

  lemma Extend(a: Area, run: seq<State>, steps: seq<Step>, t: State, step: Step)
    requires IsRun(a, run, steps) && Next(a, run[|run| - 1], t, step)
    requires RunWithin(run, MAXOPBLOCKS) && OpsWithin(t.ops, MAXOPBLOCKS)
    ensures IsRun(a, run + [t], steps + [step]) && RunWithin(run + [t], MAXOPBLOCKS)
  {
  }

  /** Beside the one open operation another starts and logs ten blocks from f. */
  lemma TenMore(a: Area, run: seq<State>, steps: seq<Step>, f: nat) returns (run': seq<State>, steps': seq<Step>)
    requires IsRun(a, run, steps) && RunWithin(run, MAXOPBLOCKS) && f >= a.start + a.size && a.size == LOGSIZE
    requires var s := run[|run| - 1]; AddsFrom(s, 0, f, 10) && s.ops == [0] && |s.lh| <= 10
    ensures IsRun(a, run', steps') && RunWithin(run', MAXOPBLOCKS) && run'[0] == run[0]
    ensures var s, t := run[|run| - 1], run'[|run'| - 1];
            AddsFrom(t, 1, f + 10, 0) && |t.lh| == |s.lh| + 10 && |t.cache| == |s.cache| && t.ops == [0, 10]
  {
    var s := run[|run| - 1];
    var t := s.(ops := [0, 0]);
    Extend(a, run, steps, t, Begin);
    run', steps' := AddBlocks(a, run + [t], steps + [Begin], 1, f, 10);
  }

  /** An operation starts; a second one logs ten blocks and ends. */
  lemma FirstTen(a: Area, s0: State) returns (run: seq<State>, steps: seq<Step>)
    requires Init(a, s0) && a.size == LOGSIZE && a.start + a.size + LOGSIZE <= |s0.disk|
    ensures IsRun(a, run, steps) && RunWithin(run, MAXOPBLOCKS)
    ensures var s := run[|run| - 1];
            AddsFrom(s, 0, a.start + a.size + 10, 20) && |s.lh| == 10 && s.ops == [0]
  {
    var t := s0.(ops := [0]);
    Extend(a, [s0], [], t, Begin);
    run, steps := TenMore(a, [s0] + [t], [] + [Begin], a.start + a.size);
    var s := run[|run| - 1];
    Extend(a, run, steps, s.(ops := [0]), End(1));
    run, steps := run + [s.(ops := [0])], steps + [End(1)];
  }

  /** The longest-lived operation starts first; one other fills ten blocks and
      ends, a second fills ten more, and then the first cannot log its tenth. */
  lemma PanicRun(a: Area, s0: State) returns (run: seq<State>, steps: seq<Step>)
    requires Init(a, s0) && a.size == LOGSIZE && a.start + a.size + LOGSIZE <= |s0.disk|
    ensures IsRun(a, run, steps) && RunWithin(run, MAXOPBLOCKS)
    ensures var s := run[|run| - 1];
            s.ops == [9, 10] && s.mode.Idle? && TooBig(a, |s.lh|)
  {
    var f := a.start + a.size;
    run, steps := FirstTen(a, s0);
    run, steps := TenMore(a, run, steps, f + 10);
    run, steps := AddBlocks(a, run, steps, 0, f + 20, 9);
  }

  ghost predicate NeverTooBig(a: Area, run: seq<State>) {
    forall k :: 0 <= k < |run| && run[k].ops != [] ==> !TooBig(a, |run[k].lh|)
  }

  /**
   log_write's "too big a transaction" is unreachable on every interleaving
   exactly when each operation adds fewer than MAXOPBLOCKS blocks; the
   documented limit of MAXOPBLOCKS itself is one too many.
   */
  lemma SizePanicExactly(a: Area, s0: State, limit: nat)
    requires Init(a, s0) && a.size == LOGSIZE && a.start + a.size + LOGSIZE <= |s0.disk|
    ensures limit < MAXOPBLOCKS <==>
            forall run: seq<State>, steps: seq<Step> ::
                 IsRun(a, run, steps) && RunWithin(run, limit) ==> NeverTooBig(a, run)
  {
    if limit < MAXOPBLOCKS {
      forall run: seq<State>, steps: seq<Step> | IsRun(a, run, steps) && RunWithin(run, limit)
        ensures NeverTooBig(a, run)
      {
        forall k | 0 <= k < |run|
          ensures run[k].ops != [] ==> !TooBig(a, |run[k].lh|)
        {
          NoSizePanic(a, run, steps, k);
        }
      }
    } else {
      var run, steps := PanicRun(a, s0);
      assert RunWithin(run, limit);
      assert !NeverTooBig(a, run);
    }
  }
}
