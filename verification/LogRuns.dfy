/**
 Many operations share one transaction. Each step of this machine is one
 critical section of log.c, one disk write of commit or recovery, or a crash;
 a run is any interleaving of them.
 */
module LogRuns {
  import opened Log
  import opened Logger

  datatype Mode = Idle | Committing | Recovering

  /**
   ops[i] is how many blocks the i-th open operation has added to the header.
   During commit and recovery, batch[..done] has reached the disk since it was
   base (and the cache since it was snap). committed is a history variable: the
   contents of the last transaction whose header reached the disk.
   */
  datatype State = State(disk: Disk, cache: Disk, lh: seq<nat>, ops: seq<nat>, mode: Mode,
                         base: Disk, snap: Disk, batch: seq<Write>, done: nat, committed: Disk)

  datatype Step =
    | Begin
    | LogWrite(i: nat, b: nat, data: Block)
    | End(i: nat)
    | DiskWrite
    | Finish
    | Crash

  ghost predicate Init(a: Area, s: State) {
    && Clean(a, s.disk) && s.cache == s.disk == s.committed
    && s.lh == [] && s.ops == [] && s.mode.Idle? && s.batch == [] && s.done == 0
    && s.base == s.snap == s.disk
  }

  ghost predicate Next(a: Area, s: State, t: State, step: Step) {
    match step
    case Begin =>
      && s.mode.Idle? && MayBegin(|s.lh|, |s.ops|, false)
      && t == s.(ops := s.ops + [0])
    case LogWrite(i, b, data) =>
      // bread, modify, log_write and brelse: the buffer's lock is held throughout.
      && s.mode.Idle? && i < |s.ops| && b < |s.cache| && !a.Has(b) && !TooBig(a, |s.lh|)
      && t == s.(cache := s.cache[b := data], lh := Absorb(s.lh, b),
                 ops := if b in s.lh then s.ops else s.ops[i := s.ops[i] + 1])
    case End(i) =>
      && s.mode.Idle? && i < |s.ops|
      && if |s.ops| > 1 then t == s.(ops := s.ops[..i] + s.ops[i + 1..])
         else
           && a.Fits(s.cache) && (forall j :: 0 <= j < |s.lh| ==> s.lh[j] < |s.cache|)
           && t == s.(ops := [], mode := Committing, base := s.disk, snap := s.cache,
                      batch := CommitWrites(a, s.cache, s.lh), done := 0)
    case DiskWrite =>
      && !s.mode.Idle? && s.done < |s.batch|
      && var w := s.batch[s.done];
         && w.blockno < |s.disk| && w.blockno < |s.cache|
         && t == s.(disk := s.disk[w.blockno := w.data], cache := s.cache[w.blockno := w.data],
                    done := s.done + 1,
                    committed := if s.mode.Committing? && s.done == |s.lh| then s.snap else s.committed)
    case Finish =>
      && !s.mode.Idle? && s.done == |s.batch|
      && t == s.(mode := Idle, lh := [], batch := [], done := 0)
    case Crash =>
      && GoodDisk(a, s.disk)
      && t == State(s.disk, s.disk, [], [], Recovering, s.disk, s.disk, RecoverWrites(a, s.disk), 0, s.committed)
  }

  ghost predicate IsRun(a: Area, run: seq<State>, steps: seq<Step>) {
    && |run| == |steps| + 1
    && Init(a, run[0])
    && forall k :: 0 <= k < |steps| ==> Next(a, run[k], run[k + 1], steps[k])
  }

  // ----- the invariant -----

  ghost predicate Sizes(a: Area, s: State) {
    && a.Fits(s.disk) && |s.cache| == |s.disk| == |s.base| == |s.snap| == |s.committed|
    && GoodLh(a, |s.disk|, s.lh)
  }

  /** d and e differ at most on the blocks named by lh. */
  ghost predicate SameBut(d: Disk, e: Disk, lh: seq<nat>) {
    |d| == |e| && forall b {:trigger d[b]} :: 0 <= b < |d| && b !in lh ==> d[b] == e[b]
  }

  ghost predicate IdleInv(a: Area, s: State) {
    && Clean(a, s.disk) && SameHome(a, s.disk, s.committed) && SameBut(s.cache, s.disk, s.lh)
    && (s.ops == [] ==> s.lh == [])
  }

  ghost predicate CommitInv(a: Area, s: State)
    requires Sizes(a, s)
  {
    && s.ops == [] && Clean(a, s.base) && SameBut(s.snap, s.base, s.lh)
    && s.batch == CommitWrites(a, s.snap, s.lh) && s.done <= |s.batch| && InRange(s.batch, |s.base|)
    && s.disk == After(s.base, s.batch, s.done) && s.cache == After(s.snap, s.batch, s.done)
    && (if s.done <= |s.lh| then SameHome(a, s.base, s.committed) else s.committed == s.snap)
  }

  ghost predicate RecoverInv(a: Area, s: State) {
    && s.ops == [] && s.lh == [] && DurableIs(a, s.base, s.committed)
    && s.batch == RecoverWrites(a, s.base) && s.done <= |s.batch|
    && s.cache == s.disk == After(s.base, s.batch, s.done)
  }

  ghost predicate Inv(a: Area, s: State) {
    && Sizes(a, s)
    && match s.mode
       case Idle => IdleInv(a, s)
       case Committing => CommitInv(a, s)
       case Recovering => RecoverInv(a, s)
  }

  lemma DurableSameHome(a: Area, d: Disk, f: Disk, g: Disk)
    requires DurableIs(a, d, f) && SameHome(a, f, g)
    ensures DurableIs(a, d, g)
  {
    var lh := DecodeHead(d[a.start]);
    forall i | 0 <= i < |lh|
      ensures CopyAt(a, d, g, lh, i)
    {
      assert CopyAt(a, d, f, lh, i);
    }
  }

  lemma CommittedIsSnap(d: Disk, snap: Disk, lh: seq<nat>)
    requires SameBut(snap, d, lh)
    ensures Committed(d, snap, lh) == snap
  {
  }

  /** At every moment the disk is worth exactly the last committed transaction. */
  lemma InvIsDurable(a: Area, s: State)
    requires Inv(a, s)
    ensures DurableIs(a, s.disk, s.committed)
  {
    match s.mode
    case Idle => CleanIsDurable(a, s.disk, s.committed);
    case Committing =>
      CommitPrefix(a, s.base, s.snap, s.lh, s.done);
      CommittedIsSnap(s.base, s.snap, s.lh);
      if s.done <= |s.lh| {
        DurableSameHome(a, s.disk, s.base, s.committed);
      }
    case Recovering => RecoverPrefix(a, s.base, s.committed, s.done);
  }

  lemma {:induction false} AfterSame(d: Disk, e: Disk, w: seq<Write>, k: nat, b: nat)
    requires |d| == |e| && InRange(w, |d|) && k <= |w| && b < |d| && d[b] == e[b]
    ensures After(d, w, k)[b] == After(e, w, k)[b]
  {
    if k > 0 {
      AfterSame(d, e, w, k - 1, b);
    }
  }

  /** commit brings every logged block home, whatever disk it starts from. */
  lemma HomeWritten(a: Area, d: Disk, snap: Disk, lh: seq<nat>, b: nat)
    requires a.Fits(d) && |snap| == |d| && GoodLh(a, |d|, lh) && b in lh
    ensures b < |d| && InRange(CommitWrites(a, snap, lh), |d|)
    ensures var w := CommitWrites(a, snap, lh); After(d, w, |w|)[b] == snap[b]
  {
    var w := CommitWrites(a, snap, lh);
    CommitState(a, d, snap, lh, |w|);
    var r, f := After(d, w, |w|), Committed(d, snap, lh);
    assert SameHome(a, r, f) && !a.Has(b);
    assert f[b] == snap[b];
  }

  /** When commit is done the cache and the disk agree on every block again. */
  lemma CommitSyncs(a: Area, base: Disk, snap: Disk, lh: seq<nat>)
    requires Clean(a, base) && GoodLh(a, |base|, lh) && SameBut(snap, base, lh)
    ensures var w := CommitWrites(a, snap, lh);
            InRange(w, |base|) && After(base, w, |w|) == After(snap, w, |w|)
  {
    var w := CommitWrites(a, snap, lh);
    CommitInRange(a, snap, lh);
    forall b | 0 <= b < |base|
      ensures After(base, w, |w|)[b] == After(snap, w, |w|)[b]
    {
      if b in lh {
        HomeWritten(a, base, snap, lh, b);
        HomeWritten(a, snap, snap, lh, b);
      } else {
        AfterSame(base, snap, w, |w|, b);
      }
    }
  }

  lemma LogWriteKeepsInv(a: Area, s: State, t: State, i: nat, b: nat, data: Block)
    requires Inv(a, s) && Next(a, s, t, LogWrite(i, b, data))
    ensures Inv(a, t)
  {
    AbsorbKeepsGood(a, |s.disk|, s.lh, b);
  }

  lemma EndKeepsInv(a: Area, s: State, t: State, i: nat)
    requires Inv(a, s) && Next(a, s, t, End(i))
    ensures Inv(a, t)
  {
    CommitInRange(a, s.cache, s.lh);
  }

  lemma DiskWriteKeepsInv(a: Area, s: State, t: State)
    requires Inv(a, s) && Next(a, s, t, DiskWrite)
    ensures Inv(a, t)
  {
  }

  lemma FinishKeepsInv(a: Area, s: State, t: State)
    requires Inv(a, s) && Next(a, s, t, Finish)
    ensures Inv(a, t)
  {
    if s.mode.Committing? {
      CommitPrefix(a, s.base, s.snap, s.lh, s.done);
      CommittedIsSnap(s.base, s.snap, s.lh);
      CommitSyncs(a, s.base, s.snap, s.lh);
    } else {
      RecoverPrefix(a, s.base, s.committed, s.done);
    }
  }

  lemma CrashKeepsInv(a: Area, s: State, t: State)
    requires Inv(a, s) && Next(a, s, t, Crash)
    ensures Inv(a, t)
  {
    InvIsDurable(a, s);
  }

  lemma NextKeepsInv(a: Area, s: State, t: State, step: Step)
    requires Inv(a, s) && Next(a, s, t, step)
    ensures Inv(a, t)
  {
    match step
    case Begin =>
    case LogWrite(i, b, data) => LogWriteKeepsInv(a, s, t, i, b, data);
    case End(i) => EndKeepsInv(a, s, t, i);
    case DiskWrite => DiskWriteKeepsInv(a, s, t);
    case Finish => FinishKeepsInv(a, s, t);
    case Crash => CrashKeepsInv(a, s, t);
  }

  lemma {:induction false} RunKeepsInv(a: Area, run: seq<State>, steps: seq<Step>, k: nat)
    requires IsRun(a, run, steps) && k < |run|
    ensures Inv(a, run[k])
  {
    if k > 0 {
      RunKeepsInv(a, run, steps, k - 1);
      NextKeepsInv(a, run[k - 1], run[k], steps[k - 1]);
    }
  }

  /**
   Durability on every interleaving: stop any run anywhere, let recovery be
   interrupted any number of times, and the recovery that completes leaves
   exactly the last committed transaction on the home blocks. In particular a
   crash is survivable in every reachable state.
   */
  lemma RecoveryRestoresCommitted(a: Area, run: seq<State>, steps: seq<Step>, k: nat, crashes: seq<nat>)
    requires IsRun(a, run, steps) && k < |run|
    ensures GoodDisk(a, run[k].disk)
    ensures var d := Attempts(a, run[k].disk, crashes);
            && GoodDisk(a, d)
            && var final := After(d, RecoverWrites(a, d), |RecoverWrites(a, d)|);
               Clean(a, final) && SameHome(a, final, run[k].committed)
  {
    RunKeepsInv(a, run, steps, k);
    InvIsDurable(a, run[k]);
    AttemptsKeepDurable(a, run[k].disk, run[k].committed, crashes);
    var d := Attempts(a, run[k].disk, crashes);
    RecoverPrefix(a, d, run[k].committed, |RecoverWrites(a, d)|);
  }

  /**
   Group commit: what is committed changes only when no operation is open, and
   it becomes the whole cache at that moment: every finished operation's
   writes, and no unfinished operation's. No operation is open while commit or
   recovery is writing.
   */
  lemma CommittedAtBoundary(a: Area, run: seq<State>, steps: seq<Step>, k: nat)
    requires IsRun(a, run, steps) && k < |steps|
    ensures !run[k].mode.Idle? ==> run[k].ops == []
    ensures run[k + 1].committed == run[k].committed
            || (run[k].mode.Committing? && run[k].ops == [] && SameHome(a, run[k].cache, run[k + 1].committed))
  {
    RunKeepsInv(a, run, steps, k);
    var s := run[k];
    if s.mode.Committing? && s.done == |s.lh| && s.lh != [] {
      CommitState(a, s.snap, s.snap, s.lh, s.done);
      assert SameHome(a, s.cache, s.snap);
    }
  }

  /** When the commit begun by the last end_op finishes, the cache is durable. */
  lemma FinishedCommitIsDurable(a: Area, run: seq<State>, steps: seq<Step>, k: nat)
    requires IsRun(a, run, steps) && k < |steps| && steps[k].Finish?
    ensures SameHome(a, run[k + 1].cache, run[k + 1].committed)
  {
    RunKeepsInv(a, run, steps, k + 1);
  }

  ghost predicate NoCrashAt(steps: seq<Step>, i: nat)
    requires i < |steps|
  {
    !steps[i].Crash? && !steps[i].Finish?
  }

  /** During a commit the transaction does not change. */
  lemma {:induction false} CommitKeepsSnap(a: Area, run: seq<State>, steps: seq<Step>, k: nat, m: nat)
    requires IsRun(a, run, steps) && k <= m < |run| && run[k].mode.Committing?
    requires forall i {:trigger NoCrashAt(steps, i)} :: k <= i < m ==> NoCrashAt(steps, i)
    ensures run[m].mode.Committing? && run[m].snap == run[k].snap
    ensures run[m].lh == run[k].lh && run[m].batch == run[k].batch
    decreases m
  {
    if k < m {
      CommitKeepsSnap(a, run, steps, k, m - 1);
      assert NoCrashAt(steps, m - 1) && Next(a, run[m - 1], run[m], steps[m - 1]);
      RunKeepsInv(a, run, steps, m - 1);
    }
  }

  /**
   What end_op promises: when the last open operation has ended and the commit it
   starts has finished without a crash, what is committed is exactly what the
   cache held when that operation ended.
   */
  lemma EndedIsCommitted(a: Area, run: seq<State>, steps: seq<Step>, k: nat, m: nat)
    requires IsRun(a, run, steps) && k < m < |steps| && steps[k].End? && |run[k].ops| == 1 && steps[m].Finish?
    requires forall i {:trigger NoCrashAt(steps, i)} :: k < i < m ==> NoCrashAt(steps, i)
    ensures SameHome(a, run[k].cache, run[m + 1].committed) && SameHome(a, run[k].cache, run[m + 1].disk)
  {
    assert Next(a, run[k], run[k + 1], steps[k]) && Next(a, run[m], run[m + 1], steps[m]);
    CommitKeepsSnap(a, run, steps, k + 1, m);
    RunKeepsInv(a, run, steps, k);
    RunKeepsInv(a, run, steps, m);
    RunKeepsInv(a, run, steps, m + 1);
  }
}
