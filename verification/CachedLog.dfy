/**
 The log on top of the buffer cache: module LogRuns' machine, whose cache is one
 array of blocks, run together with module Bcache's, whose blocks live in
 buffers that are recycled, re-read and pinned. Every block of the log machine
 is reached through a buffer; the two agree on a run exactly if no process lets go
 of a change that it has not logged.
 */
module CachedLog {
  import opened Log
  import Logger
  import L = LogRuns
  import B = Bcache

  // ROOTDEV, the one disk.
  const DEV := 1

  function KeyOf(b: nat): (key: B.Key) { B.Key(DEV, b) }

  /** shown: the holders that have passed their buffer to log_write or bwrite. */
  datatype State = State(log: L.State, buf: B.State, shown: set<nat>)

  datatype Step =
    | Buffer(use: B.Step)        // bget, the sleep-lock, the disk read, a change, bunpin, brelse
    | LogWrite(h: nat, i: nat)   // log_write by operation i, with bpin when the block is new
    | CopyWrite(h: nat, g: nat)  // write_log, install_trans: memmove from g's buffer to h's, and bwrite
    | HeadWrite(h: nat)          // write_head
    | Transact(op: L.Step)       // begin_op, end_op, the end of commit or recovery
    | Crash

  /** A change comes before log_write or bwrite; bunpin is install_trans'. */
  ghost predicate BufferStep(s: State, t: State, step: B.Step)
    requires B.Shape(s.buf)
  {
    && t.log == s.log
    && t.shown == (if step.Release? then s.shown - {step.h} else s.shown)
    && match step
       case Bget(_, _, _) => B.Next(s.buf, t.buf, step)
       case Acquire(_) => B.Next(s.buf, t.buf, step)
       case Fill(_) => B.Next(s.buf, t.buf, step)
       case Drop(_) => B.Next(s.buf, t.buf, step)
       case Modify(h, _) => h !in s.shown && B.Next(s.buf, t.buf, step)
       case Unpin(_) => s.log.mode.Committing? && B.Next(s.buf, t.buf, step)
       case Release(_) => B.Next(s.buf, t.buf, step)
       case Pin(_) => false
       case Bwrite(_) => false
  }

  ghost predicate LogWriteStep(a: Area, s: State, t: State, h: nat, i: nat)
    requires B.Shape(s.buf)
  {
    && B.Holds(s.buf, h)
    && var x := s.buf.bufs[s.buf.handles[h].buf];
       && x.valid && x.key == KeyOf(x.key.blockno)
       && L.Next(a, s.log, t.log, L.LogWrite(i, x.key.blockno, x.data))
       && (if x.key.blockno in s.log.lh then t.buf == s.buf else B.Next(s.buf, t.buf, B.Pin(h)))
       && t.shown == s.shown + {h}
  }

  /** What commit or recovery does next: copy a block, or write the header. */
  datatype Job = Copy(from: nat, to: nat) | Head(lh: seq<nat>)

  ghost function Install(a: Area, lh: seq<nat>, k: nat): (job: Job) {
    if k < |lh| then Copy(a.start + 1 + k, lh[k]) else Head([])
  }

  ghost function JobOf(a: Area, s: L.State): (job: Job) {
    if s.mode.Recovering? then
      if GoodDisk(a, s.base) then Install(a, DecodeHead(s.base[a.start]), s.done) else Head([])
    else
      var n := |s.lh|;
      if s.done < n then Copy(s.lh[s.done], a.start + 1 + s.done)
      else if s.done == n then Head(s.lh)
      else Install(a, s.lh, s.done - n - 1)
  }

  /** Holder h's buffer after a change to data. */
  ghost function Changed(s: B.State, h: nat, data: Block): (t: B.State)
    requires B.Shape(s) && B.Holds(s, h)
  {
    var i := s.handles[h].buf;
    s.(bufs := s.bufs[i := s.bufs[i].(data := data)], handles := s.handles[h := B.Handle(i, B.Holding, true)])
  }

  ghost predicate Reads(s: B.State, h: nat, b: nat)
    requires B.Shape(s)
  {
    B.Holds(s, h) && B.Target(s, h) == KeyOf(b) && s.bufs[s.handles[h].buf].valid
  }

  /** h, on block b, puts data in its buffer and writes it to the disk. */
  ghost predicate BwriteStep(a: Area, s: State, t: State, h: nat, b: nat, data: Block)
    requires B.Shape(s.buf)
  {
    && Reads(s.buf, h, b) && h !in s.shown && B.Next(s.buf, Changed(s.buf, h, data), B.Modify(h, data))
    && B.Shape(Changed(s.buf, h, data)) && B.Next(Changed(s.buf, h, data), t.buf, B.Bwrite(h))
    && L.Next(a, s.log, t.log, L.DiskWrite) && t.shown == s.shown + {h}
  }

  ghost function DataOf(s: B.State, h: nat): (data: Block)
    requires B.Shape(s) && h in s.handles
  {
    s.bufs[s.handles[h].buf].data
  }

  ghost predicate CopyWriteStep(a: Area, s: State, t: State, h: nat, g: nat)
    requires B.Shape(s.buf)
  {
    var job := JobOf(a, s.log);
    && job.Copy? && Reads(s.buf, g, job.from) && !s.buf.handles[g].touched
    && BwriteStep(a, s, t, h, job.to, DataOf(s.buf, g))
  }

  ghost predicate HeadWriteStep(a: Area, s: State, t: State, h: nat)
    requires B.Shape(s.buf)
  {
    var job := JobOf(a, s.log);
    && job.Head? && Reads(s.buf, h, a.start) && !s.buf.handles[h].touched
    && BwriteStep(a, s, t, h, a.start, EncodeHead(DataOf(s.buf, h), job.lh))
  }

  ghost predicate Next(a: Area, s: State, t: State, step: Step) {
    && B.Shape(s.buf)
    && match step
       case Buffer(use) => BufferStep(s, t, use)
       case LogWrite(h, i) => LogWriteStep(a, s, t, h, i)
       case CopyWrite(h, g) => CopyWriteStep(a, s, t, h, g)
       case HeadWrite(h) => HeadWriteStep(a, s, t, h)
       case Transact(op) =>
         && (op.Begin? || op.End? || op.Finish?) && L.Next(a, s.log, t.log, op)
         && t.buf == s.buf && t.shown == s.shown
       case Crash =>
         && L.Next(a, s.log, t.log, L.Crash)
         && B.Init(t.buf) && t.buf.disk == s.buf.disk && t.shown == {}
  }

  // ----- how the two machines agree -----

  ghost predicate DiskAt(s: State, b: nat)
    requires b < |s.log.disk|
  {
    KeyOf(b) in s.buf.disk && s.buf.disk[KeyOf(b)] == s.log.disk[b]
  }

  ghost predicate OnDisk(s: State, key: B.Key) { key.dev == DEV && key.blockno < |s.log.disk| }

  /** One disk under both. */
  ghost predicate SameDisk(s: State) {
    && (forall b {:trigger DiskAt(s, b)} :: 0 <= b < |s.log.disk| ==> DiskAt(s, b))
    && (forall key {:trigger OnDisk(s, key)} :: key in s.buf.disk ==> OnDisk(s, key))
  }

  /** Holder h's buffer is the log machine's view of its block, and may be released. */
  ghost predicate ShownAt(s: State, h: nat)
    requires B.Shape(s.buf)
  {
    && B.Holds(s.buf, h) && B.MayRelease(s.buf, h)
    && var x := s.buf.bufs[s.buf.handles[h].buf];
       OnDisk(s, x.key) && x.key.blockno < |s.log.cache| && x.data == s.log.cache[x.key.blockno]
  }

  ghost predicate Covers(s: State, h: nat, b: nat)
    requires B.Shape(s.buf)
  {
    h in s.shown && h in s.buf.handles && B.Target(s.buf, h) == KeyOf(b)
  }

  /** A block no such holder is on is, in the log machine's cache, what its buffer
      was when last released. */
  ghost predicate LastAt(s: State, b: nat)
    requires B.Shape(s.buf) && b < |s.log.cache|
  {
    KeyOf(b) in s.buf.last && ((forall h :: !Covers(s, h, b)) ==> s.buf.last[KeyOf(b)] == s.log.cache[b])
  }

  ghost predicate PinnedIn(s: B.State, b: nat, i: nat)
    requires B.Shape(s)
  {
    i < B.NBUF && s.bufs[i].key == KeyOf(b) && s.pins[i] > 0
  }

  /** Until commit, a logged block stays pinned in the cache. */
  ghost predicate PinnedAt(s: State, b: nat)
    requires B.Shape(s.buf)
  {
    s.log.mode.Idle? && b in s.log.lh ==> exists i :: PinnedIn(s.buf, b, i)
  }

  ghost predicate Coupled(s: State)
    requires B.Shape(s.buf)
  {
    && SameDisk(s)
    && (forall h {:trigger ShownAt(s, h)} :: h in s.shown ==> ShownAt(s, h))
    && (forall b {:trigger LastAt(s, b)} :: 0 <= b < |s.log.cache| ==> LastAt(s, b))
    && (forall b {:trigger PinnedAt(s, b)} :: 0 <= b ==> PinnedAt(s, b))
  }

  ghost predicate Inv(a: Area, s: State) {
    L.Inv(a, s.log) && B.Inv(s.buf) && B.Clean(s.buf) && Coupled(s)
  }

  ghost predicate Init(a: Area, s: State) {
    L.Init(a, s.log) && B.Init(s.buf) && SameDisk(s) && s.shown == {}
  }

  /** h lets go of contents that the log's cache does not have for the block, or that
      the buffer cache may lose. */
  ghost predicate Strays(s: State, step: Step)
    requires B.Shape(s.buf)
  {
    && step.Buffer? && step.use.Release? && B.Holds(s.buf, step.use.h)
    && !(B.MayRelease(s.buf, step.use.h) && HasCached(s, step.use.h))
  }

  ghost predicate HasCached(s: State, h: nat)
    requires B.Shape(s.buf) && h in s.buf.handles
  {
    var b := B.Target(s.buf, h).blockno;
    b < |s.log.cache| && DataOf(s.buf, h) == s.log.cache[b]
  }

  // ----- one step -----

  /** Two holders are never on one block. */
  lemma HoldersApart(s: B.State, g: nat, h: nat)
    requires B.Base(s) && B.Holds(s, g) && B.Holds(s, h) && B.Target(s, g) == B.Target(s, h)
    ensures g == h
  {
    assert B.HandleAt(s, g) && B.HandleAt(s, h) && B.UniqueAt(s, s.handles[g].buf, s.handles[h].buf);
  }

  /** A holder that has not changed its buffer sees the log machine's cache. */
  lemma UntouchedSeesCache(a: Area, s: State, h: nat)
    requires Inv(a, s) && B.Holds(s.buf, h) && !s.buf.handles[h].touched && s.buf.bufs[s.buf.handles[h].buf].valid
    ensures var x := s.buf.bufs[s.buf.handles[h].buf];
            OnDisk(s, x.key) && x.data == s.log.cache[x.key.blockno] && B.MayRelease(s.buf, h)
  {
    var i := s.buf.handles[h].buf;
    var x := s.buf.bufs[i];
    var b := x.key.blockno;
    assert B.HandleAt(s.buf, h) && B.NamedAt(s.buf, i) && B.ContentAt(s.buf, i) && B.CleanAt(s.buf, i);
    assert OnDisk(s, x.key);
    if h in s.shown {
      assert ShownAt(s, h);
    } else {
      assert LastAt(s, b);
      forall g
        ensures !Covers(s, g, b)
      {
        if Covers(s, g, b) {
          assert ShownAt(s, g);
          HoldersApart(s.buf, g, h);
        }
      }
    }
  }

  /** Whoever logs or writes what it changed, before brelse, does not stray. */
  lemma ReleaseIsSafe(a: Area, s: State, h: nat)
    requires Inv(a, s) && B.Holds(s.buf, h) && s.buf.bufs[s.buf.handles[h].buf].valid
    requires s.buf.handles[h].touched ==> h in s.shown
    ensures !Strays(s, Buffer(B.Release(h)))
  {
    if h in s.shown {
      assert ShownAt(s, h);
    } else {
      UntouchedSeesCache(a, s, h);
    }
  }

  /** Holder g still holds the same buffer, unchanged, and may still release it. */
  ghost predicate Undisturbed(s: B.State, t: B.State, g: nat)
    requires B.Shape(s)
  {
    && B.Holds(s, g) && B.Shape(t) && B.Holds(t, g)
    && t.handles[g].buf == s.handles[g].buf && B.Target(t, g) == B.Target(s, g)
    && (B.MayRelease(s, g) ==> B.MayRelease(t, g) && t.bufs[t.handles[g].buf].data == s.bufs[s.handles[g].buf].data)
  }

  /** The cache's other steps leave a holder alone. */
  lemma OthersUndisturbed(s: B.State, t: B.State, step: B.Step, g: nat)
    requires B.Base(s) && B.Next(s, t, step) && B.Shape(t) && B.Holds(s, g) && B.MayRelease(s, g)
    requires step.h == g ==> step.Unpin? || step.Pin? || step.Bwrite?
    ensures Undisturbed(s, t, g)
  {
    assert B.HandleAt(s, g);
    if step.Bget? {
      if B.Absent(s.bufs, step.key) {
        B.IdleIsFree(s, step.i);
      }
    } else if step.h != g {
      assert B.HandleAt(s, step.h);
      if !step.Acquire? && !step.Drop? {
        assert B.UniqueAt(s, s.handles[g].buf, s.handles[step.h].buf);
      }
    }
  }

  lemma ShownKept(s: State, t: State, g: nat)
    requires B.Shape(s.buf) && ShownAt(s, g) && Undisturbed(s.buf, t.buf, g) && |t.log.disk| == |s.log.disk|
    requires |t.log.cache| == |s.log.cache|
    requires t.log.cache[B.Target(s.buf, g).blockno] == s.log.cache[B.Target(s.buf, g).blockno]
    ensures ShownAt(t, g)
  {
    assert OnDisk(s, B.Target(s.buf, g));
    assert OnDisk(t, B.Target(t.buf, g));
  }

  /** So what the log machine sees of other blocks does not change. */
  lemma LastKept(s: State, t: State, b: nat)
    requires B.Shape(s.buf) && B.Shape(t.buf) && b < |s.log.cache| && b < |t.log.cache| && LastAt(s, b)
    requires t.log.cache[b] == s.log.cache[b] && KeyOf(b) in t.buf.last && t.buf.last[KeyOf(b)] == s.buf.last[KeyOf(b)]
    requires forall g {:trigger Undisturbed(s.buf, t.buf, g)} ::
               Covers(s, g, b) ==> g in t.shown && Undisturbed(s.buf, t.buf, g)
    ensures LastAt(t, b)
  {
    forall g | Covers(s, g, b)
      ensures Covers(t, g, b)
    {
      assert Undisturbed(s.buf, t.buf, g);
    }
  }

  lemma PinKept(s: State, t: State, step: B.Step, b: nat)
    requires B.Base(s.buf) && B.Next(s.buf, t.buf, step) && B.Shape(t.buf) && PinnedAt(s, b)
    requires t.log.mode == s.log.mode && t.log.lh == s.log.lh && (step.Unpin? ==> s.log.mode.Committing?)
    ensures PinnedAt(t, b)
  {
    if s.log.mode.Idle? && b in s.log.lh {
      var i :| PinnedIn(s.buf, b, i);
      B.PinnedKeepsKey(s.buf, t.buf, step, i);
      assert PinnedIn(t.buf, b, i);
    }
  }

  lemma CacheKept(s: B.State, t: B.State, step: B.Step)
    requires B.Inv(s) && B.Clean(s) && B.Next(s, t, step) && !B.Abandons(s, step)
    ensures B.Inv(t) && B.Clean(t)
  {
    B.CleanLosesNothing(s, t, step);
    B.NextKeepsInv(s, t, step);
    B.NextKeepsClean(s, t, step);
  }

  lemma BufferKeepsCoupled(a: Area, s: State, t: State, step: B.Step)
    requires Inv(a, s) && Next(a, s, t, Buffer(step)) && !step.Release?
    ensures B.Inv(t.buf) && B.Clean(t.buf) && Coupled(t)
  {
    CacheKept(s.buf, t.buf, step);
    forall g | g in s.shown
      ensures ShownAt(t, g) && Undisturbed(s.buf, t.buf, g)
    {
      assert ShownAt(s, g);
      OthersUndisturbed(s.buf, t.buf, step, g);
      ShownKept(s, t, g);
    }
    forall b | 0 <= b < |t.log.cache|
      ensures LastAt(t, b)
    {
      assert LastAt(s, b);
      LastKept(s, t, b);
    }
    forall b | 0 <= b
      ensures PinnedAt(t, b)
    {
      assert PinnedAt(s, b);
      PinKept(s, t, step, b);
    }
    DiskKept(s, t);
  }

  lemma DiskKept(s: State, t: State)
    requires SameDisk(s) && t.log.disk == s.log.disk && t.buf.disk == s.buf.disk
    ensures SameDisk(t)
  {
    forall b | 0 <= b < |t.log.disk|
      ensures DiskAt(t, b)
    {
      assert DiskAt(s, b);
    }
    forall key | key in t.buf.disk
      ensures OnDisk(t, key)
    {
      assert OnDisk(s, key);
    }
  }

  lemma ReleaseKeepsCoupled(a: Area, s: State, t: State, h: nat)
    requires Inv(a, s) && Next(a, s, t, Buffer(B.Release(h))) && !Strays(s, Buffer(B.Release(h)))
    ensures B.Inv(t.buf) && B.Clean(t.buf) && Coupled(t)
  {
    CacheKept(s.buf, t.buf, B.Release(h));
    assert OnDisk(s, B.Target(s.buf, h));
    forall g | g in t.shown
      ensures ShownAt(t, g) && Undisturbed(s.buf, t.buf, g)
    {
      assert ShownAt(s, g);
      OthersUndisturbed(s.buf, t.buf, B.Release(h), g);
      ShownKept(s, t, g);
    }
    forall b | 0 <= b < |t.log.cache|
      ensures LastAt(t, b)
    {
      assert LastAt(s, b);
      if KeyOf(b) != B.Target(s.buf, h) {
        LastKept(s, t, b);
      }
    }
    forall b | 0 <= b
      ensures PinnedAt(t, b)
    {
      assert PinnedAt(s, b);
      PinKept(s, t, B.Release(h), b);
    }
    DiskKept(s, t);
  }

  /** log_write by a holder: its buffer is pinned, by this call or an earlier one. */
  lemma LogWriteShows(a: Area, s: State, t: State, h: nat, i: nat)
    requires Inv(a, s) && Next(a, s, t, LogWrite(h, i))
    ensures B.Inv(t.buf) && B.Clean(t.buf) && ShownAt(t, h)
  {
    var x := s.buf.bufs[s.buf.handles[h].buf];
    assert B.HandleAt(s.buf, h) && B.NamedAt(s.buf, s.buf.handles[h].buf);
    assert OnDisk(s, x.key) && PinnedAt(s, x.key.blockno);
    if x.key.blockno in s.log.lh {
      var j :| PinnedIn(s.buf, x.key.blockno, j);
      assert B.UniqueAt(s.buf, s.buf.handles[h].buf, j);
    } else {
      CacheKept(s.buf, t.buf, B.Pin(h));
    }
    assert OnDisk(t, x.key);
  }

  lemma PinAdded(s: State, t: State, h: nat, b: nat, c: nat)
    requires B.Base(s.buf) && B.Shape(t.buf) && ShownAt(t, h) && B.Holds(s.buf, h) && PinnedAt(s, c)
    requires B.Target(s.buf, h) == KeyOf(b) && t.log.mode == s.log.mode
    requires if b in s.log.lh then t.buf == s.buf && t.log.lh == s.log.lh
             else B.Next(s.buf, t.buf, B.Pin(h)) && t.log.lh == s.log.lh + [b]
    ensures PinnedAt(t, c)
  {
    if s.log.mode.Idle? && c in t.log.lh {
      if c in s.log.lh {
        var i :| PinnedIn(s.buf, c, i);
        assert PinnedIn(t.buf, c, i);
      } else {
        assert PinnedIn(t.buf, c, s.buf.handles[h].buf);
      }
    }
  }

  lemma LogWriteKeepsCoupled(a: Area, s: State, t: State, h: nat, i: nat)
    requires Inv(a, s) && Next(a, s, t, LogWrite(h, i))
    ensures B.Inv(t.buf) && B.Clean(t.buf) && Coupled(t)
  {
    LogWriteShows(a, s, t, h, i);
    var b := B.Target(s.buf, h).blockno;
    forall g | g in s.shown
      ensures Undisturbed(s.buf, t.buf, g)
    {
      assert ShownAt(s, g);
      if b !in s.log.lh {
        OthersUndisturbed(s.buf, t.buf, B.Pin(h), g);
      }
    }
    forall g | g in t.shown
      ensures ShownAt(t, g)
    {
      if g != h {
        assert ShownAt(s, g) && Undisturbed(s.buf, t.buf, g);
        if B.Target(s.buf, g) == B.Target(s.buf, h) {
          HoldersApart(s.buf, g, h);
        }
        ShownKept(s, t, g);
      }
    }
    forall c | 0 <= c < |t.log.cache|
      ensures LastAt(t, c)
    {
      assert LastAt(s, c);
      if c == b {
        assert Covers(t, h, c);
      } else {
        LastKept(s, t, c);
      }
    }
    forall c | 0 <= c
      ensures PinnedAt(t, c)
    {
      assert PinnedAt(s, c);
      PinAdded(s, t, h, b, c);
    }
    DiskKept(s, t);
  }

  lemma DiskWritten(s: State, t: State, b: nat, data: Block)
    requires SameDisk(s) && b < |s.log.disk|
    requires t.log.disk == s.log.disk[b := data] && t.buf.disk == s.buf.disk[KeyOf(b) := data]
    ensures SameDisk(t)
  {
    forall c | 0 <= c < |t.log.disk|
      ensures DiskAt(t, c)
    {
      assert DiskAt(s, c);
    }
    forall key | key in t.buf.disk
      ensures OnDisk(t, key)
    {
      assert key != KeyOf(b) ==> OnDisk(s, key);
    }
  }

  /** w is what job writes when the cache is c. */
  ghost predicate Does(a: Area, job: Job, c: Disk, w: Write) {
    match job
    case Copy(from, to) => from < |c| && w == Write(to, c[from])
    case Head(lh) => a.Fits(c) && w == Write(a.start, EncodeHead(c[a.start], lh))
  }

  lemma LogJob(a: Area, w: seq<Write>, c0: Disk, lh: seq<nat>, k: nat, job: Job, c: Disk)
    requires Logger.Logs(a, w, c0, lh) && k < |lh| && job == Copy(lh[k], a.start + 1 + k) && c == After(c0, w, k)
    ensures Does(a, job, c, w[k])
  {
    assert Logger.LogsAt(a, w, c0, lh, k);
  }

  lemma InstallJob(a: Area, w: seq<Write>, base: nat, c0: Disk, lh: seq<nat>, i: nat, k: nat, job: Job, c: Disk)
    requires Logger.Installs(a, w, base, c0, lh) && i < |lh| && k == base + i && job == Copy(a.start + 1 + i, lh[i])
    requires c == After(c0, w, k)
    ensures Does(a, job, c, w[k])
  {
    assert Logger.InstallsAt(a, w, base, c0, lh, i);
  }

  lemma HeadJob(a: Area, w: seq<Write>, k: nat, c0: Disk, lh: seq<nat>, job: Job, c: Disk)
    requires Logger.Heads(a, w, k, c0, lh) && job == Head(lh) && c == After(c0, w, k)
    ensures Does(a, job, c, w[k])
  {
  }

  lemma CommitLogs(a: Area, snap: Disk, lh: seq<nat>, w: seq<Write>, k: nat, job: Job, c: Disk)
    requires a.Fits(snap) && GoodLh(a, |snap|, lh) && k < |lh| && w == CommitWrites(a, snap, lh)
    requires InRange(w, |snap|) && job == Copy(lh[k], a.start + 1 + k) && c == After(snap, w, k)
    ensures Does(a, job, c, w[k])
  {
    Logger.CommitLogs(a, snap, lh);
    LogJob(a, w, snap, lh, k, job, c);
  }

  lemma CommitInstalls(a: Area, snap: Disk, lh: seq<nat>, w: seq<Write>, base: nat, i: nat, k: nat, job: Job, c: Disk)
    requires a.Fits(snap) && GoodLh(a, |snap|, lh) && i < |lh| && w == CommitWrites(a, snap, lh)
    requires base == |lh| + 1 && k == base + i
    requires InRange(w, |snap|) && job == Copy(a.start + 1 + i, lh[i]) && c == After(snap, w, k)
    ensures Does(a, job, c, w[k])
  {
    Logger.CommitInstalls(a, snap, lh, base);
    InstallJob(a, w, base, snap, lh, i, k, job, c);
  }

  lemma CommitHeads(a: Area, snap: Disk, lh: seq<nat>, w: seq<Write>, k: nat, job: Job, c: Disk)
    requires a.Fits(snap) && GoodLh(a, |snap|, lh) && lh != [] && w == CommitWrites(a, snap, lh)
    requires (k == |lh| && job == Head(lh)) || (k == |w| - 1 && job == Head([]))
    requires InRange(w, |snap|) && c == After(snap, w, k)
    ensures Does(a, job, c, w[k])
  {
    Logger.CommitHeads(a, snap, lh);
    HeadJob(a, w, k, snap, job.lh, job, c);
  }

  lemma CommitJob(a: Area, s: L.State, w: seq<Write>, k: nat, job: Job)
    requires L.Inv(a, s) && s.mode.Committing? && w == s.batch && k == s.done < |w| && job == JobOf(a, s)
    ensures Does(a, job, s.cache, w[k])
  {
    var n := |s.lh|;
    if k < n {
      CommitLogs(a, s.snap, s.lh, w, k, job, s.cache);
    } else if n < k <= 2 * n {
      CommitInstalls(a, s.snap, s.lh, w, n + 1, k - n - 1, k, job, s.cache);
    } else {
      CommitHeads(a, s.snap, s.lh, w, k, job, s.cache);
    }
  }

  lemma RecoverJob(a: Area, s: L.State, w: seq<Write>, k: nat, job: Job)
    requires L.Inv(a, s) && s.mode.Recovering? && w == s.batch && k == s.done < |w| && job == JobOf(a, s)
    ensures Does(a, job, s.cache, w[k])
  {
    var lh := DecodeHead(s.base[a.start]);
    if k < |lh| {
      Logger.RecoverInstalls(a, s.base, s.committed, lh);
      InstallJob(a, w, 0, s.base, lh, k, k, job, s.cache);
    } else {
      Logger.RecoverHeads(a, s.base, s.committed);
      HeadJob(a, w, k, s.base, [], job, s.cache);
    }
  }

  /** The writes of commit and recovery, as module Log lists them, are the copies and
      header writes of the code, made from the log machine's cache. */
  lemma JobIsNext(a: Area, s: L.State)
    requires L.Inv(a, s) && !s.mode.Idle? && s.done < |s.batch|
    ensures Does(a, JobOf(a, s), s.cache, s.batch[s.done])
  {
    if s.mode.Recovering? {
      RecoverJob(a, s, s.batch, s.done, JobOf(a, s));
    } else {
      CommitJob(a, s, s.batch, s.done, JobOf(a, s));
    }
  }

  /** So what reaches the disk is what the log machine says. */
  lemma WriteIsNext(a: Area, s: State, t: State, step: Step) returns (h: nat, b: nat, data: Block)
    requires Inv(a, s) && Next(a, s, t, step) && (step.CopyWrite? || step.HeadWrite?)
    ensures h == step.h && BwriteStep(a, s, t, h, b, data) && s.log.batch[s.log.done] == Write(b, data)
  {
    JobIsNext(a, s.log);
    h := step.h;
    var job := JobOf(a, s.log);
    if step.CopyWrite? {
      b, data := job.to, DataOf(s.buf, step.g);
      UntouchedSeesCache(a, s, step.g);
    } else {
      b, data := a.start, EncodeHead(DataOf(s.buf, h), job.lh);
      UntouchedSeesCache(a, s, h);
    }
  }

  lemma WriteUndisturbed(s: B.State, m: B.State, t: B.State, h: nat, data: Block, g: nat)
    requires B.Inv(s) && B.Clean(s) && B.Next(s, m, B.Modify(h, data)) && B.Shape(m) && B.Next(m, t, B.Bwrite(h))
    requires B.Holds(s, g) && B.MayRelease(s, g) && g != h
    ensures B.Shape(t) && Undisturbed(s, t, g)
  {
    CacheKept(s, m, B.Modify(h, data));
    CacheKept(m, t, B.Bwrite(h));
    OthersUndisturbed(s, m, B.Modify(h, data), g);
    OthersUndisturbed(m, t, B.Bwrite(h), g);
  }

  lemma BwriteKeepsCoupled(a: Area, s: State, t: State, h: nat, b: nat, data: Block)
    requires Inv(a, s) && BwriteStep(a, s, t, h, b, data) && s.log.batch[s.log.done] == Write(b, data)
    ensures B.Inv(t.buf) && B.Clean(t.buf) && Coupled(t)
  {
    var m := Changed(s.buf, h, data);
    CacheKept(s.buf, m, B.Modify(h, data));
    CacheKept(m, t.buf, B.Bwrite(h));
    DiskWritten(s, t, b, data);
    forall g | g in s.shown
      ensures Undisturbed(s.buf, t.buf, g)
    {
      assert ShownAt(s, g);
      WriteUndisturbed(s.buf, m, t.buf, h, data, g);
    }
    forall g | g in t.shown
      ensures ShownAt(t, g)
    {
      if g == h {
        assert OnDisk(t, KeyOf(b));
      } else {
        assert ShownAt(s, g) && Undisturbed(s.buf, t.buf, g);
        if B.Target(s.buf, g) == B.Target(s.buf, h) {
          HoldersApart(s.buf, g, h);
        }
        ShownKept(s, t, g);
      }
    }
    forall c | 0 <= c < |t.log.cache|
      ensures LastAt(t, c)
    {
      assert LastAt(s, c);
      if c == b {
        assert Covers(t, h, c);
      } else {
        LastKept(s, t, c);
      }
    }
  }

  lemma TransactKeepsCoupled(a: Area, s: State, t: State, op: L.Step)
    requires Inv(a, s) && Next(a, s, t, Transact(op))
    ensures Coupled(t)
  {
    forall g | g in t.shown
      ensures ShownAt(t, g)
    {
      assert ShownAt(s, g);
      ShownKept(s, t, g);
    }
    forall b | 0 <= b < |t.log.cache|
      ensures LastAt(t, b)
    {
      assert LastAt(s, b);
      LastKept(s, t, b);
    }
    forall b | 0 <= b
      ensures PinnedAt(t, b)
    {
      assert PinnedAt(s, b);
    }
    DiskKept(s, t);
  }

  /** After a crash, or at boot, the cache is empty and nothing is pinned. */
  lemma EmptyCacheIsCoupled(s: State)
    requires B.Init(s.buf) && SameDisk(s) && s.log.cache == s.log.disk && s.log.lh == [] && s.shown == {}
    ensures B.Inv(s.buf) && B.Clean(s.buf) && Coupled(s)
  {
    B.InitIsInv(s.buf);
    forall b | 0 <= b < |s.log.cache|
      ensures LastAt(s, b)
    {
      assert DiskAt(s, b);
    }
  }

  lemma WriteKeepsInv(a: Area, s: State, t: State, step: Step)
    requires Inv(a, s) && Next(a, s, t, step) && (step.CopyWrite? || step.HeadWrite?)
    ensures Inv(a, t)
  {
    var h, b, data := WriteIsNext(a, s, t, step);
    L.NextKeepsInv(a, s.log, t.log, L.DiskWrite);
    BwriteKeepsCoupled(a, s, t, h, b, data);
  }

  lemma NextKeepsInv(a: Area, s: State, t: State, step: Step)
    requires Inv(a, s) && Next(a, s, t, step) && !Strays(s, step)
    ensures Inv(a, t)
  {
    match step
    case Buffer(use) =>
      if use.Release? {
        ReleaseKeepsCoupled(a, s, t, use.h);
      } else {
        BufferKeepsCoupled(a, s, t, use);
      }
    case LogWrite(h, i) =>
      L.NextKeepsInv(a, s.log, t.log, L.LogWrite(i, B.Target(s.buf, h).blockno, s.buf.bufs[s.buf.handles[h].buf].data));
      LogWriteKeepsCoupled(a, s, t, h, i);
    case CopyWrite(_, _) => WriteKeepsInv(a, s, t, step);
    case HeadWrite(_) => WriteKeepsInv(a, s, t, step);
    case Transact(op) =>
      L.NextKeepsInv(a, s.log, t.log, op);
      TransactKeepsCoupled(a, s, t, op);
    case Crash =>
      L.NextKeepsInv(a, s.log, t.log, L.Crash);
      DiskKept(s, t);
      EmptyCacheIsCoupled(t);
  }

  // ----- every run -----

  ghost predicate StepAt(a: Area, run: seq<State>, steps: seq<Step>, k: nat)
    requires k + 1 < |run| && k < |steps|
  {
    Next(a, run[k], run[k + 1], steps[k])
  }

  ghost predicate IsRun(a: Area, run: seq<State>, steps: seq<Step>) {
    && |run| == |steps| + 1 && Init(a, run[0])
    && forall k {:trigger StepAt(a, run, steps, k)} :: 0 <= k < |steps| ==> StepAt(a, run, steps, k)
  }

  ghost predicate StraysAt(run: seq<State>, steps: seq<Step>, k: nat)
    requires k < |run| && k < |steps|
  {
    B.Shape(run[k].buf) && Strays(run[k], steps[k])
  }

  ghost predicate NoneStrayBefore(run: seq<State>, steps: seq<Step>, k: nat)
    requires k < |run| == |steps| + 1
  {
    forall j {:trigger StraysAt(run, steps, j)} :: 0 <= j < k ==> !StraysAt(run, steps, j)
  }

  lemma {:induction false} InvSoFar(a: Area, run: seq<State>, steps: seq<Step>, k: nat)
    requires IsRun(a, run, steps) && k < |run| && NoneStrayBefore(run, steps, k)
    ensures Inv(a, run[k])
  {
    if k == 0 {
      assert L.Inv(a, run[0].log);
      EmptyCacheIsCoupled(run[0]);
    } else {
      InvSoFar(a, run, steps, k - 1);
      assert StepAt(a, run, steps, k - 1) && !StraysAt(run, steps, k - 1);
      NextKeepsInv(a, run[k - 1], run[k], steps[k - 1]);
    }
  }

  /** What a holder that has read its block, and not changed it, finds there. */
  ghost predicate SeesCache(s: State, h: nat)
    requires B.Shape(s.buf) && B.Holds(s.buf, h)
  {
    var x := s.buf.bufs[s.buf.handles[h].buf];
    x.valid && !s.buf.handles[h].touched ==>
      OnDisk(s, x.key) && x.key.blockno < |s.log.cache| && x.data == s.log.cache[x.key.blockno]
  }

  ghost predicate Unheld(s: B.State, b: nat)
    requires B.Shape(s)
  {
    forall h :: B.Holds(s, h) ==> B.Target(s, h) != KeyOf(b)
  }

  ghost predicate ReleasedAsCached(s: State, b: nat)
    requires b < |s.log.cache|
  {
    KeyOf(b) in s.buf.last && s.buf.last[KeyOf(b)] == s.log.cache[b]
  }

  /** The buffer cache is the log machine's one array of blocks: a holder finds it
      there, a block nobody holds was released as it, and nothing can be lost. */
  ghost predicate Agrees(s: State) {
    && B.Shape(s.buf) && B.Clean(s.buf)
    && (forall h {:trigger SeesCache(s, h)} :: B.Holds(s.buf, h) ==> SeesCache(s, h))
    && (forall b {:trigger ReleasedAsCached(s, b)} ::
          0 <= b < |s.log.cache| && Unheld(s.buf, b) ==> ReleasedAsCached(s, b))
  }

  lemma InvAgrees(a: Area, s: State)
    requires Inv(a, s)
    ensures Agrees(s)
  {
    forall h | B.Holds(s.buf, h)
      ensures SeesCache(s, h)
    {
      if s.buf.bufs[s.buf.handles[h].buf].valid && !s.buf.handles[h].touched {
        UntouchedSeesCache(a, s, h);
      }
    }
    forall b | 0 <= b < |s.log.cache| && Unheld(s.buf, b)
      ensures ReleasedAsCached(s, b)
    {
      assert LastAt(s, b);
      forall h
        ensures !Covers(s, h, b)
      {
        assert h in s.shown ==> ShownAt(s, h);
      }
    }
  }

  /** A stray release is the end of the agreement. */
  lemma StrayDisagrees(a: Area, s: State, t: State, step: Step)
    requires Inv(a, s) && Next(a, s, t, step) && Strays(s, step)
    ensures !Agrees(t)
  {
    var h := step.use.h;
    var i := s.buf.handles[h].buf;
    var b := B.Target(s.buf, h).blockno;
    B.NextKeepsBase(s.buf, t.buf, step.use);
    assert B.HandleAt(s.buf, h) && B.NamedAt(s.buf, i);
    assert OnDisk(s, B.Target(s.buf, h));
    if B.MayRelease(s.buf, h) {
      forall g | B.Holds(t.buf, g)
        ensures B.Target(t.buf, g) != KeyOf(b)
      {
        if B.Target(s.buf, g) == B.Target(s.buf, h) {
          HoldersApart(s.buf, g, h);
        }
      }
      assert Unheld(t.buf, b) && !ReleasedAsCached(t, b);
    } else {
      assert !B.CleanAt(t.buf, i);
    }
  }

  ghost predicate AgreesAt(run: seq<State>, k: nat)
    requires k < |run|
  {
    Agrees(run[k])
  }

  lemma {:induction false} AgreedSoFar(a: Area, run: seq<State>, steps: seq<Step>, k: nat)
    requires IsRun(a, run, steps) && k < |run|
    requires forall j {:trigger AgreesAt(run, j)} :: 0 <= j <= k ==> AgreesAt(run, j)
    ensures NoneStrayBefore(run, steps, k)
  {
    if k > 0 {
      AgreedSoFar(a, run, steps, k - 1);
      InvSoFar(a, run, steps, k - 1);
      assert StepAt(a, run, steps, k - 1) && AgreesAt(run, k);
      if StraysAt(run, steps, k - 1) {
        StrayDisagrees(a, run[k - 1], run[k], steps[k - 1]);
      }
    }
  }

  /**
   The buffer cache is the one array of blocks that the log is proved against, at
   every point of a run, with buffers evicted, re-read, pinned and shared in any
   order and crashes anywhere, if and only if no process in the run lets go of a
   change that it has not logged or written.
   */
  lemma CacheIsLogCache(a: Area, run: seq<State>, steps: seq<Step>)
    requires IsRun(a, run, steps)
    ensures (forall k {:trigger AgreesAt(run, k)} :: 0 <= k < |run| ==> AgreesAt(run, k)) <==>
            NoneStrayBefore(run, steps, |steps|)
  {
    if forall k {:trigger AgreesAt(run, k)} :: 0 <= k < |run| ==> AgreesAt(run, k) {
      AgreedSoFar(a, run, steps, |steps|);
    }
    if NoneStrayBefore(run, steps, |steps|) {
      forall k | 0 <= k < |run|
        ensures AgreesAt(run, k)
      {
        InvSoFar(a, run, steps, k);
        InvAgrees(a, run[k]);
      }
    }
  }

  /** As long as none has, the disk under the buffers is the log machine's, and
      recovers to the last committed transaction. */
  lemma DiskIsLogDisk(a: Area, run: seq<State>, steps: seq<Step>, k: nat)
    requires IsRun(a, run, steps) && k < |run| && NoneStrayBefore(run, steps, k)
    ensures SameDisk(run[k]) && DurableIs(a, run[k].log.disk, run[k].log.committed)
  {
    InvSoFar(a, run, steps, k);
    L.InvIsDurable(a, run[k].log);
  }
}
