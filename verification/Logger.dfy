/**
 The log object of kernel/log.c, updated in place. Every disk write is recorded
 in `trace`, so that what each routine promises is the exact order in which its
 writes reach the disk; module Log says what a crash between two of them means.
 */
module Logger {
  import opened Log

  datatype EndResult = EndPanic | EndWakes | EndCommits

  /** log_write's effect on the in-memory header: absorb or append. */
  function Absorb(lh: seq<nat>, b: nat): (r: seq<nat>) {
    if b in lh then lh else lh + [b]
  }

  predicate TooBig(a: Area, n: int) {
    n >= LOGSIZE || n >= a.size - 1
  }

  /** begin_op's guard. */
  predicate MayBegin(n: nat, outstanding: int, committing: bool) {
    !committing && n + (outstanding + 1) * MAXOPBLOCKS <= LOGSIZE
  }

  /** Absorption keeps the header duplicate-free and inside its bounds. */
  lemma AbsorbKeepsGood(a: Area, ndisk: nat, lh: seq<nat>, b: nat)
    requires GoodLh(a, ndisk, lh) && b < ndisk && !a.Has(b) && !TooBig(a, |lh|)
    ensures GoodLh(a, ndisk, Absorb(lh, b))
    ensures forall x :: x in Absorb(lh, b) <==> x in lh || x == b
  {
  }

  // What the routines read through the cache is what module Log says they write:
  // each entry of w is described by the cache contents that the earlier ones left.

  ghost predicate LogsAt(a: Area, w: seq<Write>, c0: Disk, lh: seq<nat>, i: nat)
    requires i < |lh| <= |w| && InRange(w, |c0|) && forall j :: 0 <= j < |lh| ==> lh[j] < |c0|
  {
    w[i] == Write(a.start + 1 + i, After(c0, w, i)[lh[i]])
  }

  ghost predicate Logs(a: Area, w: seq<Write>, c0: Disk, lh: seq<nat>) {
    && |lh| <= |w| && InRange(w, |c0|) && (forall j :: 0 <= j < |lh| ==> lh[j] < |c0|)
    && forall i :: 0 <= i < |lh| ==> LogsAt(a, w, c0, lh, i)
  }

  ghost predicate InstallsAt(a: Area, w: seq<Write>, base: nat, c0: Disk, lh: seq<nat>, i: nat)
    requires a.Fits(c0) && i < |lh| < a.size && InRange(w, |c0|) && base + |lh| <= |w|
  {
    w[base + i] == Write(lh[i], After(c0, w, base + i)[a.start + 1 + i])
  }

  ghost predicate Installs(a: Area, w: seq<Write>, base: nat, c0: Disk, lh: seq<nat>) {
    && a.Fits(c0) && |lh| < a.size && InRange(w, |c0|) && base + |lh| <= |w|
    && forall i :: 0 <= i < |lh| ==> InstallsAt(a, w, base, c0, lh, i)
  }

  ghost predicate Heads(a: Area, w: seq<Write>, k: nat, c0: Disk, lh: seq<nat>) {
    && a.Fits(c0) && k < |w| && InRange(w, |c0|)
    && w[k] == Write(a.start, EncodeHead(After(c0, w, k)[a.start], lh))
    && |After(c0, w, k)[a.start].words| >= |c0[a.start].words|
  }

  lemma CommitLogs(a: Area, c0: Disk, lh: seq<nat>)
    requires a.Fits(c0) && GoodLh(a, |c0|, lh) && lh != []
    ensures Logs(a, CommitWrites(a, c0, lh), c0, lh)
  {
    var w := CommitWrites(a, c0, lh);
    CommitInRange(a, c0, lh);
    forall i | 0 <= i < |lh|
      ensures LogsAt(a, w, c0, lh, i)
    {
      CommitState(a, c0, c0, lh, i);
    }
  }

  lemma CommitInstalls(a: Area, c0: Disk, lh: seq<nat>, base: nat)
    requires a.Fits(c0) && GoodLh(a, |c0|, lh) && lh != [] && base == |lh| + 1
    ensures Installs(a, CommitWrites(a, c0, lh), base, c0, lh)
  {
    var w := CommitWrites(a, c0, lh);
    CommitInRange(a, c0, lh);
    forall i | 0 <= i < |lh|
      ensures InstallsAt(a, w, base, c0, lh, i)
    {
      CommitState(a, c0, c0, lh, base + i);
      assert CopyAt(a, After(c0, w, base + i), Committed(c0, c0, lh), lh, i);
    }
  }

  lemma CommitHeads(a: Area, c0: Disk, lh: seq<nat>)
    requires a.Fits(c0) && GoodLh(a, |c0|, lh) && lh != []
    ensures var w := CommitWrites(a, c0, lh);
            Heads(a, w, |lh|, c0, lh) && Heads(a, w, |w| - 1, c0, [])
  {
    CommitState(a, c0, c0, lh, |lh|);
    CommitState(a, c0, c0, lh, 2 * |lh| + 1);
  }

  lemma RecoverInstalls(a: Area, d: Disk, f: Disk, lh: seq<nat>)
    requires DurableIs(a, d, f) && lh == DecodeHead(d[a.start])
    ensures Installs(a, RecoverWrites(a, d), 0, d, lh)
  {
    var w := RecoverWrites(a, d);
    RecoveryReplays(a, d);
    forall i | 0 <= i < |lh|
      ensures InstallsAt(a, w, 0, d, lh, i)
    {
      assert ReplayAt(a, d, lh, w, i);
      ReplayInstalls(a, d, f, lh, w, i);
      SameLogBlock(a, d, After(d, w, i), f, lh, i);
    }
  }

  lemma RecoverHeads(a: Area, d: Disk, f: Disk)
    requires DurableIs(a, d, f)
    ensures Heads(a, RecoverWrites(a, d), |RecoverWrites(a, d)| - 1, d, [])
  {
    var lh := DecodeHead(d[a.start]);
    RecoveryReplays(a, d);
    ReplayInstalls(a, d, f, lh, RecoverWrites(a, d), |lh|);
  }

  lemma SameLogBlock(a: Area, d: Disk, r: Disk, f: Disk, lh: seq<nat>, k: nat)
    requires DurableBy(a, d, f, lh) && DurableBy(a, r, f, lh) && k < |lh|
    ensures r[a.start + 1 + k] == d[a.start + 1 + k]
  {
    assert CopyAt(a, d, f, lh, k) && CopyAt(a, r, f, lh, k);
  }

  lemma TraceStep(t: seq<Write>, w: seq<Write>, k: nat)
    requires k < |w|
    ensures t + w[..k] + [w[k]] == t + w[..k + 1]
  {
  }

  class Logger {
    const area: Area
    const block: array<nat>
    var n: nat
    var outstanding: int
    var committing: bool
    // The buffer cache as log.c sees it: bread(b) yields cache[b].
    var cache: Disk
    var disk: Disk
    ghost var trace: seq<Write>

    ghost predicate Valid()
      reads this, block
    {
      && block.Length == LOGSIZE
      && n <= LOGSIZE
      && |cache| == |disk|
      && area.Fits(disk)
      && |cache[area.start].words| > LOGSIZE
      && GoodLh(area, |disk|, block[..n])
    }

    function Lh(): (lh: seq<nat>)
      requires n <= block.Length
      reads this, block
    {
      block[..n]
    }

    /** memmove into a buffer, then bwrite. */
    method WriteThrough(b: nat, data: Block)
      requires b < |cache| && |cache| == |disk|
      modifies this`cache, this`disk, this`trace
      ensures cache == old(cache)[b := data] && disk == old(disk)[b := data]
      ensures trace == old(trace) + [Write(b, data)]
    {
      cache := cache[b := data];
      disk := disk[b := data];
      trace := trace + [Write(b, data)];
    }

    /** One turn of begin_op's loop; false means the caller sleeps. */
    method BeginOp() returns (entered: bool)
      modifies this`outstanding
      ensures entered == MayBegin(n, old(outstanding), committing)
      ensures outstanding == old(outstanding) + if entered then 1 else 0
    {
      if committing {
        entered := false;
      } else if n + (outstanding + 1) * MAXOPBLOCKS > LOGSIZE {
        entered := false;
      } else {
        outstanding := outstanding + 1;
        entered := true;
      }
    }

    method LogWrite(b: nat) returns (panicked: bool)
      requires Valid() && b < |disk| && !area.Has(b)
      modifies this`n, block
      ensures Valid()
      ensures panicked <==> TooBig(area, old(n)) || outstanding < 1
      ensures panicked ==> Lh() == old(Lh())
      ensures !panicked ==> Lh() == Absorb(old(Lh()), b)
    {
      if n >= LOGSIZE || n >= area.size - 1 {
        return true;
      }
      if outstanding < 1 {
        return true;
      }
      ghost var lh := Lh();
      var i := 0;
      while i < n && block[i] != b
        invariant i <= n
        invariant forall j :: 0 <= j < i ==> block[j] != b
      {
        i := i + 1;
      }
      AbsorbKeepsGood(area, |disk|, lh, b);
      block[i] := b;
      if i == n {
        n := n + 1;
      }
      assert Lh() == Absorb(lh, b);
      return false;
    }

    /** The part of end_op under log.lock. */
    method EndOp() returns (r: EndResult)
      modifies this`outstanding, this`committing
      ensures outstanding == old(outstanding) - 1
      ensures r == if old(committing) then EndPanic else if outstanding == 0 then EndCommits else EndWakes
      ensures committing == (old(committing) || r.EndCommits?)
    {
      outstanding := outstanding - 1;
      if committing {
        return EndPanic;
      }
      if outstanding == 0 {
        committing := true;
        return EndCommits;
      } else {
        return EndWakes;
      }
    }

    /** Starting from c0, d0 and t0, the first k of the writes w are done. */
    ghost predicate Wrote(w: seq<Write>, c0: Disk, d0: Disk, t0: seq<Write>, k: nat)
      reads this
    {
      && |d0| == |c0| && k <= |w| && InRange(w, |c0|)
      && disk == After(d0, w, k) && cache == After(c0, w, k)
      && trace == t0 + w[..k]
    }

    /** memmove into a buffer, then bwrite: the next of the writes w. */
    method WriteNext(b: nat, data: Block, ghost w: seq<Write>, ghost c0: Disk, ghost d0: Disk,
                     ghost t0: seq<Write>, ghost k: nat)
      requires Wrote(w, c0, d0, t0, k) && k < |w| && w[k] == Write(b, data)
      modifies this`cache, this`disk, this`trace
      ensures Wrote(w, c0, d0, t0, k + 1)
    {
      TraceStep(t0, w, k);
      WriteThrough(b, data);
    }

    /** write_head: copy the in-memory header into its buffer and write it. */
    method WriteHead(ghost w: seq<Write>, ghost c0: Disk, ghost d0: Disk, ghost t0: seq<Write>, ghost k: nat)
      requires block.Length == LOGSIZE && n <= LOGSIZE && |c0| > area.start && |c0[area.start].words| > LOGSIZE
      requires Heads(area, w, k, c0, block[..n]) && Wrote(w, c0, d0, t0, k)
      modifies this`cache, this`disk, this`trace
      ensures Wrote(w, c0, d0, t0, k + 1)
    {
      ghost var prior := cache[area.start].words;
      var hb := cache[area.start].words[0 := n];
      var i := 0;
      while i < n
        invariant i <= n && |hb| == |prior|
        invariant hb[0] == n
        invariant forall j :: 0 <= j < i ==> hb[1 + j] == block[j]
        invariant forall j :: i + 1 <= j < |hb| ==> hb[j] == prior[j]
      {
        hb := hb[1 + i := block[i]];
        i := i + 1;
      }
      assert hb == [n as int] + block[..n] + prior[n + 1..];
      WriteNext(area.start, Block(hb), w, c0, d0, t0, k);
    }

    method WriteLog(ghost lh: seq<nat>, ghost w: seq<Write>, ghost c0: Disk, ghost d0: Disk, ghost t0: seq<Write>)
      requires block.Length == LOGSIZE && n <= LOGSIZE && lh == block[..n]
      requires Logs(area, w, c0, lh) && Wrote(w, c0, d0, t0, 0)
      modifies this`cache, this`disk, this`trace
      ensures Wrote(w, c0, d0, t0, n)
    {
      var tail := 0;
      while tail < n
        invariant tail <= n
        invariant Wrote(w, c0, d0, t0, tail)
      {
        assert block[tail] == lh[tail] && LogsAt(area, w, c0, lh, tail);
        WriteNext(area.start + tail + 1, cache[block[tail]], w, c0, d0, t0, tail);
        tail := tail + 1;
      }
    }

    method InstallTrans(ghost lh: seq<nat>, ghost w: seq<Write>, ghost base: nat, ghost end: nat,
                        ghost c0: Disk, ghost d0: Disk, ghost t0: seq<Write>)
      requires block.Length == LOGSIZE && n <= LOGSIZE && lh == block[..n] && end == base + n
      requires Installs(area, w, base, c0, lh) && Wrote(w, c0, d0, t0, base)
      modifies this`cache, this`disk, this`trace
      ensures Wrote(w, c0, d0, t0, end)
    {
      var tail := 0;
      ghost var k := base;
      while tail < n
        invariant tail <= n && k == base + tail
        invariant Wrote(w, c0, d0, t0, k)
      {
        assert block[tail] == lh[tail] && InstallsAt(area, w, base, c0, lh, tail);
        WriteNext(block[tail], cache[area.start + 1 + tail], w, c0, d0, t0, k);
        tail, k := tail + 1, k + 1;
      }
    }

    /** The body of commit, on the plan w that module Log lays out for it. */
    method CommitBody(ghost lh: seq<nat>, ghost w: seq<Write>, ghost c0: Disk, ghost d0: Disk, ghost t0: seq<Write>)
      requires block.Length == LOGSIZE && n <= LOGSIZE && lh == block[..n]
      requires |w| == 2 * |lh| + 2 && area.Fits(c0) && |c0[area.start].words| > LOGSIZE
      requires Logs(area, w, c0, lh) && Heads(area, w, |lh|, c0, lh)
      requires Installs(area, w, |lh| + 1, c0, lh) && Heads(area, w, |w| - 1, c0, [])
      requires Wrote(w, c0, d0, t0, 0)
      modifies this`cache, this`disk, this`trace, this`n
      ensures n == 0 && Wrote(w, c0, d0, t0, |w|)
      ensures |cache| == |c0| == |disk| && |cache[area.start].words| > LOGSIZE
    {
      WriteLog(lh, w, c0, d0, t0);
      WriteHead(w, c0, d0, t0, |lh|);
      InstallTrans(lh, w, |lh| + 1, |w| - 1, c0, d0, t0);
      n := 0;
      assert block[..n] == [];
      WriteHead(w, c0, d0, t0, |w| - 1);
    }

    /** commit: its writes are exactly CommitWrites, in that order. */
    method Commit(ghost lh: seq<nat>)
      requires Valid() && lh == Lh()
      modifies this`cache, this`disk, this`trace, this`n
      ensures n == 0
      ensures var w := CommitWrites(area, old(cache), lh);
              Wrote(w, old(cache), old(disk), old(trace), |w|)
      ensures Valid()
    {
      if n > 0 {
        ghost var w := CommitWrites(area, cache, lh);
        CommitLogs(area, cache, lh);
        CommitHeads(area, cache, lh);
        CommitInstalls(area, cache, lh, |lh| + 1);
        CommitBody(lh, w, cache, disk, trace);
      }
    }

    /** read_head: the in-memory header becomes the on-disk one. */
    method ReadHead()
      requires block.Length == LOGSIZE && |cache| == |disk| && area.Fits(cache) && Readable(cache[area.start])
      requires forall i :: 0 <= i < |DecodeHead(cache[area.start])| ==> 0 <= DecodeHead(cache[area.start])[i]
      modifies this`n, block
      ensures n <= LOGSIZE && Lh() == DecodeHead(cache[area.start])
    {
      var lh := cache[area.start].words;
      ghost var dec := DecodeHead(cache[area.start]);
      n := lh[0];
      var i := 0;
      while i < n
        invariant i <= n == |dec|
        invariant forall j :: 0 <= j < i ==> block[j] == dec[j]
      {
        assert dec[i] == lh[1 + i];
        block[i] := lh[1 + i];
        i := i + 1;
      }
    }

    /** recover_from_log at boot, when nothing is cached yet. */
    method RecoverFromLog(ghost f: Disk)
      requires block.Length == LOGSIZE && cache == disk && DurableIs(area, disk, f)
      requires |disk[area.start].words| > LOGSIZE
      modifies this`cache, this`disk, this`trace, this`n, block
      ensures n == 0 && cache == disk
      ensures var w := RecoverWrites(area, old(disk));
              Wrote(w, old(disk), old(disk), old(trace), |w|)
      ensures Clean(area, disk) && SameHome(area, disk, f)
      ensures Valid()
    {
      ghost var d0, t0, w := disk, trace, RecoverWrites(area, disk);
      ghost var lh: seq<nat> := DecodeHead(disk[area.start]);
      ReadHead();
      RecoverInstalls(area, d0, f, lh);
      RecoverHeads(area, d0, f);
      InstallTrans(lh, w, 0, |lh|, d0, d0, t0);
      n := 0;
      assert block[..n] == [];
      WriteHead(w, d0, d0, t0, |lh|);
      RecoverPrefix(area, d0, f, |w|);
    }
  }
}
