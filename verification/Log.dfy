/**
 The write-ahead log (kernel/log.c): the on-disk format, the order of the disk
 writes that commit and recovery issue, and what a crash between any two of
 them leaves behind.
 */
module Log {

  const MAXOPBLOCKS := 10
  const LOGSIZE := MAXOPBLOCKS * 3

  /** A block read as 32-bit words, as struct logheader reads it. */
  datatype Block = Block(words: seq<int>)
  type Disk = seq<Block>

  datatype Write = Write(blockno: nat, data: Block)

  /** The log's place on the disk: a header block, then size - 1 log blocks. */
  datatype Area = Area(start: nat, size: nat) {
    predicate Has(b: int) { start <= b < start + size }
    predicate Fits(d: Disk) { 1 <= size && start + size <= |d| }
  }

  // ----- the header block -----

  function EncodeHead(prior: Block, lh: seq<nat>): (h: Block) {
    Block([|lh|] + lh + if |lh| < |prior.words| then prior.words[|lh| + 1..] else [])
  }

  predicate Readable(h: Block) {
    |h.words| > 0 && 0 <= h.words[0] <= LOGSIZE && h.words[0] < |h.words|
  }

  function DecodeHead(h: Block): (lh: seq<int>)
    requires Readable(h)
  {
    h.words[1..1 + h.words[0]]
  }

  /** What log_write keeps true of the in-memory header. */
  ghost predicate GoodLh(a: Area, ndisk: nat, lh: seq<int>) {
    && |lh| <= LOGSIZE
    && |lh| < a.size
    && (forall i :: 0 <= i < |lh| ==> 0 <= lh[i] < ndisk && !a.Has(lh[i]))
    && (forall i, j :: 0 <= i < j < |lh| ==> lh[i] != lh[j])
  }

  ghost predicate GoodDisk(a: Area, d: Disk) {
    && a.Fits(d)
    && Readable(d[a.start])
    && GoodLh(a, |d|, DecodeHead(d[a.start]))
  }

  lemma HeadRoundTrip(prior: Block, lh: seq<nat>)
    requires |lh| <= LOGSIZE
    ensures Readable(EncodeHead(prior, lh)) && DecodeHead(EncodeHead(prior, lh)) == lh
  {
    assert EncodeHead(prior, lh).words[1..1 + |lh|] == lh;
  }

  // ----- disk writes -----

  ghost predicate InRange(w: seq<Write>, n: nat) {
    forall i :: 0 <= i < |w| ==> w[i].blockno < n
  }

  /** The disk after the first k of the writes w have reached it. */
  function After(d: Disk, w: seq<Write>, k: nat): (r: Disk)
    requires InRange(w, |d|) && k <= |w|
    ensures |r| == |d|
  {
    if k == 0 then d else After(d, w, k - 1)[w[k - 1].blockno := w[k - 1].data]
  }

  // ----- what commit and recovery write -----

  /** The k-th disk write of commit: log blocks from the cache (write_log), the
      header (the commit point), home blocks (install_trans), empty header. */
  function CommitWrite(a: Area, cache: Disk, lh: seq<nat>, k: nat): (w: Write)
    requires a.Fits(cache) && k < 2 * |lh| + 2
    requires forall i :: 0 <= i < |lh| ==> lh[i] < |cache|
  {
    var n := |lh|;
    var head := EncodeHead(cache[a.start], lh);
    if k < n then Write(a.start + 1 + k, cache[lh[k]])
    else if k == n then Write(a.start, head)
    else if k <= 2 * n then Write(lh[k - n - 1], cache[lh[k - n - 1]])
    else Write(a.start, EncodeHead(head, []))
  }

  function CommitWrites(a: Area, cache: Disk, lh: seq<nat>): (w: seq<Write>)
    requires a.Fits(cache)
    requires forall i :: 0 <= i < |lh| ==> lh[i] < |cache|
    ensures |w| == if lh == [] then 0 else 2 * |lh| + 2
  {
    if lh == [] then []
    else seq(2 * |lh| + 2, k requires 0 <= k < 2 * |lh| + 2 => CommitWrite(a, cache, lh, k))
  }

  /** recover_from_log: replay what the on-disk header names, then clear it. */
  function RecoverWrites(a: Area, d: Disk): (w: seq<Write>)
    requires GoodDisk(a, d)
    ensures |w| == |DecodeHead(d[a.start])| + 1 && InRange(w, |d|)
  {
    var lh := DecodeHead(d[a.start]);
    seq(|lh| + 1, k requires 0 <= k <= |lh| =>
      if k < |lh| then Write(lh[k], d[a.start + 1 + k])
      else Write(a.start, EncodeHead(d[a.start], [])))
  }

  // ----- crash atomicity -----

  /** Log block i of d holds what f has at home block lh[i]. */
  ghost predicate CopyAt(a: Area, d: Disk, f: Disk, lh: seq<int>, i: nat)
    requires a.Fits(d) && |f| == |d| && GoodLh(a, |d|, lh) && i < |lh|
  {
    d[a.start + 1 + i] == f[lh[i]]
  }

  /** With header lh, the log and home blocks of d together stand for f. */
  ghost predicate DurableBy(a: Area, d: Disk, f: Disk, lh: seq<int>) {
    && a.Fits(d) && |f| == |d| && GoodLh(a, |d|, lh)
    && (forall i {:trigger CopyAt(a, d, f, lh, i)} :: 0 <= i < |lh| ==> CopyAt(a, d, f, lh, i))
    && (forall b {:trigger f[b]} :: 0 <= b < |d| && !a.Has(b) && b !in lh ==> d[b] == f[b])
  }

  /** Recovery from d restores exactly f on the blocks outside the log. */
  ghost predicate DurableIs(a: Area, d: Disk, f: Disk) {
    GoodDisk(a, d) && DurableBy(a, d, f, DecodeHead(d[a.start]))
  }

  ghost predicate Clean(a: Area, d: Disk) {
    a.Fits(d) && |d[a.start].words| > 0 && d[a.start].words[0] == 0
  }

  ghost predicate SameHome(a: Area, d: Disk, f: Disk) {
    |d| == |f| && forall b {:trigger f[b]} :: 0 <= b < |d| && !a.Has(b) ==> d[b] == f[b]
  }

  lemma CleanIsDurable(a: Area, d: Disk, f: Disk)
    requires Clean(a, d) && SameHome(a, d, f)
    ensures DurableIs(a, d, f)
  {
    assert DecodeHead(d[a.start]) == [];
  }

  /** The first j blocks named by lh are home. */
  ghost predicate Installed(a: Area, d: Disk, f: Disk, lh: seq<int>, j: nat) {
    && DurableBy(a, d, f, lh)
    && j <= |lh|
    && forall i :: 0 <= i < j ==> d[lh[i]] == f[lh[i]]
  }

  lemma InstallOne(a: Area, d: Disk, f: Disk, lh: seq<nat>, j: nat)
    requires Installed(a, d, f, lh, j) && j < |lh|
    ensures Installed(a, d[lh[j] := f[lh[j]]], f, lh, j + 1)
  {
    var r := d[lh[j] := f[lh[j]]];
    forall i | 0 <= i < |lh|
      ensures CopyAt(a, r, f, lh, i)
    {
      assert CopyAt(a, d, f, lh, i);
    }
  }

  lemma ClearInstalled(a: Area, d: Disk, f: Disk, lh: seq<nat>)
    requires Installed(a, d, f, lh, |lh|)
    ensures var r := d[a.start := EncodeHead(d[a.start], [])];
            Clean(a, r) && SameHome(a, r, f)
  {
    var r := d[a.start := EncodeHead(d[a.start], [])];
    forall b | 0 <= b < |d| && !a.Has(b)
      ensures r[b] == f[b]
    {
      if b in lh {
        var i :| 0 <= i < |lh| && lh[i] == b;
      }
    }
  }

  ghost predicate ReplayAt(a: Area, d: Disk, lh: seq<int>, w: seq<Write>, i: nat)
    requires a.Fits(d) && GoodLh(a, |d|, lh) && i < |lh| <= |w|
  {
    w[i] == Write(lh[i], d[a.start + 1 + i])
  }

  /** w replays the log of d, whose header is lh, and then clears the header. */
  ghost predicate Replays(a: Area, d: Disk, lh: seq<int>, w: seq<Write>) {
    && a.Fits(d) && GoodLh(a, |d|, lh) && InRange(w, |d|) && |w| == |lh| + 1
    && (forall i {:trigger ReplayAt(a, d, lh, w, i)} :: 0 <= i < |lh| ==> ReplayAt(a, d, lh, w, i))
    && w[|lh|] == Write(a.start, EncodeHead(d[a.start], []))
  }

  lemma RecoveryReplays(a: Area, d: Disk)
    requires GoodDisk(a, d)
    ensures Replays(a, d, DecodeHead(d[a.start]), RecoverWrites(a, d))
  {
  }

  lemma {:induction false} ReplayInstalls(a: Area, d: Disk, f: Disk, lh: seq<int>, w: seq<Write>, k: nat)
    requires DurableBy(a, d, f, lh) && Replays(a, d, lh, w) && k <= |lh|
    ensures Installed(a, After(d, w, k), f, lh, k) && After(d, w, k)[a.start] == d[a.start]
  {
    if k > 0 {
      ReplayInstalls(a, d, f, lh, w, k - 1);
      assert ReplayAt(a, d, lh, w, k - 1) && CopyAt(a, d, f, lh, k - 1);
      InstallOne(a, After(d, w, k - 1), f, lh, k - 1);
    }
  }

  lemma ReplayClears(a: Area, d: Disk, f: Disk, lh: seq<int>, w: seq<Write>)
    requires DurableBy(a, d, f, lh) && Replays(a, d, lh, w)
    ensures Clean(a, After(d, w, |w|)) && SameHome(a, After(d, w, |w|), f)
  {
    ReplayInstalls(a, d, f, lh, w, |lh|);
    ClearInstalled(a, After(d, w, |lh|), f, lh);
  }

  lemma SameHeadIsDurable(a: Area, d: Disk, r: Disk, f: Disk)
    requires GoodDisk(a, d) && DurableBy(a, r, f, DecodeHead(d[a.start])) && r[a.start] == d[a.start]
    ensures DurableIs(a, r, f)
  {
  }

  /** A crash after any number of recovery's writes loses nothing, and a
      recovery that finishes leaves f on the home blocks and an empty log. */
  lemma RecoverPrefix(a: Area, d: Disk, f: Disk, k: nat)
    requires DurableIs(a, d, f) && k <= |RecoverWrites(a, d)|
    ensures DurableIs(a, After(d, RecoverWrites(a, d), k), f)
    ensures k == |RecoverWrites(a, d)| ==>
              var r := After(d, RecoverWrites(a, d), k);
              Clean(a, r) && SameHome(a, r, f)
  {
    var lh, w := DecodeHead(d[a.start]), RecoverWrites(a, d);
    RecoveryReplays(a, d);
    if k <= |lh| {
      ReplayInstalls(a, d, f, lh, w, k);
      SameHeadIsDurable(a, d, After(d, w, k), f);
    } else {
      ReplayClears(a, d, f, lh, w);
      CleanIsDurable(a, After(d, w, k), f);
    }
  }

  /** Recovery attempts that crash after crashes[0], crashes[1], ... writes. */
  ghost function Attempts(a: Area, d: Disk, crashes: seq<nat>): (r: Disk)
    requires GoodDisk(a, d)
    decreases |crashes|
  {
    if crashes == [] then d
    else
      var w := RecoverWrites(a, d);
      var d' := After(d, w, if crashes[0] <= |w| then crashes[0] else |w|);
      if GoodDisk(a, d') then Attempts(a, d', crashes[1..]) else d'
  }

  lemma {:induction false} AttemptsKeepDurable(a: Area, d: Disk, f: Disk, crashes: seq<nat>)
    requires DurableIs(a, d, f)
    ensures DurableIs(a, Attempts(a, d, crashes), f)
    decreases |crashes|
  {
    if crashes != [] {
      var w := RecoverWrites(a, d);
      var k := if crashes[0] <= |w| then crashes[0] else |w|;
      RecoverPrefix(a, d, f, k);
      AttemptsKeepDurable(a, After(d, w, k), f, crashes[1..]);
    }
  }

  /** What the transaction means: the logged blocks take their cached content. */
  ghost function Committed(d: Disk, cache: Disk, lh: seq<nat>): (r: Disk)
    requires |cache| == |d|
    ensures |r| == |d|
  {
    seq(|d|, b requires 0 <= b < |d| => if b in lh then cache[b] else d[b])
  }

  lemma CommitInRange(a: Area, cache: Disk, lh: seq<nat>)
    requires a.Fits(cache) && GoodLh(a, |cache|, lh)
    ensures InRange(CommitWrites(a, cache, lh), |cache|)
  {
  }

  /** Up to the header write: the first k log blocks are written, nothing else. */
  ghost predicate Logged(a: Area, d: Disk, cache: Disk, lh: seq<nat>, r: Disk, k: nat)
    requires a.Fits(d) && |cache| == |d| && GoodLh(a, |d|, lh)
  {
    && SameHome(a, r, d)
    && r[a.start] == d[a.start]
    && k <= |lh|
    && forall i :: 0 <= i < k ==> r[a.start + 1 + i] == cache[lh[i]]
  }

  lemma HeadCommits(a: Area, d: Disk, cache: Disk, lh: seq<nat>, r: Disk)
    requires a.Fits(d) && |cache| == |d| && GoodLh(a, |d|, lh)
    requires Logged(a, d, cache, lh, r, |lh|)
    ensures Installed(a, r[a.start := EncodeHead(cache[a.start], lh)], Committed(d, cache, lh), lh, 0)
  {
  }

  /** The disk after k of commit's writes. */
  ghost predicate CommitPhase(a: Area, d: Disk, cache: Disk, lh: seq<nat>, r: Disk, k: nat)
    requires a.Fits(d) && |cache| == |d| && GoodLh(a, |d|, lh)
  {
    var f := Committed(d, cache, lh);
    if k <= |lh| then Logged(a, d, cache, lh, r, k)
    else if k <= 2 * |lh| + 1 then
      && Installed(a, r, f, lh, k - |lh| - 1)
      && r[a.start] == EncodeHead(cache[a.start], lh)
    else Clean(a, r) && SameHome(a, r, f)
  }

  lemma CommitStep(a: Area, d: Disk, cache: Disk, lh: seq<nat>, r: Disk, k: nat)
    requires a.Fits(d) && |cache| == |d| && GoodLh(a, |d|, lh)
    requires CommitPhase(a, d, cache, lh, r, k) && k < 2 * |lh| + 2
    ensures var w := CommitWrite(a, cache, lh, k);
            w.blockno < |r| && CommitPhase(a, d, cache, lh, r[w.blockno := w.data], k + 1)
  {
    var f := Committed(d, cache, lh);
    if k < |lh| {
    } else if k == |lh| {
      HeadCommits(a, d, cache, lh, r);
    } else if k <= 2 * |lh| {
      InstallOne(a, r, f, lh, k - |lh| - 1);
    } else {
      ClearInstalled(a, r, f, lh);
    }
  }

  lemma {:induction false} CommitState(a: Area, d: Disk, cache: Disk, lh: seq<nat>, k: nat)
    requires a.Fits(d) && |cache| == |d| && GoodLh(a, |d|, lh) && lh != []
    requires k <= |CommitWrites(a, cache, lh)|
    ensures InRange(CommitWrites(a, cache, lh), |d|)
    ensures CommitPhase(a, d, cache, lh, After(d, CommitWrites(a, cache, lh), k), k)
  {
    CommitInRange(a, cache, lh);
    if k > 0 {
      var all := CommitWrites(a, cache, lh);
      CommitState(a, d, cache, lh, k - 1);
      var r, w := After(d, all, k - 1), CommitWrite(a, cache, lh, k - 1);
      assert After(d, all, k) == r[w.blockno := w.data];
      CommitStep(a, d, cache, lh, r, k - 1);
    }
  }

  lemma PhaseIsDurable(a: Area, d: Disk, cache: Disk, lh: seq<nat>, r: Disk, k: nat)
    requires Clean(a, d) && |cache| == |d| && GoodLh(a, |d|, lh)
    requires CommitPhase(a, d, cache, lh, r, k)
    ensures DurableIs(a, r, if k <= |lh| then d else Committed(d, cache, lh))
  {
    if k <= |lh| {
      CleanIsDurable(a, r, d);
    } else if k <= 2 * |lh| + 1 {
      HeadRoundTrip(cache[a.start], lh);
    } else {
      CleanIsDurable(a, r, Committed(d, cache, lh));
    }
  }

  /** After any k of commit's writes the disk is still worth the old contents
      (header not yet written) or the new ones (header written). */
  lemma CommitPrefix(a: Area, d: Disk, cache: Disk, lh: seq<nat>, k: nat)
    requires Clean(a, d) && |cache| == |d| && GoodLh(a, |d|, lh)
    requires k <= |CommitWrites(a, cache, lh)|
    ensures InRange(CommitWrites(a, cache, lh), |d|)
    ensures var r := After(d, CommitWrites(a, cache, lh), k);
            && DurableIs(a, r, if k <= |lh| then d else Committed(d, cache, lh))
            && (k == |CommitWrites(a, cache, lh)| ==>
                  Clean(a, r) && SameHome(a, r, Committed(d, cache, lh)))
  {
    if lh == [] {
      CleanIsDurable(a, d, d);
    } else {
      CommitState(a, d, cache, lh, k);
      PhaseIsDurable(a, d, cache, lh, After(d, CommitWrites(a, cache, lh), k), k);
    }
  }

  /**
   Crash atomicity. The machine stops after any k writes of a commit; recovery
   is itself interrupted any number of times, anywhere; then one recovery runs
   to its end. The home blocks are then all old if the header had not been
   written and all new if it had, and the log is empty.
   */
  lemma CrashAtomicity(a: Area, d: Disk, cache: Disk, lh: seq<nat>, k: nat, crashes: seq<nat>)
    requires Clean(a, d) && |cache| == |d| && GoodLh(a, |d|, lh)
    requires k <= |CommitWrites(a, cache, lh)|
    ensures InRange(CommitWrites(a, cache, lh), |d|)
    ensures var crashed := After(d, CommitWrites(a, cache, lh), k);
            && GoodDisk(a, crashed)
            && var retried := Attempts(a, crashed, crashes);
               && GoodDisk(a, retried)
               && var final := After(retried, RecoverWrites(a, retried), |RecoverWrites(a, retried)|);
                  && Clean(a, final)
                  && SameHome(a, final, if k <= |lh| then d else Committed(d, cache, lh))
  {
    CommitPrefix(a, d, cache, lh, k);
    var f := if k <= |lh| then d else Committed(d, cache, lh);
    var crashed := After(d, CommitWrites(a, cache, lh), k);
    AttemptsKeepDurable(a, crashed, f, crashes);
    var retried := Attempts(a, crashed, crashes);
    RecoverPrefix(a, retried, f, |RecoverWrites(a, retried)|);
  }
}
