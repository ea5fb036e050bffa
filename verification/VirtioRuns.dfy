/** Every interleaving of requests, device actions and interrupts. */
module VirtioRuns {
  import opened VirtioModel

  datatype Act =
    | Submit(a: nat, b: nat, c: nat, buf: nat, write: bool) // virtio_disk_rw up to its wait
    | DeviceFetch
    | DeviceComplete(h: nat)
    | Interrupt // one iteration of virtio_disk_intr
    | Retire(h: nat) // virtio_disk_rw after its wait

  function Taken(q: Queue, a: nat, b: nat, c: nat): (r: Queue)
    requires Sized(q) && a < NUM && b < NUM && c < NUM
  {
    TakeDesc(TakeDesc(TakeDesc(q, a), b), c)
  }

  function Retired(q: Queue, h: nat): (r: Queue)
    requires Sized(q) && h < NUM && h in q.chains && q.chains[h].a < NUM && q.chains[h].b < NUM && q.chains[h].c < NUM
  {
    var x := q.chains[h];
    GiveDesc(GiveDesc(GiveDesc(Dissolve(q, h), x.a), x.b), x.c)
  }

  ghost predicate Next(q: Queue, act: Act, r: Queue)
    requires Valid(q)
  {
    match act
    case Submit(a, b, c, buf, write) =>
      && a < NUM && b < NUM && c < NUM && a != b && b != c && a != c && q.free[a] && q.free[b] && q.free[c]
      && (forall h :: h in q.chains ==> q.chains[h].buf != buf)
      && r == Post(Taken(q, a, b, c), a, b, c, buf, write)
    case DeviceFetch => q.pend != [] && q.pend[0] in q.chains && r == Fetch(q)
    case DeviceComplete(h) => h in q.chains && h < NUM && q.chains[h].stage.Fetched? && r == Complete(q, h)
    case Interrupt => q.done != [] && q.done[0] in q.chains && q.done[0] < NUM && r == See(q)
    case Retire(h) =>
      && h in q.chains && h < NUM && ChainAt(q, h) && q.chains[h].buf !in q.busy && r == Retired(q, h)
  }

  ghost predicate Init(q: Queue) {
    && Sized(q) && (forall i :: 0 <= i < NUM ==> q.free[i]) && q.availIdx == q.fetchIdx == q.usedIdx == q.seenIdx == 0
    && q.chains == map[] && q.own == map[] && q.held == {} && q.pend == q.done == [] && q.nf == q.ns == 0
  }

  lemma InitValid(q: Queue)
    requires Init(q)
    ensures Valid(q)
  {
  }

  lemma SubmitValid(q: Queue, a: nat, b: nat, c: nat, buf: nat, write: bool)
    requires Valid(q) && a < NUM && b < NUM && c < NUM && a != b
    requires b != c && a != c && q.free[a] && q.free[b] && q.free[c]
    requires q.held == {} && forall h :: h in q.chains ==> q.chains[h].buf != buf
    ensures a !in q.chains && Valid(Post(Taken(q, a, b, c), a, b, c, buf, write))
  {
    TakeValid(q, a);
    TakeValid(TakeDesc(q, a), b);
    TakeValid(TakeDesc(TakeDesc(q, a), b), c);
    PostFresh(Taken(q, a, b, c), a, b, c, buf);
    PostValid(Taken(q, a, b, c), a, b, c, buf, write);
  }

  lemma RetireValid(q: Queue, h: nat)
    requires Valid(q) && q.held == {} && h in q.chains && h < NUM && ChainAt(q, h) && q.chains[h].buf !in q.busy
    ensures Valid(Retired(q, h)) && Retired(q, h).held == {}
  {
    assert StageAt(q, h);
    var x := q.chains[h];
    DissolveValid(q, h);
    var d := Dissolve(q, h);
    GiveValid(d, x.a);
    GiveValid(GiveDesc(d, x.a), x.b);
    GiveValid(GiveDesc(GiveDesc(d, x.a), x.b), x.c);
  }

  lemma NextKeepsValid(q: Queue, act: Act, r: Queue)
    requires Valid(q) && q.held == {} && Next(q, act, r)
    ensures Valid(r) && r.held == {}
  {
    match act {
      case Submit(a, b, c, buf, write) => SubmitValid(q, a, b, c, buf, write);
      case DeviceFetch => FetchValid(q);
      case DeviceComplete(h) => CompleteValid(q, h);
      case Interrupt => SeeValid(q);
      case Retire(h) => RetireValid(q, h);
    }
  }

  ghost predicate StepAt(run: seq<Queue>, acts: seq<Act>, i: nat)
    requires i + 1 < |run| && i < |acts|
  {
    Valid(run[i]) && Next(run[i], acts[i], run[i + 1])
  }

  ghost predicate IsRun(run: seq<Queue>, acts: seq<Act>) {
    && |run| == |acts| + 1 && Init(run[0])
    && forall i {:trigger StepAt(run, acts, i)} :: 0 <= i < |acts| && Valid(run[i]) ==> StepAt(run, acts, i)
  }

  /** At every point of every run, descriptors are conserved and at most two
      requests are under way, whatever the indices have wrapped to. */
  lemma {:induction false} RunConserves(run: seq<Queue>, acts: seq<Act>, i: nat)
    requires IsRun(run, acts) && i < |run|
    ensures Valid(run[i]) && run[i].held == {}
    ensures |FreeSet(run[i])| + 3 * |run[i].chains.Keys| == NUM
  {
    if i == 0 {
      InitValid(run[0]);
    } else {
      RunConserves(run, acts, i - 1);
      assert StepAt(run, acts, i - 1);
      NextKeepsValid(run[i - 1], acts[i - 1], run[i]);
    }
    Conservation(run[i]);
  }

  /** A live request keeps its buffer, and only the device's own completion of
      it takes it past Fetched. */
  lemma StageMoves(q: Queue, act: Act, r: Queue, h: nat)
    requires Valid(q) && q.held == {} && Next(q, act, r) && h in q.chains && h in r.chains
    ensures r.chains[h].buf == q.chains[h].buf
    ensures (q.chains[h].stage.Posted? || q.chains[h].stage.Fetched?) && act != DeviceComplete(h) ==>
              r.chains[h].stage.Posted? || r.chains[h].stage.Fetched?
  {
    match act {
      case Submit(a, b, c, buf, write) => SubmitValid(q, a, b, c, buf, write);
      case DeviceFetch => {}
      case DeviceComplete(g) => {}
      case Interrupt => SeeValid(q);
      case Retire(g) => {}
    }
  }

  ghost predicate LiveAt(run: seq<Queue>, k: nat, h: nat)
    requires k < |run|
  {
    h in run[k].chains
  }

  lemma Submitted(run: seq<Queue>, acts: seq<Act>, i: nat)
    requires IsRun(run, acts) && i < |acts| && acts[i].Submit?
    ensures acts[i].a in run[i + 1].chains
    ensures run[i + 1].chains[acts[i].a].buf == acts[i].buf && run[i + 1].chains[acts[i].a].stage.Posted?
  {
    RunConserves(run, acts, i);
    assert StepAt(run, acts, i);
  }

  lemma Advanced(run: seq<Queue>, acts: seq<Act>, i: nat, h: nat)
    requires IsRun(run, acts) && i < |acts| && h in run[i].chains && h in run[i + 1].chains
    ensures run[i + 1].chains[h].buf == run[i].chains[h].buf
    ensures Early(run[i], h) && acts[i] != DeviceComplete(h) ==> Early(run[i + 1], h)
  {
    RunConserves(run, acts, i);
    assert StepAt(run, acts, i);
    StageMoves(run[i], acts[i], run[i + 1], h);
  }

  /** The device has not completed request h. */
  ghost predicate Early(q: Queue, h: nat)
    requires h in q.chains
  {
    q.chains[h].stage.Posted? || q.chains[h].stage.Fetched?
  }

  lemma EarlyIsBusy(run: seq<Queue>, acts: seq<Act>, i: nat, h: nat)
    requires IsRun(run, acts) && i < |run| && h in run[i].chains && Early(run[i], h)
    ensures run[i].chains[h].buf in run[i].busy
  {
    RunConserves(run, acts, i);
    assert StageAt(run[i], h);
  }

  ghost predicate CompletedIn(acts: seq<Act>, i: nat, j: nat, h: nat)
    requires j <= |acts|
  {
    exists k :: i < k < j && acts[k] == DeviceComplete(h)
  }

  lemma {:induction false} EarlyOrCompleted(run: seq<Queue>, acts: seq<Act>, i: nat, j: nat, h: nat)
    requires IsRun(run, acts) && i < j < |run| && acts[i].Submit? && acts[i].a == h
    requires forall k {:trigger LiveAt(run, k, h)} :: i < k <= j ==> LiveAt(run, k, h)
    ensures h in run[j].chains && run[j].chains[h].buf == acts[i].buf
    ensures Early(run[j], h) || CompletedIn(acts, i, j, h)
    decreases j
  {
    assert LiveAt(run, j, h);
    if i + 1 == j {
      Submitted(run, acts, i);
    } else {
      EarlyOrCompleted(run, acts, i, j - 1, h);
      Advanced(run, acts, j - 1, h);
      if CompletedIn(acts, i, j - 1, h) {
        var k :| i < k < j - 1 && acts[k] == DeviceComplete(h);
        assert i < k < j;
      } else {
        assert acts[j - 1] == DeviceComplete(h) ==> i < j - 1 < j;
      }
    }
  }

  /** A buffer's disk field, set when its request is posted, is 0 at a later point
      of the request's life only if the device has completed that very chain. */
  lemma ClearedOnlyWhenCompleted(run: seq<Queue>, acts: seq<Act>, i: nat, j: nat, h: nat)
    requires IsRun(run, acts) && i < j < |run| && acts[i].Submit? && acts[i].a == h
    requires forall k {:trigger LiveAt(run, k, h)} :: i < k <= j ==> LiveAt(run, k, h)
    ensures acts[i].buf !in run[j].busy ==> CompletedIn(acts, i, j, h)
  {
    EarlyOrCompleted(run, acts, i, j, h);
    if Early(run[j], h) {
      EarlyIsBusy(run, acts, j, h);
    }
  }
}
