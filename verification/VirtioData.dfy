/**
 What a disk request does (kernel/virtio_disk.c): the device follows the
 descriptors it finds in memory, as section 5.2 of the virtio specification says,
 and when virtio_disk_rw is done the buffer and the disk hold the same block.
 */
module VirtioData {
  import opened VirtioModel
  import opened VirtioRuns

  type Block = seq<int>

  /** The queue, disk.ops, the contents of buffers, and the disk by first sector. */
  datatype World = World(q: Queue, ops: seq<Op>, mem: map<nat, Block>, disk: map<nat, Block>)

  /** A step of driver or device (blockno is the buffer's, in a request), or a process
      changes a buffer that is not under way. */
  datatype Event = Drive(act: Act, blockno: nat) | Touch(b: nat, data: Block)

  /** From descriptor h on, the device finds a header, data and a place for the status. */
  predicate Formatted(w: World, h: nat) {
    && Sized(w.q) && |w.ops| == NUM && h < NUM
    && var d := w.q.desc[h];
       && d.addr.Ops? && d.addr.i < NUM && !d.write && d.more && d.next < NUM
       && var e := w.q.desc[d.next];
          && e.addr.Data? && e.more && e.next < NUM
          && var f := w.q.desc[e.next]; f.addr.Status? && f.write && !f.more
  }

  function OpAt(w: World, h: nat): (op: Op)
    requires Formatted(w, h)
  {
    w.ops[w.q.desc[h].addr.i]
  }

  function DataAt(w: World, h: nat): (d: Desc)
    requires Formatted(w, h)
  {
    w.q.desc[w.q.desc[h].next]
  }

  /** The device can write the disk from data it may read, or data it may write from the
      disk; anything else it refuses. */
  predicate Sensible(w: World, h: nat) {
    && Formatted(w, h) && DataAt(w, h).addr.b in w.mem && OpAt(w, h).sector in w.disk
    && DataAt(w, h).write == !OpAt(w, h).out
  }

  function MemAfter(w: World, h: nat): (mem: map<nat, Block>) {
    if Sensible(w, h) && !OpAt(w, h).out then w.mem[DataAt(w, h).addr.b := w.disk[OpAt(w, h).sector]] else w.mem
  }

  function DiskAfter(w: World, h: nat): (disk: map<nat, Block>) {
    if Sensible(w, h) && OpAt(w, h).out then w.disk[OpAt(w, h).sector := w.mem[DataAt(w, h).addr.b]] else w.disk
  }

  /** Live requests are for different blocks, as buffers are (Bcache.OneBufferPerBlock). */
  ghost predicate SectorsDiffer(w: World, g: nat, h: nat)
    requires |w.ops| == NUM && g < NUM && h < NUM
  {
    g != h ==> w.ops[g].sector != w.ops[h].sector
  }

  ghost predicate NewSector(w: World, blockno: nat)
    requires |w.ops| == NUM
  {
    forall g :: g in w.q.chains && g < NUM ==> w.ops[g].sector != Sector(blockno)
  }

  ghost predicate Step(w: World, ev: Event, v: World)
    requires Valid(w.q) && |w.ops| == NUM
  {
    match ev
    case Touch(b, data) => (forall h :: h in w.q.chains ==> w.q.chains[h].buf != b) && v == w.(mem := w.mem[b := data])
    case Drive(act, blockno) =>
      && Next(w.q, act, v.q)
      && match act
         case Submit(a, _, _, buf, write) =>
           && NewSector(w, blockno) && buf in w.mem && Sector(blockno) in w.disk
           && v == w.(q := v.q, ops := w.ops[a := Op(write, Sector(blockno))])
         case DeviceComplete(h) => v == w.(q := v.q, mem := MemAfter(w, h), disk := DiskAfter(w, h))
         case _ => v == w.(q := v.q)
  }

  // ----- what every step keeps -----

  /** A live request is formatted, and for a block of its own. */
  ghost predicate LiveOk(w: World, h: nat)
    requires Valid(w.q) && |w.ops| == NUM && h in w.q.chains
  {
    && h < NUM && w.ops[h].out == w.q.chains[h].write
    && w.q.chains[h].buf in w.mem && w.ops[h].sector in w.disk
  }

  ghost predicate Inv(w: World) {
    && Valid(w.q) && w.q.held == {} && |w.ops| == NUM
    && (forall h {:trigger LiveOk(w, h)} :: h in w.q.chains ==> LiveOk(w, h))
    && (forall g, h {:trigger SectorsDiffer(w, g, h)} ::
          g in w.q.chains && h in w.q.chains && g < NUM && h < NUM ==> SectorsDiffer(w, g, h))
  }

  /** The device finds the request the driver meant, and moves exactly that block. */
  lemma Moved(w: World, h: nat)
    requires Inv(w) && h in w.q.chains
    ensures h < NUM && w.q.chains[h].buf in w.mem && w.ops[h].sector in w.disk
    ensures var b, sec := w.q.chains[h].buf, w.ops[h].sector;
            if w.q.chains[h].write then MemAfter(w, h) == w.mem && DiskAfter(w, h) == w.disk[sec := w.mem[b]]
            else DiskAfter(w, h) == w.disk && MemAfter(w, h) == w.mem[b := w.disk[sec]]
  {
    assert ChainAt(w.q, h) && LiveOk(w, h);
  }

  lemma ChainsOf(q: Queue, act: Act, r: Queue, h: nat)
    requires Valid(q) && q.held == {} && Next(q, act, r) && h in r.chains
    ensures h in q.chains ==> r.chains[h].buf == q.chains[h].buf && r.chains[h].write == q.chains[h].write
    ensures h !in q.chains ==> act.Submit? && h == act.a && r.chains[h].buf == act.buf && r.chains[h].write == act.write
    ensures act.Submit? ==> act.a !in q.chains
  {
    match act {
      case Submit(a, b, c, buf, write) => SubmitValid(q, a, b, c, buf, write);
      case DeviceFetch => {}
      case DeviceComplete(g) => {}
      case Interrupt => SeeValid(q);
      case Retire(g) => {}
    }
  }

  lemma StepKeepsInv(w: World, ev: Event, v: World)
    requires Inv(w) && Step(w, ev, v)
    ensures Inv(v)
  {
    if ev.Touch? {
      forall h | h in v.q.chains
        ensures LiveOk(v, h)
      {
        assert LiveOk(w, h);
      }
      forall g, h | g in v.q.chains && h in v.q.chains && g < NUM && h < NUM
        ensures SectorsDiffer(v, g, h)
      {
        assert SectorsDiffer(w, g, h);
      }
    } else {
      NextKeepsValid(w.q, ev.act, v.q);
      if ev.act.DeviceComplete? {
        Moved(w, ev.act.h);
      }
      forall h | h in v.q.chains
        ensures LiveOk(v, h)
      {
        StillOk(w, ev, v, h);
      }
      forall g, h | g in v.q.chains && h in v.q.chains && g < NUM && h < NUM
        ensures SectorsDiffer(v, g, h)
      {
        StillApart(w, ev, v, g, h);
      }
    }
  }

  lemma StillOk(w: World, ev: Event, v: World, h: nat)
    requires Inv(w) && Step(w, ev, v) && ev.Drive? && Valid(v.q) && h in v.q.chains
    ensures |v.ops| == NUM && LiveOk(v, h)
  {
    ChainsOf(w.q, ev.act, v.q, h);
    if ev.act.DeviceComplete? {
      Moved(w, ev.act.h);
    }
    if h in w.q.chains {
      assert LiveOk(w, h);
    }
  }

  lemma StillApart(w: World, ev: Event, v: World, g: nat, h: nat)
    requires Inv(w) && Step(w, ev, v) && ev.Drive? && g in v.q.chains && h in v.q.chains && g < NUM && h < NUM
    ensures |v.ops| == NUM && SectorsDiffer(v, g, h)
  {
    ChainsOf(w.q, ev.act, v.q, g);
    ChainsOf(w.q, ev.act, v.q, h);
    if g in w.q.chains && h in w.q.chains {
      assert SectorsDiffer(w, g, h);
    }
  }

  // ----- a request from beginning to end -----

  ghost predicate StepOf(run: seq<World>, evs: seq<Event>, k: nat)
    requires k + 1 < |run| && k < |evs|
  {
    Valid(run[k].q) && |run[k].ops| == NUM && Step(run[k], evs[k], run[k + 1])
  }

  ghost predicate IsRunOf(run: seq<World>, evs: seq<Event>) {
    && |run| == |evs| + 1 && Init(run[0].q) && |run[0].ops| == NUM
    && forall k {:trigger StepOf(run, evs, k)} ::
         0 <= k < |evs| && Valid(run[k].q) && |run[k].ops| == NUM ==> StepOf(run, evs, k)
  }

  lemma {:induction false} RunKeepsInv(run: seq<World>, evs: seq<Event>, k: nat)
    requires IsRunOf(run, evs) && k < |run|
    ensures Inv(run[k])
  {
    if k == 0 {
      InitValid(run[0].q);
    } else {
      RunKeepsInv(run, evs, k - 1);
      assert StepOf(run, evs, k - 1);
      StepKeepsInv(run[k - 1], evs[k - 1], run[k]);
    }
  }

  /** Request h is for buffer b and sector sec; x is what is to be in both. */
  ghost predicate Serving(w: World, h: nat, b: nat, sec: nat, write: bool, x: Block) {
    && Inv(w) && h in w.q.chains && h < NUM && w.q.chains[h].buf == b && w.q.chains[h].write == write
    && w.ops[h].sector == sec && b in w.mem && sec in w.disk
    && if Early(w.q, h) then x == (if write then w.mem[b] else w.disk[sec])
       else x == w.mem[b] == w.disk[sec]
  }

  /** A completed request stays completed, and completing makes it so. */
  lemma LaterStays(q: Queue, act: Act, r: Queue, h: nat)
    requires Valid(q) && q.held == {} && Next(q, act, r) && h in q.chains && h in r.chains
    ensures !Early(q, h) || act == DeviceComplete(h) ==> !Early(r, h)
    ensures act == DeviceComplete(h) ==> Early(q, h)
  {
    match act {
      case Submit(a, b, c, buf, write) => SubmitValid(q, a, b, c, buf, write);
      case DeviceFetch => FetchesPosted(q);
      case DeviceComplete(g) => {}
      case Interrupt => SeeValid(q);
      case Retire(g) => {}
    }
  }

  lemma FetchesPosted(q: Queue)
    requires Valid(q) && q.pend != [] && q.pend[0] in q.chains
    ensures q.chains[q.pend[0]].stage.Posted?
  {
    assert StageAt(q, q.pend[0]);
  }

  lemma ServingStep(w: World, ev: Event, v: World, h: nat, b: nat, sec: nat, write: bool, x: Block)
    requires Serving(w, h, b, sec, write, x) && Step(w, ev, v) && h in v.q.chains
    ensures Serving(v, h, b, sec, write, x)
  {
    StepKeepsInv(w, ev, v);
    assert LiveOk(w, h) && LiveOk(v, h);
    if ev.Drive? {
      ChainsOf(w.q, ev.act, v.q, h);
      StageMoves(w.q, ev.act, v.q, h);
      LaterStays(w.q, ev.act, v.q, h);
      if ev.act.DeviceComplete? {
        Moved(w, ev.act.h);
        OthersApart(w, h, ev.act.h);
      }
    }
  }

  lemma OthersApart(w: World, h: nat, g: nat)
    requires Inv(w) && h in w.q.chains && g in w.q.chains && h < NUM && g < NUM
    ensures g != h ==> w.ops[g].sector != w.ops[h].sector && w.q.chains[g].buf != w.q.chains[h].buf
  {
    assert SectorsDiffer(w, g, h) && BufsDiffer(w.q, g, h);
  }

  ghost predicate Under(run: seq<World>, k: nat, h: nat)
    requires k < |run|
  {
    h in run[k].q.chains
  }

  /** What the block is to be when the request is done: for a write what the buffer held
      when it was made, for a read what the disk held. */
  ghost function Wanted(w: World, act: Act, blockno: nat): (x: Block)
    requires act.Submit? && act.buf in w.mem && Sector(blockno) in w.disk
  {
    if act.write then w.mem[act.buf] else w.disk[Sector(blockno)]
  }

  lemma ServingFirst(run: seq<World>, evs: seq<Event>, i: nat)
    requires IsRunOf(run, evs) && i < |evs| && evs[i].Drive? && evs[i].act.Submit?
    ensures var act, sec := evs[i].act, Sector(evs[i].blockno);
            && act.buf in run[i].mem && sec in run[i].disk
            && Serving(run[i + 1], act.a, act.buf, sec, act.write, Wanted(run[i], act, evs[i].blockno))
  {
    RunKeepsInv(run, evs, i);
    RunKeepsInv(run, evs, i + 1);
    assert StepOf(run, evs, i);
    var act := evs[i].act;
    assert act.a in run[i + 1].q.chains && LiveOk(run[i + 1], act.a);
  }

  lemma {:induction false} ServingAlong(run: seq<World>, evs: seq<Event>, i: nat, j: nat)
    requires IsRunOf(run, evs) && i < j < |run| && evs[i].Drive? && evs[i].act.Submit?
    requires forall k {:trigger Under(run, k, evs[i].act.a)} :: i < k <= j ==> Under(run, k, evs[i].act.a)
    ensures var act, sec := evs[i].act, Sector(evs[i].blockno);
            && act.buf in run[i].mem && sec in run[i].disk
            && Serving(run[j], act.a, act.buf, sec, act.write, Wanted(run[i], act, evs[i].blockno))
    decreases j
  {
    ServingFirst(run, evs, i);
    if i + 1 < j {
      ServingAlong(run, evs, i, j - 1);
      assert Under(run, j, evs[i].act.a);
      assert StepOf(run, evs, j - 1);
      var act := evs[i].act;
      ServingStep(run[j - 1], evs[j - 1], run[j], act.a, act.buf, Sector(evs[i].blockno), act.write,
                  Wanted(run[i], act, evs[i].blockno));
    }
  }

  /**
   On every interleaving of requests, device and interrupts: when b->disk of a request
   is 0 again, buffer and disk hold the same block, for a write the one the buffer held
   when the request was made, for a read the one the disk held.
   */
  lemma RequestIsDone(run: seq<World>, evs: seq<Event>, i: nat, j: nat)
    requires IsRunOf(run, evs) && i < j < |run| && evs[i].Drive? && evs[i].act.Submit?
    requires forall k {:trigger Under(run, k, evs[i].act.a)} :: i < k <= j ==> Under(run, k, evs[i].act.a)
    requires evs[i].act.buf !in run[j].q.busy
    ensures var b, sec := evs[i].act.buf, Sector(evs[i].blockno);
            && b in run[i].mem && sec in run[i].disk && b in run[j].mem && sec in run[j].disk
            && run[j].mem[b] == run[j].disk[sec] == if evs[i].act.write then run[i].mem[b] else run[i].disk[sec]
  {
    ServingAlong(run, evs, i, j);
    assert StageAt(run[j].q, evs[i].act.a);
  }
}
