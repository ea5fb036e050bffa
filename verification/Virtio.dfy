/**
 The virtio block driver (kernel/virtio_disk.c), each method being what it does
 while it holds vdisk_lock, and the device's two actions.
 */
module Virtio {
  import opened VirtioModel

  class Disk {
    var free: seq<bool>
    var desc: seq<Desc>
    var info: seq<Info>
    // The headers of requests, which the device reads.
    var ops: seq<Op>
    var avail: seq<nat>
    var availIdx: nat
    // The device's place in the avail ring.
    var fetchIdx: nat
    var used: seq<nat>
    var usedIdx: nat
    var seenIdx: nat
    // Buffers whose disk field is 1.
    var busy: set<nat>
    ghost var chains: map<nat, Chain>
    ghost var own: map<nat, nat>
    ghost var held: set<nat>
    ghost var pend: seq<nat>
    ghost var nf: nat
    ghost var done: seq<nat>
    ghost var ns: nat

    ghost function Snap(): (q: Queue)
      reads this
    {
      Queue(free, desc, info, avail, availIdx, fetchIdx, used, usedIdx, seenIdx,
            busy, chains, own, held, pend, nf, done, ns)
    }

    /** alloc_desc: the first free descriptor, or -1. */
    method AllocDesc() returns (i: int)
      requires Valid(Snap())
      modifies this`free, this`held
      ensures Valid(Snap())
      ensures i < 0 ==> Snap() == old(Snap()) && forall j :: 0 <= j < NUM ==> !free[j]
      ensures i >= 0 ==> i < NUM && old(free)[i] && i !in old(held) && Snap() == TakeDesc(old(Snap()), i)
    {
      i := 0;
      while i < NUM
        invariant 0 <= i <= NUM && Snap() == old(Snap()) && forall j :: 0 <= j < i ==> !free[j]
      {
        if free[i] {
          TakeValid(Snap(), i);
          assert DescAt(Snap(), i);
          free := free[i := false];
          held := held + {i};
          return;
        }
        i := i + 1;
      }
      return -1;
    }

    /** free_desc. Neither panic can happen to a descriptor that was taken. */
    method FreeDesc(i: nat)
      requires Valid(Snap()) && i in held
      modifies this`free, this`held, this`desc
      ensures i < NUM && Valid(Snap()) && Snap() == GiveDesc(old(Snap()), i)
    {
      GiveValid(Snap(), i);
      assert i < NUM && !free[i];
      desc := desc[i := Desc(Null, false, false, 0)];
      free := free[i := true];
      held := held - {i};
    }

    /** alloc3_desc: three descriptors, or none. */
    method Alloc3Desc() returns (idx: seq<nat>)
      requires Valid(Snap()) && held == {}
      modifies this`free, this`held, this`desc
      ensures Valid(Snap()) && Snap() == old(Snap()).(free := free, held := held, desc := desc)
      ensures idx == [] || |idx| == 3
      ensures idx == [] ==> held == {} && |FreeSet(Snap())| < 3
      ensures idx != [] ==> held == {idx[0], idx[1], idx[2]} && idx[0] != idx[1] && idx[1] != idx[2] && idx[0] != idx[2]
    {
      idx := [];
      while |idx| < 3
        invariant |idx| <= 3 && Valid(Snap()) && Snap() == old(Snap()).(free := free, held := held, desc := desc)
        invariant Distinct(idx) && held == Elems(idx)
      {
        var i := AllocDesc();
        if i < 0 {
          FreeAll(idx);
          FewFree(Snap(), idx);
          return [];
        }
        idx := idx + [i];
      }
      assert held == {idx[0], idx[1], idx[2]};
    }

    /** alloc3_desc's way out. */
    method FreeAll(idx: seq<nat>)
      requires Valid(Snap()) && Distinct(idx) && held == Elems(idx)
      modifies this`free, this`held, this`desc
      ensures Valid(Snap()) && Snap() == old(Snap()).(free := free, held := {}, desc := desc)
      ensures forall i :: 0 <= i < NUM ==> (free[i] <==> old(free)[i] || i in idx)
    {
      var j := 0;
      while j < |idx|
        invariant j <= |idx| && Valid(Snap()) && Snap() == old(Snap()).(free := free, held := held, desc := desc)
        invariant held == Elems(idx[j..])
        invariant forall i :: 0 <= i < NUM ==> (free[i] <==> old(free)[i] || i in idx[..j])
      {
        assert idx[j] in idx[j..];
        FreeDesc(idx[j]);
        RestElems(idx, j);
        assert idx[..j + 1] == idx[..j] + [idx[j]];
        j := j + 1;
      }
      assert idx[..j] == idx;
    }

    /** virtio_disk_rw up to its wait: the head of the posted chain, or -1 when
        fewer than three descriptors are free and it must sleep. The caller's
        sleep-lock on the buffer means that no other request is for it. */
    method Submit(buf: nat, blockno: nat, write: bool) returns (h: int)
      requires Valid(Snap()) && held == {} && |ops| == NUM && forall g :: g in chains ==> chains[g].buf != buf
      modifies this
      ensures Valid(Snap()) && held == {}
      ensures h < 0 ==> chains == old(chains) && busy == old(busy) && |FreeSet(Snap())| < 3 && ops == old(ops)
      ensures h >= 0 ==> h < NUM && ops == old(ops)[h := Op(write, Sector(blockno))]
      ensures h >= 0 ==>
                busy == old(busy) + {buf} && h !in old(chains) && h in chains && chains == old(chains)[h := chains[h]]
      ensures h >= 0 ==> chains[h].buf == buf && chains[h].write == write && chains[h].stage == Posted
    {
      var idx := Alloc3Desc();
      if idx == [] {
        return -1;
      }
      ghost var q := Snap();
      PostFresh(q, idx[0], idx[1], idx[2], buf);
      PostValid(q, idx[0], idx[1], idx[2], buf, write);
      Format(idx[0], idx[1], idx[2], buf, blockno, write);
      return idx[0];
    }

    /** Formatting the three descriptors and telling the device. */
    method Format(a: nat, b: nat, c: nat, buf: nat, blockno: nat, write: bool)
      requires Sized(Snap()) && a < NUM && b < NUM && c < NUM && |ops| == NUM
      modifies this`desc, this`info, this`busy, this`avail, this`availIdx, this`chains, this`own, this`held, this`pend,
               this`ops
      ensures Snap() == Post(old(Snap()), a, b, c, buf, write) && ops == old(ops)[a := Op(write, Sector(blockno))]
    {
      ghost var r := Post(Snap(), a, b, c, buf, write);
      ops := ops[a := Op(write, blockno * 2)];
      FormatDescs(a, b, c, buf, write);
      avail := avail[availIdx % NUM := a];
      availIdx := (availIdx + 1) % WRAP;
      chains, own, held, pend := r.chains, r.own, r.held, r.pend;
    }

    method FormatDescs(a: nat, b: nat, c: nat, buf: nat, write: bool)
      requires Sized(Snap()) && a < NUM && b < NUM && c < NUM
      modifies this`desc, this`info, this`busy
      ensures desc == old(desc)[a := Desc(Ops(a), false, true, b)]
                               [b := Desc(Data(buf), !write, true, c)][c := Desc(Status(a), true, false, 0)]
      ensures info == old(info)[a := Info(buf, 0xff)] && busy == old(busy) + {buf}
    {
      desc := desc[a := Desc(Ops(a), false, true, b)];
      desc := desc[b := Desc(Data(buf), !write, true, c)];
      desc := desc[c := Desc(Status(a), true, false, 0)];
      busy := busy + {buf};
      info := info[a := Info(buf, 0xff)];
    }

    /** The device takes the next posted chain, if there is one. */
    method DeviceFetch() returns (head: int)
      requires Valid(Snap())
      modifies this`fetchIdx, this`chains, this`pend, this`nf
      ensures Valid(Snap())
      ensures head < 0 <==> old(pend) == []
      ensures head < 0 ==> Snap() == old(Snap())
      ensures head >= 0 ==>
                head in old(chains) && old(chains)[head].stage.Posted? && chains == Restaged(old(Snap()), head, Fetched)
    {
      IndicesAgree(nf, |pend|);
      if fetchIdx == availIdx {
        return -1;
      }
      FetchReady(Snap());
      head := avail[fetchIdx % NUM];
      Advance();
    }

    method Advance()
      requires pend != [] && pend[0] in chains
      modifies this`fetchIdx, this`chains, this`pend, this`nf
      ensures Snap() == Fetch(old(Snap()))
    {
      ghost var r := Fetch(Snap());
      fetchIdx := (fetchIdx + 1) % WRAP;
      chains, pend, nf := r.chains, r.pend, r.nf;
    }

    /** The device finishes a chain it has taken, in whatever order it likes. */
    method DeviceComplete(h: nat)
      requires Valid(Snap()) && h in chains && chains[h].stage.Fetched?
      modifies this`info, this`used, this`usedIdx, this`chains, this`done
      ensures Valid(Snap()) && chains == Restaged(old(Snap()), h, Done)
    {
      CompleteValid(Snap(), h);
      Answer(h);
    }

    method Answer(h: nat)
      requires Sized(Snap()) && h < NUM && h in chains
      modifies this`info, this`used, this`usedIdx, this`chains, this`done
      ensures Snap() == Complete(old(Snap()), h)
    {
      ghost var r := Complete(Snap(), h);
      info := info[h := Info(info[h].b, 0)];
      used := used[usedIdx % NUM := h];
      usedIdx := (usedIdx + 1) % WRAP;
      chains, done := r.chains, r.done;
    }

    /** virtio_disk_intr: the disk field is cleared for exactly the requests the
        device has completed; its panic is unreachable. */
    method Intr()
      requires Valid(Snap())
      modifies this`busy, this`seenIdx, this`chains, this`done, this`ns
      ensures Valid(Snap()) && done == [] && AllSeen(old(Snap()), Snap())
    {
      ghost var q := Snap();
      SeenNone(q);
      while seenIdx != usedIdx
        invariant SeenSoFar(q, Snap())
        decreases |done|
      {
        Drained(Snap());
        SeenMore(q, Snap());
        SeeOne();
      }
      Drained(Snap());
      SeenAll(q, Snap());
    }

    /** The loop body of virtio_disk_intr. */
    method SeeOne()
      requires Valid(Snap()) && done != []
      modifies this`busy, this`seenIdx, this`chains, this`done, this`ns
      ensures old(done)[0] < NUM && old(done)[0] in old(chains) && Snap() == See(old(Snap()))
    {
      ghost var q := Snap();
      SeeValid(q);
      var id := used[seenIdx % NUM];
      assert info[id].status == 0;
      busy := busy - {info[id].b};
      seenIdx := (seenIdx + 1) % WRAP;
      chains, done, ns := See(q).chains, done[1..], ns + 1;
    }

    /** The end of virtio_disk_rw, once b->disk is 0. */
    method Finish(buf: nat, h: nat)
      requires Valid(Snap()) && held == {} && h in chains && chains[h].buf == buf && buf !in busy
      modifies this`info, this`free, this`held, this`desc, this`chains, this`own
      ensures Valid(Snap()) && held == {} && chains == old(chains) - {h} && busy == old(busy)
    {
      ghost var x := FinishReady(Snap(), buf, h);
      Detach(h);
      FreeChain(h, x);
    }

    /** disk.info[idx[0]].b = 0 */
    method Detach(h: nat)
      requires Sized(Snap()) && h < NUM && h in chains
      modifies this`info, this`held, this`chains, this`own
      ensures Snap() == Dissolve(old(Snap()), h)
    {
      ghost var q := Snap();
      info := info[h := Info(0, info[h].status)];
      chains, own, held := Dissolve(q, h).chains, Dissolve(q, h).own, Dissolve(q, h).held;
    }

    /** free_chain is at descriptor i of x: those before it are free. */
    ghost predicate FreeingAt(x: Chain, i: nat)
      reads this
    {
      && |desc| == NUM && x.a < NUM && x.b < NUM && x.c < NUM && x.a != x.b && x.a != x.c && x.b != x.c
      && (i == x.a || i == x.b || i == x.c) && !desc[x.c].more
      && (i == x.a ==> desc[x.a].more && desc[x.a].next == x.b)
      && (i != x.c ==> desc[x.b].more && desc[x.b].next == x.c)
      && held == if i == x.a then {x.a, x.b, x.c} else if i == x.b then {x.b, x.c} else {x.c}
    }

    /** One iteration of free_chain. */
    method FreeNext(i: nat, ghost x: Chain) returns (flag: bool, nxt: nat)
      requires Valid(Snap()) && FreeingAt(x, i)
      modifies this`free, this`held, this`desc
      ensures Valid(Snap()) && (if flag then FreeingAt(x, nxt) else held == {})
      ensures flag ==> (i == x.a && nxt == x.b) || (i == x.b && nxt == x.c)
    {
      flag, nxt := desc[i].more, desc[i].next;
      FreeDesc(i);
    }

    /** free_chain on a chain whose descriptors are no longer referred to. */
    method FreeChain(head: nat, ghost x: Chain)
      requires Valid(Snap()) && held == {x.a, x.b, x.c} && Walkable(desc, x) && x.a == head
      modifies this`free, this`held, this`desc
      ensures Valid(Snap()) && held == {}
    {
      var i := head;
      while true
        invariant Valid(Snap()) && FreeingAt(x, i)
        decreases if i == x.a then 2 else if i == x.b then 1 else 0
      {
        var flag, nxt := FreeNext(i, x);
        if !flag {
          break;
        }
        i := nxt;
      }
    }
  }

  ghost predicate SeenAt(q: Queue, r: Queue, h: nat)
    requires h in r.chains
  {
    && h in q.chains
    && (r.chains[h] == q.chains[h] || (q.chains[h].stage.Done? && r.chains[h] == q.chains[h].(stage := Seen)))
  }

  ghost predicate SeenSoFar(q: Queue, r: Queue) {
    && Valid(r) && r.chains.Keys == q.chains.Keys
    && forall h {:trigger SeenAt(q, r, h)} :: h in r.chains ==> SeenAt(q, r, h)
  }

  lemma FetchReady(q: Queue)
    requires Valid(q) && q.pend != []
    ensures q.pend[0] in q.chains && q.chains[q.pend[0]].stage.Posted?
    ensures Valid(Fetch(q)) && q.avail[q.fetchIdx % NUM] == q.pend[0]
  {
    FetchValid(q);
    assert StageAt(q, q.pend[0]);
  }

  lemma SeenNone(q: Queue)
    requires Valid(q)
    ensures SeenSoFar(q, q)
  {
  }

  lemma Drained(q: Queue)
    requires Valid(q)
    ensures q.seenIdx == q.usedIdx <==> q.done == []
  {
    IndicesAgree(q.ns, |q.done|);
  }

  lemma SeenMore(q: Queue, r: Queue)
    requires SeenSoFar(q, r) && r.done != []
    ensures r.done[0] in r.chains && r.done[0] < NUM && SeenSoFar(q, See(r))
  {
    SeeValid(r);
    var r' := See(r);
    forall h | h in r'.chains
      ensures SeenAt(q, r', h)
    {
      assert SeenAt(q, r, h) && SeenAt(q, r, r.done[0]);
    }
  }

  /** Every request the device had completed is now seen; the others are as they were. */
  ghost predicate AllSeen(q: Queue, r: Queue) {
    && r.chains.Keys == q.chains.Keys
    && forall h :: h in q.chains ==>
         r.chains[h] == if q.chains[h].stage.Done? then q.chains[h].(stage := Seen) else q.chains[h]
  }

  lemma SeenAll(q: Queue, r: Queue)
    requires SeenSoFar(q, r) && r.done == []
    ensures AllSeen(q, r)
  {
    forall h | h in q.chains
      ensures r.chains[h] == if q.chains[h].stage.Done? then q.chains[h].(stage := Seen) else q.chains[h]
    {
      assert h in r.chains;
      assert SeenAt(q, r, h) && StageAt(r, h);
    }
  }

  /** Following next from x.a leads through x.b to x.c and ends there. */
  predicate Walkable(desc: seq<Desc>, x: Chain) {
    && |desc| == NUM && x.a != x.b && x.b != x.c && x.a != x.c && x.a < NUM && x.b < NUM && x.c < NUM
    && desc[x.a].more && desc[x.a].next == x.b && desc[x.b].more && desc[x.b].next == x.c && !desc[x.c].more
  }

  lemma FinishReady(q: Queue, buf: nat, h: nat) returns (x: Chain)
    requires Valid(q) && q.held == {} && h in q.chains && q.chains[h].buf == buf && buf !in q.busy
    ensures h < NUM && x == q.chains[h] && x.a == h && Walkable(q.desc, x)
    ensures Valid(Dissolve(q, h)) && Dissolve(q, h).held == {x.a, x.b, x.c}
  {
    x := q.chains[h];
    assert StageAt(q, h) && ChainAt(q, h);
    DissolveValid(q, h);
  }

  lemma RestElems(idx: seq<nat>, j: nat)
    requires Distinct(idx) && j < |idx|
    ensures Elems(idx[j..]) - {idx[j]} == Elems(idx[j + 1..])
  {
    assert idx[j..] == [idx[j]] + idx[j + 1..];
  }

  lemma FewFree(q: Queue, idx: seq<nat>)
    requires Sized(q) && |idx| < 3 && Distinct(idx) && forall i :: 0 <= i < NUM ==> (q.free[i] <==> i in idx)
    ensures |FreeSet(q)| < 3
  {
    DistinctCount(idx);
    SubsetCount(FreeSet(q), Elems(idx));
  }
}
