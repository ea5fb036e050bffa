/**
 The virtio block driver's descriptor table and its two rings
 (kernel/virtio_disk.c), with the device on the other side of the rings.
 */
module VirtioModel {
  const NUM := 8
  const WRAP := 0x1_0000

  datatype Addr = Null | Ops(i: nat) | Data(b: nat) | Status(i: nat)
  /** write: VRING_DESC_F_WRITE; more: VRING_DESC_F_NEXT. */
  datatype Desc = Desc(addr: Addr, write: bool, more: bool, next: nat)
  datatype Info = Info(b: nat, status: nat)

  /** struct virtio_blk_req: VIRTIO_BLK_T_OUT or IN, and the first sector. */
  datatype Op = Op(out: bool, sector: nat)

  /** blockno * (BSIZE / 512) */
  function Sector(blockno: nat): (sector: nat) { blockno * 2 }

  /** How far a request has got: in the avail ring, taken by the device, in the
      used ring, or seen by virtio_disk_intr. */
  datatype Stage = Posted | Fetched | Done | Seen
  datatype Chain = Chain(a: nat, b: nat, c: nat, buf: nat, write: bool, stage: Stage)

  /**
   free, desc, info, avail, used and the indices are the driver's and the device's
   memory (fetchIdx is the device's); busy is the set of buffers whose disk field
   is 1. The rest is bookkeeping: chains by
   their head descriptor; own, the chain of each descriptor; held, descriptors
   taken but not yet in a chain; pend and done, the unread parts of the two
   rings; nf and ns, how many entries have ever been read from each.
   */
  datatype Queue = Queue(free: seq<bool>, desc: seq<Desc>, info: seq<Info>, avail: seq<nat>, availIdx: nat,
                         fetchIdx: nat,
                         used: seq<nat>, usedIdx: nat, seenIdx: nat, busy: set<nat>,
                         chains: map<nat, Chain>, own: map<nat, nat>, held: set<nat>,
                         pend: seq<nat>, nf: nat, done: seq<nat>, ns: nat)

  predicate Sized(q: Queue) { |q.free| == |q.desc| == |q.info| == |q.avail| == |q.used| == NUM }

  predicate InChain(x: Chain, i: nat) { i == x.a || i == x.b || i == x.c }

  /** A descriptor is free, held, or part of exactly one chain. */
  ghost predicate DescAt(q: Queue, i: nat)
    requires Sized(q) && i < NUM
  {
    && (i in q.own ==> q.own[i] in q.chains && InChain(q.chains[q.own[i]], i) && !q.free[i] && i !in q.held)
    && (i in q.held ==> !q.free[i])
    && (!q.free[i] ==> i in q.own || i in q.held)
  }

  /** A chain is formatted as the device expects it, for its own buffer. */
  ghost predicate ChainAt(q: Queue, h: nat)
    requires Sized(q) && h in q.chains
  {
    var x := q.chains[h];
    && x.a == h && x.a < NUM && x.b < NUM && x.c < NUM && x.a != x.b && x.b != x.c && x.a != x.c
    && h in q.own && x.b in q.own && x.c in q.own && q.own[h] == q.own[x.b] == q.own[x.c] == h
    && q.desc[h] == Desc(Ops(h), false, true, x.b)
    && q.desc[x.b] == Desc(Data(x.buf), !x.write, true, x.c)
    && q.desc[x.c] == Desc(Status(h), true, false, 0)
    && q.info[h].b == x.buf
  }

  /** The disk field is set until virtio_disk_intr has seen the device's answer. */
  ghost predicate StageAt(q: Queue, h: nat)
    requires Sized(q) && h in q.chains
  {
    var x := q.chains[h];
    && h < NUM
    && (x.stage.Seen? <==> x.buf !in q.busy)
    && (x.stage.Posted? <==> h in q.pend) && (x.stage.Done? <==> h in q.done)
    && q.info[h].status == if x.stage.Posted? || x.stage.Fetched? then 0xff else 0
  }

  ghost predicate BufsDiffer(q: Queue, h: nat, g: nat)
    requires h in q.chains && g in q.chains
  {
    h != g ==> q.chains[h].buf != q.chains[g].buf
  }

  /** ring holds list from position n on. */
  ghost predicate RingAt(ring: seq<nat>, list: seq<nat>, n: nat, i: nat)
    requires |ring| == NUM && i < |list|
  {
    ring[(n + i) % NUM] == list[i]
  }

  ghost predicate Ring(ring: seq<nat>, list: seq<nat>, n: nat) {
    && |ring| == NUM && |list| <= NUM
    && (forall i {:trigger RingAt(ring, list, n, i)} :: 0 <= i < |list| ==> RingAt(ring, list, n, i))
    && Distinct(list)
  }

  ghost predicate Distinct(list: seq<nat>) {
    forall i, j :: 0 <= i < j < |list| ==> list[i] != list[j]
  }

  ghost predicate OwnAt(q: Queue, i: nat) { i in q.own || i in q.held ==> i < NUM }

  ghost predicate ListedAt(q: Queue, h: nat) { h in q.pend || h in q.done ==> h in q.chains }

  ghost predicate Owned(q: Queue) {
    && Sized(q) && |q.own.Keys| == 3 * |q.chains.Keys|
    && (forall i {:trigger OwnAt(q, i)} :: 0 <= i ==> OwnAt(q, i))
    && (forall i {:trigger DescAt(q, i)} :: 0 <= i < NUM ==> DescAt(q, i))
    && (forall h {:trigger ChainAt(q, h)} :: h in q.chains ==> ChainAt(q, h))
    && (forall h, g {:trigger BufsDiffer(q, h, g)} :: h in q.chains && g in q.chains ==> BufsDiffer(q, h, g))
  }

  ghost predicate Staged(q: Queue) {
    && Sized(q)
    && (forall h {:trigger StageAt(q, h)} :: h in q.chains ==> StageAt(q, h))
    && (forall h {:trigger ListedAt(q, h)} :: 0 <= h ==> ListedAt(q, h))
  }

  ghost predicate Ringed(q: Queue) {
    && Ring(q.avail, q.pend, q.nf) && q.availIdx == (q.nf + |q.pend|) % WRAP && q.fetchIdx == q.nf % WRAP
    && Ring(q.used, q.done, q.ns) && q.usedIdx == (q.ns + |q.done|) % WRAP && q.seenIdx == q.ns % WRAP
  }

  ghost predicate Valid(q: Queue) { Owned(q) && Staged(q) && Ringed(q) }

  ghost function FreeSet(q: Queue): (r: set<nat>)
    requires Sized(q)
  {
    set i: nat | i < NUM && q.free[i]
  }

  lemma UpTo(n: nat) returns (s: set<nat>)
    ensures |s| == n && forall i: nat :: i in s <==> i < n
  {
    s := {};
    var k := 0;
    while k < n
      invariant k <= n && |s| == k && forall i: nat :: i in s <==> i < k
    {
      s := s + {k};
      k := k + 1;
    }
  }

  /** With nothing held, free descriptors and three per live chain make NUM. */
  lemma Conservation(q: Queue)
    requires Valid(q) && q.held == {}
    ensures |FreeSet(q)| + 3 * |q.chains.Keys| == NUM
    ensures |q.chains.Keys| <= 2
  {
    var all := UpTo(NUM);
    forall i: nat | i < NUM
      ensures i in FreeSet(q) <==> i !in q.own
    {
      assert DescAt(q, i);
    }
    forall i | i in q.own
      ensures i < NUM
    {
      assert OwnAt(q, i);
    }
    assert all == FreeSet(q) + q.own.Keys && FreeSet(q) !! q.own.Keys;
  }

  /** Live chains share no descriptor. */
  lemma ChainsDisjoint(q: Queue, h: nat, g: nat, i: nat)
    requires Valid(q) && h in q.chains && g in q.chains && InChain(q.chains[h], i) && InChain(q.chains[g], i)
    ensures h == g
  {
    assert ChainAt(q, h) && ChainAt(q, g);
  }

  // ----- descriptors -----

  /** alloc_desc taking descriptor i. */
  function TakeDesc(q: Queue, i: nat): (r: Queue)
    requires Sized(q) && i < NUM
  {
    q.(free := q.free[i := false], held := q.held + {i})
  }

  /** free_desc of a descriptor in no chain. */
  function GiveDesc(q: Queue, i: nat): (r: Queue)
    requires Sized(q) && i < NUM
  {
    q.(free := q.free[i := true], held := q.held - {i}, desc := q.desc[i := Desc(Null, false, false, 0)])
  }

  lemma TakeValid(q: Queue, i: nat)
    requires Valid(q) && i < NUM && q.free[i]
    ensures Valid(TakeDesc(q, i))
  {
    assert DescAt(q, i);
    DescsKept(q, TakeDesc(q, i), i);
  }

  lemma GiveValid(q: Queue, i: nat)
    requires Valid(q) && i in q.held
    ensures i < NUM && !q.free[i] && Valid(GiveDesc(q, i))
  {
    assert OwnAt(q, i) && DescAt(q, i);
    DescsKept(q, GiveDesc(q, i), i);
  }

  /** Only descriptor i, which is in no chain, changed. */
  lemma DescsKept(q: Queue, r: Queue, i: nat)
    requires Valid(q) && Sized(r) && i < NUM && i !in q.own && (r.free[i] <==> i !in r.held)
    requires r == q.(free := r.free, held := r.held, desc := r.desc)
    requires forall j :: 0 <= j < NUM && j != i ==> r.free[j] == q.free[j] && r.desc[j] == q.desc[j]
    requires forall j :: j != i ==> (j in r.held <==> j in q.held)
    ensures Valid(r)
  {
    forall j | 0 <= j
      ensures OwnAt(r, j)
      ensures j < NUM ==> DescAt(r, j)
    {
      assert OwnAt(q, j) && (j < NUM ==> DescAt(q, j));
    }
    forall h | h in r.chains
      ensures ChainAt(r, h)
    {
      assert ChainAt(q, h);
    }
    forall h, g | h in r.chains && g in r.chains
      ensures BufsDiffer(r, h, g)
    {
      assert BufsDiffer(q, h, g);
    }
    SameStages(q, r);
  }

  lemma SameStages(q: Queue, r: Queue)
    requires Staged(q) && Sized(r) && r.chains == q.chains && r.busy == q.busy && r.info == q.info
    requires r.pend == q.pend && r.done == q.done
    ensures Staged(r)
  {
    forall h | h in r.chains
      ensures StageAt(r, h)
    {
      assert StageAt(q, h);
    }
    forall h | 0 <= h
      ensures ListedAt(r, h)
    {
      assert ListedAt(q, h);
    }
  }

  // ----- the rings -----

  lemma Slots(n: nat, i: nat, j: nat)
    requires i < j < i + NUM
    ensures (n + i) % NUM != (n + j) % NUM
  {
  }

  lemma IndexSlot(n: nat)
    ensures (n % WRAP) % NUM == n % NUM && (n % WRAP + 1) % WRAP == (n + 1) % WRAP
  {
    var k, w := n / WRAP, n % WRAP;
    assert n == k * WRAP + w;
    SlotIs(n, k * 0x2000 + w / NUM, w % NUM);
    if w + 1 == WRAP {
      WrapIs(n + 1, k + 1, 0);
    } else {
      WrapIs(n + 1, k, w + 1);
    }
  }

  lemma SlotIs(n: nat, k: nat, r: nat)
    requires n == k * NUM + r && r < NUM
    ensures n % NUM == r
  {
  }

  lemma WrapIs(n: nat, k: nat, r: nat)
    requires n == k * WRAP + r && r < WRAP
    ensures n % WRAP == r
  {
  }

  /** Two 16-bit indices agree exactly when nothing lies between them. */
  lemma IndicesAgree(n: nat, d: nat)
    requires d <= NUM
    ensures (n + d) % WRAP == n % WRAP <==> d == 0
  {
    var k, w := n / WRAP, n % WRAP;
    assert n == k * WRAP + w;
    assert w + d < WRAP ==> (n + d) % WRAP == w + d;
    assert w + d >= WRAP ==> (n + d) / WRAP == k + 1 && (n + d) % WRAP == w + d - WRAP;
  }

  lemma HasRoom(list: seq<nat>, h: nat)
    requires Distinct(list)
    requires (forall x :: x in list ==> x < NUM) && h < NUM && h !in list
    ensures |list| < NUM
  {
    var all := UpTo(NUM);
    DistinctCount(list);
    assert all == (all - {h}) + {h};
    SubsetCount(Elems(list), all - {h});
  }

  function Elems(list: seq<nat>): (r: set<nat>) { set x | x in list }

  lemma {:induction false} DistinctCount(list: seq<nat>)
    requires Distinct(list)
    ensures |Elems(list)| == |list|
  {
    if |list| == 0 {
      assert Elems(list) == {};
    } else {
      var n := |list| - 1;
      var t := list[..n];
      DistinctCount(t);
      assert list == t + [list[n]] && list[n] !in t;
      assert Elems(list) == Elems(t) + {list[n]};
    }
  }

  lemma SubsetCount(a: set<nat>, b: set<nat>)
    requires a <= b
    ensures |a| <= |b|
  {
    assert b == a + (b - a);
  }

  lemma RingPush(ring: seq<nat>, list: seq<nat>, n: nat, h: nat)
    requires Ring(ring, list, n) && |list| < NUM && h !in list
    ensures Ring(ring[(n + |list|) % NUM := h], list + [h], n)
  {
    var ring', list' := ring[(n + |list|) % NUM := h], list + [h];
    forall i | 0 <= i < |list'|
      ensures RingAt(ring', list', n, i)
    {
      if i < |list| {
        assert RingAt(ring, list, n, i);
        Slots(n, i, |list|);
      }
    }
  }

  lemma RingPop(ring: seq<nat>, list: seq<nat>, n: nat)
    requires Ring(ring, list, n) && list != []
    ensures ring[n % NUM] == list[0] && Ring(ring, list[1..], n + 1)
    ensures forall x :: x in list[1..] <==> x in list && x != list[0]
  {
    assert RingAt(ring, list, n, 0);
    var list', m := list[1..], n + 1;
    forall i | 0 <= i < |list'|
      ensures RingAt(ring, list', m, i)
    {
      assert RingAt(ring, list, n, i + 1);
      assert m + i == n + (i + 1);
    }
  }

  // ----- the life of a request -----

  /** virtio_disk_rw after alloc3_desc: format the chain and post it. */
  function Post(q: Queue, a: nat, b: nat, c: nat, buf: nat, write: bool): (r: Queue)
    requires Sized(q) && a < NUM && b < NUM && c < NUM
  {
    q.(desc := q.desc[a := Desc(Ops(a), false, true, b)]
                     [b := Desc(Data(buf), !write, true, c)][c := Desc(Status(a), true, false, 0)],
       info := q.info[a := Info(buf, 0xff)], busy := q.busy + {buf},
       avail := q.avail[q.availIdx % NUM := a], availIdx := (q.availIdx + 1) % WRAP,
       chains := q.chains[a := Chain(a, b, c, buf, write, Posted)], own := q.own[a := a][b := a][c := a],
       held := q.held - {a, b, c}, pend := q.pend + [a])
  }

  ghost predicate Postable(q: Queue, a: nat, b: nat, c: nat, buf: nat) {
    && a in q.held && b in q.held && c in q.held && a != b && b != c && a != c
    && forall h :: h in q.chains ==> q.chains[h].buf != buf
  }

  lemma ListedBelow(q: Queue, list: seq<nat>)
    requires Owned(q) && Staged(q) && (list == q.pend || list == q.done)
    ensures forall x :: x in list ==> x < NUM
  {
    forall x | x in list
      ensures x < NUM
    {
      assert ListedAt(q, x) && ChainAt(q, x);
    }
  }

  /** Held descriptors and the buffer belong to no chain. */
  lemma PostFresh(q: Queue, a: nat, b: nat, c: nat, buf: nat)
    requires Valid(q) && Postable(q, a, b, c, buf)
    ensures a < NUM && b < NUM && c < NUM && a !in q.own && b !in q.own && c !in q.own && a !in q.chains
    ensures a !in q.pend && a !in q.done && |q.pend| < NUM
  {
    assert OwnAt(q, a) && OwnAt(q, b) && OwnAt(q, c);
    assert DescAt(q, a) && DescAt(q, b) && DescAt(q, c);
    assert a in q.chains ==> ChainAt(q, a);
    assert ListedAt(q, a);
    ListedBelow(q, q.pend);
    HasRoom(q.pend, a);
  }

  lemma PostCount(q: Queue, a: nat, b: nat, c: nat, buf: nat, write: bool)
    requires Sized(q) && |q.own.Keys| == 3 * |q.chains.Keys|
    requires a != b && b != c && a != c && a < NUM && b < NUM && c < NUM
    requires a !in q.own && b !in q.own && c !in q.own && a !in q.chains
    ensures var r := Post(q, a, b, c, buf, write); |r.own.Keys| == 3 * |r.chains.Keys|
  {
    var r := Post(q, a, b, c, buf, write);
    assert r.own.Keys == q.own.Keys + {a} + {b} + {c};
    assert r.chains.Keys == q.chains.Keys + {a};
  }

  lemma PostOwned(q: Queue, a: nat, b: nat, c: nat, buf: nat, write: bool)
    requires Valid(q) && Postable(q, a, b, c, buf)
    ensures a < NUM && b < NUM && c < NUM && Owned(Post(q, a, b, c, buf, write))
  {
    PostFresh(q, a, b, c, buf);
    PostCount(q, a, b, c, buf, write);
    PostChains(q, a, b, c, buf, write);
    var r := Post(q, a, b, c, buf, write);
    forall i | 0 <= i
      ensures OwnAt(r, i)
      ensures i < NUM ==> DescAt(r, i)
    {
      assert OwnAt(q, i) && (i < NUM ==> DescAt(q, i));
    }
  }

  lemma PostChains(q: Queue, a: nat, b: nat, c: nat, buf: nat, write: bool)
    requires Valid(q) && Postable(q, a, b, c, buf) && a < NUM && b < NUM && c < NUM
    ensures var r := Post(q, a, b, c, buf, write);
            && (forall h {:trigger ChainAt(r, h)} :: h in r.chains ==> ChainAt(r, h))
            && (forall h, g {:trigger BufsDiffer(r, h, g)} :: h in r.chains && g in r.chains ==> BufsDiffer(r, h, g))
  {
    PostFresh(q, a, b, c, buf);
    var r := Post(q, a, b, c, buf, write);
    forall h | h in r.chains
      ensures ChainAt(r, h)
    {
      assert h != a ==> ChainAt(q, h);
    }
    forall h, g | h in r.chains && g in r.chains
      ensures BufsDiffer(r, h, g)
    {
      assert h != a && g != a ==> BufsDiffer(q, h, g);
    }
  }

  lemma PostStaged(q: Queue, a: nat, b: nat, c: nat, buf: nat, write: bool)
    requires Valid(q) && Postable(q, a, b, c, buf)
    ensures a < NUM && b < NUM && c < NUM && Staged(Post(q, a, b, c, buf, write))
  {
    PostFresh(q, a, b, c, buf);
    var r := Post(q, a, b, c, buf, write);
    forall h | h in r.chains
      ensures StageAt(r, h)
    {
      assert h != a ==> StageAt(q, h);
    }
    forall h | 0 <= h
      ensures ListedAt(r, h)
    {
      assert ListedAt(q, h);
    }
  }

  lemma PostValid(q: Queue, a: nat, b: nat, c: nat, buf: nat, write: bool)
    requires Valid(q) && Postable(q, a, b, c, buf)
    ensures a < NUM && b < NUM && c < NUM && Valid(Post(q, a, b, c, buf, write))
  {
    PostFresh(q, a, b, c, buf);
    PostOwned(q, a, b, c, buf, write);
    PostStaged(q, a, b, c, buf, write);
    IndexSlot(q.nf + |q.pend|);
    RingPush(q.avail, q.pend, q.nf, a);
  }

  function Restaged(q: Queue, h: nat, st: Stage): (r: map<nat, Chain>)
    requires h in q.chains
  {
    q.chains[h := q.chains[h].(stage := st)]
  }

  /** The device takes the next chain from the avail ring. */
  function Fetch(q: Queue): (r: Queue)
    requires q.pend != [] && q.pend[0] in q.chains
  {
    q.(chains := Restaged(q, q.pend[0], Fetched), fetchIdx := (q.fetchIdx + 1) % WRAP,
       pend := q.pend[1..], nf := q.nf + 1)
  }

  /** The device has served chain h: status, then an entry in the used ring. */
  function Complete(q: Queue, h: nat): (r: Queue)
    requires Sized(q) && h < NUM && h in q.chains
  {
    q.(info := q.info[h := Info(q.info[h].b, 0)],
       used := q.used[q.usedIdx % NUM := h], usedIdx := (q.usedIdx + 1) % WRAP,
       chains := Restaged(q, h, Done), done := q.done + [h])
  }

  /** One iteration of virtio_disk_intr. */
  function See(q: Queue): (r: Queue)
    requires Sized(q) && q.done != [] && q.done[0] in q.chains && q.done[0] < NUM
  {
    q.(busy := q.busy - {q.info[q.done[0]].b}, seenIdx := (q.seenIdx + 1) % WRAP,
       chains := Restaged(q, q.done[0], Seen),
       done := q.done[1..], ns := q.ns + 1)
  }

  /** A change of stage moves no descriptor and no buffer. */
  lemma StageOnly(q: Queue, r: Queue, h: nat, st: Stage)
    requires Owned(q) && Sized(r) && h in q.chains && r.chains == Restaged(q, h, st)
    requires r.free == q.free && r.desc == q.desc && r.own == q.own && r.held == q.held
    requires forall i :: 0 <= i < NUM ==> r.info[i].b == q.info[i].b
    ensures Owned(r)
  {
    forall i | 0 <= i
      ensures OwnAt(r, i)
      ensures i < NUM ==> DescAt(r, i)
    {
      assert OwnAt(q, i) && (i < NUM ==> DescAt(q, i));
    }
    forall g | g in r.chains
      ensures ChainAt(r, g)
    {
      assert ChainAt(q, g);
    }
    forall g, f | g in r.chains && f in r.chains
      ensures BufsDiffer(r, g, f)
    {
      assert BufsDiffer(q, g, f);
    }
    assert r.chains.Keys == q.chains.Keys;
  }

  lemma FetchValid(q: Queue)
    requires Valid(q) && q.pend != []
    ensures q.pend[0] in q.chains && Valid(Fetch(q)) && q.avail[q.fetchIdx % NUM] == q.pend[0]
  {
    var h := q.pend[0];
    assert ListedAt(q, h);
    StageOnly(q, Fetch(q), h, Fetched);
    IndexSlot(q.nf);
    RingPop(q.avail, q.pend, q.nf);
    FetchStaged(q);
  }

  lemma FetchStaged(q: Queue)
    requires Staged(q) && q.pend != [] && q.pend[0] in q.chains
    requires forall x :: x in q.pend[1..] <==> x in q.pend && x != q.pend[0]
    ensures Staged(Fetch(q))
  {
    var h, r := q.pend[0], Fetch(q);
    assert StageAt(q, h);
    forall g | g in r.chains
      ensures StageAt(r, g)
    {
      assert StageAt(q, g);
    }
    forall g | 0 <= g
      ensures ListedAt(r, g)
    {
      assert ListedAt(q, g);
    }
  }

  lemma CompleteValid(q: Queue, h: nat)
    requires Valid(q) && h in q.chains && q.chains[h].stage.Fetched?
    ensures h < NUM && Valid(Complete(q, h))
  {
    assert StageAt(q, h);
    StageOnly(q, Complete(q, h), h, Done);
    CompleteStaged(q, h);
    ListedBelow(q, q.done);
    HasRoom(q.done, h);
    IndexSlot(q.ns + |q.done|);
    RingPush(q.used, q.done, q.ns, h);
  }

  lemma CompleteStaged(q: Queue, h: nat)
    requires Staged(q) && h in q.chains && q.chains[h].stage.Fetched? && h < NUM
    ensures Staged(Complete(q, h))
  {
    var r := Complete(q, h);
    assert StageAt(q, h);
    forall g | g in r.chains
      ensures StageAt(r, g)
    {
      assert StageAt(q, g);
    }
    forall g | 0 <= g
      ensures ListedAt(r, g)
    {
      assert ListedAt(q, g);
    }
  }

  /** What virtio_disk_intr reads is the head of a chain the device has finished,
      with status 0, and it clears the disk field of that chain's buffer only. */
  lemma SeeValid(q: Queue)
    requires Valid(q) && q.done != []
    ensures q.done[0] < NUM && q.done[0] in q.chains && Valid(See(q))
    ensures q.used[q.seenIdx % NUM] == q.done[0] && q.info[q.done[0]].status == 0
    ensures q.chains[q.done[0]].stage.Done? && q.info[q.done[0]].b == q.chains[q.done[0]].buf
  {
    var h := q.done[0];
    assert ListedAt(q, h) && StageAt(q, h) && ChainAt(q, h);
    StageOnly(q, See(q), h, Seen);
    IndexSlot(q.ns);
    RingPop(q.used, q.done, q.ns);
    SeeStaged(q);
  }

  lemma SeeStaged(q: Queue)
    requires Owned(q) && Staged(q) && q.done != [] && q.done[0] in q.chains && q.done[0] < NUM
    requires forall x :: x in q.done[1..] <==> x in q.done && x != q.done[0]
    ensures Staged(See(q))
  {
    var h, r := q.done[0], See(q);
    assert StageAt(q, h) && ChainAt(q, h);
    forall g | g in r.chains
      ensures StageAt(r, g)
    {
      assert StageAt(q, g) && BufsDiffer(q, g, h);
    }
    forall g | 0 <= g
      ensures ListedAt(r, g)
    {
      assert ListedAt(q, g);
    }
  }

  /** info[idx[0]].b = 0, and the chain's descriptors are about to be freed. */
  function Dissolve(q: Queue, h: nat): (r: Queue)
    requires Sized(q) && h < NUM && h in q.chains
  {
    var x := q.chains[h];
    q.(info := q.info[h := Info(0, q.info[h].status)], chains := q.chains - {h},
       own := q.own - {x.a, x.b, x.c}, held := q.held + {x.a, x.b, x.c})
  }

  lemma DissolveStaged(q: Queue, h: nat)
    requires Staged(q) && h in q.chains && q.chains[h].stage.Seen? && h < NUM
    ensures Staged(Dissolve(q, h))
  {
    var r := Dissolve(q, h);
    assert StageAt(q, h);
    forall g | g in r.chains
      ensures StageAt(r, g)
    {
      assert StageAt(q, g);
    }
    forall g | 0 <= g
      ensures ListedAt(r, g)
    {
      assert ListedAt(q, g);
    }
  }

  lemma DissolveValid(q: Queue, h: nat)
    requires Valid(q) && h in q.chains && q.chains[h].stage.Seen?
    ensures h < NUM && Valid(Dissolve(q, h))
  {
    assert StageAt(q, h) && ChainAt(q, h);
    DissolveOwned(q, h);
    DissolveStaged(q, h);
  }

  lemma DissolveOwned(q: Queue, h: nat)
    requires Owned(q) && h in q.chains && h < NUM
    ensures Owned(Dissolve(q, h))
  {
    assert ChainAt(q, h);
    var r := Dissolve(q, h);
    DissolveCount(q, h);
    forall i | 0 <= i
      ensures OwnAt(r, i)
      ensures i < NUM ==> DescAt(r, i)
    {
      assert OwnAt(q, i) && (i < NUM ==> DescAt(q, i));
    }
    forall g | g in r.chains
      ensures ChainAt(r, g)
    {
      assert ChainAt(q, g);
    }
    forall g, f | g in r.chains && f in r.chains
      ensures BufsDiffer(r, g, f)
    {
      assert BufsDiffer(q, g, f);
    }
  }

  lemma DissolveCount(q: Queue, h: nat)
    requires Sized(q) && h in q.chains && h < NUM && ChainAt(q, h) && |q.own.Keys| == 3 * |q.chains.Keys|
    ensures |Dissolve(q, h).own.Keys| == 3 * |Dissolve(q, h).chains.Keys|
  {
    var r, x := Dissolve(q, h), q.chains[h];
    RemoveThree(q.own.Keys, x.a, x.b, x.c);
    assert r.own.Keys == q.own.Keys - {x.a} - {x.b} - {x.c};
    assert r.chains.Keys == q.chains.Keys - {h};
  }

  lemma RemoveThree(s: set<nat>, a: nat, b: nat, c: nat)
    requires a in s && b in s && c in s && a != b && b != c && a != c
    ensures |s - {a} - {b} - {c}| == |s| - 3
  {
  }
}
