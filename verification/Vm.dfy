/**
 The page allocator (kernel/kalloc.c) and the routines that edit one page table
 in place: walk, mappages and uvmunmap (kernel/vm.c). Module FreeTree creates and
 frees whole address spaces; module Uvm grows, shrinks and copies them.
 */
module Vm {
  import opened VmModel
  import opened PageCost

  datatype MapResult = Mapped | NoMemory | Remap | BadSize

  /** perm | PTE_V */
  function WithV(perm: nat): (flags: nat)
    ensures flags % 2 == 1
  {
    if perm % 2 == 1 then perm else perm + 1
  }

  /** memset(pa, c, PGSIZE) */
  function Fill(c: int): (page: seq<int>) { seq(4096, _ => c) }

  /** All of the kernel's memory as a value: page tables and free list, who
      holds each page, and the contents of pages that are not page tables. */
  datatype Machine = Machine(s: State, owner: map<nat, Pos>, mem: map<nat, seq<int>>)

  /** Pages of owner keep their contents. */
  ghost predicate SameMem(owner: map<nat, Pos>, mem: map<nat, seq<int>>, mem': map<nat, seq<int>>) {
    forall p {:trigger mem'[p]} {:trigger p in mem'} :: p in mem && p in owner ==> p in mem' && mem'[p] == mem[p]
  }

  /** Only page-table pages were added. */
  ghost predicate GrownBy(m: Machine, m': Machine, r: nat) {
    Grown(m.s, m.owner, m'.s, m'.owner, r) && SameMem(m.owner, m.mem, m'.mem)
  }

  lemma GrownByTrans(m: Machine, m': Machine, m'': Machine, r: nat)
    requires GrownBy(m, m', r) && GrownBy(m', m'', r)
    ensures GrownBy(m, m'', r)
  {
    GrownTrans(m.s, m.owner, m'.s, m'.owner, m''.s, m''.owner, r);
  }

  ghost predicate MappedBy(m: Machine, m': Machine, r: nat, vpn: nat, e: Pte) {
    MappedTo(m.s, m.owner, m'.s, m'.owner, r, vpn, e) && SameMem(m.owner, m.mem, m'.mem)
  }

  ghost predicate MappedRangeBy(m: Machine, m': Machine, r: nat, vpn: nat, n: nat, ppn: nat, flags: nat) {
    MappedRange(m.s, m.owner, m'.s, m'.owner, r, vpn, n, ppn, flags) && SameMem(m.owner, m.mem, m'.mem)
  }

  /** What mappages may be asked to map. */
  ghost predicate Mappable(m: Machine, r: nat, vpn: nat, n: nat, ppn: nat, flags: nat) {
    && IsRoot(m.owner, r) && vpn + n <= MAXVPN && ppn != 0 && V(Pte(ppn, flags)) && Leafy(Pte(ppn, flags))
    && Givable(m.owner, vpn, n, ppn)
  }

  lemma MappedByNone(m: Machine, r: nat, vpn: nat, ppn: nat, flags: nat)
    requires Owns(m.s, m.owner)
    ensures MappedRangeBy(m, m, r, vpn, 0, ppn, flags)
  {
    MappedNone(m.s, m.owner, r, vpn, ppn, flags);
  }

  /** The k-th page from vpn on was mapped already. */
  ghost predicate RemapsAt(m: Machine, r: nat, vpn: nat, k: nat) {
    Shape(m.s) && vpn + k < MAXVPN && IsMapped(m.s, r, vpn + k)
  }

  lemma MapReady(m: Machine, m': Machine, r: nat, vpn: nat, n: nat, done: nat, ppn: nat, flags: nat, a: nat, pa: nat)
    requires MappedRangeBy(m, m', r, vpn, done, ppn, flags) && Mappable(m, r, vpn, n, ppn, flags) && done < n
    requires a == vpn + done && pa == ppn + done
    ensures Owns(m'.s, m'.owner) && IsRoot(m'.owner, r) && a < MAXVPN && (IsMapped(m'.s, r, a) <==> IsMapped(m.s, r, a))
    ensures a < TRAPFRAME ==> pa in m'.owner && m'.owner[pa].Loose?
  {
    assert MapRangeAt(m.s, m'.s, r, vpn, done, ppn, flags, r, a);
    assert m'.owner[r].Root?;
  }

  lemma MappedByMore(m: Machine, m': Machine, m'': Machine, r: nat, vpn: nat, n: nat, done: nat, ppn: nat, flags: nat,
                     a: nat, e: Pte, next: nat)
    requires MappedRangeBy(m, m', r, vpn, done, ppn, flags) && Mappable(m, r, vpn, n, ppn, flags) && done < n
    requires a == vpn + done && e == Pte(ppn + done, flags) && next == done + 1 && MappedBy(m', m'', r, a, e)
    ensures MappedRangeBy(m, m'', r, vpn, next, ppn, flags)
  {
    MappedMore(m.s, m.owner, m'.s, m'.owner, m''.s, m''.owner, r, vpn, done, ppn, flags);
  }

  lemma MappedByGrown(m: Machine, m': Machine, m'': Machine, r: nat, vpn: nat, n: nat, done: nat, ppn: nat, flags: nat)
    requires MappedRangeBy(m, m', r, vpn, done, ppn, flags) && Mappable(m, r, vpn, n, ppn, flags) && done < n
    requires GrownBy(m', m'', r)
    ensures MappedRangeBy(m, m'', r, vpn, done, ppn, flags)
  {
    MappedGrown(m.s, m.owner, m'.s, m'.owner, m''.s, m''.owner, r, vpn, done, ppn, flags);
  }

  lemma MapStep(m: Machine, m': Machine, m'': Machine, r: nat, vpn: nat, n: nat, done: nat, ppn: nat, flags: nat,
                a: nat, e: Pte, next: nat, remap: bool)
    requires MappedRangeBy(m, m', r, vpn, done, ppn, flags) && Mappable(m, r, vpn, n, ppn, flags) && done < n
    requires a == vpn + done && e == Pte(ppn + done, flags) && done <= next <= done + 1
    requires if next == done then GrownBy(m', m'', r) else MappedBy(m', m'', r, a, e)
    requires remap ==> next == done && IsMapped(m'.s, r, a)
    ensures MappedRangeBy(m, m'', r, vpn, next, ppn, flags) && (remap ==> RemapsAt(m, r, vpn, next))
  {
    if remap {
      MapReady(m, m', r, vpn, n, done, ppn, flags, a, e.ppn);
    }
    if next > done {
      MappedByMore(m, m', m'', r, vpn, n, done, ppn, flags, a, e, next);
    } else {
      MappedByGrown(m, m', m'', r, vpn, n, done, ppn, flags);
    }
  }

  /** n pages from vpn on are mapped, each missing table for one free page. */
  ghost predicate MapPaid(s: State, t: State, r: nat, vpn: nat, n: nat) { Paid(s, t, r, vpn, vpn + n, 0) }

  /** There are fewer free pages than missing tables. */
  ghost predicate MapShort(s: State, r: nat, vpn: nat, n: nat) { Short(s, r, vpn, vpn + n, 0) }

  lemma MapCost(s: State, t: State, u: State, r: nat, vpn: nat, n: nat, done: nat, a: nat, next: nat, res: MapResult)
    requires MapPaid(s, t, r, vpn, done) && done < n && a == vpn + done
    requires res.Mapped? ==> next == done + 1 && PaidOne(t, u, r, a)
    requires res.NoMemory? ==> ShortOne(t, r, a)
    ensures res.Mapped? ==> MapPaid(s, u, r, vpn, next)
    ensures res.NoMemory? ==> MapShort(s, r, vpn, n)
  {
    if res.Mapped? {
      PaidMore(s, t, u, r, vpn, a, vpn + next, 0, 0);
    } else if res.NoMemory? {
      ShortMore(s, t, r, vpn, a, a + 1, vpn + n, 0, 0, 0);
    }
  }

  /** A user page now belongs to its entry. */
  ghost function LeafOwner(owner: map<nat, Pos>, r: nat, vpn: nat, e: Pte): (owner': map<nat, Pos>) {
    if vpn < TRAPFRAME then owner[e.ppn := Leaf(r, vpn)] else owner
  }

  /** mappages' store, after a walk from s to t. */
  lemma LeafPut(s: State, owner: map<nat, Pos>, t: State, owner': map<nat, Pos>, r: nat, vpn: nat, e: Pte)
    requires Owns(s, owner) && Grown(s, owner, t, owner', r) && IsRoot(owner', r) && IsRoot(owner, r) && vpn < MAXVPN
    requires P0(t, r, Px2(vpn), Px1(vpn)) != 0 && !V(At(t, r, vpn)) && GoodLeaf(e) && V(e) && PaidOne(s, t, r, vpn)
    requires vpn < TRAPFRAME ==> e.ppn in owner && owner[e.ppn].Loose?
    ensures var q := P0(t, r, Px2(vpn), Px1(vpn));
            && q in t.tables && PaidOne(s, Put(t, q, Px0(vpn), e), r, vpn)
            && MappedTo(s, owner, Put(t, q, Px0(vpn), e), LeafOwner(owner', r, vpn, e), r, vpn, e)
  {
    PutPays(s, t, owner', r, vpn, e);
    if vpn < TRAPFRAME {
      PutUserMapped(s, owner, t, owner', r, vpn, e);
    } else {
      PutSpecialMapped(s, owner, t, owner', r, vpn, e);
    }
  }

  /** Every page lo..hi of r was mapped, and exactly those are unmapped now. */
  ghost predicate Unmapped(m: Machine, m': Machine, r: nat, lo: nat, hi: nat) {
    && UnmappedTo(m.s, m.owner, m'.s, m'.owner, r, lo, hi) && SameMem(m'.owner, m.mem, m'.mem)
    && hi <= MAXVPN && AllMapped(m.s, r, lo, hi)
  }

  /** uvmunmap on one leaf: entry idx of table q, which names page p. */
  ghost function LeafCleared(m: Machine, q: nat, idx: nat, p: nat, doFree: bool): (m': Machine)
    requires Shape(m.s) && q in m.s.tables && idx < NPTE
  {
    if doFree then Machine(Put(m.s, q, idx, ZERO).(free := [p] + m.s.free), m.owner - {p}, m.mem[p := Fill(1)])
    else m.(s := Put(m.s, q, idx, ZERO))
  }

  lemma UnmappedNothing(m: Machine, r: nat, lo: nat)
    requires Owns(m.s, m.owner) && lo <= MAXVPN
    ensures Unmapped(m, m, r, lo, lo)
  {
    UnmappedNone(m.s, m.owner, r, lo);
  }

  lemma StillMapped(m: Machine, m': Machine, r: nat, lo: nat, a: nat)
    requires Unmapped(m, m', r, lo, a) && IsRoot(m.owner, r) && a < MAXVPN
    ensures Owns(m'.s, m'.owner) && IsRoot(m'.owner, r) && At(m'.s, r, a) == At(m.s, r, a)
  {
    assert UnmapAt(m.s, m'.s, r, lo, a, r, a);
  }

  lemma UnmappedNext(m: Machine, m': Machine, r: nat, lo: nat, a: nat, doFree: bool)
    requires Owns(m.s, m.owner) && IsRoot(m.owner, r) && Unmapped(m, m', r, lo, a)
    requires if doFree then lo <= a < TRAPFRAME else TRAPFRAME <= lo <= a < MAXVPN
    requires V(At(m'.s, r, a))
    ensures var q := P0(m'.s, r, Px2(a), Px1(a));
            q in m'.s.tables && Unmapped(m, LeafCleared(m', q, Px0(a), At(m'.s, r, a).ppn, doFree), r, lo, a + 1)
  {
    StillMapped(m, m', r, lo, a);
    if doFree {
      UnmappedMore(m.s, m.owner, m'.s, m'.owner, r, lo, a);
    } else {
      UnmappedSpecial(m.s, m.owner, m'.s, m'.owner, r, lo, a);
    }
  }

  /** kfree's check. */
  predicate Freeable(end: nat, pa: nat) { pa % PGSIZE == 0 && end <= pa < PHYSTOP }

  /** Page p lies wholly between end and PHYSTOP. */
  predicate InRam(end: nat, p: nat) { end <= p * PGSIZE && (p + 1) * PGSIZE <= PHYSTOP }

  ghost function Ram(end: nat): (r: set<nat>) {
    set p: nat | p < PHYSTOP && InRam(end, p)
  }

  /** The pages of RAM from p on, that kinit has yet to free. */
  ghost function Unfreed(end: nat, p: nat): (owner: map<nat, Pos>) {
    map q: nat | q < PHYSTOP && p <= q && InRam(end, q) :: Loose
  }

  lemma UnfreedFirst(end: nat)
    requires end > 0
    ensures Owns(State([], map[]), Unfreed(end, Up(end))) && Pages(State([], map[]), Unfreed(end, Up(end))) == Ram(end)
  {
    forall p | InRam(end, p)
      ensures Up(end) <= p
    {
    }
    assert Unfreed(end, Up(end)).Keys == Ram(end);
  }

  lemma UnfreedNext(end: nat, p: nat)
    requires Up(end) <= p
    ensures (p + 1) * PGSIZE <= PHYSTOP ==>
              Freeable(end, p * PGSIZE) && p in Unfreed(end, p) && Unfreed(end, p) - {p} == Unfreed(end, p + 1)
    ensures (p + 1) * PGSIZE > PHYSTOP ==> Unfreed(end, p) == map[]
  {
    assert end <= p * PGSIZE;
  }

  lemma {:induction false} BoundedSet(s: set<nat>, n: nat)
    requires forall x :: x in s ==> x < n
    ensures |s| <= n
  {
    if n == 0 {
      assert s == {};
    } else {
      BoundedSet(s - {n - 1}, n - 1);
    }
  }

  /** There is less RAM than user address space, and kfree takes all of it. */
  lemma RamIsSmall(end: nat)
    ensures |Ram(end)| < TRAPFRAME
    ensures forall p {:trigger InRam(end, p)} :: p in Ram(end) ==> InRam(end, p) && Freeable(end, p * PGSIZE)
  {
    BoundedSet(Ram(end), PHYSTOP / PGSIZE);
  }

  /** While the allocator manages exactly the RAM, kfree takes every page in use. */
  lemma KfreeAccepts(m: Machine, end: nat, p: nat)
    requires Pages(m.s, m.owner) == Ram(end) && p in m.owner
    ensures Freeable(end, p * PGSIZE)
  {
    RamIsSmall(end);
    assert p in Ram(end);
    assert InRam(end, p);
  }

  /** So uvmunmap never meets kfree's panic, and the allocator still manages the RAM. */
  lemma UnmapFrees(m: Machine, m': Machine, r: nat, lo: nat, hi: nat, end: nat, v: nat)
    requires Owns(m.s, m.owner) && IsRoot(m.owner, r) && Unmapped(m, m', r, lo, hi) && hi <= TRAPFRAME
    requires Pages(m.s, m.owner) == Ram(end) && lo <= v < hi
    ensures Freeable(end, At(m.s, r, v).ppn * PGSIZE) && Pages(m'.s, m'.owner) == Ram(end)
  {
    assert IsMapped(m.s, r, v);
    LeafOwned(m.s, m.owner, r, v);
    KfreeAccepts(m, end, At(m.s, r, v).ppn);
  }

  /** Page v holds a byte of va .. va + size. */
  predicate Touches(va: nat, size: nat, v: nat) { v * PGSIZE < va + size && va < (v + 1) * PGSIZE }

  /** How many pages mappages goes through: PGROUNDDOWN(va) to PGROUNDDOWN(va + size - 1). */
  function PagesOf(va: nat, size: nat): (n: nat)
    requires size > 0
  {
    (va + size - 1) / PGSIZE - va / PGSIZE + 1
  }

  /** They are the pages that hold a byte of the range. */
  lemma PagesTouched(va: nat, size: nat, v: nat)
    requires size > 0
    ensures va / PGSIZE <= v < va / PGSIZE + PagesOf(va, size) <==> Touches(va, size, v)
  {
  }

  lemma WholePage(v: nat)
    ensures v * PGSIZE / PGSIZE == v && PagesOf(v * PGSIZE, PGSIZE) == 1
  {
  }

  class Vm {
    // The first address after the kernel.
    const kernelEnd: nat
    var free: seq<nat>
    var tables: map<nat, seq<Pte>>
    // Contents of pages that are not page tables.
    var mem: map<nat, seq<int>>
    ghost var owner: map<nat, Pos>

    function View(): (s: State)
      reads this
    {
      State(free, tables)
    }

    ghost predicate Valid()
      reads this
    {
      Owns(View(), owner)
    }

    ghost function Snap(): (m: Machine)
      reads this
    {
      Machine(View(), owner, mem)
    }

    /** Every managed page, free or in use. */
    ghost function All(): (r: set<nat>)
      reads this
    {
      Pages(View(), owner)
    }

    /** 0 when out of memory; otherwise a page nobody else refers to. */
    method Kalloc() returns (p: nat)
      requires Valid()
      modifies this`free, this`owner, this`mem
      ensures Valid() && All() == old(All()) && tables == old(tables)
      ensures p == 0 <==> old(free) == []
      ensures p == 0 ==> View() == old(View()) && owner == old(owner) && mem == old(mem)
      ensures p != 0 ==>
                p !in old(owner) && p == old(free)[0] && free == old(free)[1..] && owner == old(owner)[p := Loose]
      ensures p != 0 ==> mem == old(mem)[p := Fill(5)]
    {
      if free == [] {
        return 0;
      }
      KallocOwns(View(), owner);
      p := free[0];
      free := free[1..];
      owner := owner[p := Loose];
      mem := mem[p := Fill(5)];
    }

    /** kfree, past its check. */
    method FreePage(p: nat)
      requires Valid() && p in owner && owner[p].Loose?
      modifies this`free, this`owner, this`mem
      ensures Valid() && All() == old(All()) && tables == old(tables)
      ensures free == [p] + old(free) && owner == old(owner) - {p} && mem == old(mem)[p := Fill(1)]
    {
      KfreeOwns(View(), owner, p);
      mem := mem[p := Fill(1)];
      free := [p] + free;
      owner := owner - {p};
    }

    /** kfree(pa); false is its panic. */
    method Kfree(pa: nat) returns (ok: bool)
      requires Valid() && (Freeable(kernelEnd, pa) ==> pa / PGSIZE in owner && owner[pa / PGSIZE].Loose?)
      modifies this`free, this`owner, this`mem
      ensures Valid() && All() == old(All()) && tables == old(tables)
      ensures ok <==> Freeable(kernelEnd, pa)
      ensures !ok ==> Snap() == old(Snap())
      ensures ok ==> pa == pa / PGSIZE * PGSIZE && free == [pa / PGSIZE] + old(free)
                     && owner == old(owner) - {pa / PGSIZE} && mem == old(mem)[pa / PGSIZE := Fill(1)]
    {
      if pa % PGSIZE != 0 || pa < kernelEnd || pa >= PHYSTOP {
        return false;
      }
      FreePage(pa / PGSIZE);
      return true;
    }

    /** kinit: every whole page between the end of the kernel and PHYSTOP is free. */
    constructor Kinit(end: nat)
      requires end > 0
      ensures Valid() && kernelEnd == end && owner == map[] && tables == map[] && All() == Ram(end)
    {
      kernelEnd := end;
      free, tables, mem, owner := [], map[], map[], Unfreed(end, Up(end));
      new;
      UnfreedFirst(end);
      var p := Up(end);
      while (p + 1) * PGSIZE <= PHYSTOP
        invariant Up(end) <= p && Valid() && All() == Ram(end) && tables == map[]
        invariant owner == Unfreed(end, p)
        decreases PHYSTOP - p * PGSIZE
      {
        UnfreedNext(end, p);
        WholePage(p);
        var ok := Kfree(p * PGSIZE);
        p := p + 1;
      }
      UnfreedNext(end, p);
    }

    /** One level of walk: the page below entry idx of table q, allocated if
        missing and alloc is set. x is the position of that entry. */
    method Descend(q: nat, idx: nat, alloc: bool, ghost x: Pos) returns (p: nat)
      requires Valid() && IsPos(x) && Refers(x) && IsRoot(owner, x.r)
      requires (x.L1? && q == x.r && idx == x.i) || (x.L0? && q == P1(View(), x.r, x.i) != 0 && idx == x.j)
      modifies this
      ensures GrownBy(old(Snap()), Snap(), x.r)
      ensures p == Ptr(View(), x) && (x.L0? ==> P1(View(), x.r, x.i) == q)
      ensures !alloc ==> Snap() == old(Snap())
      ensures alloc && p == 0 ==> free == [] && Snap() == old(Snap())
      ensures alloc && p != 0 ==> Climbed(old(View()), View(), x.r, x)
    {
      ghost var s, owner0 := View(), owner;
      GrownRefl(s, owner0, x.r);
      if x.L0? {
        assert PosAt(s, owner0, L1(x.r, x.i));
      }
      assert PageAt(s, owner0, q) && LevelAt(s, owner0, q, idx);
      var e := tables[q][idx];
      if V(e) {
        ClimbedThere(s, x.r, x);
        return e.ppn;
      }
      if !alloc || free == [] {
        return 0;
      }
      p := LinkNew(q, idx, x);
    }

    /** walk's allocation: kalloc, clear, and link below entry idx of table q. */
    method LinkNew(q: nat, idx: nat, ghost x: Pos) returns (p: nat)
      requires Valid() && IsPos(x) && Refers(x) && IsRoot(owner, x.r) && Ptr(View(), x) == 0 && free != []
      requires (x.L1? && q == x.r && idx == x.i) || (x.L0? && q == P1(View(), x.r, x.i) != 0 && idx == x.j)
      requires q in tables && idx < NPTE
      modifies this
      ensures GrownBy(old(Snap()), Snap(), x.r) && Climbed(old(View()), View(), x.r, x)
      ensures p == Ptr(View(), x) != 0 && (x.L0? ==> P1(View(), x.r, x.i) == q)
    {
      LinkGrown(View(), owner, x, q, idx);
      LinkClimbs(View(), owner, x, q, idx);
      p := NewTable(q, idx, x);
    }

    method NewTable(q: nat, idx: nat, ghost x: Pos) returns (p: nat)
      requires Valid() && free != [] && q in tables && idx < NPTE && free[0] != q && free[0] != 0
      modifies this
      ensures p == old(free)[0] != 0 && owner == old(owner)[p := x] && mem == old(mem)[p := Fill(5)]
      ensures View() == Put(Fresh(old(View()).(free := old(free)[1..]), p), q, idx, Pte(p, PTE_V))
    {
      p := Kalloc();
      tables := tables[p := Blank()];
      tables := tables[q := tables[q][idx := Pte(p, PTE_V)]];
      owner := owner[p := x];
    }

    /** walk: the last-level table of vpn in address space r, or 0. With alloc
        it creates the missing tables, each from one free page, and fails exactly if
        there are fewer; in no case does any existing translation change. */
    method Walk(r: nat, vpn: nat, alloc: bool) returns (pt: nat)
      requires Valid() && IsRoot(owner, r) && vpn < MAXVPN
      modifies this
      ensures GrownBy(old(Snap()), Snap(), r)
      ensures pt == P0(View(), r, Px2(vpn), Px1(vpn))
      ensures !alloc ==> Snap() == old(Snap())
      ensures alloc && pt == 0 ==> free == [] && ShortOne(old(View()), r, vpn)
      ensures alloc && pt != 0 ==> PaidOne(old(View()), View(), r, vpn)
    {
      ghost var m := Snap();
      GrownRefl(m.s, m.owner, r);
      Rebuild(vpn);
      pt := r;
      var level := 2;
      while level > 0
        invariant 0 <= level <= 2 && GrownBy(m, Snap(), r)
        invariant !alloc ==> Snap() == m
        invariant level == 2 ==> pt == r
        invariant level == 1 ==> pt == P1(View(), r, Px2(vpn)) != 0
        invariant level == 0 ==> pt == P0(View(), r, Px2(vpn), Px1(vpn)) != 0
        invariant level == 2 ==> Snap() == m
        invariant level == 1 && alloc ==> Climbed(m.s, View(), r, L1(r, Px2(vpn)))
        invariant level == 0 && alloc ==> PaidOne(m.s, View(), r, vpn)
      {
        ghost var m1 := Snap();
        ghost var x := if level == 2 then L1(r, Px2(vpn)) else L0(r, Px2(vpn), Px1(vpn));
        pt := Descend(pt, if level == 2 then Px2(vpn) else Px1(vpn), alloc, x);
        GrownByTrans(m, m1, Snap(), r);
        if pt == 0 {
          if alloc {
            WalkShort(m.s, m1.s, r, vpn);
          }
          return;
        }
        if alloc && level == 1 {
          WalkPaid(m.s, m1.s, View(), r, vpn);
        }
        level := level - 1;
      }
    }

    /** walk, the remap check, and the store of mappages. */
    method MapPage(r: nat, vpn: nat, ppn: nat, flags: nat) returns (res: MapResult)
      requires Valid() && IsRoot(owner, r) && vpn < MAXVPN && GoodLeaf(Pte(ppn, flags)) && flags % 2 == 1
      requires vpn < TRAPFRAME ==> ppn in owner && owner[ppn].Loose?
      modifies this
      ensures res.Mapped? ==> MappedBy(old(Snap()), Snap(), r, vpn, Pte(ppn, flags))
      ensures !res.Mapped? ==> GrownBy(old(Snap()), Snap(), r)
      ensures res.Mapped? ==> PaidOne(old(View()), View(), r, vpn)
      ensures res.NoMemory? ==> free == [] && ShortOne(old(View()), r, vpn)
      ensures !res.BadSize? && (res.Remap? <==> IsMapped(old(Snap()).s, r, vpn))
    {
      ghost var s0, owner0 := View(), owner;
      var pt := Walk(r, vpn, true);
      ghost var s1, owner1 := View(), owner;
      assert SameAt(s0, s1, r, vpn);
      if pt == 0 {
        return NoMemory;
      }
      InTable(s1, owner1, r, vpn);
      if V(tables[pt][Px0(vpn)]) {
        return Remap;
      }
      var e := Pte(ppn, flags);
      LeafPut(s0, owner0, s1, owner1, r, vpn, e);
      StoreLeaf(pt, r, vpn, e);
      return Mapped;
    }

    /** *pte = PA2PTE(pa) | perm | PTE_V */
    method StoreLeaf(pt: nat, ghost r: nat, vpn: nat, e: Pte)
      requires Shape(View()) && pt in tables
      modifies this`tables, this`owner
      ensures View() == Put(old(View()), pt, Px0(vpn), e) && owner == LeafOwner(old(owner), r, vpn, e)
    {
      owner := LeafOwner(owner, r, vpn, e);
      tables := tables[pt := tables[pt][Px0(vpn) := e]];
    }

    /** One iteration of mappages. */
    method MapNext(r: nat, vpn: nat, n: nat, ppn: nat, flags: nat, done: nat, ghost m: Machine)
      returns (res: MapResult, next: nat)
      requires MappedRangeBy(m, Snap(), r, vpn, done, ppn, flags) && Mappable(m, r, vpn, n, ppn, flags) && done < n
      requires MapPaid(m.s, View(), r, vpn, done)
      modifies this
      ensures next == (if res.Mapped? then done + 1 else done) && MappedRangeBy(m, Snap(), r, vpn, next, ppn, flags)
      ensures res.Mapped? ==> MapPaid(m.s, View(), r, vpn, next)
      ensures !res.BadSize? && (res.NoMemory? ==> free == [] && MapShort(m.s, r, vpn, n))
      ensures res.Remap? ==> RemapsAt(m, r, vpn, next)
    {
      ghost var m1 := Snap();
      var a, pa := vpn + done, ppn + done;
      MapReady(m, m1, r, vpn, n, done, ppn, flags, a, pa);
      res := MapPage(r, a, pa, flags);
      next := if res.Mapped? then done + 1 else done;
      ghost var m2 := Snap();
      MapStep(m, m1, m2, r, vpn, n, done, ppn, flags, a, Pte(pa, flags), next, res.Remap?);
      MapCost(m.s, m1.s, m2.s, r, vpn, n, done, a, next, res);
    }

    /** mappages: the pages that hold a byte of va .. va + size are mapped in order
        to those from pa's on, with flags perm | PTE_V. done pages are mapped; fewer
        than all means out of memory or the "remap" panic. Nothing else changes. */
    method Mappages(r: nat, va: nat, size: nat, pa: nat, perm: nat) returns (res: MapResult, done: nat)
      requires Valid()
      requires size > 0 ==> Mappable(Snap(), r, va / PGSIZE, PagesOf(va, size), pa / PGSIZE, WithV(perm))
      modifies this
      ensures res.BadSize? <==> size == 0
      ensures size == 0 ==> done == 0 && Snap() == old(Snap())
      ensures size > 0 ==> done <= PagesOf(va, size) && (res.Mapped? <==> done == PagesOf(va, size))
      ensures size > 0 ==> MappedRangeBy(old(Snap()), Snap(), r, va / PGSIZE, done, pa / PGSIZE, WithV(perm))
      ensures res.Mapped? ==> MapPaid(old(View()), View(), r, va / PGSIZE, PagesOf(va, size))
      ensures res.NoMemory? ==> free == [] && MapShort(old(View()), r, va / PGSIZE, PagesOf(va, size))
      ensures res.Remap? ==> RemapsAt(old(Snap()), r, va / PGSIZE, done)
    {
      if size == 0 {
        return BadSize, 0;
      }
      res, done := MapPages(r, va / PGSIZE, PagesOf(va, size), pa / PGSIZE, perm);
    }

    /** mappages of one whole page. */
    method MapWhole(r: nat, v: nat, p: nat, perm: nat) returns (done: nat)
      requires Valid() && Mappable(Snap(), r, v, 1, p, WithV(perm))
      modifies this
      ensures done <= 1 && MappedRangeBy(old(Snap()), Snap(), r, v, done, p, WithV(perm))
      ensures done == 1 ==> PaidOne(old(View()), View(), r, v)
      ensures done == 0 ==> ShortOne(old(View()), r, v) || IsMapped(old(View()), r, v)
    {
      WholePage(v);
      WholePage(p);
      var res;
      res, done := Mappages(r, v * PGSIZE, PGSIZE, p * PGSIZE, perm);
    }

    /** The loop of mappages. */
    method MapPages(r: nat, vpn: nat, n: nat, ppn: nat, perm: nat) returns (res: MapResult, done: nat)
      requires Valid() && 0 < n && Mappable(Snap(), r, vpn, n, ppn, WithV(perm))
      modifies this
      ensures done <= n && (res.Mapped? <==> done == n)
      ensures MappedRangeBy(old(Snap()), Snap(), r, vpn, done, ppn, WithV(perm))
      ensures res.Mapped? ==> MapPaid(old(View()), View(), r, vpn, n)
      ensures !res.BadSize? && (res.NoMemory? ==> free == [] && MapShort(old(View()), r, vpn, n))
      ensures res.Remap? ==> RemapsAt(old(Snap()), r, vpn, done)
    {
      ghost var m := Snap();
      var flags := WithV(perm);
      MappedByNone(m, r, vpn, ppn, flags);
      PaidNone(m.s, r, vpn);
      done := 0;
      while true
        invariant done < n && MappedRangeBy(m, Snap(), r, vpn, done, ppn, flags)
        invariant MapPaid(m.s, View(), r, vpn, done)
        decreases n - done
      {
        res, done := MapNext(r, vpn, n, ppn, flags, done, m);
        if !res.Mapped? || done == n {
          return;
        }
      }
    }

    /** One iteration of uvmunmap. */
    method UnmapPage(r: nat, a: nat, doFree: bool, ghost m: Machine, ghost lo: nat) returns (panicked: bool, next: nat)
      requires Owns(m.s, m.owner) && IsRoot(m.owner, r) && Unmapped(m, Snap(), r, lo, a)
      requires if doFree then lo <= a < TRAPFRAME else TRAPFRAME <= lo <= a < MAXVPN
      modifies this
      ensures next == a + 1 && (panicked <==> !IsMapped(m.s, r, a))
      ensures !panicked ==> Unmapped(m, Snap(), r, lo, next)
    {
      next := a + 1;
      ghost var m1 := Snap();
      StillMapped(m, m1, r, lo, a);
      var pt := Walk(r, a, false);
      if pt == 0 {
        return true, next;
      }
      InTable(m1.s, m1.owner, r, a);
      var e := tables[pt][Px0(a)];
      if !V(e) {
        return true, next;
      }
      LeafOwned(m1.s, m1.owner, r, a);
      NotPlain(e);
      ClearLeaf(pt, Px0(a), e.ppn, doFree);
      UnmappedNext(m, m1, r, lo, a, doFree);
      return false, next;
    }

    /** kfree if asked for, then *pte = 0. */
    method ClearLeaf(pt: nat, idx: nat, p: nat, doFree: bool)
      requires Shape(View()) && pt in tables && idx < NPTE
      modifies this
      ensures Snap() == LeafCleared(old(Snap()), pt, idx, p, doFree)
    {
      if doFree {
        mem := mem[p := Fill(1)];
        free := [p] + free;
        owner := owner - {p};
      }
      tables := Put(View(), pt, idx, ZERO).tables;
    }

    /** uvmunmap. The kernel frees user pages (doFree) and only drops the entries
        of TRAMPOLINE and TRAPFRAME. panicked means some page of the range was not
        mapped; otherwise exactly the range is unmapped. */
    method Uvmunmap(r: nat, vpn: nat, n: nat, doFree: bool) returns (panicked: bool)
      requires Valid() && IsRoot(owner, r) && vpn + n <= MAXVPN
      requires if doFree then vpn + n <= TRAPFRAME else TRAPFRAME <= vpn
      modifies this
      ensures panicked <==> !AllMapped(old(Snap()).s, r, vpn, vpn + n)
      ensures !panicked ==> Unmapped(old(Snap()), Snap(), r, vpn, vpn + n)
    {
      ghost var m := Snap();
      UnmappedNothing(m, r, vpn);
      var a, end := vpn, vpn + n;
      while a < end
        invariant vpn <= a <= end && Unmapped(m, Snap(), r, vpn, a)
      {
        ghost var at := a;
        panicked, a := UnmapPage(r, a, doFree, m, vpn);
        if panicked {
          NotAllMapped(m.s, r, vpn, end, at);
          return;
        }
      }
      WereMapped(m, Snap(), r, vpn, end);
      return false;
    }
  }

  /** "uvmunmap: not a leaf" does not happen. */
  lemma NotPlain(e: Pte)
    requires Leafy(e)
    ensures e.flags != PTE_V
  {
  }

  lemma NotAllMapped(s: State, r: nat, lo: nat, hi: nat, a: nat)
    requires Shape(s) && lo <= a < hi <= MAXVPN && !IsMapped(s, r, a)
    ensures !AllMapped(s, r, lo, hi)
  {
  }

  lemma WereMapped(m: Machine, m': Machine, r: nat, lo: nat, hi: nat)
    requires Unmapped(m, m', r, lo, hi)
    ensures AllMapped(m.s, r, lo, hi)
  {
  }

  lemma InTable(s: State, owner: map<nat, Pos>, r: nat, vpn: nat)
    requires Owns(s, owner) && IsRoot(owner, r) && vpn < MAXVPN && P0(s, r, Px2(vpn), Px1(vpn)) != 0
    ensures P0(s, r, Px2(vpn), Px1(vpn)) in s.tables
    ensures At(s, r, vpn) == s.tables[P0(s, r, Px2(vpn), Px1(vpn))][Px0(vpn)]
  {
    Rebuild(vpn);
    assert PosAt(s, owner, L0(r, Px2(vpn), Px1(vpn)));
    assert PageAt(s, owner, P0(s, r, Px2(vpn), Px1(vpn)));
  }
}
