/**
 Taking a page table apart (freewalk and uvmfree of kernel/vm.c, and
 proc_pagetable and proc_freepagetable of kernel/proc.c).
 */
module FreeTree {
  import opened VmModel
  import opened PageCost
  import opened Vm
  import opened Uvm

  /** The table at position y lies in the subtree of the table at x of root r. */
  predicate Under(y: Pos, x: Pos, r: nat) {
    (y.L1? || y.L0?) && y.r == r &&
    match x
    case L1(_, i) => y.i == i
    case L0(_, _, _) => y == x
    case _ => true
  }

  ghost predicate ClearedAt(s: State, t: State, page: nat, k: nat)
    requires Shape(s) && Shape(t) && k < NPTE
  {
    Entry(t, page, k) == Entry(s, page, k) || Entry(t, page, k) == ZERO
  }

  ghost predicate Cleared(s: State, t: State) {
    && Shape(s) && Shape(t)
    && forall page, k {:trigger ClearedAt(s, t, page, k)} :: 0 <= k < NPTE ==> ClearedAt(s, t, page, k)
  }

  /** Some tables under x have been freed; no translation changed. */
  ghost predicate Trimmed(m: Machine, m': Machine, x: Pos, r: nat) {
    && Owns(m'.s, m'.owner) && Pages(m'.s, m'.owner) == Pages(m.s, m.owner)
    && SameMaps(m.s, m'.s, m.owner) && Cleared(m.s, m'.s) && m'.owner.Keys <= m.owner.Keys
    && (forall p {:trigger p in m'.owner} :: p in m.owner ==>
          if p in m'.owner then m'.owner[p] == m.owner[p] else Under(m.owner[p], x, r))
    && SameMem(m'.owner, m.mem, m'.mem)
  }

  lemma TrimmedRefl(m: Machine, x: Pos, r: nat)
    requires Owns(m.s, m.owner)
    ensures Trimmed(m, m, x, r)
  {
    SameTablesMaps(m.s, m.s, m.owner);
  }

  /** The position below entry i of the table at position x, page q. */
  function Child(x: Pos, q: nat, i: nat): (y: Pos)
    requires x.Root? || x.L1?
  {
    if x.Root? then L1(q, i) else L0(x.r, x.i, i)
  }

  lemma TrimmedTrans(m: Machine, m': Machine, m'': Machine, x: Pos, y: Pos, r: nat)
    requires Trimmed(m, m', x, r) && Trimmed(m', m'', y, r) && forall z :: Under(z, y, r) ==> Under(z, x, r)
    ensures Trimmed(m, m'', x, r)
  {
    forall p | IsRoot(m.owner, p)
      ensures IsRoot(m'.owner, p)
    {
      assert p in m'.owner;
    }
    SameMapsTrans(m.s, m'.s, m''.s, m.owner, m'.owner);
    forall page, k | 0 <= k < NPTE
      ensures ClearedAt(m.s, m''.s, page, k)
    {
      assert ClearedAt(m.s, m'.s, page, k) && ClearedAt(m'.s, m''.s, page, k);
    }
    forall p | p in m.owner
      ensures if p in m''.owner then m''.owner[p] == m.owner[p] else Under(m.owner[p], x, r)
    {
      assert p in m'.owner || p !in m''.owner;
    }
  }

  /** Entry idx of table up is the link to the table at x. */
  ghost predicate Linked(s: State, x: Pos, up: nat, idx: nat)
    requires Shape(s)
  {
    match x
    case L1(r, i) => up == r && idx == i < NTOP
    case L0(r, i, j) => i < NTOP && up == P1(s, r, i) != 0 && idx == j < NPTE
    case _ => true
  }

  ghost function Unlinked(m: Machine, up: nat, idx: nat): (m': Machine)
    requires Shape(m.s) && up in m.s.tables && idx < NPTE
  {
    m.(s := Put(m.s, up, idx, ZERO))
  }

  /** kfree of a table page. */
  ghost function Dropped(m: Machine, q: nat): (m': Machine) {
    Machine(Retired(m.s, q).(free := [q] + m.s.free), m.owner - {q}, m.mem[q := Fill(1)])
  }

  lemma Assemble(i: nat, j: nat, k: nat) returns (vpn: nat)
    requires i < NTOP && j < NPTE && k < NPTE
    ensures vpn < MAXVPN && Px2(vpn) == i && Px1(vpn) == j && Px0(vpn) == k
  {
    var u := i * NPTE + j;
    vpn := u * NPTE + k;
    assert vpn / NPTE == u && u / NPTE == i;
    assert vpn / (NPTE * NPTE) == i;
  }

  /** In a tree without leaves a valid entry is the link to a lower table. */
  lemma EntryCase(m: Machine, q: nat, x: Pos, i: nat, r: nat)
    requires Owns(m.s, m.owner) && q in m.owner && m.owner[q] == x && IsTable(x) && i < NPTE
    requires r == (if x.Root? then q else x.r) && Vacant(m.s, r, 0, MAXVPN)
    ensures var e := Entry(m.s, q, i);
            if !V(e) then e == ZERO
            else
              && !Leafy(e) && (x.Root? || x.L1?)
              && e.ppn in m.owner && m.owner[e.ppn] == Child(x, q, i) && Linked(m.s, Child(x, q, i), q, i)
  {
    var e := Entry(m.s, q, i);
    assert PageAt(m.s, m.owner, q) && LevelAt(m.s, m.owner, q, i);
    if x.L0? {
      var vpn := Assemble(x.i, x.j, i);
      assert At(m.s, r, vpn) == e;
    } else if V(e) {
      var y := Child(x, q, i);
      assert IsPos(y) && Ptr(m.s, y) == e.ppn;
      assert PosAt(m.s, m.owner, y);
    }
  }

  lemma LinkStays(m: Machine, m': Machine, q: nat, x: Pos, up: nat, idx: nat)
    requires Owns(m.s, m.owner) && (x.L1? || x.L0?) && Trimmed(m, m', x, x.r)
    requires q in m'.owner && m'.owner[q] == x && Linked(m.s, x, up, idx)
    ensures IsPos(x) && IsRoot(m'.owner, x.r) && Ptr(m'.s, x) == q && q != 0
    ensures up in m'.s.tables && up != q && Linked(m'.s, x, up, idx)
  {
    assert PageAt(m'.s, m'.owner, q);
    if x.L0? {
      assert ClearedAt(m.s, m'.s, x.r, x.i);
      assert PosAt(m'.s, m'.owner, L1(x.r, x.i));
    }
    assert PageAt(m'.s, m'.owner, up);
  }

  lemma UnlinkedOwns(m: Machine, q: nat, x: Pos, up: nat, idx: nat)
    requires Owns(m.s, m.owner) && (x.L1? || x.L0?) && IsPos(x) && IsRoot(m.owner, x.r)
    requires Ptr(m.s, x) == q != 0 && Empty(m.s, q) && up in m.s.tables && up != q && Linked(m.s, x, up, idx)
    requires q in m.owner && m.owner[q] == x
    ensures Shape(Dropped(m, q).s) && up in Dropped(m, q).s.tables
    ensures var d := Unlinked(Dropped(m, q), up, idx);
            Owns(d.s, d.owner) && Pages(d.s, d.owner) == Pages(m.s, m.owner) && SameMaps(m.s, d.s, m.owner)
  {
    var u, owner' := Put(Retired(m.s, q), up, idx, ZERO), m.owner[q := Loose];
    UnlinkTable(m.s, m.owner, x, up, idx);
    KfreeOwns(u, owner', q);
    var d := Unlinked(Dropped(m, q), up, idx);
    assert d.s == u.(free := [q] + u.free) && d.owner == owner' - {q};
    SameTablesMaps(u, d.s, m.owner);
    SameMapsTrans(m.s, u, d.s, m.owner, owner');
  }

  lemma UnlinkedClears(s: State, t: State, q: nat, up: nat, idx: nat)
    requires Shape(s) && Shape(t) && idx < NPTE && up in s.tables && up != q
    requires t.tables == (s.tables - {q})[up := s.tables[up][idx := ZERO]]
    ensures Cleared(s, t)
  {
    forall page, k | 0 <= k < NPTE
      ensures ClearedAt(s, t, page, k)
    {
    }
  }

  /** The end of freewalk on an emptied lower table, with the caller's store of 0. */
  lemma TrimTable(m: Machine, q: nat, x: Pos, up: nat, idx: nat)
    requires Owns(m.s, m.owner) && (x.L1? || x.L0?) && IsPos(x) && IsRoot(m.owner, x.r)
    requires Ptr(m.s, x) == q != 0 && Empty(m.s, q) && up in m.s.tables && up != q && Linked(m.s, x, up, idx)
    requires q in m.owner && m.owner[q] == x
    ensures Shape(Dropped(m, q).s) && up in Dropped(m, q).s.tables
    ensures Trimmed(m, Unlinked(Dropped(m, q), up, idx), x, x.r)
  {
    UnlinkedOwns(m, q, x, up, idx);
    UnlinkedClears(m.s, Unlinked(Dropped(m, q), up, idx).s, q, up, idx);
  }

  /** The pages of address space r and its page tables are no longer in use. */
  ghost function WithoutTree(owner: map<nat, Pos>, r: nat): (o: map<nat, Pos>) {
    map p | p in owner && p != r && !(Refers(owner[p]) && owner[p].r == r) :: owner[p]
  }

  /** Every page r held is free again; other address spaces are as before. */
  ghost predicate Gone(m: Machine, m': Machine, r: nat) {
    && Owns(m'.s, m'.owner) && Pages(m'.s, m'.owner) == Pages(m.s, m.owner)
    && m'.owner == WithoutTree(m.owner, r) && SameMaps(m.s, m'.s, m'.owner) && SameMem(m'.owner, m.mem, m'.mem)
  }

  lemma DropTree(m: Machine, m': Machine, r: nat)
    requires Owns(m.s, m.owner) && Trimmed(m, m', Root, r)
    requires IsRoot(m.owner, r) && IsRoot(m'.owner, r) && Empty(m'.s, r)
    ensures Gone(m, Dropped(m', r), r)
  {
    DroppedOwns(m', r);
    DropOwner(m, m', r);
    DropMaps(m.s, m.owner, m'.s, m'.owner, Retired(m'.s, r), Dropped(m', r).s, Dropped(m', r).owner);
  }

  lemma DroppedOwns(m: Machine, r: nat)
    requires Owns(m.s, m.owner) && IsRoot(m.owner, r) && Empty(m.s, r)
    ensures var d := Dropped(m, r);
            && Owns(d.s, d.owner) && Pages(d.s, d.owner) == Pages(m.s, m.owner) && d.owner == m.owner - {r}
            && SameMaps(m.s, Retired(m.s, r), m.owner) && d.s.tables == Retired(m.s, r).tables
  {
    var u, owner', d := Retired(m.s, r), m.owner[r := Loose], Dropped(m, r);
    DropRootOwns(m.s, m.owner, r);
    KfreeOwns(u, owner', r);
    assert d.s == u.(free := [r] + u.free) && d.owner == owner' - {r};
  }

  lemma DropMaps(s: State, owner: map<nat, Pos>, t: State, owner': map<nat, Pos>, u: State, v: State,
                 owner'': map<nat, Pos>)
    requires SameMaps(s, t, owner) && SameMaps(t, u, owner') && Shape(v) && v.tables == u.tables
    requires forall r :: IsRoot(owner'', r) ==> IsRoot(owner, r) && IsRoot(owner', r)
    ensures SameMaps(s, v, owner'')
  {
    forall r, p | IsRoot(owner'', r) && 0 <= p < MAXVPN
      ensures SameAt(s, v, r, p)
    {
      assert SameAt(s, t, r, p) && SameAt(t, u, r, p);
      SameTablesAt(u, v, r, p);
    }
  }

  lemma DropOwner(m: Machine, m': Machine, r: nat)
    requires Trimmed(m, m', Root, r) && IsRoot(m.owner, r) && IsRoot(m'.owner, r) && Empty(m'.s, r)
    ensures m'.owner - {r} == WithoutTree(m.owner, r)
  {
    forall p | p in m.owner
      ensures p in m'.owner - {r} <==> p != r && !(Refers(m.owner[p]) && m.owner[p].r == r)
    {
      assert p in m'.owner || Under(m.owner[p], Root, r);
      if p in m'.owner && p != r {
        NotUnder(m', p, r);
      }
    }
  }

  lemma NotUnder(m: Machine, p: nat, r: nat)
    requires Owns(m.s, m.owner) && Empty(m.s, r) && p in m.owner
    ensures !(Refers(m.owner[p]) && m.owner[p].r == r)
  {
    assert PageAt(m.s, m.owner, p);
  }

  /** Entries of table q below i are cleared. */
  ghost predicate Trimming(m: Machine, m': Machine, q: nat, x: Pos, r: nat, i: nat) {
    && Trimmed(m, m', x, r) && q in m'.owner && m'.owner[q] == x
    && forall k :: 0 <= k < i <= NPTE ==> Entry(m'.s, q, k) == ZERO
  }

  ghost predicate TreeOf(m: Machine, q: nat, x: Pos, r: nat) {
    && Owns(m.s, m.owner) && q in m.owner && m.owner[q] == x && IsTable(x)
    && r == (if x.Root? then q else x.r) && Vacant(m.s, r, 0, MAXVPN)
  }

  lemma TrimReady(m: Machine, m': Machine, q: nat, x: Pos, r: nat, i: nat)
    requires TreeOf(m, q, x, r) && Trimming(m, m', q, x, r, i) && i < NPTE
    ensures TreeOf(m', q, x, r) && q in m'.s.tables
    ensures var e := Entry(m'.s, q, i);
            if !V(e) then e == ZERO
            else
              && !Leafy(e) && (x.Root? || x.L1?)
              && e.ppn in m'.owner && m'.owner[e.ppn] == Child(x, q, i) && Linked(m'.s, Child(x, q, i), q, i)
  {
    assert PageAt(m'.s, m'.owner, q) && PageAt(m.s, m.owner, q);
    assert IsRoot(m.owner, r);
    forall v | 0 <= v < MAXVPN
      ensures At(m'.s, r, v) == ZERO
    {
      assert SameAt(m.s, m'.s, r, v);
    }
    EntryCase(m', q, x, i, r);
  }

  lemma TrimStep(m: Machine, m': Machine, m'': Machine, q: nat, x: Pos, y: Pos, r: nat, i: nat)
    requires TreeOf(m, q, x, r) && Trimming(m, m', q, x, r, i) && (x.Root? || x.L1?) && y == Child(x, q, i) && i < NPTE
    requires Trimmed(m', m'', y, r) && Entry(m''.s, q, i) == ZERO
    ensures Trimming(m, m'', q, x, r, i + 1)
  {
    TrimmedTrans(m, m', m'', x, y, r);
    assert q in m''.owner;
    forall k | 0 <= k < i
      ensures Entry(m''.s, q, k) == ZERO
    {
      assert ClearedAt(m'.s, m''.s, q, k);
    }
  }

  lemma TrimEnd(m: Machine, m': Machine, q: nat, x: Pos, up: nat, idx: nat)
    requires Owns(m.s, m.owner) && (x.L1? || x.L0?) && Trimming(m, m', q, x, x.r, NPTE) && Linked(m.s, x, up, idx)
    ensures idx < NPTE && Shape(Dropped(m', q).s) && up in Dropped(m', q).s.tables
    ensures Trimmed(m, Unlinked(Dropped(m', q), up, idx), x, x.r)
  {
    LinkStays(m, m', q, x, up, idx);
    TrimTable(m', q, x, up, idx);
    TrimmedTrans(m, m', Unlinked(Dropped(m', q), up, idx), x, x, x.r);
  }

  function Depth(x: Pos): (n: nat) { match x case Root => 2 case L1(_, _) => 1 case _ => 0 }

  /** freewalk. All leaves must have been removed. For a lower table the caller
      still has to clear entry idx of table up, which links to it. */
  method Freewalk(vm: Vm, q: nat, ghost x: Pos, ghost up: nat, ghost idx: nat)
    requires vm.Valid() && q in vm.owner && vm.owner[q] == x && IsTable(x) && Linked(vm.View(), x, up, idx)
    requires Vacant(vm.View(), if x.Root? then q else x.r, 0, MAXVPN)
    modifies vm
    ensures x.Root? ==> Gone(old(vm.Snap()), vm.Snap(), q)
    ensures !x.Root? ==> Shape(vm.View()) && up in vm.tables && idx < NPTE
    ensures !x.Root? ==> Trimmed(old(vm.Snap()), Unlinked(vm.Snap(), up, idx), x, x.r)
    decreases Depth(x)
  {
    ghost var m, r := vm.Snap(), if x.Root? then q else x.r;
    TrimmedRefl(m, x, r);
    for i := 0 to NPTE
      invariant Trimming(m, vm.Snap(), q, x, r, i)
    {
      ghost var m1 := vm.Snap();
      TrimReady(m, m1, q, x, r, i);
      var pte := vm.tables[q][i];
      if V(pte) && !Leafy(pte) {
        ghost var y := Child(x, q, i);
        Freewalk(vm, pte.ppn, y, q, i);
        ClearEntry(vm, q, i);
        TrimStep(m, m1, vm.Snap(), q, x, y, r, i);
      }
    }
    ghost var m1 := vm.Snap();
    if x.Root? {
      DropTree(m, m1, q);
    } else {
      TrimEnd(m, m1, q, x, up, idx);
    }
    FreeTable(vm, q);
  }

  /** pagetable[i] = 0 */
  method ClearEntry(vm: Vm, q: nat, i: nat)
    requires Shape(vm.View()) && q in vm.tables && i < NPTE
    modifies vm
    ensures vm.Snap() == Unlinked(old(vm.Snap()), q, i)
  {
    vm.tables := Put(vm.View(), q, i, ZERO).tables;
  }

  /** kfree(pagetable) */
  method FreeTable(vm: Vm, q: nat)
    modifies vm
    ensures vm.Snap() == Dropped(old(vm.Snap()), q)
  {
    vm.mem := vm.mem[q := Fill(1)];
    vm.tables := vm.tables - {q};
    vm.free := [q] + vm.free;
    vm.owner := vm.owner - {q};
  }

  /** Nor does freewalk meet kfree's panic. */
  lemma FreewalkFrees(m: Machine, m': Machine, r: nat, end: nat, p: nat)
    requires Gone(m, m', r) && Pages(m.s, m.owner) == Ram(end) && p in m.owner && p !in m'.owner
    ensures p in m'.s.free && Freeable(end, p * PGSIZE) && Pages(m'.s, m'.owner) == Ram(end)
  {
    KfreeAccepts(m, end, p);
    assert p in Pages(m'.s, m'.owner);
  }

  /** r is a new, empty address space; nothing else changed. */
  ghost predicate Created(m: Machine, m': Machine, r: nat) {
    && Owns(m.s, m.owner) && Owns(m'.s, m'.owner) && Pages(m'.s, m'.owner) == Pages(m.s, m.owner)
    && r != 0 && r !in m.owner && m'.owner == m.owner[r := Root]
    && SameMaps(m.s, m'.s, m.owner) && Empty(m'.s, r) && SameMem(m.owner, m.mem, m'.mem)
  }

  method Uvmcreate(vm: Vm) returns (r: nat)
    requires vm.Valid()
    modifies vm
    ensures r == 0 ==> vm.Snap() == old(vm.Snap())
    ensures r != 0 ==> Created(old(vm.Snap()), vm.Snap(), r)
    ensures if r == 0 then old(vm.free) == [] else |vm.free| + 1 == |old(vm.free)|
  {
    ghost var m := vm.Snap();
    r := vm.Kalloc();
    if r == 0 {
      return;
    }
    ghost var m1 := vm.Snap();
    SameTablesMaps(m.s, m1.s, m.owner);
    NewRootOwns(m1.s, m1.owner, r);
    vm.tables := vm.tables[r := Blank()];
    vm.owner := vm.owner[r := Root];
    SameMapsTrans(m.s, m1.s, vm.View(), m.owner, m1.owner);
    assert vm.owner == m.owner[r := Root];
  }

  lemma UnmappedAt(m: Machine, m': Machine, r: nat, lo: nat, hi: nat, v: nat)
    requires Unmapped(m, m', r, lo, hi) && IsRoot(m.owner, r) && v < MAXVPN
    ensures IsRoot(m'.owner, r) && Owns(m'.s, m'.owner)
    ensures At(m'.s, r, v) == if lo <= v < hi then ZERO else At(m.s, r, v)
  {
    assert UnmapAt(m.s, m'.s, r, lo, hi, r, v);
  }

  /** Unmapping first and dropping the tree then is dropping the whole tree. */
  lemma GoneAfter(m: Machine, m': Machine, m'': Machine, r: nat, lo: nat, hi: nat)
    requires Unmapped(m, m', r, lo, hi) && Gone(m', m'', r) && IsRoot(m.owner, r)
    ensures Gone(m, m'', r)
  {
    assert m''.owner == WithoutTree(m.owner, r);
    forall r', v | IsRoot(m''.owner, r') && 0 <= v < MAXVPN
      ensures SameAt(m.s, m''.s, r', v)
    {
      assert UnmapAt(m.s, m'.s, r, lo, hi, r', v) && SameAt(m'.s, m''.s, r', v);
    }
  }

  /** uvmfree: r's memory is exactly its first sz bytes. */
  method Uvmfree(vm: Vm, r: nat, sz: nat)
    requires vm.Valid() && IsRoot(vm.owner, r) && Up(sz) <= TRAPFRAME
    requires AllMapped(vm.View(), r, 0, Up(sz)) && Vacant(vm.View(), r, Up(sz), MAXVPN)
    modifies vm
    ensures Gone(old(vm.Snap()), vm.Snap(), r)
  {
    ghost var m := vm.Snap();
    UnmappedNone(m.s, m.owner, r, 0);
    if sz > 0 {
      var panicked := vm.Uvmunmap(r, 0, Up(sz), true);
    }
    ghost var m1 := vm.Snap();
    forall v | 0 <= v < MAXVPN
      ensures At(m1.s, r, v) == ZERO && IsRoot(m1.owner, r) && Owns(m1.s, m1.owner)
    {
      UnmappedAt(m, m1, r, 0, Up(sz), v);
    }
    Freewalk(vm, r, Root, 0, 0);
    GoneAfter(m, m1, vm.Snap(), r, 0, Up(sz));
  }

  /** The address space of a process of size sz. */
  ghost predicate ProcSpace(s: State, r: nat, sz: nat) {
    && Shape(s) && Up(sz) <= TRAPFRAME && AllMapped(s, r, 0, Up(sz)) && Vacant(s, r, Up(sz), TRAPFRAME)
    && IsMapped(s, r, TRAMPOLINE) && IsMapped(s, r, TRAPFRAME)
  }

  /** uvmunmap(pagetable, va, 1, 0) for TRAMPOLINE or TRAPFRAME. */
  method UnmapSpecial(vm: Vm, r: nat, a: nat)
    requires vm.Valid() && IsRoot(vm.owner, r) && TRAPFRAME <= a < MAXVPN && IsMapped(vm.View(), r, a)
    modifies vm
    ensures Unmapped(old(vm.Snap()), vm.Snap(), r, a, a + 1)
  {
    var panicked := vm.Uvmunmap(r, a, 1, false);
  }

  lemma FirstDropped(m: Machine, m': Machine, r: nat, sz: nat)
    requires IsRoot(m.owner, r) && ProcSpace(m.s, r, sz) && Unmapped(m, m', r, TRAMPOLINE, TRAMPOLINE + 1)
    ensures Owns(m'.s, m'.owner) && IsRoot(m'.owner, r) && IsMapped(m'.s, r, TRAPFRAME)
  {
    UnmappedAt(m, m', r, TRAMPOLINE, TRAMPOLINE + 1, TRAPFRAME);
  }

  lemma BothDropped(m: Machine, m': Machine, m'': Machine, r: nat, sz: nat)
    requires IsRoot(m.owner, r) && ProcSpace(m.s, r, sz)
    requires Unmapped(m, m', r, TRAMPOLINE, TRAMPOLINE + 1) && Unmapped(m', m'', r, TRAPFRAME, TRAPFRAME + 1)
    ensures Owns(m''.s, m''.owner) && IsRoot(m''.owner, r) && IsRoot(m'.owner, r)
    ensures AllMapped(m''.s, r, 0, Up(sz)) && Vacant(m''.s, r, Up(sz), MAXVPN)
  {
    FirstDropped(m, m', r, sz);
    UnmappedAt(m', m'', r, TRAPFRAME, TRAPFRAME + 1, 0);
    forall v | 0 <= v < MAXVPN
      ensures At(m''.s, r, v) == if v < TRAPFRAME then At(m.s, r, v) else ZERO
    {
      UnmappedAt(m, m', r, TRAMPOLINE, TRAMPOLINE + 1, v);
      UnmappedAt(m', m'', r, TRAPFRAME, TRAPFRAME + 1, v);
    }
    forall v | 0 <= v < Up(sz)
      ensures IsMapped(m''.s, r, v)
    {
      assert IsMapped(m.s, r, v);
    }
  }

  /** proc_freepagetable: every page of the process but its trapframe page is
      free again, whatever the process did; nothing of others changes. */
  method ProcFreepagetable(vm: Vm, r: nat, sz: nat)
    requires vm.Valid() && IsRoot(vm.owner, r) && ProcSpace(vm.View(), r, sz)
    modifies vm
    ensures Gone(old(vm.Snap()), vm.Snap(), r)
  {
    ghost var m := vm.Snap();
    UnmapSpecial(vm, r, TRAMPOLINE);
    ghost var m1 := vm.Snap();
    FirstDropped(m, m1, r, sz);
    UnmapSpecial(vm, r, TRAPFRAME);
    ghost var m2 := vm.Snap();
    BothDropped(m, m1, m2, r, sz);
    Uvmfree(vm, r, sz);
    GoneAfter(m1, m2, vm.Snap(), r, TRAPFRAME, TRAPFRAME + 1);
    GoneAfter(m, m1, vm.Snap(), r, TRAMPOLINE, TRAMPOLINE + 1);
  }

  /** r is a new address space holding nothing but page tables. */
  ghost predicate Spawned(m: Machine, m': Machine, r: nat) {
    && Owns(m'.s, m'.owner) && Pages(m'.s, m'.owner) == Pages(m.s, m.owner) && IsRoot(m'.owner, r)
    && r !in m.owner && m.owner.Keys <= m'.owner.Keys
    && (forall p {:trigger m'.owner[p]} :: p in m'.owner ==>
          if p in m.owner then m'.owner[p] == m.owner[p] else p == r || TableOf(m'.owner[p], r))
    && SameMaps(m.s, m'.s, m.owner) && SameMem(m.owner, m.mem, m'.mem)
  }

  ghost predicate MapsOnlyAt(s: State, r: nat, f: map<nat, Pte>, v: nat)
    requires Shape(s) && v < MAXVPN
  {
    At(s, r, v) == if v in f then f[v] else ZERO
  }

  /** The whole translation of r is f. */
  ghost predicate MapsOnly(s: State, r: nat, f: map<nat, Pte>) {
    Shape(s) && forall v {:trigger MapsOnlyAt(s, r, f, v)} :: 0 <= v < MAXVPN ==> MapsOnlyAt(s, r, f, v)
  }

  lemma CreatedSpawns(m: Machine, m': Machine, r: nat)
    requires Created(m, m', r)
    ensures Spawned(m, m', r) && MapsOnly(m'.s, r, map[])
  {
    assert m'.owner[r].Root?;
  }

  lemma SpawnedMaps(m: Machine, m': Machine, m'': Machine, r: nat, a: nat, n: nat, ppn: nat, flags: nat)
    requires Spawned(m, m', r) && MappedRangeBy(m', m'', r, a, n, ppn, flags) && TRAPFRAME <= a
    ensures Spawned(m, m'', r)
  {
    assert m''.owner[r] == m'.owner[r];
    forall r', v | IsRoot(m.owner, r') && 0 <= v < MAXVPN
      ensures SameAt(m.s, m''.s, r', v)
    {
      assert m'.owner[r'].Root?;
      assert MapRangeAt(m'.s, m''.s, r, a, n, ppn, flags, r', v) && SameAt(m.s, m'.s, r', v);
    }
  }

  lemma MapsAfter(m: Machine, m': Machine, r: nat, a: nat, n: nat, ppn: nat, flags: nat, f: map<nat, Pte>)
    requires MappedRangeBy(m, m', r, a, n, ppn, flags) && n <= 1 && IsRoot(m.owner, r) && MapsOnly(m.s, r, f)
    ensures MapsOnly(m'.s, r, if n == 1 then f[a := Pte(ppn, flags)] else f)
  {
    var g := if n == 1 then f[a := Pte(ppn, flags)] else f;
    forall v | 0 <= v < MAXVPN
      ensures MapsOnlyAt(m'.s, r, g, v)
    {
      assert MapRangeAt(m.s, m'.s, r, a, n, ppn, flags, r, v) && MapsOnlyAt(m.s, r, f, v);
    }
  }

  /** No page changed hands, no translation changed. */
  ghost predicate Restored(m: Machine, m': Machine) {
    && Owns(m'.s, m'.owner) && Pages(m'.s, m'.owner) == Pages(m.s, m.owner) && m'.owner == m.owner
    && SameMaps(m.s, m'.s, m.owner) && SameMem(m.owner, m.mem, m'.mem)
  }

  lemma SpawnedGone(m: Machine, m': Machine, m'': Machine, r: nat)
    requires Owns(m.s, m.owner) && Spawned(m, m', r) && Gone(m', m'', r)
    ensures Restored(m, m'')
  {
    forall p | p in m'.owner
      ensures p in m.owner <==> p in m''.owner
    {
      if p in m.owner {
        assert m'.owner[p] == m.owner[p] && PageAt(m.s, m.owner, p);
      } else {
        assert p == r || TableOf(m'.owner[p], r);
      }
    }
    assert m''.owner == m.owner;
    SameMapsTrans(m.s, m'.s, m''.s, m.owner, m''.owner);
  }

  lemma SpecialReady(m: Machine, m': Machine, r: nat, a: nat, ppn: nat, flags: nat, f: map<nat, Pte>)
    requires Spawned(m, m', r) && MapsOnly(m'.s, r, f) && TRAPFRAME <= a < MAXVPN && a !in f
    requires ppn != 0 && Leafy(Pte(ppn, flags)) && V(Pte(ppn, flags))
    ensures Owns(m'.s, m'.owner) && Mappable(m', r, a, 1, ppn, flags) && !IsMapped(m'.s, r, a)
  {
    assert MapsOnlyAt(m'.s, r, f, a);
  }

  lemma SpecialMapped(m: Machine, m': Machine, m'': Machine, r: nat, a: nat, n: nat, ppn: nat, flags: nat,
                      f: map<nat, Pte>)
    requires Spawned(m, m', r) && MapsOnly(m'.s, r, f) && TRAPFRAME <= a && n <= 1
    requires MappedRangeBy(m', m'', r, a, n, ppn, flags)
    ensures Spawned(m, m'', r) && MapsOnly(m''.s, r, if n == 1 then f[a := Pte(ppn, flags)] else f)
  {
    SpawnedMaps(m, m', m'', r, a, n, ppn, flags);
    MapsAfter(m', m'', r, a, n, ppn, flags, f);
  }

  /** mappages of TRAMPOLINE or TRAPFRAME into a new address space. */
  method MapSpecial(vm: Vm, r: nat, a: nat, ppn: nat, perm: nat, ghost m: Machine, ghost f: map<nat, Pte>)
    returns (ok: bool)
    requires Spawned(m, vm.Snap(), r) && MapsOnly(vm.View(), r, f) && TRAPFRAME <= a < MAXVPN && a !in f
    requires ppn != 0 && Leafy(Pte(ppn, WithV(perm)))
    modifies vm
    ensures Spawned(m, vm.Snap(), r) && MapsOnly(vm.Snap().s, r, if ok then f[a := Pte(ppn, WithV(perm))] else f)
    ensures if ok then PaidOne(old(vm.View()), vm.View(), r, a) else ShortOne(old(vm.View()), r, a)
  {
    ghost var m1 := vm.Snap();
    SpecialReady(m, m1, r, a, ppn, WithV(perm), f);
    assert MapsOnlyAt(m1.s, r, f, a);
    var done := vm.MapWhole(r, a, ppn, perm);
    SpecialMapped(m, m1, vm.Snap(), r, a, done, ppn, WithV(perm), f);
    ok := done == 1;
  }

  /** uvmfree(pagetable, 0) on a new address space. */
  method Discard(vm: Vm, r: nat, ghost m: Machine)
    requires Owns(m.s, m.owner) && Spawned(m, vm.Snap(), r) && MapsOnly(vm.View(), r, map[])
    modifies vm
    ensures Restored(m, vm.Snap())
  {
    ghost var m1 := vm.Snap();
    forall v | 0 <= v < MAXVPN
      ensures At(m1.s, r, v) == ZERO
    {
      assert MapsOnlyAt(m1.s, r, map[], v);
    }
    Uvmfree(vm, r, 0);
    SpawnedGone(m, m1, vm.Snap(), r);
  }

  /** The same when TRAMPOLINE is already mapped. */
  method DiscardMapped(vm: Vm, r: nat, ghost m: Machine, ghost e: Pte)
    requires Owns(m.s, m.owner) && Spawned(m, vm.Snap(), r) && V(e) && MapsOnly(vm.View(), r, map[TRAMPOLINE := e])
    modifies vm
    ensures Restored(m, vm.Snap())
  {
    ghost var m1 := vm.Snap();
    assert MapsOnlyAt(m1.s, r, map[TRAMPOLINE := e], TRAMPOLINE);
    UnmapSpecial(vm, r, TRAMPOLINE);
    ghost var m2 := vm.Snap();
    TrampolineGone(m1, m2, r, e);
    Uvmfree(vm, r, 0);
    GoneAfter(m1, m2, vm.Snap(), r, TRAMPOLINE, TRAMPOLINE + 1);
    SpawnedGone(m, m1, vm.Snap(), r);
  }

  lemma TrampolineGone(m: Machine, m': Machine, r: nat, e: Pte)
    requires IsRoot(m.owner, r) && MapsOnly(m.s, r, map[TRAMPOLINE := e])
    requires Unmapped(m, m', r, TRAMPOLINE, TRAMPOLINE + 1)
    ensures Owns(m'.s, m'.owner) && IsRoot(m'.owner, r) && Vacant(m'.s, r, 0, MAXVPN)
  {
    UnmappedAt(m, m', r, TRAMPOLINE, TRAMPOLINE + 1, 0);
    forall v | 0 <= v < MAXVPN
      ensures At(m'.s, r, v) == ZERO
    {
      UnmappedAt(m, m', r, TRAMPOLINE, TRAMPOLINE + 1, v);
      assert MapsOnlyAt(m.s, r, map[TRAMPOLINE := e], v);
    }
  }

  /** A new address space lacks both tables for TRAMPOLINE ... */
  lemma NewLacksTwo(s: State, r: nat)
    requires Shape(s) && Empty(s, r)
    ensures ShortOne(s, r, TRAMPOLINE) <==> |s.free| < 2
  {
    LacksOne(s, r, TRAMPOLINE, TRAMPOLINE + 1);
    assert Entry(s, r, Px2(TRAMPOLINE)) == ZERO;
  }

  /** ... and TRAPFRAME needs no others. */
  lemma NextLacksNone(s: State, t: State, r: nat)
    requires PaidOne(s, t, r, TRAMPOLINE)
    ensures !ShortOne(t, r, TRAPFRAME)
  {
    LacksOne(t, r, TRAPFRAME, TRAPFRAME + 1);
    Rebuild(TRAPFRAME);
    Rebuild(TRAMPOLINE);
    var x, y := L1(r, Px2(TRAMPOLINE)), L0(r, Px2(TRAMPOLINE), Px1(TRAMPOLINE));
    PathOne(x, r, TRAMPOLINE, TRAMPOLINE + 1);
    PathOne(y, r, TRAMPOLINE, TRAMPOLINE + 1);
    assert TabledAt(s, t, TRAMPOLINE, TRAMPOLINE + 1, x) && TabledAt(s, t, TRAMPOLINE, TRAMPOLINE + 1, y);
  }

  /** proc_pagetable from its second mappages on. */
  method MapTrapframe(vm: Vm, r: nat, trapframe: nat, ghost m: Machine, ghost e: Pte) returns (res: nat)
    requires Owns(m.s, m.owner) && Spawned(m, vm.Snap(), r) && MapsOnly(vm.View(), r, map[TRAMPOLINE := e]) && V(e)
    requires trapframe != 0 && r != 0
    modifies vm
    ensures res == if ShortOne(old(vm.View()), r, TRAPFRAME) then 0 else r
    ensures res == 0 ==> Restored(m, vm.Snap())
    ensures res != 0 ==> Spawned(m, vm.Snap(), r)
    ensures res != 0 ==>
              MapsOnly(vm.View(), r, map[TRAMPOLINE := e, TRAPFRAME := Pte(trapframe, PTE_V + PTE_R + PTE_W)])
  {
    ghost var f := Pte(trapframe, PTE_V + PTE_R + PTE_W);
    assert map[TRAMPOLINE := e][TRAPFRAME := f] == map[TRAMPOLINE := e, TRAPFRAME := f];
    var ok := MapSpecial(vm, r, TRAPFRAME, trapframe, PTE_R + PTE_W, m, map[TRAMPOLINE := e]);
    if !ok {
      DiscardMapped(vm, r, m, e);
      return 0;
    }
    return r;
  }

  /** proc_pagetable: a new address space that maps TRAMPOLINE and TRAPFRAME and
      nothing else, or, with fewer than three free pages, no change at all. */
  method ProcPagetable(vm: Vm, trampoline: nat, trapframe: nat) returns (r: nat)
    requires vm.Valid() && trampoline != 0 && trapframe != 0
    modifies vm
    ensures r == 0 ==> Restored(old(vm.Snap()), vm.Snap())
    ensures r != 0 ==> Spawned(old(vm.Snap()), vm.Snap(), r)
    ensures r != 0 ==> MapsOnly(vm.View(), r, map[TRAMPOLINE := Pte(trampoline, PTE_V + PTE_R + PTE_X),
                                                  TRAPFRAME := Pte(trapframe, PTE_V + PTE_R + PTE_W)])
    ensures r != 0 <==> |old(vm.free)| >= 3
  {
    ghost var m := vm.Snap();
    r := Uvmcreate(vm);
    if r == 0 {
      SameTablesMaps(m.s, m.s, m.owner);
      return;
    }
    CreatedSpawns(m, vm.Snap(), r);
    NewLacksTwo(vm.View(), r);
    ghost var s1 := vm.View();
    var ok := MapSpecial(vm, r, TRAMPOLINE, trampoline, PTE_R + PTE_X, m, map[]);
    if !ok {
      Discard(vm, r, m);
      return 0;
    }
    ghost var e := Pte(trampoline, PTE_V + PTE_R + PTE_X);
    assert map[][TRAMPOLINE := e] == map[TRAMPOLINE := e];
    NextLacksNone(s1, vm.View(), r);
    r := MapTrapframe(vm, r, trapframe, m, e);
  }
}
