/**
 User memory built on the page-table routines: uvmalloc, uvmdealloc and uvmcopy
 (kernel/vm.c). Failure half way gives back every user page it had mapped.
 */
module Uvm {
  import opened VmModel
  import opened PageCost
  import opened Vm

  /** No page lo..hi of r is mapped. */
  ghost predicate Vacant(s: State, r: nat, lo: nat, hi: nat)
    requires Shape(s) && hi <= MAXVPN
  {
    forall v :: lo <= v < hi ==> At(s, r, v) == ZERO
  }

  ghost predicate FilledAt(m: Machine, r: nat, v: nat, data: map<nat, seq<int>>)
    requires Shape(m.s) && v < MAXVPN
  {
    var p := At(m.s, r, v).ppn;
    p in m.mem && v in data && m.mem[p] == data[v]
  }

  /** From m, the pages lo..hi of r have been mapped with flags want to fresh
      pages holding data; page tables may have been added; nothing else changed. */
  ghost predicate Filled(m: Machine, m': Machine, r: nat, lo: nat, hi: nat, want: map<nat, nat>,
                         data: map<nat, seq<int>>) {
    && Ranged(m.s, m.owner, m'.s, m'.owner, r, lo, hi, want) && SameMem(m.owner, m.mem, m'.mem)
    && forall v {:trigger FilledAt(m', r, v, data)} :: lo <= v < hi ==> FilledAt(m', r, v, data)
  }

  lemma FilledNone(m: Machine, r: nat, lo: nat, want: map<nat, nat>, data: map<nat, seq<int>>)
    requires Owns(m.s, m.owner) && IsRoot(m.owner, r) && lo <= TRAPFRAME
    ensures Filled(m, m, r, lo, lo, want, data)
  {
    RangedEmpty(m.s, m.owner, r, lo, want);
  }

  /** kalloc gave the first free page and page is written to it. */
  ghost function Took(m: Machine, page: seq<int>): (m': Machine)
    requires m.s.free != []
  {
    var p := m.s.free[0];
    Machine(m.s.(free := m.s.free[1..]), m.owner[p := Loose], m.mem[p := page])
  }

  lemma FilledReady(m: Machine, m': Machine, r: nat, lo: nat, hi: nat,
                    want: map<nat, nat>, data: map<nat, seq<int>>, page: seq<int>)
    requires Filled(m, m', r, lo, hi, want, data) && hi < MAXVPN && m'.s.free != []
    ensures var t := Took(m', page);
            && Owns(t.s, t.owner) && IsRoot(t.owner, r) && At(t.s, r, hi) == At(m.s, r, hi)
            && m'.s.free[0] != 0
  {
    KallocOwns(m'.s, m'.owner);
    SameTablesAt(m'.s, Took(m', page).s, r, hi);
    assert RangeAt(m.s, m'.s, r, lo, hi, want, r, hi);
    assert m'.owner[r].Root?;
  }

  lemma FilledMore(m: Machine, m': Machine, t: Machine, m'': Machine, r: nat, lo: nat, hi: nat, next: nat,
                   want: map<nat, nat>, data: map<nat, seq<int>>)
    requires Filled(m, m', r, lo, hi, want, data) && hi < TRAPFRAME && next == hi + 1
    requires hi in want && want[hi] % 2 == 1 && hi in data && m'.s.free != []
    requires t == Took(m', data[hi]) && MappedRangeBy(t, m'', r, hi, 1, m'.s.free[0], want[hi])
    ensures Filled(m, m'', r, lo, next, want, data)
  {
    FilledRange(m, m', t, m'', r, lo, hi, next, want, data);
    FilledStay(m, m', t, m'', r, lo, hi, next, want, data);
  }

  lemma FilledRange(m: Machine, m': Machine, t: Machine, m'': Machine, r: nat, lo: nat, hi: nat, next: nat,
                    want: map<nat, nat>, data: map<nat, seq<int>>)
    requires Filled(m, m', r, lo, hi, want, data) && hi < TRAPFRAME && next == hi + 1
    requires hi in want && want[hi] % 2 == 1 && hi in data && m'.s.free != []
    requires t == Took(m', data[hi]) && MappedRangeBy(t, m'', r, hi, 1, m'.s.free[0], want[hi])
    ensures Ranged(m.s, m.owner, m''.s, m''.owner, r, lo, next, want) && SameMem(m.owner, m.mem, m''.mem)
  {
    var e := Pte(m'.s.free[0], want[hi]);
    FreeIsFresh(m'.s, m'.owner);
    MappedOne(t.s, t.owner, m''.s, m''.owner, r, hi, e.ppn, e.flags);
    RangedMap(m.s, m.owner, m'.s, m'.owner, t.s, t.owner, m''.s, m''.owner, r, lo, hi, next, want, e);
    KeptMem(m.owner, m'.owner, m'.s.free[0], m.mem, m'.mem, t.mem, m''.mem);
  }

  lemma FreeIsFresh(s: State, owner: map<nat, Pos>)
    requires Owns(s, owner) && s.free != []
    ensures s.free[0] != 0 && s.free[0] !in owner
  {
    assert FreeAt(s, owner, 0);
  }

  lemma KeptMem(owner: map<nat, Pos>, owner': map<nat, Pos>, p: nat,
                mem: map<nat, seq<int>>, mem': map<nat, seq<int>>, t: map<nat, seq<int>>, mem'': map<nat, seq<int>>)
    requires SameMem(owner, mem, mem') && owner.Keys <= owner'.Keys && p !in owner'
    requires p in t && t == mem'[p := t[p]] && SameMem(owner'[p := Loose], t, mem'')
    ensures SameMem(owner, mem, mem'')
  {
    forall x | x in mem && x in owner
      ensures x in mem'' && mem''[x] == mem[x]
    {
      assert x in mem' && x in t;
    }
  }

  lemma FilledStay(m: Machine, m': Machine, t: Machine, m'': Machine, r: nat, lo: nat, hi: nat, next: nat,
                   want: map<nat, nat>, data: map<nat, seq<int>>)
    requires Filled(m, m', r, lo, hi, want, data) && hi < TRAPFRAME && next == hi + 1
    requires hi in want && hi in data && m'.s.free != []
    requires t == Took(m', data[hi]) && MappedRangeBy(t, m'', r, hi, 1, m'.s.free[0], want[hi])
    ensures forall v {:trigger FilledAt(m'', r, v, data)} :: lo <= v < next ==> FilledAt(m'', r, v, data)
  {
    assert IsRoot(t.owner, r) by {
      assert m'.owner[r].Root? && FreeAt(m'.s, m'.owner, 0);
    }
    FilledLast(m', t, m'', r, hi, want, data);
    forall v | lo <= v < hi
      ensures FilledAt(m'', r, v, data)
    {
      FilledStays(m, m', t, m'', r, lo, hi, want, data, v);
    }
  }

  lemma FilledLast(m': Machine, t: Machine, m'': Machine, r: nat, hi: nat, want: map<nat, nat>,
                   data: map<nat, seq<int>>)
    requires m'.s.free != [] && hi < TRAPFRAME && hi in want && hi in data && t == Took(m', data[hi])
    requires IsRoot(t.owner, r) && MappedRangeBy(t, m'', r, hi, 1, m'.s.free[0], want[hi])
    ensures FilledAt(m'', r, hi, data)
  {
    var p := m'.s.free[0];
    assert MapRangeAt(t.s, m''.s, r, hi, 1, p, want[hi], r, hi);
    assert p in m''.mem;
  }

  lemma FilledStays(m: Machine, m': Machine, t: Machine, m'': Machine, r: nat, lo: nat, hi: nat,
                    want: map<nat, nat>, data: map<nat, seq<int>>, v: nat)
    requires Filled(m, m', r, lo, hi, want, data) && hi < TRAPFRAME && hi in want && hi in data && m'.s.free != []
    requires t == Took(m', data[hi]) && MappedRangeBy(t, m'', r, hi, 1, m'.s.free[0], want[hi])
    requires lo <= v < hi
    ensures FilledAt(m'', r, v, data)
  {
    var p := m'.s.free[0];
    assert m'.owner[r].Root?;
    FilledOwned(m, m', r, lo, hi, want, data, v);
    assert FreeAt(m'.s, m'.owner, 0);
    SameTablesAt(m'.s, t.s, r, v);
    var q := At(t.s, r, v).ppn;
    assert q != p && t.mem[q] == data[v];
    assert MapRangeAt(t.s, m''.s, r, hi, 1, p, want[hi], r, v);
    assert q in m''.mem;
  }

  lemma FilledOwned(m: Machine, m': Machine, r: nat, lo: nat, hi: nat,
                    want: map<nat, nat>, data: map<nat, seq<int>>, v: nat)
    requires Filled(m, m', r, lo, hi, want, data) && lo <= v < hi
    ensures var q := At(m'.s, r, v).ppn;
            q in m'.owner && q in m'.mem && v in data && m'.mem[q] == data[v]
  {
    assert m'.owner[r].Root?;
    assert FilledAt(m', r, v, data) && RangeAt(m.s, m'.s, r, lo, hi, want, r, v);
    LeafOwned(m'.s, m'.owner, r, v);
  }

  /** kfree(p) */
  ghost function Gave(m: Machine, p: nat): (m': Machine) {
    Machine(m.s.(free := [p] + m.s.free), m.owner - {p}, m.mem[p := Fill(1)])
  }

  lemma FilledFails(m: Machine, m': Machine, m'': Machine, r: nat, lo: nat, hi: nat,
                    want: map<nat, nat>, data: map<nat, seq<int>>, page: seq<int>)
    requires Filled(m, m', r, lo, hi, want, data) && m'.s.free != [] && GrownBy(Took(m', page), m'', r)
    ensures var p := m'.s.free[0];
            p in m''.owner && m''.owner[p].Loose? && Filled(m, Gave(m'', p), r, lo, hi, want, data)
  {
    var p, t := m'.s.free[0], Took(m', page);
    assert FreeAt(m'.s, m'.owner, 0);
    RangedMapFails(m.s, m.owner, m'.s, m'.owner, m''.s, m''.owner, r, lo, hi, want);
    var g := Gave(m'', p);
    forall v | lo <= v < hi
      ensures FilledAt(g, r, v, data)
    {
      FilledKept(m, m', m'', r, lo, hi, want, data, page, v);
    }
    assert SameMem(m.owner, m.mem, g.mem);
  }

  lemma FilledKept(m: Machine, m': Machine, m'': Machine, r: nat, lo: nat, hi: nat,
                   want: map<nat, nat>, data: map<nat, seq<int>>, page: seq<int>, v: nat)
    requires Filled(m, m', r, lo, hi, want, data) && m'.s.free != [] && GrownBy(Took(m', page), m'', r) && lo <= v < hi
    ensures FilledAt(Gave(m'', m'.s.free[0]), r, v, data)
  {
    var p, t := m'.s.free[0], Took(m', page);
    assert m'.owner[r].Root?;
    FilledOwned(m, m', r, lo, hi, want, data, v);
    assert FreeAt(m'.s, m'.owner, 0);
    SameTablesAt(m'.s, t.s, r, v);
    var q := At(t.s, r, v).ppn;
    assert q != p && t.mem[q] == data[v];
    assert SameAt(t.s, m''.s, r, v);
    assert q in m''.mem;
    SameTablesAt(m''.s, Gave(m'', p).s, r, v);
  }

  /** Unmapping what has been filled leaves only page tables behind. */
  lemma FilledUndone(m: Machine, m': Machine, m'': Machine, r: nat, lo: nat, hi: nat,
                     want: map<nat, nat>, data: map<nat, seq<int>>)
    requires Filled(m, m', r, lo, hi, want, data) && Vacant(m.s, r, lo, hi) && Unmapped(m', m'', r, lo, hi)
    ensures GrownBy(m, m'', r)
  {
    RangedUndone(m.s, m.owner, m'.s, m'.owner, m''.s, m''.owner, r, lo, hi, want);
    forall p | p in m.mem && p in m.owner
      ensures p in m''.mem && m''.mem[p] == m.mem[p]
    {
      assert p in m'.mem && p in m''.owner;
    }
  }

  lemma FilledIsMapped(m: Machine, m': Machine, r: nat, lo: nat, hi: nat, want: map<nat, nat>, data: map<nat, seq<int>>)
    requires Filled(m, m', r, lo, hi, want, data)
    ensures AllMapped(m'.s, r, lo, hi) && IsRoot(m'.owner, r)
  {
    forall v | lo <= v < hi
      ensures IsMapped(m'.s, r, v)
    {
      assert RangeAt(m.s, m'.s, r, lo, hi, want, r, v);
    }
    assert m'.owner[r].Root?;
  }

  // ----- what it costs -----

  /** The pages lo..hi and the tables missing for them took one free page each. */
  ghost predicate FillPaid(s: State, t: State, r: nat, lo: nat, hi: nat) { lo <= hi && Paid(s, t, r, lo, hi, hi - lo) }

  /** There are fewer free pages than that. */
  ghost predicate FillShort(s: State, r: nat, lo: nat, hi: nat) { lo <= hi && Short(s, r, lo, hi, hi - lo) }

  lemma FillPaidNone(s: State, r: nat, lo: nat)
    requires Shape(s)
    ensures FillPaid(s, s, r, lo, lo)
  {
    PaidNone(s, r, lo);
  }

  /** kalloc found nothing. */
  lemma FillStops(s: State, t: State, r: nat, lo: nat, v: nat, hi: nat)
    requires FillPaid(s, t, r, lo, v) && v < hi && t.free == []
    ensures FillShort(s, r, lo, hi)
  {
    ShortMore(s, t, r, lo, v, v + 1, hi, v - lo, 1, hi - lo);
  }

  /** kalloc took a page, and mappages has returned. */
  lemma FillCost(s: State, t: State, t': State, u: State, r: nat, lo: nat, v: nat, hi: nat, next: nat, ok: bool)
    requires FillPaid(s, t, r, lo, v) && v < hi && next == v + 1
    requires t.free != [] && t' == t.(free := t.free[1..])
    requires if ok then PaidOne(t', u, r, v) else ShortOne(t', r, v)
    ensures if ok then FillPaid(s, u, r, lo, next) else FillShort(s, r, lo, hi)
  {
    forall x | IsLink(x, r)
      ensures Has(t', x) == Has(t, x)
    {
    }
    assert Lacks(t', r, v, next) == Lacks(t, r, v, next);
    if ok {
      forall x | IsLink(x, r)
        ensures TabledAt(t, u, v, next, x)
      {
        assert TabledAt(t', u, v, next, x);
      }
      PaidMore(s, t, u, r, lo, v, next, v - lo, 1);
    } else {
      ShortMore(s, t, r, lo, v, next, hi, v - lo, 1, hi - lo);
    }
  }

  /** Paid for and short exclude each other. */
  lemma FillDone(s: State, t: State, r: nat, lo: nat, hi: nat)
    requires FillPaid(s, t, r, lo, hi)
    ensures !FillShort(s, r, lo, hi)
  {
  }

  /** Three free pages for every page are enough. */
  lemma MayBeEnough(s: State, r: nat, lo: nat, hi: nat)
    requires Shape(s) && lo <= hi
    ensures 3 * (hi - lo) <= |s.free| && hi <= TRAPFRAME ==> !FillShort(s, r, lo, hi)
  {
    if hi <= TRAPFRAME {
      LacksAtMost(s, r, lo, hi);
    }
  }

  // ----- the routines -----

  /** kalloc, then memset or memmove. */
  method TakePage(vm: Vm, page: seq<int>) returns (p: nat)
    requires vm.Valid()
    modifies vm
    ensures p == 0 ==> vm.Snap() == old(vm.Snap()) && vm.free == []
    ensures p != 0 ==> old(vm.free) != [] && p == old(vm.free)[0] && vm.Snap() == Took(old(vm.Snap()), page)
  {
    p := vm.Kalloc();
    if p != 0 {
      vm.mem := vm.mem[p := page];
    }
  }

  /** mappages of a single user page that is not mapped yet. */
  method MapOne(vm: Vm, r: nat, v: nat, p: nat, perm: nat) returns (ok: bool)
    requires vm.Valid() && IsRoot(vm.owner, r) && v < TRAPFRAME && At(vm.View(), r, v) == ZERO
    requires p != 0 && p in vm.owner && vm.owner[p].Loose? && Leafy(Pte(0, WithV(perm)))
    modifies vm
    ensures ok ==> MappedRangeBy(old(vm.Snap()), vm.Snap(), r, v, 1, p, WithV(perm))
    ensures !ok ==> GrownBy(old(vm.Snap()), vm.Snap(), r)
    ensures if ok then PaidOne(old(vm.View()), vm.View(), r, v) else ShortOne(old(vm.View()), r, v)
  {
    ghost var m := vm.Snap();
    var done := vm.MapWhole(r, v, p, perm);
    if done == 0 {
      MappedZero(m.s, m.owner, vm.View(), vm.owner, r, v, p, WithV(perm));
      return false;
    }
    return true;
  }

  /** The loop body of uvmalloc and uvmcopy: kalloc, fill, map; undone if it fails. */
  method AddPage(vm: Vm, r: nat, v: nat, page: seq<int>, perm: nat,
                 ghost m: Machine, ghost lo: nat, ghost hi: nat, ghost want: map<nat, nat>,
                 ghost data: map<nat, seq<int>>)
    returns (ok: bool, next: nat)
    requires Filled(m, vm.Snap(), r, lo, v, want, data) && v < TRAPFRAME && At(m.s, r, v) == ZERO && v < hi
    requires v in want && want[v] == WithV(perm) && Leafy(Pte(0, WithV(perm))) && v in data && data[v] == page
    requires FillPaid(m.s, vm.View(), r, lo, v)
    modifies vm
    ensures next == (if ok then v + 1 else v) && Filled(m, vm.Snap(), r, lo, next, want, data)
    ensures if ok then FillPaid(m.s, vm.View(), r, lo, next) else FillShort(m.s, r, lo, hi)
  {
    ghost var m1 := vm.Snap();
    var p := TakePage(vm, page);
    if p == 0 {
      FillStops(m.s, m1.s, r, lo, v, hi);
      return false, v;
    }
    ghost var s1 := vm.View();
    ok, next := MapTaken(vm, r, v, p, page, perm, m, m1, lo, want, data);
    FillCost(m.s, m1.s, s1, vm.View(), r, lo, v, hi, v + 1, ok);
  }

  /** The same from mappages on. */
  method MapTaken(vm: Vm, r: nat, v: nat, p: nat, page: seq<int>, perm: nat,
                  ghost m: Machine, ghost m1: Machine, ghost lo: nat,
                  ghost want: map<nat, nat>, ghost data: map<nat, seq<int>>)
    returns (ok: bool, next: nat)
    requires Filled(m, m1, r, lo, v, want, data) && v < TRAPFRAME && At(m.s, r, v) == ZERO
    requires m1.s.free != [] && p == m1.s.free[0] && vm.Snap() == Took(m1, page)
    requires v in want && want[v] == WithV(perm) && Leafy(Pte(0, WithV(perm))) && v in data && data[v] == page
    modifies vm
    ensures next == (if ok then v + 1 else v) && Filled(m, vm.Snap(), r, lo, next, want, data)
    ensures if ok then PaidOne(old(vm.View()), vm.View(), r, v) else ShortOne(old(vm.View()), r, v)
  {
    ghost var t := vm.Snap();
    FilledReady(m, m1, r, lo, v, want, data, page);
    ok := MapOne(vm, r, v, p, perm);
    next := if ok then v + 1 else v;
    if ok {
      FilledMore(m, m1, t, vm.Snap(), r, lo, v, next, want, data);
    } else {
      GiveBack(vm, r, p, page, m, m1, t, lo, v, want, data);
    }
  }

  /** kfree(mem) on the error path. */
  method GiveBack(vm: Vm, r: nat, p: nat, ghost page: seq<int>, ghost m: Machine, ghost m1: Machine, ghost t: Machine,
                  ghost lo: nat, ghost v: nat, ghost want: map<nat, nat>, ghost data: map<nat, seq<int>>)
    requires Filled(m, m1, r, lo, v, want, data) && m1.s.free != [] && p == m1.s.free[0]
    requires t == Took(m1, page) && GrownBy(t, vm.Snap(), r)
    modifies vm
    ensures Filled(m, vm.Snap(), r, lo, v, want, data)
  {
    FilledFails(m, m1, vm.Snap(), r, lo, v, want, data, page);
    ghost var m2 := vm.Snap();
    vm.FreePage(p);
    assert vm.Snap() == Gave(m2, p);
  }

  /** The entry walk reaches, none if there is no last-level table. */
  method Lookup(vm: Vm, r: nat, v: nat) returns (e: Pte)
    requires vm.Valid() && IsRoot(vm.owner, r) && v < MAXVPN
    modifies vm
    ensures vm.Snap() == old(vm.Snap()) && e == At(vm.View(), r, v)
  {
    var pt := vm.Walk(r, v, false);
    if pt == 0 {
      return ZERO;
    }
    InTable(vm.View(), vm.owner, r, v);
    return vm.tables[pt][Px0(v)];
  }

  /** uvmdealloc. Above newsz every page up to oldsz is unmapped and freed. */
  method Uvmdealloc(vm: Vm, r: nat, oldsz: nat, newsz: nat) returns (res: nat)
    requires vm.Valid() && IsRoot(vm.owner, r) && Up(oldsz) <= TRAPFRAME
    requires AllMapped(vm.View(), r, Up(newsz), Up(oldsz))
    modifies vm
    ensures newsz >= oldsz ==> res == oldsz && vm.Snap() == old(vm.Snap())
    ensures newsz < oldsz ==> res == newsz && Unmapped(old(vm.Snap()), vm.Snap(), r, Up(newsz), Up(oldsz))
  {
    if newsz >= oldsz {
      return oldsz;
    }
    UnmappedNone(vm.View(), vm.owner, r, Up(newsz));
    if Up(newsz) < Up(oldsz) {
      var panicked := vm.Uvmunmap(r, Up(newsz), Up(oldsz) - Up(newsz), true);
    }
    return newsz;
  }

  predicate Between(lo: nat, v: nat, hi: nat) { lo <= v < hi }

  /** The same x for every page lo..hi. */
  ghost function Constantly<T>(lo: nat, hi: nat, x: T): (f: map<nat, T>) {
    map v: nat | v < hi && Between(lo, v, hi) :: x
  }

  /** Page v of r is mapped to a page of its own, one of those within. */
  ghost predicate UsesAt(m: Machine, r: nat, v: nat, within: set<nat>)
    requires Shape(m.s) && v < MAXVPN
  {
    var p := At(m.s, r, v).ppn;
    p in within && p in m.owner && m.owner[p] == Leaf(r, v)
  }

  ghost function Used(m: Machine, r: nat, lo: nat, hi: nat): (u: set<nat>)
    requires Shape(m.s) && lo <= hi <= MAXVPN
    decreases hi
  {
    if lo == hi then {} else Used(m, r, lo, hi - 1) + {At(m.s, r, hi - 1).ppn}
  }

  lemma {:induction false} UsedCount(m: Machine, r: nat, lo: nat, hi: nat, within: set<nat>)
    requires Shape(m.s) && lo <= hi <= MAXVPN
    requires forall v {:trigger UsesAt(m, r, v, within)} :: lo <= v < hi ==> UsesAt(m, r, v, within)
    ensures |Used(m, r, lo, hi)| == hi - lo && Used(m, r, lo, hi) <= within
    ensures forall p :: p in Used(m, r, lo, hi) ==> p in m.owner && m.owner[p].Leaf? && m.owner[p].vpn < hi
    decreases hi
  {
    if lo < hi {
      UsedCount(m, r, lo, hi - 1, within);
      assert UsesAt(m, r, hi - 1, within);
    }
  }

  ghost function FreeSet(s: State): (f: set<nat>) { set p | p in s.free }

  lemma {:induction false} SetOfSeq(q: seq<nat>, s: set<nat>)
    requires forall x :: x in s <==> x in q
    ensures |s| <= |q| && (Apart(q) ==> |s| == |q|)
  {
    if q == [] {
      assert s == {};
    } else if q[0] in q[1..] {
      var k :| 0 <= k < |q[1..]| && q[1..][k] == q[0];
      assert !Apart(q) by {
        assert !ApartAt(q, 0, k + 1);
      }
      SetOfSeq(q[1..], s);
    } else {
      SetOfSeq(q[1..], s - {q[0]});
      if Apart(q) {
        ApartTail(q);
      }
    }
  }

  lemma FilledUses(m: Machine, m': Machine, r: nat, lo: nat, hi: nat, want: map<nat, nat>, data: map<nat, seq<int>>,
                   v: nat)
    requires Filled(m, m', r, lo, hi, want, data) && lo <= v < hi && At(m.s, r, v) == ZERO
    ensures UsesAt(m', r, v, FreeSet(m.s))
  {
    assert m'.owner[r].Root?;
    assert RangeAt(m.s, m'.s, r, lo, hi, want, r, v);
    LeafOwned(m'.s, m'.owner, r, v);
    var p := At(m'.s, r, v).ppn;
    assert p in m.owner ==> PageAt(m.s, m.owner, p);
    assert p in Pages(m'.s, m'.owner);
  }

  /** Memory runs out: filling a vacant range takes a free page for every page. */
  lemma FilledBound(m: Machine, m': Machine, r: nat, lo: nat, hi: nat, want: map<nat, nat>, data: map<nat, seq<int>>)
    requires Filled(m, m', r, lo, hi, want, data) && Vacant(m.s, r, lo, hi)
    ensures hi - lo <= |m.s.free|
  {
    var f := FreeSet(m.s);
    forall v | lo <= v < hi
      ensures UsesAt(m', r, v, f)
    {
      FilledUses(m, m', r, lo, hi, want, data, v);
    }
    UsedCount(m', r, lo, hi, f);
    Smaller(Used(m', r, lo, hi), f);
    SetOfSeq(m.s.free, f);
  }

  /** uvmalloc can be asked for newsz: nothing is mapped above oldsz, and either the
      new pages are below TRAPFRAME or memory runs out before they reach it. */
  ghost predicate Growable(s: State, r: nat, oldsz: nat, newsz: nat) {
    && Shape(s) && (Up(newsz) <= TRAPFRAME || Up(oldsz) + |s.free| < TRAPFRAME)
    && Vacant(s, r, Up(oldsz), if Up(newsz) <= TRAPFRAME then Up(newsz) else TRAPFRAME)
  }

  /** uvmalloc: the pages between the two sizes become zeroed user pages, or, exactly
      if there are fewer free pages than these and the tables they lack, the address
      space keeps the translations it had. */
  method Uvmalloc(vm: Vm, r: nat, oldsz: nat, newsz: nat, xperm: nat) returns (res: nat, ok: bool)
    requires vm.Valid() && IsRoot(vm.owner, r) && xperm in {0, PTE_W, PTE_X, PTE_W + PTE_X}
    requires oldsz <= newsz ==> Growable(vm.View(), r, oldsz, newsz)
    modifies vm
    ensures newsz < oldsz ==> ok && res == oldsz && vm.Snap() == old(vm.Snap())
    ensures newsz >= oldsz && ok ==> res == newsz && Up(newsz) <= TRAPFRAME
    ensures newsz >= oldsz && ok ==>
              Filled(old(vm.Snap()), vm.Snap(), r, Up(oldsz), Up(newsz),
                     Constantly(Up(oldsz), Up(newsz), WithV(PTE_R + PTE_U + xperm)),
                     Constantly(Up(oldsz), Up(newsz), Fill(0)))
    ensures !ok ==> res == 0 && GrownBy(old(vm.Snap()), vm.Snap(), r)
    ensures oldsz <= newsz ==>
              (ok <==> Up(newsz) <= TRAPFRAME && !FillShort(old(vm.View()), r, Up(oldsz), Up(newsz)))
    ensures oldsz <= newsz && Up(newsz) - Up(oldsz) > |old(vm.free)| ==> !ok
    ensures oldsz <= newsz && 3 * (Up(newsz) - Up(oldsz)) <= |old(vm.free)| && Up(newsz) <= TRAPFRAME ==> ok
  {
    if newsz < oldsz {
      return oldsz, true;
    }
    var lo := Up(oldsz);
    ghost var m, hi := vm.Snap(), Up(newsz);
    ghost var want := Constantly(lo, hi, WithV(PTE_R + PTE_U + xperm));
    ghost var data := Constantly(lo, hi, Fill(0));
    MayBeEnough(m.s, r, lo, hi);
    var v;
    ok, v := AddPages(vm, r, lo, newsz, xperm, m, hi, want, data);
    if !ok {
      Abandon(vm, r, lo, v, m, want, data);
      return 0, false;
    }
    FillDone(m.s, vm.View(), r, lo, v);
    return newsz, true;
  }

  /** uvmalloc's loop: the pages lo..v are filled. */
  method AddPages(vm: Vm, r: nat, lo: nat, newsz: nat, xperm: nat, ghost m: Machine, ghost hi: nat,
                  ghost want: map<nat, nat>, ghost data: map<nat, seq<int>>)
    returns (ok: bool, v: nat)
    requires vm.Valid() && vm.Snap() == m && IsRoot(m.owner, r) && xperm in {0, PTE_W, PTE_X, PTE_W + PTE_X}
    requires hi == Up(newsz) && lo <= hi && (hi <= TRAPFRAME || lo + |m.s.free| < TRAPFRAME)
    requires Vacant(m.s, r, lo, if hi <= TRAPFRAME then hi else TRAPFRAME)
    requires want == Constantly(lo, hi, WithV(PTE_R + PTE_U + xperm)) && data == Constantly(lo, hi, Fill(0))
    modifies vm
    ensures lo <= v <= hi && Filled(m, vm.Snap(), r, lo, v, want, data) && v - lo <= |m.s.free|
    ensures ok ==> v == hi && FillPaid(m.s, vm.View(), r, lo, hi)
    ensures !ok ==> FillShort(m.s, r, lo, hi)
  {
    FilledNone(m, r, lo, want, data);
    FillPaidNone(m.s, r, lo);
    v := lo;
    while v * PGSIZE < newsz
      invariant lo <= v <= hi && Filled(m, vm.Snap(), r, lo, v, want, data) && FillPaid(m.s, vm.View(), r, lo, v)
    {
      FilledBound(m, vm.Snap(), r, lo, v, want, data);
      ok, v := AddPage(vm, r, v, Fill(0), PTE_R + PTE_U + xperm, m, lo, hi, want, data);
      if !ok {
        return;
      }
    }
    FilledBound(m, vm.Snap(), r, lo, v, want, data);
    ok := true;
  }

  /** uvmalloc's error path: uvmdealloc(pagetable, a, oldsz). */
  method Abandon(vm: Vm, r: nat, lo: nat, v: nat, ghost m: Machine, ghost want: map<nat, nat>,
                 ghost data: map<nat, seq<int>>)
    requires Filled(m, vm.Snap(), r, lo, v, want, data) && Vacant(m.s, r, lo, v)
    modifies vm
    ensures GrownBy(m, vm.Snap(), r)
  {
    ghost var m1 := vm.Snap();
    FilledIsMapped(m, m1, r, lo, v, want, data);
    UnmappedNone(m1.s, m1.owner, r, lo);
    var sz := Uvmdealloc(vm, r, v * PGSIZE, lo * PGSIZE);
    FilledUndone(m, m1, vm.Snap(), r, lo, v, want, data);
  }

  /** What an address space's pages lo..hi are mapped with, and what they hold. */
  ghost function FlagsOf(m: Machine, r: nat, hi: nat): (f: map<nat, nat>)
    requires Shape(m.s) && hi <= MAXVPN
  {
    map v: nat | v < hi :: At(m.s, r, v).flags
  }

  ghost predicate Backed(m: Machine, r: nat, hi: nat)
    requires Shape(m.s) && hi <= MAXVPN
  {
    forall v :: 0 <= v < hi ==> At(m.s, r, v).ppn in m.mem
  }

  ghost function DataOf(m: Machine, r: nat, hi: nat): (f: map<nat, seq<int>>)
    requires Shape(m.s) && hi <= MAXVPN && Backed(m, r, hi)
  {
    map v: nat | v < hi :: m.mem[At(m.s, r, v).ppn]
  }

  /** The child's pages below hi are fresh copies of the parent's. */
  ghost predicate Copied(m: Machine, m': Machine, parent: nat, child: nat, hi: nat)
    requires Shape(m.s) && hi <= MAXVPN && Backed(m, parent, hi)
  {
    Filled(m, m', child, 0, hi, FlagsOf(m, parent, hi), DataOf(m, parent, hi))
  }

  /** One iteration of uvmcopy, with its error path. */
  method CopyPage(vm: Vm, parent: nat, child: nat, v: nat,
                  ghost m: Machine, ghost hi: nat, ghost want: map<nat, nat>, ghost data: map<nat, seq<int>>)
    returns (ok: bool, next: nat)
    requires Filled(m, vm.Snap(), child, 0, v, want, data)
    requires v < hi <= TRAPFRAME && IsRoot(m.owner, parent) && parent != child
    requires AllMapped(m.s, parent, 0, hi) && Backed(m, parent, hi) && Vacant(m.s, child, 0, hi)
    requires want == FlagsOf(m, parent, hi) && data == DataOf(m, parent, hi)
    requires FillPaid(m.s, vm.View(), child, 0, v)
    modifies vm
    ensures ok ==> next == v + 1 && Filled(m, vm.Snap(), child, 0, next, want, data)
    ensures ok ==> FillPaid(m.s, vm.View(), child, 0, next)
    ensures !ok ==> GrownBy(m, vm.Snap(), child) && FillShort(m.s, child, 0, hi)
  {
    CopyReady(m, vm.Snap(), parent, child, v, hi, want, data);
    var e := Lookup(vm, parent, v);
    ok, next := AddPage(vm, child, v, vm.mem[e.ppn], e.flags, m, 0, hi, want, data);
    if !ok {
      Unwind(vm, child, v, m, want, data);
    }
  }

  /** uvmcopy: the child's pages below sz hold what the parent's hold, with the
      same flags; or, exactly if there are fewer free pages than these and the tables
      they lack, the child has no user page. */
  method Uvmcopy(vm: Vm, parent: nat, child: nat, sz: nat) returns (ok: bool)
    requires vm.Valid() && IsRoot(vm.owner, parent) && IsRoot(vm.owner, child) && parent != child
    requires Up(sz) <= TRAPFRAME && AllMapped(vm.View(), parent, 0, Up(sz)) && Vacant(vm.View(), child, 0, Up(sz))
    requires Backed(vm.Snap(), parent, Up(sz))
    modifies vm
    ensures ok ==> Copied(old(vm.Snap()), vm.Snap(), parent, child, Up(sz))
    ensures !ok ==> GrownBy(old(vm.Snap()), vm.Snap(), child)
    ensures ok <==> !FillShort(old(vm.View()), child, 0, Up(sz))
    ensures 3 * Up(sz) <= |old(vm.free)| ==> ok
  {
    ghost var m, n := vm.Snap(), Up(sz);
    FillPaidNone(m.s, child, 0);
    MayBeEnough(m.s, child, 0, n);
    ghost var want, data := FlagsOf(m, parent, n), DataOf(m, parent, n);
    FilledNone(m, child, 0, want, data);
    var v := 0;
    while v * PGSIZE < sz
      invariant v <= n && Filled(m, vm.Snap(), child, 0, v, want, data) && FillPaid(m.s, vm.View(), child, 0, v)
      decreases n - v
    {
      ok, v := CopyPage(vm, parent, child, v, m, n, want, data);
      if !ok {
        return;
      }
    }
    FillDone(m.s, vm.View(), child, 0, v);
    return true;
  }

  lemma CopyReady(m: Machine, m': Machine, parent: nat, child: nat, v: nat, hi: nat, want: map<nat, nat>,
                  data: map<nat, seq<int>>)
    requires Filled(m, m', child, 0, v, want, data) && v < hi <= TRAPFRAME && IsRoot(m.owner, parent) && parent != child
    requires AllMapped(m.s, parent, 0, hi) && Backed(m, parent, hi)
    requires want == FlagsOf(m, parent, hi) && data == DataOf(m, parent, hi)
    ensures Owns(m'.s, m'.owner) && IsRoot(m'.owner, parent) && P0(m'.s, parent, Px2(v), Px1(v)) != 0
    ensures var e := At(m'.s, parent, v);
            && V(e) && WithV(e.flags) == e.flags && Leafy(e) && e.ppn in m'.mem
            && v in want && want[v] == e.flags && v in data && data[v] == m'.mem[e.ppn]
  {
    assert RangeAt(m.s, m'.s, child, 0, v, want, parent, v);
    assert IsMapped(m.s, parent, v);
    LeafOwned(m.s, m.owner, parent, v);
    assert m'.owner[parent].Root?;
  }

  /** uvmcopy's error path. */
  method Unwind(vm: Vm, child: nat, v: nat, ghost m: Machine, ghost want: map<nat, nat>, ghost data: map<nat, seq<int>>)
    requires Filled(m, vm.Snap(), child, 0, v, want, data) && Vacant(m.s, child, 0, v)
    modifies vm
    ensures GrownBy(m, vm.Snap(), child)
  {
    ghost var m1 := vm.Snap();
    FilledIsMapped(m, m1, child, 0, v, want, data);
    var panicked := vm.Uvmunmap(child, 0, v, true);
    FilledUndone(m, m1, vm.Snap(), child, 0, v, want, data);
  }
}
