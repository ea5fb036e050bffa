/**
 The shape of a process's address space (kernel/memlayout.h, "User memory
 layout"): pages below its size, TRAMPOLINE and TRAPFRAME, and nothing else.
 Every routine that changes p->sz keeps it, which is what makes the panics of
 uvmunmap, uvmcopy, mappages and freewalk unreachable for processes.
 */
module ProcSpace {
  import opened VmModel
  import opened PageCost
  import opened Vm
  import opened Uvm
  import opened FreeTree

  lemma NewSpace(s: State, r: nat, e: Pte, f: Pte)
    requires MapsOnly(s, r, map[TRAMPOLINE := e, TRAPFRAME := f]) && V(e) && V(f)
    ensures ProcSpace(s, r, 0)
  {
    var g := map[TRAMPOLINE := e, TRAPFRAME := f];
    assert MapsOnlyAt(s, r, g, TRAMPOLINE) && MapsOnlyAt(s, r, g, TRAPFRAME);
    forall v | 0 <= v < TRAPFRAME
      ensures At(s, r, v) == ZERO
    {
      assert MapsOnlyAt(s, r, g, v);
    }
  }

  lemma FreeIsNotOwned(s: State, owner: map<nat, Pos>)
    requires Owns(s, owner)
    ensures FreeSet(s) !! owner.Keys
  {
    forall p | p in owner
      ensures p !in FreeSet(s)
    {
      NotFree(s, owner, p);
    }
  }

  lemma PageCount(s: State, owner: map<nat, Pos>)
    requires Owns(s, owner)
    ensures |Pages(s, owner)| == |s.free| + |owner.Keys|
  {
    FreeIsNotOwned(s, owner);
    SetOfSeq(s.free, FreeSet(s));
    assert Pages(s, owner) == FreeSet(s) + owner.Keys;
  }

  /** uvmalloc may be asked to grow any process to any size: each page it has
      already is one the allocator cannot hand out again. */
  lemma MayGrow(m: Machine, r: nat, oldsz: nat, newsz: nat)
    requires Owns(m.s, m.owner) && IsRoot(m.owner, r) && ProcSpace(m.s, r, oldsz) && |Pages(m.s, m.owner)| < TRAPFRAME
    ensures Growable(m.s, r, oldsz, newsz)
  {
    var n, keys := Up(oldsz), m.owner.Keys;
    forall v | 0 <= v < n
      ensures UsesAt(m, r, v, keys)
    {
      assert IsMapped(m.s, r, v);
      LeafOwned(m.s, m.owner, r, v);
    }
    UsedCount(m, r, 0, n, keys);
    Smaller(Used(m, r, 0, n), keys);
    PageCount(m.s, m.owner);
  }

  /** uvmalloc, and uvmcopy into a process of size 0, make a process of the new size. */
  lemma FilledSpace(m: Machine, m': Machine, r: nat, oldsz: nat, newsz: nat, want: map<nat, nat>,
                    data: map<nat, seq<int>>)
    requires ProcSpace(m.s, r, oldsz) && oldsz <= newsz && Filled(m, m', r, Up(oldsz), Up(newsz), want, data)
    ensures ProcSpace(m'.s, r, newsz)
  {
    var lo, hi := Up(oldsz), Up(newsz);
    assert RangeAt(m.s, m'.s, r, lo, hi, want, r, TRAMPOLINE) && RangeAt(m.s, m'.s, r, lo, hi, want, r, TRAPFRAME);
    forall v | 0 <= v < hi
      ensures IsMapped(m'.s, r, v)
    {
      assert RangeAt(m.s, m'.s, r, lo, hi, want, r, v) && (v < lo ==> IsMapped(m.s, r, v));
    }
    forall v | hi <= v < TRAPFRAME
      ensures At(m'.s, r, v) == ZERO
    {
      assert RangeAt(m.s, m'.s, r, lo, hi, want, r, v);
    }
  }

  /** Whatever fails in the middle leaves every process its size. */
  lemma SameSpace(s: State, t: State, owner: map<nat, Pos>, r: nat, sz: nat)
    requires ProcSpace(s, r, sz) && IsRoot(owner, r) && SameMaps(s, t, owner)
    ensures ProcSpace(t, r, sz)
  {
    assert SameAt(s, t, r, TRAMPOLINE) && SameAt(s, t, r, TRAPFRAME);
    forall v | 0 <= v < Up(sz)
      ensures IsMapped(t, r, v)
    {
      assert SameAt(s, t, r, v) && IsMapped(s, r, v);
    }
    forall v | Up(sz) <= v < TRAPFRAME
      ensures At(t, r, v) == ZERO
    {
      assert SameAt(s, t, r, v);
    }
  }

  /** uvmdealloc makes a process of the smaller size. */
  lemma ShrunkSpace(m: Machine, m': Machine, r: nat, oldsz: nat, newsz: nat)
    requires ProcSpace(m.s, r, oldsz) && newsz <= oldsz
    requires IsRoot(m.owner, r) && Unmapped(m, m', r, Up(newsz), Up(oldsz))
    ensures ProcSpace(m'.s, r, newsz)
  {
    var lo, hi := Up(newsz), Up(oldsz);
    UnmappedAt(m, m', r, lo, hi, TRAMPOLINE);
    UnmappedAt(m, m', r, lo, hi, TRAPFRAME);
    forall v | 0 <= v < lo
      ensures IsMapped(m'.s, r, v)
    {
      UnmappedAt(m, m', r, lo, hi, v);
      assert IsMapped(m.s, r, v);
    }
    forall v | lo <= v < TRAPFRAME
      ensures At(m'.s, r, v) == ZERO
    {
      UnmappedAt(m, m', r, lo, hi, v);
    }
  }

  ghost predicate ForkedAt(m: Machine, m': Machine, parent: nat, child: nat, v: nat)
    requires Shape(m.s) && Shape(m'.s) && v < MAXVPN
  {
    var e, p, c := At(m.s, parent, v), At(m'.s, parent, v), At(m'.s, child, v);
    && p == e && c.flags == p.flags && c.ppn != p.ppn
    && p.ppn in m.mem && p.ppn in m'.mem && c.ppn in m'.mem
    && m'.mem[c.ppn] == m'.mem[p.ppn] == m.mem[e.ppn]
  }

  /** fork: parent and child then hold equal memory in different pages, and the
      parent's is what it was. */
  lemma ForkedMemory(m: Machine, m': Machine, parent: nat, child: nat, sz: nat, v: nat)
    requires Owns(m.s, m.owner) && IsRoot(m.owner, parent) && parent != child
    requires ProcSpace(m.s, parent, sz) && Backed(m, parent, Up(sz)) && Copied(m, m', parent, child, Up(sz))
    requires v < Up(sz)
    ensures ForkedAt(m, m', parent, child, v)
  {
    var hi := Up(sz);
    var want, data := FlagsOf(m, parent, hi), DataOf(m, parent, hi);
    assert RangeAt(m.s, m'.s, child, 0, hi, want, parent, v) && RangeAt(m.s, m'.s, child, 0, hi, want, child, v);
    assert FilledAt(m', child, v, data) && IsMapped(m.s, parent, v);
    assert m'.owner[parent].Root? && m'.owner[child].Root?;
    LeafOwned(m.s, m.owner, parent, v);
    LeafOwned(m'.s, m'.owner, parent, v);
    LeafOwned(m'.s, m'.owner, child, v);
    assert At(m.s, parent, v).ppn in m'.mem;
  }

  const TWO64 := 0x1_0000_0000_0000_0000

  /** sz + n as an unsigned 64-bit sum. */
  function Plus(sz: nat, n: int): (r: nat) { (sz + n) % TWO64 }

  lemma PlusWraps(sz: nat, n: int)
    requires Up(sz) <= TRAPFRAME && -0x8000_0000 <= n < 0x8000_0000
    ensures Plus(sz, n) == if sz + n < 0 then sz + n + TWO64 else sz + n
  {
  }

  /** m has become m2, in which r is a process of size sz and no page is lost. */
  ghost predicate Resized(m: Machine, m2: Machine, r: nat, sz: nat) {
    && Owns(m2.s, m2.owner) && Pages(m2.s, m2.owner) == Pages(m.s, m.owner)
    && IsRoot(m2.owner, r) && ProcSpace(m2.s, r, sz)
  }

  lemma GrownSpace(m: Machine, m2: Machine, r: nat, oldsz: nat, newsz: nat, want: map<nat, nat>,
                   data: map<nat, seq<int>>)
    requires ProcSpace(m.s, r, oldsz) && oldsz <= newsz && Filled(m, m2, r, Up(oldsz), Up(newsz), want, data)
    ensures Resized(m, m2, r, newsz)
  {
    FilledSpace(m, m2, r, oldsz, newsz, want, data);
    assert m2.owner[r].Root?;
  }

  lemma UnchangedSpace(m: Machine, m2: Machine, r: nat, sz: nat)
    requires IsRoot(m.owner, r) && ProcSpace(m.s, r, sz) && GrownBy(m, m2, r)
    ensures Resized(m, m2, r, sz)
  {
    SameSpace(m.s, m2.s, m.owner, r, sz);
    assert m2.owner[r].Root?;
  }

  lemma CutSpace(m: Machine, m2: Machine, r: nat, oldsz: nat, newsz: nat)
    requires ProcSpace(m.s, r, oldsz) && newsz <= oldsz
    requires IsRoot(m.owner, r) && Unmapped(m, m2, r, Up(newsz), Up(oldsz))
    ensures Resized(m, m2, r, newsz)
  {
    ShrunkSpace(m, m2, r, oldsz, newsz);
  }

  /** growproc's call of uvmalloc. */
  method Grow(vm: Vm, r: nat, sz: nat, newsz: nat) returns (ok: bool)
    requires vm.Valid() && IsRoot(vm.owner, r) && ProcSpace(vm.View(), r, sz) && |vm.All()| < TRAPFRAME && sz <= newsz
    modifies vm
    ensures Resized(old(vm.Snap()), vm.Snap(), r, if ok then newsz else sz)
    ensures !ok ==> GrownBy(old(vm.Snap()), vm.Snap(), r)
    ensures ok <==> Up(newsz) <= TRAPFRAME && !FillShort(old(vm.View()), r, Up(sz), Up(newsz))
    ensures Up(newsz) - Up(sz) > |old(vm.free)| ==> !ok
    ensures 3 * (Up(newsz) - Up(sz)) <= |old(vm.free)| && Up(newsz) <= TRAPFRAME ==> ok
  {
    ghost var m := vm.Snap();
    MayGrow(m, r, sz, newsz);
    var res;
    res, ok := Uvmalloc(vm, r, sz, newsz, PTE_W);
    if ok {
      ghost var lo, hi := Up(sz), Up(newsz);
      ghost var want := Constantly(lo, hi, WithV(PTE_R + PTE_U + PTE_W));
      GrownSpace(m, vm.Snap(), r, sz, newsz, want, Constantly(lo, hi, Fill(0)));
    } else {
      UnchangedSpace(m, vm.Snap(), r, sz);
    }
  }

  /** growproc's call of uvmdealloc. */
  method Shrink(vm: Vm, r: nat, sz: nat, want: nat) returns (newsz: nat)
    requires vm.Valid() && IsRoot(vm.owner, r) && ProcSpace(vm.View(), r, sz)
    modifies vm
    ensures newsz == (if want < sz then want else sz) && Resized(old(vm.Snap()), vm.Snap(), r, newsz)
  {
    ghost var m := vm.Snap();
    newsz := Uvmdealloc(vm, r, sz, want);
    if want < sz {
      CutSpace(m, vm.Snap(), r, sz, newsz);
    }
  }

  /**
   growproc, with p->sz passed in and out. Growing succeeds or changes no
   translation; it fails exactly if the new size is too large for user memory or
   takes more free pages than there are, page tables included. Shrinking by more
   than the whole size wraps around and changes nothing. Whatever happens, the
   process's memory is again exactly the pages below its size.
   */
  method Growproc(vm: Vm, r: nat, sz: nat, n: int) returns (res: int, newsz: nat)
    requires vm.Valid() && IsRoot(vm.owner, r) && ProcSpace(vm.View(), r, sz) && |vm.All()| < TRAPFRAME
    requires -0x8000_0000 <= n < 0x8000_0000
    modifies vm
    ensures Resized(old(vm.Snap()), vm.Snap(), r, newsz)
    ensures res == 0 || (res == -1 && n > 0 && newsz == sz && GrownBy(old(vm.Snap()), vm.Snap(), r))
    ensures res == 0 ==> newsz == if sz + n < 0 then sz else sz + n
    ensures res == -1 <==> n > 0 && (Up(sz + n) > TRAPFRAME || FillShort(old(vm.View()), r, Up(sz), Up(sz + n)))
    ensures n > 0 && Up(sz + n) - Up(sz) > |old(vm.free)| ==> res == -1
    ensures n > 0 && 3 * (Up(sz + n) - Up(sz)) <= |old(vm.free)| && Up(sz + n) <= TRAPFRAME ==> res == 0
  {
    PlusWraps(sz, n);
    newsz := sz;
    if n > 0 {
      var ok := Grow(vm, r, sz, Plus(sz, n));
      if !ok {
        return -1, sz;
      }
      newsz := Plus(sz, n);
    } else if n < 0 {
      newsz := Shrink(vm, r, sz, Plus(sz, n));
    }
    return 0, newsz;
  }
}
