/**
 Copying between the kernel and an address space page by page (walkaddr,
 copyout, copyin and copyinstr of kernel/vm.c), against user memory seen as one
 flat array of bytes.
 */
module UserCopy {
  import opened VmModel
  import opened Vm
  import opened Uvm

  /** walkaddr finds page v of r: mapped, and open to user code. */
  ghost predicate Reachable(s: State, r: nat, v: nat)
    requires Shape(s)
  {
    v < MAXVPN && V(At(s, r, v)) && User(At(s, r, v))
  }

  ghost predicate PageReady(m: Machine, r: nat, v: nat)
    requires Shape(m.s)
  {
    Reachable(m.s, r, v) ==> v < TRAPFRAME && At(m.s, r, v).ppn in m.mem && |m.mem[At(m.s, r, v).ppn]| == PGSIZE
  }

  /** What holds of a process's address space: neither TRAMPOLINE nor TRAPFRAME
      is open to user code, and every page is a page. */
  ghost predicate UserSpace(m: Machine, r: nat) {
    && Owns(m.s, m.owner) && IsRoot(m.owner, r)
    && forall v {:trigger PageReady(m, r, v)} :: 0 <= v ==> PageReady(m, r, v)
  }

  ghost predicate Open(m: Machine, r: nat, a: nat)
    requires UserSpace(m, r)
  {
    Reachable(m.s, r, a / PGSIZE)
  }

  /** User memory as a flat array; addresses that are not open read as 0. */
  ghost function Byte(m: Machine, r: nat, a: nat): (b: int)
    requires UserSpace(m, r)
  {
    if !Open(m, r, a) then 0
    else assert PageReady(m, r, a / PGSIZE); m.mem[At(m.s, r, a / PGSIZE).ppn][a % PGSIZE]
  }

  /** walkaddr on a page-aligned address. */
  method Walkaddr(vm: Vm, r: nat, v: nat) returns (p: nat)
    requires vm.Valid() && IsRoot(vm.owner, r)
    modifies vm
    ensures vm.Snap() == old(vm.Snap())
    ensures p != 0 <==> Reachable(vm.View(), r, v)
    ensures p != 0 ==> p == At(vm.View(), r, v).ppn
  {
    if v >= MAXVPN {
      return 0;
    }
    var e := Lookup(vm, r, v);
    if !V(e) || !User(e) {
      return 0;
    }
    LeafOwned(vm.View(), vm.owner, r, v);
    return e.ppn;
  }

  // ----- copyin -----

  ghost predicate ReadAt(m: Machine, r: nat, va: nat, dst: seq<int>, i: nat)
    requires UserSpace(m, r) && i < |dst|
  {
    Open(m, r, va + i) && dst[i] == Byte(m, r, va + i)
  }

  /** dst is what user memory holds from va on. */
  ghost predicate Read(m: Machine, r: nat, va: nat, dst: seq<int>)
    requires UserSpace(m, r)
  {
    forall i {:trigger ReadAt(m, r, va, dst, i)} :: 0 <= i < |dst| ==> ReadAt(m, r, va, dst, i)
  }

  /** min(PGSIZE - (va - PGROUNDDOWN(va)), len) */
  function Chunk(va: nat, len: nat): (n: nat)
    ensures n <= len && va % PGSIZE + n <= PGSIZE && (len > 0 ==> n > 0)
    ensures n < len ==> (va + n) % PGSIZE == 0
  {
    if PGSIZE - va % PGSIZE > len then len else PGSIZE - va % PGSIZE
  }

  lemma SamePage(va: nat, n: nat, i: nat)
    requires va % PGSIZE + n <= PGSIZE && i < n
    ensures (va + i) / PGSIZE == va / PGSIZE && (va + i) % PGSIZE == va % PGSIZE + i
  {
  }

  lemma ReadMore(m: Machine, r: nat, va: nat, dst: seq<int>, n: nat)
    requires UserSpace(m, r) && Read(m, r, va, dst) && Open(m, r, va + |dst|) && (va + |dst|) % PGSIZE + n <= PGSIZE
    ensures var a := va + |dst|;
            && PageReady(m, r, a / PGSIZE)
            && Read(m, r, va, dst + m.mem[At(m.s, r, a / PGSIZE).ppn][a % PGSIZE..][..n])
  {
    var a := va + |dst|;
    assert PageReady(m, r, a / PGSIZE);
    var chunk := m.mem[At(m.s, r, a / PGSIZE).ppn][a % PGSIZE..][..n];
    var dst' := dst + chunk;
    forall i | 0 <= i < |dst'|
      ensures ReadAt(m, r, va, dst', i)
    {
      if i < |dst| {
        assert ReadAt(m, r, va, dst, i);
      } else {
        SamePage(a, n, i - |dst|);
        assert dst'[i] == chunk[i - |dst|];
      }
    }
  }

  ghost predicate AllOpen(m: Machine, r: nat, va: nat, len: nat)
    requires UserSpace(m, r)
  {
    forall a {:trigger Open(m, r, a)} :: va <= a < va + len ==> Open(m, r, a)
  }

  /** copyin: all len bytes if every one of them is open, otherwise those before
      the first page that is not. */
  method Copyin(vm: Vm, r: nat, va: nat, len: nat) returns (dst: seq<int>, ok: bool)
    requires UserSpace(vm.Snap(), r)
    modifies vm
    ensures vm.Snap() == old(vm.Snap()) && |dst| <= len && Read(vm.Snap(), r, va, dst)
    ensures ok <==> |dst| == len
    ensures ok <==> AllOpen(vm.Snap(), r, va, len)
    ensures !ok ==> !Open(vm.Snap(), r, va + |dst|)
  {
    ghost var m := vm.Snap();
    dst := [];
    while |dst| < len
      invariant vm.Snap() == m && |dst| <= len && Read(m, r, va, dst)
    {
      var a := va + |dst|;
      var p := Walkaddr(vm, r, a / PGSIZE);
      if p == 0 {
        assert !Open(m, r, a);
        return dst, false;
      }
      var n := Chunk(a, len - |dst|);
      ReadMore(m, r, va, dst, n);
      dst := dst + vm.mem[p][a % PGSIZE..][..n];
    }
    forall a | va <= a < va + len
      ensures Open(m, r, a)
    {
      assert ReadAt(m, r, va, dst, a - va);
    }
    return dst, true;
  }

  // ----- copyinstr -----

  ghost predicate NoNull(s: seq<int>) {
    forall i :: 0 <= i < |s| ==> s[i] != 0
  }

  ghost predicate IsString(s: seq<int>) {
    |s| > 0 && s[|s| - 1] == 0 && forall i :: 0 <= i < |s| - 1 ==> s[i] != 0
  }

  /** The inner loop of copyinstr: up to n bytes of page p, from the one after dst. */
  method CopyString(vm: Vm, r: nat, va: nat, p: nat, n: nat, pre: seq<int>) returns (dst: seq<int>, gotNull: bool)
    requires UserSpace(vm.Snap(), r) && Read(vm.Snap(), r, va, pre) && Open(vm.Snap(), r, va + |pre|) && NoNull(pre)
    requires p == At(vm.View(), r, (va + |pre|) / PGSIZE).ppn && (va + |pre|) % PGSIZE + n <= PGSIZE
    ensures Read(vm.Snap(), r, va, dst)
    ensures gotNull ==> IsString(dst) && |pre| < |dst| <= |pre| + n
    ensures !gotNull ==> NoNull(dst) && |dst| == |pre| + n
  {
    ghost var m := vm.Snap();
    var a := va + |pre|;
    assert PageReady(m, r, a / PGSIZE);
    dst := pre;
    var off, left := a % PGSIZE, n;
    while left > 0
      invariant 0 <= left <= n && off == a % PGSIZE + (n - left) && |dst| == |pre| + (n - left)
      invariant Read(m, r, va, dst) && NoNull(dst)
    {
      SamePage(a, n, n - left);
      assert va + |dst| == a + (n - left);
      assert Open(m, r, va + |dst|);
      ReadMore(m, r, va, dst, 1);
      assert vm.mem[p][off..][..1] == [vm.mem[p][off]];
      dst := dst + [vm.mem[p][off]];
      if vm.mem[p][off] == 0 {
        return dst, true;
      }
      left, off := left - 1, off + 1;
    }
    return dst, false;
  }

  /** The result is forced: what copyinstr returns depends on user memory alone. */
  lemma StringIsForced(m: Machine, r: nat, va: nat, s: seq<int>, t: seq<int>)
    requires UserSpace(m, r) && Read(m, r, va, s) && Read(m, r, va, t) && IsString(s)
    ensures IsString(t) ==> s == t
    ensures NoNull(t) ==> |t| < |s| && Open(m, r, va + |t|)
  {
    forall i | 0 <= i < |s| && i < |t|
      ensures s[i] == t[i]
    {
      assert ReadAt(m, r, va, s, i) && ReadAt(m, r, va, t, i);
    }
    if NoNull(t) && |t| < |s| {
      assert ReadAt(m, r, va, s, |t|);
    }
  }

  /** User memory holds a string at va: its 0 is among the first max bytes, and
      everything up to it is open. */
  ghost predicate HasString(m: Machine, r: nat, va: nat, max: nat)
    requires UserSpace(m, r)
  {
    exists t {:trigger IsString(t)} :: Read(m, r, va, t) && IsString(t) && |t| <= max
  }

  lemma NoStringHere(m: Machine, r: nat, va: nat, max: nat, dst: seq<int>)
    requires UserSpace(m, r) && Read(m, r, va, dst) && NoNull(dst)
    requires |dst| == max || !Open(m, r, va + |dst|)
    ensures !HasString(m, r, va, max)
  {
    forall t | Read(m, r, va, t) && IsString(t)
      ensures |t| > max
    {
      StringIsForced(m, r, va, t, dst);
    }
  }

  /** copyinstr: the string at va with its 0 exactly when there is one; otherwise
      -1, after the bytes before the limit or the closed page. */
  method Copyinstr(vm: Vm, r: nat, va: nat, max: nat) returns (dst: seq<int>, ok: bool)
    requires UserSpace(vm.Snap(), r)
    modifies vm
    ensures vm.Snap() == old(vm.Snap()) && |dst| <= max && Read(vm.Snap(), r, va, dst)
    ensures ok <==> HasString(vm.Snap(), r, va, max)
    ensures if ok then IsString(dst) else NoNull(dst) && (|dst| == max || !Open(vm.Snap(), r, va + |dst|))
  {
    ghost var m := vm.Snap();
    dst := [];
    while |dst| < max
      invariant vm.Snap() == m && |dst| <= max && Read(m, r, va, dst) && NoNull(dst)
    {
      var a := va + |dst|;
      var p := Walkaddr(vm, r, a / PGSIZE);
      if p == 0 {
        NoStringHere(m, r, va, max, dst);
        return dst, false;
      }
      dst, ok := CopyString(vm, r, va, p, Chunk(a, max - |dst|), dst);
      if ok {
        return;
      }
    }
    NoStringHere(m, r, va, max, dst);
    return dst, false;
  }

  // ----- copyout -----

  ghost predicate WroteAt(m: Machine, m': Machine, r: nat, va: nat, data: seq<int>, a: nat)
    requires UserSpace(m, r) && UserSpace(m', r)
  {
    Byte(m', r, a) == if va <= a < va + |data| then data[a - va] else Byte(m, r, a)
  }

  ghost predicate KeptPage(m: Machine, m': Machine, r: nat, p: nat)
    requires p in m.mem
  {
    p in m'.mem && (m'.mem[p] == m.mem[p] || (p in m.owner && m.owner[p].Leaf? && m.owner[p].r == r))
  }

  /** data has been stored from va on, and no other byte of any page changed. */
  ghost predicate Wrote(m: Machine, m': Machine, r: nat, va: nat, data: seq<int>) {
    && UserSpace(m, r) && UserSpace(m', r) && m'.s == m.s && m'.owner == m.owner && AllOpen(m, r, va, |data|)
    && (forall a {:trigger WroteAt(m, m', r, va, data, a)} :: 0 <= a ==> WroteAt(m, m', r, va, data, a))
    && (forall p {:trigger KeptPage(m, m', r, p)} :: p in m.mem ==> KeptPage(m, m', r, p))
  }

  /** memmove of chunk into page, from off. */
  function Store(page: seq<int>, off: nat, chunk: seq<int>): (page': seq<int>)
    requires off + |chunk| <= |page|
    ensures |page'| == |page|
  {
    page[..off] + chunk + page[off + |chunk|..]
  }

  function Stored(m: Machine, p: nat, off: nat, chunk: seq<int>): (m': Machine)
    requires p in m.mem && off + |chunk| <= |m.mem[p]|
  {
    m.(mem := m.mem[p := Store(m.mem[p], off, chunk)])
  }

  /** One store within page v changes exactly the bytes it names. */
  lemma StoreWrites(m: Machine, r: nat, a: nat, chunk: seq<int>)
    requires UserSpace(m, r) && Open(m, r, a) && a % PGSIZE + |chunk| <= PGSIZE
    ensures PageReady(m, r, a / PGSIZE)
    ensures Wrote(m, Stored(m, At(m.s, r, a / PGSIZE).ppn, a % PGSIZE, chunk), r, a, chunk)
  {
    var v := a / PGSIZE;
    assert PageReady(m, r, v);
    var p := At(m.s, r, v).ppn;
    var m' := Stored(m, p, a % PGSIZE, chunk);
    forall w | 0 <= w
      ensures PageReady(m', r, w)
    {
      assert PageReady(m, r, w);
    }
    forall b | 0 <= b
      ensures WroteAt(m, m', r, a, chunk, b)
    {
      StoreWritesAt(m, m', r, a, chunk, b);
    }
    forall b | a <= b < a + |chunk|
      ensures Open(m, r, b)
    {
      SamePage(a, |chunk|, b - a);
    }
    LeafOwned(m.s, m.owner, r, v);
  }

  lemma StoreWritesAt(m: Machine, m': Machine, r: nat, a: nat, chunk: seq<int>, b: nat)
    requires UserSpace(m, r) && Open(m, r, a) && a % PGSIZE + |chunk| <= PGSIZE && UserSpace(m', r)
    requires PageReady(m, r, a / PGSIZE) && m' == Stored(m, At(m.s, r, a / PGSIZE).ppn, a % PGSIZE, chunk)
    ensures WroteAt(m, m', r, a, chunk, b)
  {
    var v, w := a / PGSIZE, b / PGSIZE;
    LeafOwned(m.s, m.owner, r, v);
    assert PageReady(m, r, w) && PageReady(m', r, w);
    if Open(m, r, b) {
      LeafOwned(m.s, m.owner, r, w);
    }
    if a <= b < a + |chunk| {
      SamePage(a, |chunk|, b - a);
    }
  }

  lemma WroteTrans(m: Machine, m': Machine, m'': Machine, r: nat, va: nat, data: seq<int>, chunk: seq<int>)
    requires Wrote(m, m', r, va, data) && Wrote(m', m'', r, va + |data|, chunk)
    ensures Wrote(m, m'', r, va, data + chunk)
  {
    var both := data + chunk;
    var mid := va + |data|;
    forall a | 0 <= a
      ensures WroteAt(m, m'', r, va, both, a)
    {
      assert WroteAt(m, m', r, va, data, a) && WroteAt(m', m'', r, mid, chunk, a);
    }
    forall p | p in m.mem
      ensures KeptPage(m, m'', r, p)
    {
      assert KeptPage(m, m', r, p) && KeptPage(m', m'', r, p);
    }
    forall a | va <= a < va + |both|
      ensures Open(m, r, a)
    {
      assert a < mid || Open(m', r, a);
    }
  }

  /** copyout: all of src if the whole range is open, otherwise the part before
      the first page that is not; no other byte of memory changes. */
  method Copyout(vm: Vm, r: nat, va: nat, src: seq<int>) returns (ok: bool, ghost n: nat)
    requires UserSpace(vm.Snap(), r)
    modifies vm
    ensures n <= |src| && Wrote(old(vm.Snap()), vm.Snap(), r, va, src[..n])
    ensures ok <==> n == |src|
    ensures ok <==> AllOpen(old(vm.Snap()), r, va, |src|)
    ensures !ok ==> !Open(old(vm.Snap()), r, va + n)
  {
    ghost var m := vm.Snap();
    WroteNone(m, r, va);
    var k := 0;
    assert src[..0] == [];
    while k < |src|
      invariant k <= |src| && Wrote(m, vm.Snap(), r, va, src[..k])
    {
      ghost var m1 := vm.Snap();
      var a := va + k;
      var p := Walkaddr(vm, r, a / PGSIZE);
      if p == 0 {
        assert !Open(m, r, a);
        return false, k;
      }
      var c := Chunk(a, |src| - k);
      var chunk := src[k..k + c];
      StoreWrites(m1, r, a, chunk);
      vm.mem := vm.mem[p := Store(vm.mem[p], a % PGSIZE, chunk)];
      WroteTrans(m, m1, vm.Snap(), r, va, src[..k], chunk);
      assert src[..k] + chunk == src[..k + c];
      k := k + c;
    }
    assert src[..k] == src;
    return true, k;
  }

  lemma WroteNone(m: Machine, r: nat, va: nat)
    requires UserSpace(m, r)
    ensures Wrote(m, m, r, va, [])
  {
  }

  /** What copyout stored, copyin brings back. */
  lemma CopyRoundTrip(m: Machine, m': Machine, r: nat, va: nat, src: seq<int>, dst: seq<int>)
    requires Wrote(m, m', r, va, src) && Read(m', r, va, dst) && |dst| == |src|
    ensures dst == src
  {
    forall i | 0 <= i < |src|
      ensures dst[i] == src[i]
    {
      assert ReadAt(m', r, va, dst, i) && WroteAt(m, m', r, va, src, va + i);
    }
  }
}
