/**
 malloc, free and morecore (user/umalloc.c): a circular list threaded through
 the headers, edited in place. Addresses count Headers.
 */
module Umalloc {
  import opened ArenaModel

  function Next(i: nat, n: nat): (j: nat) { if i + 1 < n then i + 1 else 0 }

  ghost predicate LinkAt(ptr: map<nat, nat>, ring: seq<nat>, i: nat)
    requires i < |ring|
  {
    ring[i] in ptr && ptr[ring[i]] == ring[Next(i, |ring|)]
  }

  /** s.ptr leads around ring, except possibly at index but. */
  ghost predicate Links(ptr: map<nat, nat>, ring: seq<nat>, but: int) {
    forall i {:trigger LinkAt(ptr, ring, i)} :: 0 <= i < |ring| && i != but ==> LinkAt(ptr, ring, i)
  }

  lemma LinksWithout(a: Arena, ptr: map<nat, nat>, i: nat)
    requires Layout(a) && 0 < i < |a.ring| && Links(ptr, a.ring, -1)
    ensures LinkAt(ptr, a.ring, i) && LinkAt(ptr, a.ring, i - 1)
    ensures Links(ptr, Without(a.ring, i), i - 1)
    ensures ptr[a.ring[i]] == Without(a.ring, i)[Next(i - 1, |a.ring| - 1)]
  {
    assert LinkAt(ptr, a.ring, i) && LinkAt(ptr, a.ring, i - 1);
    var t := Without(a.ring, i);
    forall j | 0 <= j < |t| && j != i - 1
      ensures LinkAt(ptr, t, j)
    {
      assert LinkAt(ptr, a.ring, if j < i then j else j + 1);
    }
  }

  lemma LinksClosed(a: Arena, ptr: map<nat, nat>, k: nat)
    requires Layout(a) && k < |a.ring| && Links(ptr, a.ring, k)
    ensures Links(ptr[a.ring[k] := a.ring[Next(k, |a.ring|)]], a.ring, -1)
  {
    var ptr' := ptr[a.ring[k] := a.ring[Next(k, |a.ring|)]];
    forall i | 0 <= i < |a.ring|
      ensures LinkAt(ptr', a.ring, i)
    {
      RingSorted(a, i, k);
      assert i == k || LinkAt(ptr, a.ring, i);
    }
  }

  lemma LinksInserted(a: Arena, ptr: map<nat, nat>, k: nat, b: nat)
    requires Layout(a) && k < |a.ring| && Links(ptr, a.ring, k) && b !in a.ring
    ensures Links(ptr[b := a.ring[Next(k, |a.ring|)]][a.ring[k] := b], WithAfter(a.ring, k, b), -1)
  {
    var t := WithAfter(a.ring, k, b);
    var ptr' := ptr[b := a.ring[Next(k, |a.ring|)]][a.ring[k] := b];
    forall i | 0 <= i < |t|
      ensures LinkAt(ptr', t, i)
    {
      if i != k && i != k + 1 {
        var i' := if i < k then i else i - 1;
        assert LinkAt(ptr, a.ring, i');
        RingSorted(a, i', k);
        assert t[i] == a.ring[i'];
      }
    }
  }

  /** The last index of the ring below b. */
  ghost function Below(a: Arena, b: nat, n: nat): (k: nat)
    requires Layout(a) && 0 < n <= |a.ring| && a.base < b && b !in a.ring
    ensures k < n && a.ring[k] < b
    ensures forall i :: k < i < n ==> a.ring[i] > b
  {
    if a.ring[n - 1] < b then n - 1 else Below(a, b, n - 1)
  }

  lemma BelowIs(a: Arena, b: nat, k: nat)
    requires Layout(a) && k < |a.ring| && a.base < b && b !in a.ring && a.ring[k] < b
    requires k + 1 < |a.ring| ==> b < a.ring[k + 1]
    ensures k == Below(a, b, |a.ring|)
  {
    var j := Below(a, b, |a.ring|);
    if k < j {
      RingSorted(a, k + 1, j);
    }
  }

  /** What freeing b does: b's units stay obtained and leave the live blocks. */
  ghost predicate Freed(a: Arena, a': Arena, b: nat) {
    && Layout(a') && a'.base == a.base && a'.live == a.live - {b} && a'.at.Keys == a.at.Keys
    && (forall c :: c in a'.live ==> c in a.size && c in a'.size && a'.size[c] == a.size[c])
    && b in a.size && b in a'.at && a'.at[b] in a'.ring && a'.at[b] in a'.size && a'.size[a'.at[b]] >= a.size[b]
  }

  class Umalloc {
    const base: nat
    var ptr: map<nat, nat>
    var size: map<nat, nat>
    var freep: nat
    ghost var ring: seq<nat>
    ghost var live: set<nat>
    ghost var at: map<nat, nat>
    // The units sbrk has granted and not taken back.
    ghost var got: set<nat>

    /** Before the first call of malloc, freep is 0. */
    constructor (base: nat)
      requires base > 0
      ensures this.base == base && freep == 0 && Unused() && Exact()
    {
      this.base, ptr, size, freep := base, map[], map[], 0;
      ring, live, at, got := [], {}, map[], {};
    }

    ghost function Snap(): (a: Arena)
      reads this
    {
      Arena(base, size, ring, live, at)
    }

    ghost predicate Valid()
      reads this
    {
      0 < base && Layout(Snap()) && Links(ptr, ring, -1) && freep in ring
    }

    /** free's search: the list element after which bp belongs. */
    method Find(bp: nat) returns (p: nat, ghost k: nat)
      requires Valid() && base < bp && bp !in ring
      ensures k == Below(Snap(), bp, |ring|) && p == ring[k]
    {
      ghost var a := Snap();
      ghost var n, goal := |ring|, Below(a, bp, |ring|);
      p := freep;
      k :| 0 <= k < |ring| && ring[k] == freep;
      assert LinkAt(ptr, ring, k);
      while !(bp > p && bp < ptr[p])
        invariant k < n && p == ring[k] && LinkAt(ptr, ring, k)
        decreases if k <= goal then goal - k else n + goal - k
      {
        FindStep(a, ptr, bp, k);
        if p >= ptr[p] && (bp > p || bp < ptr[p]) {
          return;
        }
        p := ptr[p];
        k := Next(k, n);
        assert LinkAt(ptr, ring, k);
      }
      FindStep(a, ptr, bp, k);
    }

    /** First half of free's linking: join the block above if it touches bp. */
    method JoinAbove(bp: nat, p: nat, ghost k: nat)
      requires Valid() && bp in live && bp !in ring && base < bp && k == Below(Snap(), bp, |ring|) && p == ring[k]
      modifies this`ptr, this`size, this`ring, this`at
      ensures Joined(old(Snap()), Snap(), bp, k) && p == ring[k]
      ensures Links(ptr, ring, k) && bp in ptr && ptr[bp] == ring[Next(k, |ring|)]
    {
      ghost var a := Snap();
      assert BlockAt(a, bp) && LinkAt(ptr, ring, k);
      RingSorted(a, Next(k, |ring|), k);
      NeverTouchesBase(a, bp, k);
      if bp + size[bp] == ptr[p] {
        JoinUp(a, ptr, bp, k);
        ring := Without(ring, k + 1);
        at := Moved(at, ptr[p], bp);
        size := size[bp := size[bp] + size[ptr[p]]];
        ptr := ptr[bp := ptr[ptr[p]]];
      } else {
        JoinNone(a, ptr, bp, k);
        ptr := ptr[bp := ptr[p]];
      }
    }

    /** Second half: join the block below if it touches bp, or link bp in. */
    method JoinBelow(bp: nat, p: nat, ghost k: nat, ghost a0: Arena)
      requires Joined(a0, Snap(), bp, k) && p == ring[k]
      requires Links(ptr, ring, k) && bp in ptr && ptr[bp] == ring[Next(k, |ring|)]
      modifies this`ptr, this`size, this`ring, this`live, this`at
      ensures Layout(Snap()) && Links(ptr, ring, -1) && Freed(a0, Snap(), bp) && p in ring
    {
      ghost var a := Snap();
      RingSorted(a, k, k);
      assert BlockAt(a, bp) && FillAt(a, bp, bp);
      if p + size[p] == bp {
        MergeDownLayout(a, bp, k);
        LiveNotFree(a, k);
        LinksClosed(a, ptr, k);
        live, at := live - {bp}, Moved(at, bp, p);
        size := size[p := size[p] + size[bp]];
        ptr := ptr[p := ptr[bp]];
      } else {
        StaysBelow(a, bp, k);
        InsertLayout(a, bp, k);
        LinksInserted(a, ptr, k, bp);
        assert ptr[bp := ptr[bp]] == ptr;
        live, ring := live - {bp}, WithAfter(ring, k, bp);
        ptr := ptr[p := bp];
        assert ring[k] == p;
      }
    }

    /** free: the block leaves the live ones, every other live block keeps its
        place and size, and the list is again sorted and fully coalesced. */
    method Free(ap: nat)
      requires Valid() && ap > 0 && ap - 1 in live
      modifies this`ptr, this`size, this`ring, this`live, this`at, this`freep
      ensures Valid() && Freed(old(Snap()), Snap(), ap - 1) && (Exact() <==> old(Exact()))
    {
      ghost var a := Snap();
      var bp := ap - 1;
      assert BlockAt(a, bp);
      ghost var k;
      var p;
      p, k := Find(bp);
      JoinAbove(bp, p, k);
      JoinBelow(bp, p, k, a);
      freep := p;
    }

    /** The blocks cover exactly the units obtained from sbrk. */
    ghost predicate Exact()
      reads this
    {
      at.Keys == got
    }

    /** morecore: 0 if sbrk fails (region is what sbrk returns, 0 for -1), else
        freep. The heap then has max(nu, 4096) more units from region on, and
        sbrk has granted those very units exactly below the limit. */
    method Morecore(nu: nat, region: nat) returns (p: nat)
      requires Valid() && FitsAbove(Snap(), region)
      modifies this`ptr, this`size, this`ring, this`live, this`at, this`freep, this`got
      ensures Valid()
      ensures p == 0 <==> region == 0
      ensures p == 0 ==> Snap() == old(Snap()) && freep == old(freep) && got == old(got)
      ensures p != 0 ==> p == freep && Extended(old(Snap()), Snap(), region, Core(nu)) && HasBlock(Snap(), nu)
      ensures p != 0 ==> got == Sbrk(old(got), region, AsInt(Core(nu) * 16))
      ensures old(Exact()) ==> (Exact() <==> region == 0 || nu < CORELIMIT)
    {
      var n := Core(nu);
      if region == 0 {
        return 0;
      }
      ghost var a := Snap();
      AskedFor(a, got, region, nu);
      got := Sbrk(got, region, AsInt(n * 16));
      AddCoreLayout(a, region, n);
      size := size[region := n];
      live := live + {region};
      at := AddCore(a, region, n).at;
      ghost var a1 := Snap();
      Free(region + 1);
      CoreFreed(a, a1, Snap(), region, n, nu);
      AboveBase(Snap(), freep);
      return freep;
    }

    /** Taking nunits from the free block p, after prevp in the list. */
    method Carve(prevp: nat, p: nat, nunits: nat, ghost i: nat) returns (ap: nat)
      requires Valid() && 0 < i < |ring| && p == ring[i] && prevp == ring[i - 1] && p in size && size[p] >= nunits > 0
      modifies this`ptr, this`size, this`ring, this`live, this`at, this`freep
      ensures Valid() && ap > 0 && Allocated(old(Snap()), Snap(), ap - 1, nunits) && at.Keys == old(at).Keys
      ensures ap - 1 + nunits == p + old(size)[p]
    {
      ghost var a := Snap();
      if size[p] == nunits {
        TakeLayout(a, i);
        LiveNotFree(a, i);
        LinksWithout(a, ptr, i);
        LinksClosed(Take(a, i), ptr, i - 1);
        LiveSized(a);
        ptr := ptr[prevp := ptr[p]];
        live, ring := live + {p}, Without(ring, i);
        freep := prevp;
        assert ring[i - 1] == prevp;
        return p + 1;
      }
      SplitLayout(a, i, nunits);
      LiveNotFree(a, i);
      LiveSized(a);
      var t := p + (size[p] - nunits);
      live, at := live + {t}, Split(a, i, nunits).at;
      size := size[p := size[p] - nunits][t := nunits];
      freep := prevp;
      return t + 1;
    }

    /** malloc. If a free block is large enough the heap keeps its units; if not,
        sbrk is called once, its failure leaves everything as it was, and its
        region becomes the end of the heap, the result being its last part. */
    method Malloc(nbytes: nat, region: nat) returns (ap: nat)
      requires 0 < base && (if freep == 0 then Unused() else Valid()) && FitsAbove(Snap(), region)
      modifies this
      ensures Valid() && Outcome(old(Snap()), old(got), Snap(), got, region, Units(nbytes), ap)
      ensures old(Exact()) ==>
                (Exact() <==> HasBlock(old(Snap()), Units(nbytes)) || region == 0 || Units(nbytes) < CORELIMIT)
    {
      ghost var a, got0 := Snap(), got;
      var nunits := Units(nbytes);
      if freep == 0 {
        Init();
      }
      Started(a, Snap(), nunits);
      var prevp := freep;
      ghost var f := SearchStarts(Snap(), ptr, freep, nunits);
      ghost var d, grown := 1, false;
      var p := ptr[prevp];
      while true
        invariant Valid() && Searching(Snap(), f, d, nunits, freep, prevp, p)
        invariant Looked(a, got0, Snap(), got, region, nunits, grown)
        decreases if grown then 0 else 1, |ring| - d
      {
        SearchReady(Snap(), f, d, nunits, freep, prevp, p);
        if size[p] >= nunits {
          ghost var a1, got1 := Snap(), got;
          ap := Carve(prevp, p, nunits, Around(f, d, |ring|));
          Succeeds(a, got0, a1, got1, Snap(), region, nunits, grown, Around(f, d, |a1.ring|), ap);
          return;
        }
        SearchStep(Snap(), ptr, f, d, nunits, freep, prevp, p);
        if p == freep {
          ghost var a1, got1 := Snap(), got;
          NotGrown(a, got0, a1, got1, region, nunits, grown);
          p := Morecore(nunits, region);
          if p == 0 {
            return 0;
          }
          Regrow(a, got0, a1, got1, Snap(), got, region, nunits);
          f := SearchStarts(Snap(), ptr, freep, nunits);
          d, grown := 0, true;
        }
        prevp, p := p, ptr[p];
        d := d + 1;
      }
    }

    /** Nothing has been allocated yet. */
    ghost predicate Unused()
      reads this
    {
      live == {} && at == map[] && ring == []
    }

    /** base.s.ptr = freep = &base */
    method Init()
      requires 0 < base && Unused()
      modifies this`ptr, this`size, this`ring, this`freep
      ensures Valid() && freep == base && Snap() == old(Snap()).(ring := [base], size := old(size)[base := 0])
    {
      ptr, size, freep := ptr[base := base], size[base := 0], base;
      ring := [base];
      assert ring[0] == base;
    }
  }

  /** d steps round the ring from index f. */
  function Around(f: nat, d: nat, n: nat): (i: nat) { if f + d < n then f + d else f + d - n }

  /** Elements 1..d round from f are too small. */
  ghost predicate Passed(a: Arena, f: nat, d: nat, nunits: nat) {
    forall e {:trigger Around(f, e, |a.ring|)} :: 1 <= e < d <= |a.ring| && f < |a.ring| ==>
      a.ring[Around(f, e, |a.ring|)] in a.size && a.size[a.ring[Around(f, e, |a.ring|)]] < nunits
  }

  /** malloc looks at the d-th element round from freep. */
  ghost predicate Searching(a: Arena, f: nat, d: nat, nunits: nat, freep: nat, prevp: nat, p: nat) {
    && f < |a.ring| && 1 <= d <= |a.ring| && freep == a.ring[f] && Passed(a, f, d, nunits)
    && prevp == a.ring[Around(f, d - 1, |a.ring|)] && p == a.ring[Around(f, d, |a.ring|)]
  }

  lemma SearchStarts(a: Arena, ptr: map<nat, nat>, freep: nat, nunits: nat) returns (f: nat)
    requires Layout(a) && Links(ptr, a.ring, -1) && freep in a.ring
    ensures freep in ptr && Searching(a, f, 1, nunits, freep, freep, ptr[freep])
  {
    f :| 0 <= f < |a.ring| && a.ring[f] == freep;
    assert LinkAt(ptr, a.ring, f);
  }

  lemma SearchReady(a: Arena, f: nat, d: nat, nunits: nat, freep: nat, prevp: nat, p: nat)
    requires Layout(a) && Searching(a, f, d, nunits, freep, prevp, p) && nunits > 0
    ensures p in a.size && (p == freep <==> d == |a.ring|)
    ensures a.size[p] >= nunits ==> Around(f, d, |a.ring|) > 0 && prevp == a.ring[Around(f, d, |a.ring|) - 1]
  {
    RingSorted(a, Around(f, d, |a.ring|), f);
  }

  /** Too small: on to the next element, or round the list without success. */
  lemma SearchStep(a: Arena, ptr: map<nat, nat>, f: nat, d: nat, nunits: nat, freep: nat, prevp: nat, p: nat)
    requires Layout(a) && Links(ptr, a.ring, -1) && Searching(a, f, d, nunits, freep, prevp, p)
    requires p in a.size && a.size[p] < nunits
    ensures p in ptr
    ensures d < |a.ring| ==> Searching(a, f, d + 1, nunits, freep, p, ptr[p])
    ensures d == |a.ring| ==> !HasBlock(a, nunits)
  {
    var i := Around(f, d, |a.ring|);
    assert LinkAt(ptr, a.ring, i);
    if d == |a.ring| {
      LapDone(a, f, nunits);
    }
  }

  /** Once round without success, no block is large enough. */
  lemma LapDone(a: Arena, f: nat, nunits: nat)
    requires f < |a.ring| && Passed(a, f, |a.ring|, nunits) && a.ring[f] in a.size && a.size[a.ring[f]] < nunits
    ensures !HasBlock(a, nunits)
  {
    forall g | 0 <= g < |a.ring|
      ensures a.ring[g] in a.size && a.size[a.ring[g]] < nunits
    {
      var e := if g > f then g - f else g + |a.ring| - f;
      assert g == Around(f, e, |a.ring|);
    }
  }

  /** Live blocks are untouched. */
  ghost predicate Kept(a: Arena, a': Arena) {
    && a'.base == a.base && a'.live == a.live
    && forall c :: c in a.live ==> c in a.size && c in a'.size && a'.size[c] == a.size[c]
  }

  /** malloc has only looked: the heap is what it was, or has just been set up. */
  ghost predicate Untouched(a: Arena, a': Arena, nunits: nat) {
    Kept(a, a') && a'.at.Keys == a.at.Keys && (HasBlock(a, nunits) <==> HasBlock(a', nunits))
  }

  /** Block i of the list is not large enough, or ends where the new region ends. */
  ghost predicate TopAt(a: Arena, region: nat, nunits: nat, i: nat)
    requires i < |a.ring|
  {
    a.ring[i] in a.size && a.size[a.ring[i]] >= nunits ==> a.ring[i] + a.size[a.ring[i]] == region + Core(nunits)
  }

  /** malloc has called morecore, because no block was large enough. */
  ghost predicate Regrown(a: Arena, got: set<nat>, a': Arena, got': set<nat>, region: nat, nunits: nat) {
    && Extended(a, a', region, Core(nunits)) && got' == Sbrk(got, region, AsInt(Core(nunits) * 16))
    && region != 0 && FitsAbove(a, region) && !HasBlock(a, nunits) && HasBlock(a', nunits)
    && forall i {:trigger TopAt(a', region, nunits, i)} :: 0 <= i < |a'.ring| ==> TopAt(a', region, nunits, i)
  }

  /** malloc's search so far. */
  ghost predicate Looked(a: Arena, got: set<nat>, a': Arena, got': set<nat>, region: nat, nunits: nat, grown: bool) {
    if grown then Regrown(a, got, a', got', region, nunits)
    else Untouched(a, a', nunits) && FitsAbove(a, region) && got' == got
  }

  /** What malloc(n units) has done when it returns ap. */
  ghost predicate Outcome(a: Arena, got: set<nat>, a': Arena, got': set<nat>, region: nat, n: nat, ap: nat) {
    if HasBlock(a, n) then ap != 0 && Allocated(a, a', ap - 1, n) && a'.at.Keys == a.at.Keys && got' == got
    else if region == 0 then ap == 0 && Kept(a, a') && a'.at.Keys == a.at.Keys && got' == got
    else
      && ap != 0 && Allocated(a, a', ap - 1, n) && ap - 1 + n == region + Core(n)
      && a'.at.Keys == a.at.Keys + Span(region, Core(n)) && got' == Sbrk(got, region, AsInt(Core(n) * 16))
  }

  lemma Started(a: Arena, a': Arena, nunits: nat)
    requires Layout(a') && nunits > 0
    requires a' == a || (a.ring == [] && a.live == {} && a' == a.(ring := [a.base], size := a.size[a.base := 0]))
    ensures Untouched(a, a', nunits)
  {
    LiveSized(a');
  }

  lemma NotGrown(a: Arena, got: set<nat>, a': Arena, got': set<nat>, region: nat, nunits: nat, grown: bool)
    requires Looked(a, got, a', got', region, nunits, grown) && !HasBlock(a', nunits)
    ensures !grown && FitsAbove(a', region)
  {
  }

  lemma Succeeds(a: Arena, got: set<nat>, a': Arena, got': set<nat>, a'': Arena, region: nat, nunits: nat, grown: bool,
                 i: nat, ap: nat)
    requires Looked(a, got, a', got', region, nunits, grown) && i < |a'.ring| && a'.ring[i] in a'.size
    requires a'.size[a'.ring[i]] >= nunits && ap > 0 && Allocated(a', a'', ap - 1, nunits) && a''.at.Keys == a'.at.Keys
    requires ap - 1 + nunits == a'.ring[i] + a'.size[a'.ring[i]]
    ensures Outcome(a, got, a'', got', region, nunits, ap)
    ensures a.at.Keys == got ==> (a''.at.Keys == got' <==> HasBlock(a, nunits) || region == 0 || nunits < CORELIMIT)
  {
    if grown {
      assert TopAt(a', region, nunits, i);
      AskedFor(a, got, region, nunits);
    } else {
      assert HasBlock(a', nunits);
    }
  }

  /** A free unit of the old heap is free in the extended one, and conversely. */
  lemma ExtendedFree(a: Arena, a': Arena, region: nat, n: nat, u: nat)
    requires Layout(a) && Layout(a') && Extended(a, a', region, n) && FitsAbove(a, region) && region != 0
    ensures u < region ==> (FreeUnit(a', u) <==> FreeUnit(a, u))
    ensures region <= u < region + n ==> FreeUnit(a', u)
    ensures u >= region + n ==> !FreeUnit(a', u)
  {
    assert u in Span(region, n) <==> region <= u < region + n;
    if u in a'.at {
      assert UnitAt(a', u);
      var c := a'.at[u];
      if c in a.live {
        assert BlockAt(a, c) && FillAt(a, c, u);
      }
    }
    if u in a.at {
      assert UnitAt(a, u);
      var c := a.at[u];
      assert c in a.live ==> FillAt(a', c, u);
    }
  }

  /** Only the block that took in the new region can have become large enough. */
  lemma EndsAtTop(a: Arena, a': Arena, region: nat, nunits: nat, i: nat)
    requires Layout(a) && Layout(a') && Extended(a, a', region, Core(nunits)) && FitsAbove(a, region) && region != 0
    requires !HasBlock(a, nunits) && nunits > 0 && i < |a'.ring|
    requires a'.ring[i] in a'.size && a'.size[a'.ring[i]] >= nunits
    ensures a'.ring[i] + a'.size[a'.ring[i]] == region + Core(nunits)
  {
    var n, c := Core(nunits), a'.ring[i];
    var e := c + a'.size[c];
    RingSorted(a', 0, i);
    LiveNotFree(a', i);
    forall u | c <= u < e
      ensures FreeUnit(a', u) && u in a'.at && a'.at[u] == c
    {
      assert FillAt(a', c, u);
    }
    ExtendedFree(a, a', region, n, e - 1);
    if e <= region {
      forall u | c <= u <= e - 1
        ensures FreeUnit(a, u)
      {
        ExtendedFree(a, a', region, n, u);
      }
      OldBlock(a, c, e, nunits);
    } else {
      var top := region + n - 1;
      forall u | e - 1 <= u <= top
        ensures FreeUnit(a', u)
      {
        ExtendedFree(a, a', region, n, u);
      }
      FreeRun(a', e - 1, top);
      assert UnitAt(a', top);
    }
  }

  /** A run of nunits free units lies in a free block at least as large. */
  lemma OldBlock(a: Arena, lo: nat, hi: nat, nunits: nat)
    requires Layout(a) && 0 < nunits <= hi - lo && forall u :: lo <= u <= hi - 1 ==> FreeUnit(a, u)
    ensures HasBlock(a, nunits)
  {
    FreeRun(a, lo, hi - 1);
    assert FreeUnit(a, lo) && UnitAt(a, lo) && UnitAt(a, hi - 1);
    var b := a.at[lo];
    var g :| 0 <= g < |a.ring| && a.ring[g] == b;
  }

  lemma Regrow(a: Arena, got: set<nat>, a': Arena, got': set<nat>, a'': Arena, got'': set<nat>, region: nat,
               nunits: nat)
    requires Looked(a, got, a', got', region, nunits, false)
    requires Layout(a') && Layout(a'') && !HasBlock(a', nunits) && nunits > 0
    requires Extended(a', a'', region, Core(nunits)) && region != 0 && HasBlock(a'', nunits)
    requires got'' == Sbrk(got', region, AsInt(Core(nunits) * 16))
    ensures Regrown(a, got, a'', got'', region, nunits)
  {
    forall i | 0 <= i < |a''.ring|
      ensures TopAt(a'', region, nunits, i)
    {
      if a''.ring[i] in a''.size && a''.size[a''.ring[i]] >= nunits {
        EndsAtTop(a', a'', region, nunits, i);
      }
    }
  }

  const CORELIMIT := 0x800_0000

  /** Conversion of an unsigned long to the int parameter of sbrk. */
  function AsInt(x: nat): (y: int) {
    var w := x % 0x1_0000_0000;
    if w < 0x8000_0000 then w else w - 0x1_0000_0000
  }

  /** (nbytes + sizeof(Header) - 1) / sizeof(Header) + 1, a uint argument widened. */
  function Units(nbytes: nat): (n: nat) { (nbytes + 15) / 16 + 1 }

  /** The units morecore records. */
  function Core(nu: nat): (n: nat) { if nu < 4096 then 4096 else nu }

  /** sbrk(n), with the break at region, for an n that is a multiple of the size
      of a Header: the break moves by n, up or down. Below 0 it wraps, and the call
      changes nothing. */
  function Sbrk(got: set<nat>, region: nat, n: int): (r: set<nat>) {
    if n >= 0 then got + Span(region, n / 16)
    else if region + n / 16 < 0 then got
    else set u | u in got && u < region + n / 16
  }

  /** morecore is granted the units it records exactly below 2^27 of them, that
      is for requests of at most 2^31 - 32 bytes. */
  lemma AskedFor(a: Arena, got: set<nat>, region: nat, nu: nat)
    requires FitsAbove(a, region) && region != 0
    ensures a.at.Keys == got ==>
              (a.at.Keys + Span(region, Core(nu)) == Sbrk(got, region, AsInt(Core(nu) * 16)) <==> nu < CORELIMIT)
  {
    var n := Core(nu);
    var m := AsInt(n * 16);
    if nu < CORELIMIT {
      assert m == n * 16;
    } else {
      assert m < n * 16;
      var top := region + n - 1;
      assert top in Span(region, n) && (a.at.Keys == got ==> top !in got);
      assert top !in got ==> top !in Sbrk(got, region, m);
    }
  }

  /** The limit in bytes. */
  lemma LimitInBytes(nbytes: nat)
    ensures Units(nbytes) < CORELIMIT <==> nbytes <= 0x8000_0000 - 32
  {
  }

  /** A request for 4 GB less a byte: sbrk grants one unit, the header, and none of
      what malloc then hands out was obtained. */
  lemma NothingGranted(a: Arena, got: set<nat>, a': Arena, got': set<nat>, region: nat, ap: nat, u: nat)
    requires Outcome(a, got, a', got', region, Units(0xFFFF_FFFF), ap) && a.at.Keys == got
    requires !HasBlock(a, Units(0xFFFF_FFFF)) && region != 0 && FitsAbove(a, region)
    ensures ap == region + 1 && got' == got + {region} && a'.size[region] == 0x1000_0001
    ensures ap <= u < region + a'.size[region] ==> u in a'.at && u !in got'
  {
    assert AsInt(Core(Units(0xFFFF_FFFF)) * 16) == 16;
    assert Span(region, 1) == {region};
    assert u in Span(region, 0x1000_0001) <==> region <= u < region + 0x1000_0001;
  }

  ghost predicate FitsAbove(a: Arena, region: nat) {
    region == 0 || (region > a.base && forall u :: u in a.at ==> u < region)
  }

  /** The live blocks are untouched; exactly the n units from region were added. */
  ghost predicate Extended(a: Arena, a': Arena, region: nat, n: nat) {
    Kept(a, a') && a'.at.Keys == a.at.Keys + Span(region, n)
  }

  ghost predicate HasBlock(a: Arena, nu: nat) {
    exists g :: 0 <= g < |a.ring| && a.ring[g] in a.size && a.size[a.ring[g]] >= nu
  }

  /** p is a new live block of n units; the other live blocks are untouched. */
  ghost predicate Allocated(a: Arena, a': Arena, p: nat, n: nat) {
    && p !in a.live && a'.live == a.live + {p} && p in a'.size && a'.size[p] == n && a'.base == a.base
    && forall c :: c in a.live ==> c in a.size && c in a'.size && a'.size[c] == a.size[c]
  }

  lemma LiveSized(a: Arena)
    requires Layout(a)
    ensures forall c :: c in a.live ==> c in a.size
  {
    forall c | c in a.live
      ensures c in a.size
    {
      assert BlockAt(a, c);
    }
  }

  lemma AboveBase(a: Arena, p: nat)
    requires Layout(a) && p in a.ring
    ensures p >= a.base
  {
    var i :| 0 <= i < |a.ring| && a.ring[i] == p;
    RingSorted(a, 0, i);
  }

  lemma CoreFreed(a: Arena, a': Arena, a'': Arena, h: nat, n: nat, nu: nat)
    requires Layout(a) && nu <= n && 0 < n && !Block(a, h) && h !in a.at && a' == AddCore(a, h, n) && Freed(a', a'', h)
    ensures Extended(a, a'', h, n) && HasBlock(a'', nu)
  {
    LiveSized(a);
    var c := a''.at[h];
    var g :| 0 <= g < |a''.ring| && a''.ring[g] == c;
    assert h in a'.at;
  }

  /** bp, still live, has taken over the block above it if that one touched it. */
  ghost predicate Joined(a: Arena, a': Arena, b: nat, k: nat) {
    && Layout(a') && a'.base == a.base && a'.live == a.live && a'.at.Keys == a.at.Keys
    && b in a'.live && b !in a'.ring && b in a'.size && k < |a'.ring| && a'.ring[k] < b
    && (k + 1 < |a'.ring| ==> b + a'.size[b] < a'.ring[k + 1])
    && (forall c :: c in a'.live && c != b ==> c in a.size && c in a'.size && a'.size[c] == a.size[c])
    && b in a.size && a'.size[b] >= a.size[b]
  }

  lemma NeverTouchesBase(a: Arena, b: nat, k: nat)
    requires Layout(a) && b in a.live && b in a.size && b > a.base && k < |a.ring|
    ensures b + a.size[b] == a.ring[Next(k, |a.ring|)] ==> k + 1 < |a.ring|
  {
  }

  lemma LinksOther(ptr: map<nat, nat>, ring: seq<nat>, but: int, b: nat, x: nat)
    requires Links(ptr, ring, but) && b !in ring
    ensures Links(ptr[b := x], ring, but)
  {
    var ptr' := ptr[b := x];
    forall i | 0 <= i < |ring| && i != but
      ensures LinkAt(ptr', ring, i)
    {
      assert LinkAt(ptr, ring, i);
    }
  }

  lemma JoinUp(a: Arena, ptr: map<nat, nat>, b: nat, k: nat)
    requires Layout(a) && Links(ptr, a.ring, -1) && b in a.live && b in a.size && b !in a.ring && k + 1 < |a.ring|
    requires a.ring[k] < b && a.ring[k + 1] in a.size && b + a.size[b] == a.ring[k + 1]
    ensures Joined(a, Absorb(a, b, k), b, k) && Absorb(a, b, k).ring[k] == a.ring[k]
    ensures a.ring[k] in ptr && ptr[a.ring[k]] == a.ring[k + 1] && a.ring[k + 1] in ptr
    ensures var ring' := Without(a.ring, k + 1); var x := ptr[a.ring[k + 1]];
            x == ring'[Next(k, |ring'|)] && Links(ptr[b := x], ring', k)
  {
    AbsorbLayout(a, b, k);
    LinksWithout(a, ptr, k + 1);
    LinksOther(ptr, Without(a.ring, k + 1), k, b, ptr[a.ring[k + 1]]);
    if k + 2 < |a.ring| {
      assert GapAt(a, k + 1, k + 2);
    }
    forall c | c in a.live
      ensures c in a.size
    {
      assert BlockAt(a, c);
    }
  }

  lemma JoinNone(a: Arena, ptr: map<nat, nat>, b: nat, k: nat)
    requires Layout(a) && Links(ptr, a.ring, -1) && b in a.live && b in a.size && b !in a.ring
    requires a.base < b && k == Below(a, b, |a.ring|) && b + a.size[b] != a.ring[Next(k, |a.ring|)]
    ensures Joined(a, a, b, k) && Links(ptr[b := a.ring[Next(k, |a.ring|)]], a.ring, k)
  {
    LinksOther(ptr, a.ring, k, b, a.ring[Next(k, |a.ring|)]);
    if k + 1 < |a.ring| {
      RingSorted(a, 0, k + 1);
      Apart(a, b, a.ring[k + 1]);
    }
    forall c | c in a.live
      ensures c in a.size
    {
      assert BlockAt(a, c);
    }
  }

  lemma LiveNotFree(a: Arena, k: nat)
    requires Layout(a) && k < |a.ring|
    ensures a.ring[k] !in a.live
  {
    assert BlockAt(a, a.ring[k]);
  }

  lemma StaysBelow(a: Arena, b: nat, k: nat)
    requires Layout(a) && b in a.live && k < |a.ring| && a.ring[k] < b
    ensures a.ring[k] in a.size && a.ring[k] + a.size[a.ring[k]] <= b
  {
    RingSorted(a, 0, k);
    if k > 0 {
      Apart(a, a.ring[k], b);
    }
  }

  /** Either exit of free's loop is taken only at the right element. */
  lemma FindStep(a: Arena, ptr: map<nat, nat>, b: nat, k: nat)
    requires Layout(a) && k < |a.ring| && LinkAt(ptr, a.ring, k) && a.base < b && b !in a.ring
    ensures var p := a.ring[k];
            (b > p && b < ptr[p]) || (p >= ptr[p] && (b > p || b < ptr[p])) <==> k == Below(a, b, |a.ring|)
  {
    var n, j := |a.ring|, Below(a, b, |a.ring|);
    RingSorted(a, k, Next(k, n));
    RingSorted(a, 0, k);
    RingSorted(a, k, j);
    if k + 1 < n {
      RingSorted(a, k, k + 1);
      if a.ring[k] < b < a.ring[k + 1] {
        BelowIs(a, b, k);
      }
    } else if a.ring[k] < b {
      BelowIs(a, b, k);
    }
  }

  /** free undoes malloc: the free list is what it was, element by element. */
  lemma FreeUndoesMalloc(a: Arena, a': Arena, a'': Arena, p: nat, n: nat)
    requires Layout(a) && Allocated(a, a', p, n) && a'.at.Keys == a.at.Keys && Freed(a', a'', p)
    ensures a''.ring == a.ring && a''.live == a.live
    ensures forall i :: 0 <= i < |a.ring| ==>
              a.ring[i] in a.size && a.ring[i] in a''.size && a''.size[a.ring[i]] == a.size[a.ring[i]]
  {
    assert a''.live == a.live;
    Canonical(a, a'');
  }
}
