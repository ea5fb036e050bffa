/**
 What mapping pages costs (kernel/vm.c, walk with alloc set): one page for each
 page table that is on the way to the mapped pages and does not exist yet. This
 is what decides whether mappages, uvmalloc, uvmcopy and proc_pagetable succeed.
 */
module PageCost {
  import opened VmModel

  /** x is the place of a page table of address space r below its root. */
  predicate IsLink(x: Pos, r: nat) { IsPos(x) && (x.L1? || x.L0?) && x.r == r }

  ghost function Links(r: nat): (xs: set<Pos>)
    ensures forall x :: x in xs <==> IsLink(x, r)
  {
    (set i: nat | i < NTOP :: L1(r, i)) + (set i: nat, j: nat | i < NTOP && j < NPTE :: L0(r, i, j))
  }

  /** A walk to one of the pages lo..hi goes through x. */
  predicate OnPath(x: Pos, lo: nat, hi: nat)
    requires x.L1? || x.L0?
  {
    && lo < hi
    && if x.L1? then lo / (NPTE * NPTE) <= x.i <= (hi - 1) / (NPTE * NPTE)
       else lo / NPTE <= x.i * NPTE + x.j <= (hi - 1) / NPTE
  }

  predicate Has(s: State, x: Pos)
    requires Shape(s) && IsPos(x) && Refers(x)
  {
    Ptr(s, x) != 0
  }

  /** The tables that walks to the pages lo..hi need and that do not exist. */
  ghost function Lacks(s: State, r: nat, lo: nat, hi: nat): (xs: set<Pos>)
    requires Shape(s)
  {
    set x | x in Links(r) && OnPath(x, lo, hi) && !Has(s, x)
  }

  ghost predicate TabledAt(s: State, t: State, lo: nat, hi: nat, x: Pos)
    requires Shape(s) && Shape(t) && IsPos(x) && (x.L1? || x.L0?)
  {
    Has(t, x) <==> Has(s, x) || OnPath(x, lo, hi)
  }

  /** From s to t exactly those have been added. */
  ghost predicate Tabled(s: State, t: State, r: nat, lo: nat, hi: nat) {
    && Shape(s) && Shape(t)
    && forall x {:trigger TabledAt(s, t, lo, hi, x)} :: IsLink(x, r) ==> TabledAt(s, t, lo, hi, x)
  }

  /** And each took one free page, as did extra other things. */
  ghost predicate Paid(s: State, t: State, r: nat, lo: nat, hi: nat, extra: nat) {
    Tabled(s, t, r, lo, hi) && |t.free| + |Lacks(s, r, lo, hi)| + extra == |s.free|
  }

  /** There are not enough free pages for that. */
  ghost predicate Short(s: State, r: nat, lo: nat, hi: nat, extra: nat) {
    Shape(s) && |s.free| < |Lacks(s, r, lo, hi)| + extra
  }

  ghost predicate PaidOne(s: State, t: State, r: nat, v: nat) { Paid(s, t, r, v, v + 1, 0) }
  ghost predicate ShortOne(s: State, r: nat, v: nat) { Short(s, r, v, v + 1, 0) }

  // ----- one link -----

  ghost predicate LinkedAt(s: State, t: State, x: Pos, y: Pos)
    requires Shape(s) && Shape(t) && IsPos(y) && Refers(y)
  {
    Has(t, y) <==> Has(s, y) || y == x
  }

  /** One level of walk: the table at x is there, at the price of a page if it was
      not there before. */
  ghost predicate Climbed(s: State, t: State, r: nat, x: Pos) {
    && Shape(s) && Shape(t) && IsLink(x, r)
    && (forall y {:trigger LinkedAt(s, t, x, y)} :: IsLink(y, r) ==> LinkedAt(s, t, x, y))
    && |t.free| + (if Has(s, x) then 0 else 1) == |s.free|
  }

  lemma ClimbedThere(s: State, r: nat, x: Pos)
    requires Shape(s) && IsLink(x, r) && Has(s, x)
    ensures Climbed(s, s, r, x)
  {
    forall y | IsLink(y, r)
      ensures LinkedAt(s, s, x, y)
    {
    }
  }

  /** walk's allocation: nothing but x gains a table. */
  lemma LinkClimbs(s: State, owner: map<nat, Pos>, x: Pos, q: nat, idx: nat)
    requires Owns(s, owner) && s.free != [] && IsPos(x) && (x.L1? || x.L0?) && IsRoot(owner, x.r) && Ptr(s, x) == 0
    requires (x.L1? && q == x.r && idx == x.i) || (x.L0? && q == P1(s, x.r, x.i) != 0 && idx == x.j)
    requires q in s.tables && idx < NPTE
    ensures var u := s.(free := s.free[1..]);
            s.free[0] != 0 && Climbed(s, Put(Fresh(u, s.free[0]), q, idx, Pte(s.free[0], PTE_V)), x.r, x)
  {
    var p := s.free[0];
    var u, owner' := s.(free := s.free[1..]), owner[p := Loose];
    KallocOwns(s, owner);
    var e := Pte(p, PTE_V);
    var t := Put(Fresh(u, p), q, idx, e);
    LinkRetargets(u, owner', x, q, idx, p);
    forall y | IsLink(y, x.r)
      ensures LinkedAt(s, t, x, y)
    {
      assert RetargetAt(u, t, x, p, y);
    }
  }

  lemma LinkRetargets(s: State, owner: map<nat, Pos>, x: Pos, q: nat, idx: nat, p: nat)
    requires Owns(s, owner) && IsPos(x) && Refers(x) && IsRoot(owner, x.r) && Ptr(s, x) == 0
    requires (x.L1? && q == x.r && idx == x.i) || (x.L0? && q == P1(s, x.r, x.i) != 0 && idx == x.j)
    requires p in owner && owner[p].Loose? && p != 0 && q in s.tables && idx < NPTE
    ensures Retargeted(s, Put(Fresh(s, p), q, idx, Pte(p, PTE_V)), owner, x, p)
  {
    var e := Pte(p, PTE_V);
    var t := Put(Fresh(s, p), q, idx, e);
    assert PageAt(s, owner, p) && PageAt(s, owner, q);
    if x.L0? {
      assert PosAt(s, owner, L1(x.r, x.i));
    }
    forall page, k | 0 <= k < NPTE && (page != q || k != idx)
      ensures SameEntryAt(s, t, page, k)
    {
    }
    assert Changed(s, t, q, idx, e);
    assert Empty(s, p);
    assert LevelAt(s, owner, q, idx);
    TableRetargets(s, t, owner, x, q, idx, e);
  }

  // ----- one page -----

  lemma PathOne(x: Pos, r: nat, v: nat, next: nat)
    requires IsLink(x, r) && v < MAXVPN && next == v + 1
    ensures OnPath(x, v, next) <==> x == L1(r, Px2(v)) || x == L0(r, Px2(v), Px1(v))
  {
    Rebuild(v);
    var i, j, k := Px2(v), Px1(v), Px0(v);
    assert v / NPTE == i * NPTE + j;
    assert v / (NPTE * NPTE) == i;
    if x.L0? {
      SameSplit(x.i, x.j, i, j);
    }
  }

  lemma SameSplit(a: nat, b: nat, i: nat, j: nat)
    requires b < NPTE && j < NPTE
    ensures a * NPTE + b == i * NPTE + j <==> a == i && b == j
  {
  }

  lemma LacksOne(s: State, r: nat, v: nat, next: nat)
    requires Shape(s) && v < MAXVPN && next == v + 1
    ensures IsLink(L1(r, Px2(v)), r) && IsLink(L0(r, Px2(v), Px1(v)), r)
    ensures |Lacks(s, r, v, next)| ==
            (if Has(s, L1(r, Px2(v))) then 0 else 1) + if Has(s, L0(r, Px2(v), Px1(v))) then 0 else 1
  {
    Rebuild(v);
    var x, y := L1(r, Px2(v)), L0(r, Px2(v), Px1(v));
    var a, b := if Has(s, x) then {} else {x}, if Has(s, y) then {} else {y};
    forall z
      ensures z in Lacks(s, r, v, next) <==> z in a + b
    {
      if IsLink(z, r) {
        PathOne(z, r, v, next);
      }
    }
    assert Lacks(s, r, v, next) == a + b;
  }

  /** Both levels of a walk. */
  lemma WalkPaid(s: State, mid: State, t: State, r: nat, v: nat)
    requires v < MAXVPN
    requires Climbed(s, mid, r, L1(r, Px2(v))) && Climbed(mid, t, r, L0(r, Px2(v), Px1(v)))
    ensures PaidOne(s, t, r, v)
  {
    var next := v + 1;
    var x, y := L1(r, Px2(v)), L0(r, Px2(v), Px1(v));
    LacksOne(s, r, v, next);
    assert LinkedAt(s, mid, x, y);
    forall z | IsLink(z, r)
      ensures TabledAt(s, t, v, next, z)
    {
      PathOne(z, r, v, next);
      assert LinkedAt(s, mid, x, z) && LinkedAt(mid, t, y, z);
    }
  }

  /** A walk that stops at the first level, or at the second. */
  lemma WalkShort(s: State, mid: State, r: nat, v: nat)
    requires v < MAXVPN && Shape(s) && Shape(mid) && mid.free == []
    requires (mid == s && P1(s, r, Px2(v)) == 0)
             || (Climbed(s, mid, r, L1(r, Px2(v))) && P0(mid, r, Px2(v), Px1(v)) == 0)
    ensures ShortOne(s, r, v)
  {
    LacksOne(s, r, v, v + 1);
    if !(mid == s && P1(s, r, Px2(v)) == 0) {
      assert LinkedAt(s, mid, L1(r, Px2(v)), L0(r, Px2(v), Px1(v)));
    }
  }

  /** Setting a last-level entry adds no table. */
  lemma PutPays(s: State, t: State, owner: map<nat, Pos>, r: nat, v: nat, e: Pte)
    requires Owns(t, owner) && IsRoot(owner, r) && v < MAXVPN && GoodLeaf(e)
    requires PaidOne(s, t, r, v) && P0(t, r, Px2(v), Px1(v)) != 0
    ensures var q := P0(t, r, Px2(v), Px1(v)); q in t.tables && PaidOne(s, Put(t, q, Px0(v), e), r, v)
  {
    var next := v + 1;
    PutLeafChanged(t, owner, r, v, e);
    var q := P0(t, r, Px2(v), Px1(v));
    var u := Put(t, q, Px0(v), e);
    forall x | IsLink(x, r)
      ensures TabledAt(s, u, v, next, x)
    {
      ChangedLast(t, u, owner, q, Px0(v), e, r, x.i, if x.L0? then x.j else 0);
      assert TabledAt(s, t, v, next, x);
    }
  }

  // ----- many pages -----

  lemma PaidNone(s: State, r: nat, lo: nat)
    requires Shape(s)
    ensures Paid(s, s, r, lo, lo, 0)
  {
    forall x | IsLink(x, r)
      ensures TabledAt(s, s, lo, lo, x)
    {
    }
    assert Lacks(s, r, lo, lo) == {};
  }

  lemma PathMore(x: Pos, r: nat, lo: nat, hi: nat, next: nat)
    requires IsLink(x, r) && lo <= hi && next == hi + 1
    ensures OnPath(x, lo, next) <==> OnPath(x, lo, hi) || OnPath(x, hi, next)
  {
    if lo < hi {
      Steps(hi, NPTE);
      Steps(hi, NPTE * NPTE);
    }
  }

  /** Quotients grow by at most one from number to number. */
  lemma Steps(hi: nat, d: nat)
    requires hi > 0 && (d == NPTE || d == NPTE * NPTE)
    ensures (hi - 1) / d <= hi / d <= (hi - 1) / d + 1
  {
  }

  /** What the next page lacks is what it alone needs. */
  lemma LacksMore(s: State, t: State, r: nat, lo: nat, hi: nat, next: nat)
    requires Tabled(s, t, r, lo, hi) && lo <= hi && next == hi + 1
    ensures |Lacks(s, r, lo, next)| == |Lacks(s, r, lo, hi)| + |Lacks(t, r, hi, next)|
  {
    forall x
      ensures x in Lacks(s, r, lo, next) <==> x in Lacks(s, r, lo, hi) || x in Lacks(t, r, hi, next)
      ensures x !in Lacks(s, r, lo, hi) || x !in Lacks(t, r, hi, next)
    {
      if IsLink(x, r) {
        PathMore(x, r, lo, hi, next);
        assert TabledAt(s, t, lo, hi, x);
      }
    }
    assert Lacks(s, r, lo, next) == Lacks(s, r, lo, hi) + Lacks(t, r, hi, next);
    assert Lacks(s, r, lo, hi) !! Lacks(t, r, hi, next);
  }

  lemma PaidMore(s: State, t: State, u: State, r: nat, lo: nat, hi: nat, next: nat, extra: nat, more: nat)
    requires Paid(s, t, r, lo, hi, extra) && Paid(t, u, r, hi, next, more) && lo <= hi && next == hi + 1
    ensures Paid(s, u, r, lo, next, extra + more)
  {
    LacksMore(s, t, r, lo, hi, next);
    forall x | IsLink(x, r)
      ensures TabledAt(s, u, lo, next, x)
    {
      PathMore(x, r, lo, hi, next);
      assert TabledAt(s, t, lo, hi, x) && TabledAt(t, u, hi, next, x);
    }
  }

  lemma LacksGrow(s: State, r: nat, lo: nat, hi: nat, end: nat)
    requires Shape(s) && lo <= hi <= end
    ensures |Lacks(s, r, lo, hi)| <= |Lacks(s, r, lo, end)|
  {
    var a, b := Lacks(s, r, lo, hi), Lacks(s, r, lo, end);
    forall x | x in a
      ensures x in b
    {
      var d := NPTE * NPTE;
      assert (hi - 1) / NPTE <= (end - 1) / NPTE && (hi - 1) / d <= (end - 1) / d;
    }
    Smaller(a, b);
  }

  lemma Smaller<T>(a: set<T>, b: set<T>)
    requires a <= b
    ensures |a| <= |b|
  {
    assert b == a + (b - a);
  }

  /** Short on the way to hi is short on the way to end. */
  lemma ShortMore(s: State, t: State, r: nat, lo: nat, hi: nat, next: nat, end: nat, extra: nat, more: nat, all: nat)
    requires Paid(s, t, r, lo, hi, extra) && Short(t, r, hi, next, more)
    requires lo <= hi && next == hi + 1 <= end && extra + more <= all
    ensures Short(s, r, lo, end, all)
  {
    LacksMore(s, t, r, lo, hi, next);
    LacksGrow(s, r, lo, next, end);
  }

  /** At most two tables a page. */
  lemma {:induction false} LacksAtMost(s: State, r: nat, lo: nat, hi: nat)
    requires Shape(s) && lo <= hi <= MAXVPN
    ensures |Lacks(s, r, lo, hi)| <= 2 * (hi - lo)
    decreases hi
  {
    if lo == hi {
      assert Lacks(s, r, lo, hi) == {};
    } else {
      var v := hi - 1;
      LacksAtMost(s, r, lo, v);
      var a, b := Lacks(s, r, lo, v), Lacks(s, r, v, hi);
      LacksOne(s, r, v, hi);
      forall x | x in Lacks(s, r, lo, hi)
        ensures x in a + b
      {
        PathMore(x, r, lo, v, hi);
      }
      Smaller(Lacks(s, r, lo, hi), a + b);
      assert |a + b| <= |a| + |b| by {
        assert a + b == a + (b - a);
        Smaller(b - a, b);
      }
    }
  }
}
