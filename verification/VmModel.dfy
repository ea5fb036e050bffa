/**
 Page tables and physical pages (kernel/vm.c, kernel/kalloc.c) as values: a
 free list, the contents of page-table pages, and for each page in use the one
 place that refers to it. Addresses are page numbers; a page-table page holds
 512 entries (Sv39, section 4.4 of the RISC-V Privileged Architecture).
 */
module VmModel {

  const NPTE := 512
  // MAXVA is 2^38, so the top-level index stays below 256.
  const NTOP := 256
  const MAXVPN := NTOP * NPTE * NPTE

  const PGSIZE := 4096
  // The end of the RAM the kernel uses.
  const PHYSTOP := 0x8800_0000

  /** PGROUNDUP(sz) in pages. */
  function Up(sz: nat): (n: nat) { (sz + PGSIZE - 1) / PGSIZE }

  /** ppn and the low ten flag bits of a 64-bit entry. */
  datatype Pte = Pte(ppn: nat, flags: nat)

  const PTE_V := 1
  const PTE_R := 2
  const PTE_W := 4
  const PTE_X := 8
  const PTE_U := 16

  predicate V(e: Pte) { e.flags % 2 == 1 }
  predicate Leafy(e: Pte) { (e.flags / 2) % 8 != 0 }
  predicate User(e: Pte) { (e.flags / 16) % 2 == 1 }
  const ZERO := Pte(0, 0)

  /** PA2PTE(pa) | flags, and PTE2PA and PTE_FLAGS, on page numbers. */
  function Encode(e: Pte): (x: nat) { e.ppn * 1024 + e.flags }
  function Decode(x: nat): (e: Pte) { Pte(x / 1024, x % 1024) }

  /** The pair is the whole entry: nothing of either is lost in the other. */
  lemma PteRoundTrip(e: Pte, x: nat)
    requires e.flags < 1024
    ensures Decode(Encode(e)) == e && Encode(Decode(x)) == x && Decode(x).flags < 1024
  {
  }

  // ----- the index split of a virtual page number -----

  function Px2(vpn: nat): (i: nat) { (vpn / (NPTE * NPTE)) % NPTE }
  function Px1(vpn: nat): (i: nat) { (vpn / NPTE) % NPTE }
  function Px0(vpn: nat): (i: nat) { vpn % NPTE }

  /** Below MAXVA the three indices determine the page. */
  lemma SplitInjective(u: nat, v: nat)
    requires u < MAXVPN && v < MAXVPN && Px2(u) == Px2(v) && Px1(u) == Px1(v) && Px0(u) == Px0(v)
    ensures u == v
  {
    Rebuild(u);
    Rebuild(v);
  }

  lemma Rebuild(u: nat)
    requires u < MAXVPN
    ensures u == Px2(u) * (NPTE * NPTE) + Px1(u) * NPTE + Px0(u)
    ensures Px2(u) < NTOP && Px1(u) < NPTE && Px0(u) < NPTE
  {
    var q := u / NPTE;
    assert u == q * NPTE + u % NPTE;
    assert q == (q / NPTE) * NPTE + q % NPTE;
    assert q / NPTE == u / (NPTE * NPTE);
  }

  // ----- pages and the places that refer to them -----

  /** Who refers to a page: nobody but kernel code (Loose), a process (Root),
      an upper-level entry (L1, L0), or a user leaf. */
  datatype Pos = Loose | Root | L1(r: nat, i: nat) | L0(r: nat, i: nat, j: nat) | Leaf(r: nat, vpn: nat)

  datatype State = State(free: seq<nat>, tables: map<nat, seq<Pte>>)

  ghost predicate Shape(s: State) {
    && 0 !in s.tables
    && forall p :: p in s.tables ==> |s.tables[p]| == NPTE
  }

  function Entry(s: State, page: nat, idx: nat): (e: Pte)
    requires Shape(s) && idx < NPTE
  {
    if page in s.tables then s.tables[page][idx] else ZERO
  }

  /** The page a valid entry names; 0 if the entry is not valid. */
  function Target(e: Pte): (p: nat) { if V(e) then e.ppn else 0 }

  function P1(s: State, r: nat, i: nat): (p: nat)
    requires Shape(s) && i < NPTE
  {
    Target(Entry(s, r, i))
  }

  function P0(s: State, r: nat, i: nat, j: nat): (p: nat)
    requires Shape(s) && i < NPTE && j < NPTE
  {
    if P1(s, r, i) == 0 then 0 else Target(Entry(s, P1(s, r, i), j))
  }

  /** The flat map a three-level tree stands for: the entry walk reaches. */
  function At(s: State, r: nat, vpn: nat): (e: Pte)
    requires Shape(s) && vpn < MAXVPN
  {
    var p := P0(s, r, Px2(vpn), Px1(vpn));
    if p == 0 then ZERO else Entry(s, p, Px0(vpn))
  }

  // TRAMPOLINE and TRAPFRAME: the two top pages, not user memory.
  const TRAMPOLINE := MAXVPN - 1
  const TRAPFRAME := MAXVPN - 2

  predicate IsPos(x: Pos) {
    match x
    case Loose => true
    case Root => true
    case L1(_, i) => i < NTOP
    case L0(_, i, j) => i < NTOP && j < NPTE
    case Leaf(_, vpn) => vpn < TRAPFRAME
  }

  predicate Refers(x: Pos) { x.L1? || x.L0? || x.Leaf? }

  function Ptr(s: State, x: Pos): (p: nat)
    requires Shape(s) && IsPos(x) && Refers(x)
  {
    match x
    case L1(r, i) => P1(s, r, i)
    case L0(r, i, j) => P0(s, r, i, j)
    case Leaf(r, vpn) => Target(At(s, r, vpn))
  }

  predicate IsTable(x: Pos) { x.Root? || x.L1? || x.L0? }

  ghost predicate IsRoot(owner: map<nat, Pos>, r: nat) { r in owner && owner[r].Root? }

  /** Whatever position x refers to is a page owned by x alone. */
  ghost predicate PosAt(s: State, owner: map<nat, Pos>, x: Pos)
    requires Shape(s) && IsPos(x) && Refers(x)
  {
    IsRoot(owner, x.r) && Ptr(s, x) != 0 ==> Ptr(s, x) in owner && owner[Ptr(s, x)] == x
  }

  ghost predicate PageAt(s: State, owner: map<nat, Pos>, p: nat)
    requires Shape(s) && p in owner
  {
    && p != 0 && IsPos(owner[p])
    && (Refers(owner[p]) ==> IsRoot(owner, owner[p].r) && Ptr(s, owner[p]) == p)
    && (IsTable(owner[p]) <==> p in s.tables)
  }

  /** Entries of upper levels are plain pointers; entries of the last are leaves. */
  ghost predicate LevelAt(s: State, owner: map<nat, Pos>, p: nat, idx: nat)
    requires Shape(s) && p in owner && idx < NPTE
  {
    IsTable(owner[p]) ==>
      var e := Entry(s, p, idx);
      if !V(e) || (owner[p].Root? && idx >= NTOP) then e == ZERO
      else e.ppn != 0 && if owner[p].L0? then Leafy(e) else e.flags == PTE_V
  }

  ghost predicate FreeAt(s: State, owner: map<nat, Pos>, k: nat)
    requires k < |s.free|
  {
    s.free[k] != 0 && s.free[k] !in owner
  }

  ghost predicate ApartAt(free: seq<nat>, j: nat, k: nat)
    requires j < |free| && k < |free|
  {
    j != k ==> free[j] != free[k]
  }

  ghost predicate Apart(free: seq<nat>) {
    forall j, k {:trigger ApartAt(free, j, k)} :: 0 <= j < |free| && 0 <= k < |free| ==> ApartAt(free, j, k)
  }

  ghost predicate Owns(s: State, owner: map<nat, Pos>) {
    && Shape(s)
    && (forall p :: p in s.tables ==> p in owner)
    && (forall x {:trigger PosAt(s, owner, x)} :: IsPos(x) && Refers(x) ==> PosAt(s, owner, x))
    && (forall p {:trigger PageAt(s, owner, p)} :: p in owner ==> PageAt(s, owner, p))
    && (forall p, idx {:trigger LevelAt(s, owner, p, idx)} ::
             p in owner && 0 <= idx < NPTE ==> LevelAt(s, owner, p, idx))
    && (forall k {:trigger FreeAt(s, owner, k)} :: 0 <= k < |s.free| ==> FreeAt(s, owner, k))
    && Apart(s.free)
  }

  /** Every page the allocator manages: on the free list or owned, never both. */
  ghost function Pages(s: State, owner: map<nat, Pos>): (r: set<nat>) {
    (set p | p in s.free) + owner.Keys
  }

  // ----- one entry changes -----

  ghost predicate Empty(s: State, page: nat)
    requires Shape(s)
  {
    forall k :: 0 <= k < NPTE ==> Entry(s, page, k) == ZERO
  }

  ghost predicate SameEntryAt(s: State, t: State, page: nat, k: nat)
    requires Shape(s) && Shape(t) && k < NPTE
  {
    Entry(t, page, k) == Entry(s, page, k)
  }

  /** From s to t exactly entry idx of page q becomes e. Pages may become or
      stop being tables as long as they read as empty. */
  ghost predicate Changed(s: State, t: State, q: nat, idx: nat, e: Pte) {
    && Shape(s) && Shape(t) && idx < NPTE && Entry(t, q, idx) == e
    && forall page, k {:trigger SameEntryAt(s, t, page, k)} ::
            0 <= k < NPTE && (page != q || k != idx) ==> SameEntryAt(s, t, page, k)
  }

  /** A change in a root page: the tables below are empty before and after, so
      only that one first-level pointer changes. */
  lemma ChangedRoot(s: State, t: State, owner: map<nat, Pos>, q: nat, idx: nat, e: Pte, r: nat, i: nat, j: nat)
    requires Owns(s, owner) && Changed(s, t, q, idx, e) && IsRoot(owner, q) && IsRoot(owner, r) && i < NTOP && j < NPTE
    requires Target(Entry(s, q, idx)) != 0 ==> Empty(s, Target(Entry(s, q, idx)))
    requires Target(e) != 0 ==> Empty(s, Target(e)) && Target(e) != q
    ensures P1(t, r, i) == if r == q && i == idx then Target(e) else P1(s, r, i)
    ensures P0(t, r, i, j) == P0(s, r, i, j)
  {
    assert SameEntryAt(s, t, r, i) || (r == q && i == idx);
    if P1(t, r, i) != 0 {
      assert SameEntryAt(s, t, P1(t, r, i), j) || P1(t, r, i) == q;
    }
    if P1(s, r, i) != 0 {
      assert PosAt(s, owner, L1(r, i));
      assert SameEntryAt(s, t, P1(s, r, i), j);
    }
  }

  /** A change in a middle page: only that one second-level pointer changes. */
  lemma ChangedMiddle(s: State, t: State, owner: map<nat, Pos>, q: nat, idx: nat, e: Pte, r: nat, i: nat, j: nat)
    requires Owns(s, owner) && Changed(s, t, q, idx, e) && q in owner
    requires owner[q].L1? && IsRoot(owner, r) && i < NTOP && j < NPTE
    ensures P1(t, r, i) == P1(s, r, i)
    ensures P0(t, r, i, j) == if owner[q] == L1(r, i) && j == idx then Target(e) else P0(s, r, i, j)
  {
    assert SameEntryAt(s, t, r, i);
    assert PageAt(s, owner, q);
    if P1(s, r, i) != 0 {
      assert PosAt(s, owner, L1(r, i));
      assert SameEntryAt(s, t, P1(s, r, i), j) || (P1(s, r, i) == q && j == idx);
    }
  }

  /** A change in a last-level page: no table pointer changes. */
  lemma ChangedLast(s: State, t: State, owner: map<nat, Pos>, q: nat, idx: nat, e: Pte, r: nat, i: nat, j: nat)
    requires Owns(s, owner) && Changed(s, t, q, idx, e) && q in owner
    requires owner[q].L0? && IsRoot(owner, r) && i < NTOP && j < NPTE
    ensures P1(t, r, i) == P1(s, r, i) && P0(t, r, i, j) == P0(s, r, i, j)
  {
    assert SameEntryAt(s, t, r, i);
    if P1(s, r, i) != 0 {
      assert PosAt(s, owner, L1(r, i));
      assert SameEntryAt(s, t, P1(s, r, i), j);
    }
  }

  /** Changes to upper levels, with nothing below them, leave the flat map alone. */
  lemma ChangedUpperAt(s: State, t: State, owner: map<nat, Pos>, q: nat, idx: nat, e: Pte, r: nat, vpn: nat)
    requires Owns(s, owner) && Changed(s, t, q, idx, e) && q in owner && (owner[q].Root? || owner[q].L1?)
    requires IsRoot(owner, r) && vpn < MAXVPN
    requires Target(Entry(s, q, idx)) != 0 ==> Empty(s, Target(Entry(s, q, idx)))
    requires Target(e) != 0 ==> Empty(s, Target(e)) && Target(e) != q
    ensures At(t, r, vpn) == At(s, r, vpn)
  {
    var i, j, k := Px2(vpn), Px1(vpn), Px0(vpn);
    Rebuild(vpn);
    if owner[q].Root? {
      ChangedRoot(s, t, owner, q, idx, e, r, i, j);
    } else {
      ChangedMiddle(s, t, owner, q, idx, e, r, i, j);
    }
    if P0(t, r, i, j) != 0 {
      assert SameEntryAt(s, t, P0(t, r, i, j), k) || P0(t, r, i, j) == q;
    }
    if P0(s, r, i, j) != 0 {
      assert PosAt(s, owner, L0(r, i, j));
      assert SameEntryAt(s, t, P0(s, r, i, j), k);
    }
    assert PageAt(s, owner, q);
  }

  /** A change to the last-level entry of (r, vpn) changes the flat map there only. */
  lemma ChangedLastAt(s: State, t: State, owner: map<nat, Pos>, r: nat, vpn: nat, e: Pte, r': nat, vpn': nat)
    requires Owns(s, owner) && IsRoot(owner, r) && IsRoot(owner, r') && vpn < MAXVPN && vpn' < MAXVPN
    requires var q := P0(s, r, Px2(vpn), Px1(vpn)); q != 0 && Changed(s, t, q, Px0(vpn), e)
    ensures At(t, r', vpn') == if r' == r && vpn' == vpn then e else At(s, r', vpn')
  {
    var q := P0(s, r, Px2(vpn), Px1(vpn));
    Rebuild(vpn);
    Rebuild(vpn');
    assert PosAt(s, owner, L0(r, Px2(vpn), Px1(vpn)));
    ChangedLast(s, t, owner, q, Px0(vpn), e, r', Px2(vpn'), Px1(vpn'));
    var q' := P0(s, r', Px2(vpn'), Px1(vpn'));
    if q' != 0 {
      assert PosAt(s, owner, L0(r', Px2(vpn'), Px1(vpn')));
      assert SameEntryAt(s, t, q', Px0(vpn')) || (q' == q && Px0(vpn') == Px0(vpn));
      if q' == q && Px0(vpn') == Px0(vpn) {
        SplitInjective(vpn, vpn');
      }
    }
  }

  // ----- ownership follows -----

  /** Position x now refers to np; every other position is as before. */
  ghost predicate RetargetAt(s: State, t: State, x: Pos, np: nat, y: Pos)
    requires Shape(s) && Shape(t) && IsPos(y) && Refers(y)
  {
    Ptr(t, y) == if y == x then np else Ptr(s, y)
  }

  ghost predicate Retargeted(s: State, t: State, owner: map<nat, Pos>, x: Pos, np: nat) {
    && Shape(s) && Shape(t) && t.free == s.free
    && forall y {:trigger RetargetAt(s, t, x, np, y)} ::
            IsPos(y) && Refers(y) && IsRoot(owner, y.r) ==> RetargetAt(s, t, x, np, y)
  }

  /** The page x used to refer to becomes Loose and the one it now refers to,
      Loose before, becomes x's. */
  ghost function Moved(s: State, owner: map<nat, Pos>, x: Pos, np: nat): (r: map<nat, Pos>)
    requires Shape(s) && IsPos(x) && Refers(x)
  {
    var mid := if Ptr(s, x) == 0 then owner else owner[Ptr(s, x) := Loose];
    if np == 0 then mid else mid[np := x]
  }

  ghost predicate TablesAt(t: State, owner: map<nat, Pos>, p: nat)
    requires Shape(t) && p in owner
  {
    IsTable(owner[p]) <==> p in t.tables
  }

  lemma RetargetPos(s: State, t: State, owner: map<nat, Pos>, x: Pos, np: nat, y: Pos)
    requires Owns(s, owner) && IsPos(x) && Refers(x) && IsRoot(owner, x.r) && Retargeted(s, t, owner, x, np)
    requires np != 0 ==> np in owner && owner[np].Loose? && Ptr(s, x) == 0
    requires IsPos(y) && Refers(y)
    ensures PosAt(t, Moved(s, owner, x, np), y)
  {
    assert PosAt(s, owner, x) && PosAt(s, owner, y);
    if IsRoot(owner, y.r) {
      assert RetargetAt(s, t, x, np, y);
    }
  }

  lemma RetargetPage(s: State, t: State, owner: map<nat, Pos>, x: Pos, np: nat, p: nat)
    requires Owns(s, owner) && IsPos(x) && Refers(x) && IsRoot(owner, x.r) && Retargeted(s, t, owner, x, np)
    requires np != 0 ==> np in owner && owner[np].Loose? && Ptr(s, x) == 0
    requires p in owner && TablesAt(t, Moved(s, owner, x, np), p)
    ensures PageAt(t, Moved(s, owner, x, np), p)
  {
    var owner' := Moved(s, owner, x, np);
    assert PosAt(s, owner, x) && PageAt(s, owner, p);
    if Refers(owner'[p]) {
      assert RetargetAt(s, t, x, np, owner'[p]);
    }
  }

  lemma RetargetOwns(s: State, t: State, owner: map<nat, Pos>, x: Pos, np: nat)
    requires Owns(s, owner) && IsPos(x) && Refers(x) && IsRoot(owner, x.r) && Retargeted(s, t, owner, x, np)
    requires np != 0 ==> np in owner && owner[np].Loose? && Ptr(s, x) == 0
    requires forall p :: p in t.tables ==> p in owner
    requires forall p :: p in owner ==> TablesAt(t, Moved(s, owner, x, np), p)
    requires forall p, idx :: p in owner && 0 <= idx < NPTE ==> LevelAt(t, Moved(s, owner, x, np), p, idx)
    ensures Owns(t, Moved(s, owner, x, np)) && Pages(t, Moved(s, owner, x, np)) == Pages(s, owner)
    ensures forall r :: IsRoot(Moved(s, owner, x, np), r) <==> IsRoot(owner, r)
  {
    var owner' := Moved(s, owner, x, np);
    assert PosAt(s, owner, x);
    assert owner'.Keys == owner.Keys;
    forall y | IsPos(y) && Refers(y)
      ensures PosAt(t, owner', y)
    {
      RetargetPos(s, t, owner, x, np, y);
    }
    forall p | p in owner'
      ensures PageAt(t, owner', p)
    {
      RetargetPage(s, t, owner, x, np, p);
    }
    forall k | 0 <= k < |t.free|
      ensures FreeAt(t, owner', k)
    {
      assert FreeAt(s, owner, k);
    }
  }

  /** Linking or unlinking an empty table at x retargets x alone. */
  lemma TableRetargets(s: State, t: State, owner: map<nat, Pos>, x: Pos, q: nat, idx: nat, e: Pte)
    requires Owns(s, owner) && Changed(s, t, q, idx, e) && t.free == s.free
    requires IsPos(x) && Refers(x) && IsRoot(owner, x.r)
    requires (x.L1? && q == x.r && idx == x.i) || (x.L0? && q == P1(s, x.r, x.i) != 0 && idx == x.j)
    requires Target(Entry(s, q, idx)) != 0 ==> Empty(s, Target(Entry(s, q, idx)))
    requires Target(e) != 0 ==> Empty(s, Target(e)) && Target(e) != q
    ensures Retargeted(s, t, owner, x, Target(e))
    ensures forall r, vpn :: IsRoot(owner, r) && 0 <= vpn < MAXVPN ==> SameAt(s, t, r, vpn)
  {
    if x.L0? {
      assert PosAt(s, owner, L1(x.r, x.i)) && PageAt(s, owner, q);
    }
    forall r, vpn | IsRoot(owner, r) && 0 <= vpn < MAXVPN
      ensures SameAt(s, t, r, vpn)
    {
      ChangedUpperAt(s, t, owner, q, idx, e, r, vpn);
    }
    forall y | IsPos(y) && Refers(y) && IsRoot(owner, y.r)
      ensures RetargetAt(s, t, x, Target(e), y)
    {
      match y
      case Leaf(r, vpn) => assert SameAt(s, t, r, vpn);
      case L1(r, i) =>
        if x.L1? {
          ChangedRoot(s, t, owner, q, idx, e, r, i, 0);
        } else {
          ChangedMiddle(s, t, owner, q, idx, e, r, i, 0);
        }
      case L0(r, i, j) =>
        if x.L1? {
          ChangedRoot(s, t, owner, q, idx, e, r, i, j);
        } else {
          ChangedMiddle(s, t, owner, q, idx, e, r, i, j);
        }
    }
  }

  ghost predicate SameAt(s: State, t: State, r: nat, vpn: nat)
    requires Shape(s) && Shape(t) && vpn < MAXVPN
  {
    At(t, r, vpn) == At(s, r, vpn)
  }

  /** Setting or clearing the entry of a user page retargets that leaf alone. */
  lemma LeafRetargets(s: State, t: State, owner: map<nat, Pos>, r: nat, vpn: nat, e: Pte)
    requires Owns(s, owner) && IsRoot(owner, r) && vpn < TRAPFRAME && t.free == s.free
    requires var q := P0(s, r, Px2(vpn), Px1(vpn)); q != 0 && Changed(s, t, q, Px0(vpn), e)
    ensures Retargeted(s, t, owner, Leaf(r, vpn), Target(e))
  {
    var q := P0(s, r, Px2(vpn), Px1(vpn));
    Rebuild(vpn);
    assert PosAt(s, owner, L0(r, Px2(vpn), Px1(vpn)));
    forall y | IsPos(y) && Refers(y) && IsRoot(owner, y.r)
      ensures RetargetAt(s, t, Leaf(r, vpn), Target(e), y)
    {
      match y
      case Leaf(r', vpn') => ChangedLastAt(s, t, owner, r, vpn, e, r', vpn');
      case L1(r', i) => ChangedLast(s, t, owner, q, Px0(vpn), e, r', i, 0);
      case L0(r', i, j) => ChangedLast(s, t, owner, q, Px0(vpn), e, r', i, j);
    }
  }

  // ----- the updates the kernel makes -----

  function Blank(): (t: seq<Pte>) { seq(NPTE, _ => ZERO) }

  function Put(s: State, page: nat, idx: nat, e: Pte): (t: State)
    requires Shape(s) && page in s.tables && idx < NPTE
  {
    s.(tables := s.tables[page := s.tables[page][idx := e]])
  }

  /** memset(page, 0, PGSIZE), and the page becomes a page table. */
  function Fresh(s: State, page: nat): (t: State) {
    s.(tables := s.tables[page := Blank()])
  }

  /** The page stops being a page table. */
  function Retired(s: State, page: nat): (t: State) {
    s.(tables := s.tables - {page})
  }

  /** walk's allocation: a zeroed page linked below an empty entry. */
  lemma LinkTable(s: State, owner: map<nat, Pos>, x: Pos, q: nat, idx: nat, p: nat)
    requires Owns(s, owner) && IsPos(x) && Refers(x) && IsRoot(owner, x.r) && Ptr(s, x) == 0
    requires (x.L1? && q == x.r && idx == x.i) || (x.L0? && q == P1(s, x.r, x.i) != 0 && idx == x.j)
    requires p in owner && owner[p].Loose? && p != 0 && q in s.tables && idx < NPTE
    ensures var t := Put(Fresh(s, p), q, idx, Pte(p, PTE_V));
            && Owns(t, owner[p := x]) && Pages(t, owner[p := x]) == Pages(s, owner)
            && (forall r, vpn :: IsRoot(owner, r) && 0 <= vpn < MAXVPN ==> SameAt(s, t, r, vpn))
            && (forall r :: IsRoot(owner[p := x], r) <==> IsRoot(owner, r))
            && Ptr(t, x) == p
  {
    var e := Pte(p, PTE_V);
    var t := Put(Fresh(s, p), q, idx, e);
    assert PageAt(s, owner, p) && PageAt(s, owner, q);
    if x.L0? {
      assert PosAt(s, owner, L1(x.r, x.i));
    }
    forall page, k | 0 <= k < NPTE && (page != q || k != idx)
      ensures SameEntryAt(s, t, page, k)
    {
    }
    assert Changed(s, t, q, idx, e);
    assert Empty(s, p);
    assert LevelAt(s, owner, q, idx);
    TableRetargets(s, t, owner, x, q, idx, e);
    assert RetargetAt(s, t, x, p, x);
    var owner' := Moved(s, owner, x, p);
    forall page | page in owner
      ensures TablesAt(t, owner', page)
    {
      assert PageAt(s, owner, page);
    }
    forall page, k | page in owner && 0 <= k < NPTE
      ensures LevelAt(t, owner', page, k)
    {
      assert LevelAt(s, owner, page, k);
      assert (page == q && k == idx) || SameEntryAt(s, t, page, k);
    }
    RetargetOwns(s, t, owner, x, p);
  }

  /** freewalk's step: an empty table is unlinked from its entry. */
  lemma UnlinkTable(s: State, owner: map<nat, Pos>, x: Pos, q: nat, idx: nat)
    requires Owns(s, owner) && IsPos(x) && Refers(x) && IsRoot(owner, x.r) && Ptr(s, x) != 0 && Empty(s, Ptr(s, x))
    requires (x.L1? && q == x.r && idx == x.i) || (x.L0? && q == P1(s, x.r, x.i) != 0 && idx == x.j)
    requires q in s.tables && q != Ptr(s, x) && idx < NPTE
    ensures var p := Ptr(s, x);
            var t := Put(Retired(s, p), q, idx, ZERO);
            && p in owner && Owns(t, owner[p := Loose]) && Pages(t, owner[p := Loose]) == Pages(s, owner)
            && (forall r, vpn :: IsRoot(owner, r) && 0 <= vpn < MAXVPN ==> SameAt(s, t, r, vpn))
            && (forall r :: IsRoot(owner[p := Loose], r) <==> IsRoot(owner, r))
            && Ptr(t, x) == 0
  {
    var p := Ptr(s, x);
    var t := Put(Retired(s, p), q, idx, ZERO);
    assert PosAt(s, owner, x) && PageAt(s, owner, p) && PageAt(s, owner, q);
    if x.L0? {
      assert PosAt(s, owner, L1(x.r, x.i));
    }
    forall page, k | 0 <= k < NPTE && (page != q || k != idx)
      ensures SameEntryAt(s, t, page, k)
    {
    }
    assert Changed(s, t, q, idx, ZERO);
    TableRetargets(s, t, owner, x, q, idx, ZERO);
    assert RetargetAt(s, t, x, 0, x);
    var owner' := Moved(s, owner, x, 0);
    forall page | page in owner
      ensures TablesAt(t, owner', page)
    {
      assert PageAt(s, owner, page);
    }
    forall page, k | page in owner && 0 <= k < NPTE
      ensures LevelAt(t, owner', page, k)
    {
      assert LevelAt(s, owner, page, k);
      assert (page == q && k == idx) || SameEntryAt(s, t, page, k);
    }
    RetargetOwns(s, t, owner, x, 0);
  }

  /** What an entry set or cleared by mappages or uvmunmap may be. */
  ghost predicate GoodLeaf(e: Pte) { e == ZERO || (V(e) && Leafy(e) && e.ppn != 0) }

  ghost predicate AtSetAt(s: State, t: State, r: nat, vpn: nat, e: Pte, r': nat, v: nat)
    requires Shape(s) && Shape(t) && v < MAXVPN
  {
    At(t, r', v) == if r' == r && v == vpn then e else At(s, r', v)
  }

  /** The flat map of every root after the entry of (r, vpn) became e. */
  ghost predicate AtSet(s: State, t: State, owner: map<nat, Pos>, r: nat, vpn: nat, e: Pte) {
    && Shape(s) && Shape(t)
    && forall r', v {:trigger AtSetAt(s, t, r, vpn, e, r', v)} ::
            IsRoot(owner, r') && 0 <= v < MAXVPN ==> AtSetAt(s, t, r, vpn, e, r', v)
  }

  lemma PutLeafChanged(s: State, owner: map<nat, Pos>, r: nat, vpn: nat, e: Pte)
    requires Owns(s, owner) && IsRoot(owner, r) && vpn < MAXVPN && GoodLeaf(e)
    requires P0(s, r, Px2(vpn), Px1(vpn)) != 0
    ensures var q := P0(s, r, Px2(vpn), Px1(vpn));
            && q in s.tables && q in owner && owner[q].L0?
            && var t := Put(s, q, Px0(vpn), e);
               && Changed(s, t, q, Px0(vpn), e) && AtSet(s, t, owner, r, vpn, e)
               && (forall p, k :: p in owner && 0 <= k < NPTE ==> LevelAt(t, owner, p, k))
  {
    var q := P0(s, r, Px2(vpn), Px1(vpn));
    Rebuild(vpn);
    assert PosAt(s, owner, L0(r, Px2(vpn), Px1(vpn))) && PageAt(s, owner, q);
    var t := Put(s, q, Px0(vpn), e);
    forall page, k | 0 <= k < NPTE && (page != q || k != Px0(vpn))
      ensures SameEntryAt(s, t, page, k)
    {
    }
    forall r', v | IsRoot(owner, r') && 0 <= v < MAXVPN
      ensures AtSetAt(s, t, r, vpn, e, r', v)
    {
      ChangedLastAt(s, t, owner, r, vpn, e, r', v);
    }
    forall p, k | p in owner && 0 <= k < NPTE
      ensures LevelAt(t, owner, p, k)
    {
      assert LevelAt(s, owner, p, k);
      assert (p == q && k == Px0(vpn)) || SameEntryAt(s, t, p, k);
    }
  }

  /** Every valid leaf of user memory names a page that it alone holds. */
  lemma LeafOwned(s: State, owner: map<nat, Pos>, r: nat, vpn: nat)
    requires Owns(s, owner) && IsRoot(owner, r) && vpn < MAXVPN && V(At(s, r, vpn))
    ensures At(s, r, vpn).ppn != 0 && Leafy(At(s, r, vpn))
    ensures vpn < TRAPFRAME ==> At(s, r, vpn).ppn in owner && owner[At(s, r, vpn).ppn] == Leaf(r, vpn)
  {
    Rebuild(vpn);
    var q := P0(s, r, Px2(vpn), Px1(vpn));
    assert PosAt(s, owner, L0(r, Px2(vpn), Px1(vpn))) && PageAt(s, owner, q) && LevelAt(s, owner, q, Px0(vpn));
    if vpn < TRAPFRAME {
      assert PosAt(s, owner, Leaf(r, vpn));
    }
  }

  /** A user page: setting its entry takes a Loose page, clearing it gives one back. */
  lemma PutUserLeaf(s: State, owner: map<nat, Pos>, r: nat, vpn: nat, e: Pte)
    requires Owns(s, owner) && IsRoot(owner, r) && vpn < TRAPFRAME && GoodLeaf(e)
    requires P0(s, r, Px2(vpn), Px1(vpn)) != 0
    requires if e == ZERO then V(At(s, r, vpn)) else !V(At(s, r, vpn)) && e.ppn in owner && owner[e.ppn].Loose?
    ensures var q := P0(s, r, Px2(vpn), Px1(vpn));
            && q in s.tables
            && var t := Put(s, q, Px0(vpn), e);
               var owner' := if e == ZERO then owner[At(s, r, vpn).ppn := Loose] else owner[e.ppn := Leaf(r, vpn)];
               && Owns(t, owner') && AtSet(s, t, owner, r, vpn, e) && Pages(t, owner') == Pages(s, owner)
               && (forall r' :: IsRoot(owner', r') <==> IsRoot(owner, r'))
    ensures e == ZERO ==> At(s, r, vpn).ppn in owner && owner[At(s, r, vpn).ppn] == Leaf(r, vpn)
  {
    PutLeafChanged(s, owner, r, vpn, e);
    var q := P0(s, r, Px2(vpn), Px1(vpn));
    var t := Put(s, q, Px0(vpn), e);
    LeafRetargets(s, t, owner, r, vpn, e);
    assert LevelAt(s, owner, q, Px0(vpn)) && PosAt(s, owner, Leaf(r, vpn));
    var owner' := Moved(s, owner, Leaf(r, vpn), Target(e));
    forall p | p in owner
      ensures TablesAt(t, owner', p)
    {
      assert PageAt(s, owner, p);
    }
    forall p, k | p in owner && 0 <= k < NPTE
      ensures LevelAt(t, owner', p, k)
    {
      assert LevelAt(t, owner, p, k) && PageAt(s, owner, p);
    }
    RetargetOwns(s, t, owner, Leaf(r, vpn), Target(e));
  }

  /** TRAMPOLINE and TRAPFRAME name pages the tree does not own. */
  lemma PutSpecialLeaf(s: State, owner: map<nat, Pos>, r: nat, vpn: nat, e: Pte)
    requires Owns(s, owner) && IsRoot(owner, r) && TRAPFRAME <= vpn < MAXVPN && GoodLeaf(e)
    requires P0(s, r, Px2(vpn), Px1(vpn)) != 0
    ensures var q := P0(s, r, Px2(vpn), Px1(vpn));
            && q in s.tables
            && var t := Put(s, q, Px0(vpn), e);
               Owns(t, owner) && AtSet(s, t, owner, r, vpn, e) && Pages(t, owner) == Pages(s, owner)
  {
    PutLeafChanged(s, owner, r, vpn, e);
    var q := P0(s, r, Px2(vpn), Px1(vpn));
    var t := Put(s, q, Px0(vpn), e);
    forall y | IsPos(y) && Refers(y)
      ensures PosAt(t, owner, y)
      ensures IsRoot(owner, y.r) ==> Ptr(t, y) == Ptr(s, y)
    {
      assert PosAt(s, owner, y);
      if IsRoot(owner, y.r) {
        match y
        case Leaf(r', v) => assert AtSetAt(s, t, r, vpn, e, r', v);
        case L1(r', i) => ChangedLast(s, t, owner, q, Px0(vpn), e, r', i, 0);
        case L0(r', i, j) => ChangedLast(s, t, owner, q, Px0(vpn), e, r', i, j);
      }
    }
    forall p | p in owner
      ensures PageAt(t, owner, p)
    {
      assert PageAt(s, owner, p);
    }
    forall k | 0 <= k < |t.free|
      ensures FreeAt(t, owner, k)
    {
      assert FreeAt(s, owner, k);
    }
  }

  // ----- pages come and go -----

  ghost predicate SameMaps(s: State, t: State, owner: map<nat, Pos>) {
    && Shape(s) && Shape(t)
    && forall r, vpn {:trigger SameAt(s, t, r, vpn)} :: IsRoot(owner, r) && 0 <= vpn < MAXVPN ==> SameAt(s, t, r, vpn)
  }

  lemma SameTablesAt(s: State, t: State, r: nat, vpn: nat)
    requires Shape(s) && t.tables == s.tables && vpn < MAXVPN
    ensures At(t, r, vpn) == At(s, r, vpn)
  {
  }

  lemma SameMapsTrans(s: State, t: State, u: State, owner: map<nat, Pos>, owner': map<nat, Pos>)
    requires SameMaps(s, t, owner) && SameMaps(t, u, owner')
    requires forall r :: IsRoot(owner, r) ==> IsRoot(owner', r)
    ensures SameMaps(s, u, owner)
  {
    forall r, vpn | IsRoot(owner, r) && 0 <= vpn < MAXVPN
      ensures SameAt(s, u, r, vpn)
    {
      assert SameAt(s, t, r, vpn) && SameAt(t, u, r, vpn);
    }
  }

  lemma SameTablesMaps(s: State, t: State, owner: map<nat, Pos>)
    requires Shape(s) && t.tables == s.tables
    ensures SameMaps(s, t, owner)
  {
    forall r, vpn | IsRoot(owner, r) && 0 <= vpn < MAXVPN
      ensures SameAt(s, t, r, vpn)
    {
      SameTablesAt(s, t, r, vpn);
    }
  }

  lemma SameTablesOwns(s: State, owner: map<nat, Pos>, t: State, owner': map<nat, Pos>)
    requires Owns(s, owner) && t.tables == s.tables
    requires forall p :: p in owner && !owner[p].Loose? ==> p in owner' && owner'[p] == owner[p]
    requires forall p :: p in owner' && p !in owner ==> owner'[p].Loose? && p != 0 && p !in s.tables
    requires forall p :: p in owner' && p in owner ==> owner'[p] == owner[p]
    requires forall k :: 0 <= k < |t.free| ==> FreeAt(t, owner', k)
    requires Apart(t.free)
    ensures Owns(t, owner')
  {
    forall x | IsPos(x) && Refers(x)
      ensures PosAt(t, owner', x)
    {
      assert PosAt(s, owner, x);
    }
    forall p | p in owner'
      ensures PageAt(t, owner', p)
    {
      if p in owner {
        assert PageAt(s, owner, p);
      }
    }
    forall p, k | p in owner' && 0 <= k < NPTE
      ensures LevelAt(t, owner', p, k)
    {
      if p in owner {
        assert LevelAt(s, owner, p, k);
      }
    }
    forall p | p in t.tables
      ensures p in owner'
    {
      assert PageAt(s, owner, p);
    }
  }

  lemma ApartTail(free: seq<nat>)
    requires Apart(free) && free != []
    ensures Apart(free[1..]) && forall k :: 0 <= k < |free[1..]| ==> free[1..][k] != free[0]
  {
    forall k | 0 <= k < |free[1..]|
      ensures free[1..][k] != free[0]
    {
      assert ApartAt(free, 0, k + 1);
    }
    forall j, k | 0 <= j < |free[1..]| && 0 <= k < |free[1..]|
      ensures ApartAt(free[1..], j, k)
    {
      assert ApartAt(free, j + 1, k + 1);
    }
  }

  lemma ApartCons(free: seq<nat>, p: nat)
    requires Apart(free) && p !in free
    ensures Apart([p] + free)
  {
    var r := [p] + free;
    forall j, k | 0 <= j < |r| && 0 <= k < |r|
      ensures ApartAt(r, j, k)
    {
      if j > 0 && k > 0 {
        assert ApartAt(free, j - 1, k - 1);
      }
    }
  }

  lemma KallocOwns(s: State, owner: map<nat, Pos>)
    requires Owns(s, owner) && s.free != []
    ensures var t := s.(free := s.free[1..]);
            && s.free[0] != 0 && s.free[0] !in owner
            && Owns(t, owner[s.free[0] := Loose]) && Pages(t, owner[s.free[0] := Loose]) == Pages(s, owner)
  {
    var p := s.free[0];
    var t, owner' := s.(free := s.free[1..]), owner[p := Loose];
    assert FreeAt(s, owner, 0);
    ApartTail(s.free);
    forall k | 0 <= k < |t.free|
      ensures FreeAt(t, owner', k)
    {
      assert FreeAt(s, owner, k + 1);
    }
    SameTablesOwns(s, owner, t, owner');
    assert forall x :: x in s.free <==> x == p || x in t.free;
  }

  lemma NotFree(s: State, owner: map<nat, Pos>, p: nat)
    requires Owns(s, owner) && p in owner
    ensures p !in s.free
  {
    forall k | 0 <= k < |s.free|
      ensures s.free[k] != p
    {
      assert FreeAt(s, owner, k);
    }
  }

  lemma KfreeOwns(s: State, owner: map<nat, Pos>, p: nat)
    requires Owns(s, owner) && p in owner && owner[p].Loose?
    ensures var t := s.(free := [p] + s.free);
            Owns(t, owner - {p}) && Pages(t, owner - {p}) == Pages(s, owner)
  {
    var t, owner' := s.(free := [p] + s.free), owner - {p};
    assert PageAt(s, owner, p);
    forall k | 0 <= k < |t.free|
      ensures FreeAt(t, owner', k)
    {
      if k > 0 {
        assert FreeAt(s, owner, k - 1);
      }
    }
    NotFree(s, owner, p);
    ApartCons(s.free, p);
    SameTablesOwns(s, owner, t, owner');
    assert forall x :: x in t.free <==> x == p || x in s.free;
  }

  lemma NewRootOwns(s: State, owner: map<nat, Pos>, p: nat)
    requires Owns(s, owner) && p in owner && owner[p].Loose?
    ensures var t := Fresh(s, p);
            && p != 0 && Owns(t, owner[p := Root]) && Pages(t, owner[p := Root]) == Pages(s, owner)
            && SameMaps(s, t, owner) && Empty(t, p)
  {
    var t := Fresh(s, p);
    var owner' := owner[p := Root];
    assert PageAt(s, owner, p);
    forall page, k | 0 <= k < NPTE
      ensures SameEntryAt(s, t, page, k)
    {
    }
    forall r, i, j | 0 <= i < NPTE && 0 <= j < NPTE
      ensures P1(t, r, i) == P1(s, r, i) && P0(t, r, i, j) == P0(s, r, i, j)
    {
      assert SameEntryAt(s, t, r, i) && SameEntryAt(s, t, P1(s, r, i), j);
    }
    forall r, vpn | 0 <= vpn < MAXVPN
      ensures SameAt(s, t, r, vpn)
    {
      assert SameEntryAt(s, t, P0(s, r, Px2(vpn), Px1(vpn)), Px0(vpn));
    }
    forall x | IsPos(x) && Refers(x)
      ensures PosAt(t, owner', x)
    {
      assert PosAt(s, owner, x);
      assert x.Leaf? ==> SameAt(s, t, x.r, x.vpn);
      assert x.r == p && x.Leaf? ==> P1(s, p, Px2(x.vpn)) == 0;
    }
    forall q | q in owner'
      ensures PageAt(t, owner', q)
    {
      assert PageAt(s, owner, q);
      assert owner[q].Leaf? ==> SameAt(s, t, owner[q].r, owner[q].vpn);
    }
    forall q, k | q in owner' && 0 <= k < NPTE
      ensures LevelAt(t, owner', q, k)
    {
      assert LevelAt(s, owner, q, k) && SameEntryAt(s, t, q, k);
    }
    forall k | 0 <= k < |t.free|
      ensures FreeAt(t, owner', k)
    {
      assert FreeAt(s, owner, k);
    }
  }

  lemma DropRootOwns(s: State, owner: map<nat, Pos>, p: nat)
    requires Owns(s, owner) && IsRoot(owner, p) && Empty(s, p)
    ensures var t := Retired(s, p);
            && Owns(t, owner[p := Loose]) && Pages(t, owner[p := Loose]) == Pages(s, owner)
            && SameMaps(s, t, owner)
  {
    var t := Retired(s, p);
    var owner' := owner[p := Loose];
    assert PageAt(s, owner, p);
    forall page, k | 0 <= k < NPTE
      ensures SameEntryAt(s, t, page, k)
    {
    }
    forall r, i, j | 0 <= i < NPTE && 0 <= j < NPTE
      ensures P1(t, r, i) == P1(s, r, i) && P0(t, r, i, j) == P0(s, r, i, j)
    {
      assert SameEntryAt(s, t, r, i) && SameEntryAt(s, t, P1(s, r, i), j);
    }
    forall r, vpn | 0 <= vpn < MAXVPN
      ensures SameAt(s, t, r, vpn)
    {
      assert SameEntryAt(s, t, P0(s, r, Px2(vpn), Px1(vpn)), Px0(vpn));
    }
    forall x | IsPos(x) && Refers(x)
      ensures PosAt(t, owner', x)
      ensures Ptr(t, x) == Ptr(s, x) && (x.r == p ==> Ptr(s, x) == 0)
    {
      assert PosAt(s, owner, x);
      assert x.Leaf? ==> SameAt(s, t, x.r, x.vpn);
      assert x.r == p && x.Leaf? ==> P1(s, p, Px2(x.vpn)) == 0;
    }
    forall q | q in owner'
      ensures PageAt(t, owner', q)
    {
      assert PageAt(s, owner, q);
    }
    forall q, k | q in owner' && 0 <= k < NPTE
      ensures LevelAt(t, owner', q, k)
    {
      assert LevelAt(s, owner, q, k) && SameEntryAt(s, t, q, k);
    }
    forall k | 0 <= k < |t.free|
      ensures FreeAt(t, owner', k)
    {
      assert FreeAt(s, owner, k);
    }
  }

  // ----- what walk and mappages do, as relations between states -----

  predicate TableOf(x: Pos, r: nat) { (x.L1? || x.L0?) && x.r == r }

  predicate LeafIn(x: Pos, r: nat, lo: nat, hi: nat) { x.Leaf? && x.r == r && lo <= x.vpn < hi }

  /** From s only page-table pages of r have been added: no page changed hands
      and no translation of any address space changed. */
  ghost predicate Grown(s: State, owner: map<nat, Pos>, t: State, owner': map<nat, Pos>, r: nat) {
    && Owns(t, owner') && Pages(t, owner') == Pages(s, owner) && SameMaps(s, t, owner)
    && owner.Keys <= owner'.Keys
    && (forall p {:trigger owner'[p]} :: p in owner' ==>
          if p in owner then owner'[p] == owner[p] else TableOf(owner'[p], r))
  }

  lemma GrownRefl(s: State, owner: map<nat, Pos>, r: nat)
    requires Owns(s, owner)
    ensures Grown(s, owner, s, owner, r)
  {
    SameTablesMaps(s, s, owner);
  }

  lemma GrownTrans(s: State, owner: map<nat, Pos>, t: State, owner': map<nat, Pos>, u: State, owner'': map<nat, Pos>,
                   r: nat)
    requires Grown(s, owner, t, owner', r) && Grown(t, owner', u, owner'', r)
    ensures Grown(s, owner, u, owner'', r)
  {
    SameMapsTrans(s, t, u, owner, owner');
  }

  lemma LinkGrown(s: State, owner: map<nat, Pos>, x: Pos, q: nat, idx: nat)
    requires Owns(s, owner) && s.free != [] && IsPos(x) && Refers(x) && IsRoot(owner, x.r) && Ptr(s, x) == 0
    requires (x.L1? && q == x.r && idx == x.i) || (x.L0? && q == P1(s, x.r, x.i) != 0 && idx == x.j)
    requires q in s.tables && idx < NPTE
    ensures var p := s.free[0];
            && p != 0 && p !in owner
            && var t := Put(Fresh(s.(free := s.free[1..]), p), q, idx, Pte(p, PTE_V));
               Grown(s, owner, t, owner[p := x], x.r) && Ptr(t, x) == p && (x.L0? ==> P1(t, x.r, x.i) == q)
  {
    var p := s.free[0];
    var u, owner' := s.(free := s.free[1..]), owner[p := Loose];
    KallocOwns(s, owner);
    SameTablesMaps(s, u, owner);
    LinkTable(u, owner', x, q, idx, p);
    var t := Put(Fresh(u, p), q, idx, Pte(p, PTE_V));
    assert owner'[p := x] == owner[p := x];
    SameMapsTrans(s, u, t, owner, owner');
    if x.L0? {
      assert PosAt(s, owner, L1(x.r, x.i)) && PageAt(s, owner, q) && PageAt(s, owner, x.r);
    }
  }

  /** From s, entry e has been put at (r, vpn) (a user page takes its page over)
      and page-table pages may have been added; nothing else changed. */
  ghost predicate MappedTo(s: State, owner: map<nat, Pos>, t: State, owner': map<nat, Pos>, r: nat, vpn: nat, e: Pte) {
    && Owns(t, owner') && Pages(t, owner') == Pages(s, owner) && AtSet(s, t, owner, r, vpn, e)
    && owner.Keys <= owner'.Keys
    && (forall p {:trigger owner'[p]} :: p in owner' ==>
          if p !in owner then TableOf(owner'[p], r)
          else owner'[p] == if vpn < TRAPFRAME && p == e.ppn then Leaf(r, vpn) else owner[p])
  }

  lemma AtSetAfter(s: State, t: State, u: State, owner: map<nat, Pos>, owner': map<nat, Pos>, r: nat, vpn: nat, e: Pte)
    requires SameMaps(s, t, owner) && AtSet(t, u, owner', r, vpn, e)
    requires forall x :: IsRoot(owner, x) ==> IsRoot(owner', x)
    ensures AtSet(s, u, owner, r, vpn, e)
  {
    forall r', v | IsRoot(owner, r') && 0 <= v < MAXVPN
      ensures AtSetAt(s, u, r, vpn, e, r', v)
    {
      assert SameAt(s, t, r', v) && AtSetAt(t, u, r, vpn, e, r', v);
    }
  }

  lemma PutUserMapped(s: State, owner: map<nat, Pos>, t: State, owner': map<nat, Pos>, r: nat, vpn: nat, e: Pte)
    requires Grown(s, owner, t, owner', r) && IsRoot(owner, r) && vpn < TRAPFRAME && V(e) && GoodLeaf(e)
    requires P0(t, r, Px2(vpn), Px1(vpn)) != 0 && !V(At(t, r, vpn))
    requires e.ppn in owner && owner[e.ppn].Loose?
    ensures P0(t, r, Px2(vpn), Px1(vpn)) in t.tables
    ensures MappedTo(s, owner, Put(t, P0(t, r, Px2(vpn), Px1(vpn)), Px0(vpn), e),
                     owner'[e.ppn := Leaf(r, vpn)], r, vpn, e)
  {
    PutUserLeaf(t, owner', r, vpn, e);
    var u, owner'' := Put(t, P0(t, r, Px2(vpn), Px1(vpn)), Px0(vpn), e), owner'[e.ppn := Leaf(r, vpn)];
    AtSetAfter(s, t, u, owner, owner', r, vpn, e);
  }

  lemma PutSpecialMapped(s: State, owner: map<nat, Pos>, t: State, owner': map<nat, Pos>, r: nat, vpn: nat, e: Pte)
    requires Grown(s, owner, t, owner', r) && IsRoot(owner, r) && TRAPFRAME <= vpn < MAXVPN && V(e) && GoodLeaf(e)
    requires P0(t, r, Px2(vpn), Px1(vpn)) != 0
    ensures P0(t, r, Px2(vpn), Px1(vpn)) in t.tables
    ensures MappedTo(s, owner, Put(t, P0(t, r, Px2(vpn), Px1(vpn)), Px0(vpn), e), owner', r, vpn, e)
  {
    PutSpecialLeaf(t, owner', r, vpn, e);
    AtSetAfter(s, t, Put(t, P0(t, r, Px2(vpn), Px1(vpn)), Px0(vpn), e), owner, owner', r, vpn, e);
  }

  // ----- ranges of user pages -----

  /** uvmunmap with do_free on one user page. */
  lemma UnmapFree(s: State, owner: map<nat, Pos>, r: nat, vpn: nat)
    requires Owns(s, owner) && IsRoot(owner, r) && vpn < TRAPFRAME && V(At(s, r, vpn))
    ensures var p, q := At(s, r, vpn).ppn, P0(s, r, Px2(vpn), Px1(vpn));
            && p in owner && owner[p] == Leaf(r, vpn) && q in s.tables
            && var t := Put(s, q, Px0(vpn), ZERO).(free := [p] + s.free);
               Owns(t, owner - {p}) && Pages(t, owner - {p}) == Pages(s, owner) && AtSet(s, t, owner, r, vpn, ZERO)
  {
    var p, q := At(s, r, vpn).ppn, P0(s, r, Px2(vpn), Px1(vpn));
    PutUserLeaf(s, owner, r, vpn, ZERO);
    var u, owner' := Put(s, q, Px0(vpn), ZERO), owner[p := Loose];
    KfreeOwns(u, owner', p);
    var t := u.(free := [p] + u.free);
    assert owner' - {p} == owner - {p};
    forall r', v | IsRoot(owner, r') && 0 <= v < MAXVPN
      ensures AtSetAt(s, t, r, vpn, ZERO, r', v)
    {
      assert AtSetAt(s, u, r, vpn, ZERO, r', v);
      SameTablesAt(u, t, r', v);
    }
  }

  ghost predicate RangeAt(s: State, t: State, r: nat, lo: nat, hi: nat, want: map<nat, nat>, r': nat, v: nat)
    requires Shape(s) && Shape(t) && v < MAXVPN
  {
    if r' == r && lo <= v < hi then V(At(t, r, v)) && v in want && At(t, r, v).flags == want[v]
    else At(t, r', v) == At(s, r', v)
  }

  ghost predicate RangeMaps(s: State, owner: map<nat, Pos>, t: State, r: nat, lo: nat, hi: nat, want: map<nat, nat>) {
    && Shape(s) && Shape(t)
    && forall r', v {:trigger RangeAt(s, t, r, lo, hi, want, r', v)} :: IsRoot(owner, r') && 0 <= v < MAXVPN ==>
         RangeAt(s, t, r, lo, hi, want, r', v)
  }

  /** New pages are page tables or the pages mapped at lo..hi of r. */
  ghost predicate RangeOwners(owner: map<nat, Pos>, owner': map<nat, Pos>, r: nat, lo: nat, hi: nat) {
    && owner.Keys <= owner'.Keys
    && forall p {:trigger owner'[p]} :: p in owner' ==>
         if p in owner then owner'[p] == owner[p]
         else TableOf(owner'[p], r) || LeafIn(owner'[p], r, lo, hi)
  }

  /** From s, the pages lo..hi of r have been mapped, with flags want, to fresh
      pages, and page-table pages may have been added; nothing else changed. */
  ghost predicate Ranged(s: State, owner: map<nat, Pos>, t: State, owner': map<nat, Pos>,
                         r: nat, lo: nat, hi: nat, want: map<nat, nat>) {
    && Owns(s, owner) && IsRoot(owner, r) && lo <= hi <= TRAPFRAME
    && Owns(t, owner') && Pages(t, owner') == Pages(s, owner)
    && RangeMaps(s, owner, t, r, lo, hi, want) && RangeOwners(owner, owner', r, lo, hi)
  }

  lemma RangedEmpty(s: State, owner: map<nat, Pos>, r: nat, lo: nat, want: map<nat, nat>)
    requires Owns(s, owner) && IsRoot(owner, r) && lo <= TRAPFRAME
    ensures Ranged(s, owner, s, owner, r, lo, lo, want)
  {
  }

  lemma RangeMapsMore(s: State, owner: map<nat, Pos>, t: State, u: State, owner': map<nat, Pos>,
                      r: nat, lo: nat, hi: nat, next: nat, want: map<nat, nat>, e: Pte)
    requires RangeMaps(s, owner, t, r, lo, hi, want) && lo <= hi && hi in want && e.flags == want[hi] && V(e)
    requires AtSet(t, u, owner', r, hi, e) && next == hi + 1 && forall x :: IsRoot(owner, x) ==> IsRoot(owner', x)
    ensures RangeMaps(s, owner, u, r, lo, next, want)
  {
    forall r', v | IsRoot(owner, r') && 0 <= v < MAXVPN
      ensures RangeAt(s, u, r, lo, next, want, r', v)
    {
      assert RangeAt(s, t, r, lo, hi, want, r', v) && AtSetAt(t, u, r, hi, e, r', v);
    }
  }

  lemma RangeMapsSame(s: State, owner: map<nat, Pos>, t: State, u: State, owner': map<nat, Pos>,
                      r: nat, lo: nat, hi: nat, want: map<nat, nat>)
    requires RangeMaps(s, owner, t, r, lo, hi, want) && SameMaps(t, u, owner')
    requires IsRoot(owner, r) && forall x :: IsRoot(owner, x) ==> IsRoot(owner', x)
    ensures RangeMaps(s, owner, u, r, lo, hi, want)
  {
    forall r', v | IsRoot(owner, r') && 0 <= v < MAXVPN
      ensures RangeAt(s, u, r, lo, hi, want, r', v)
    {
      assert RangeAt(s, t, r, lo, hi, want, r', v) && SameAt(t, u, r', v) && SameAt(t, u, r, v);
    }
  }

  lemma RangeOwnersMore(owner: map<nat, Pos>, owner': map<nat, Pos>, owner'': map<nat, Pos>,
                        r: nat, lo: nat, hi: nat, next: nat, p: nat)
    requires RangeOwners(owner, owner', r, lo, hi) && lo <= hi && p !in owner' && owner'.Keys + {p} <= owner''.Keys
    requires next == hi + 1
    requires forall q {:trigger owner''[q]} :: q in owner'' ==>
               if q == p then owner''[q] == Leaf(r, hi)
               else if q in owner' then owner''[q] == owner'[q] else TableOf(owner''[q], r)
    ensures RangeOwners(owner, owner'', r, lo, next)
  {
  }

  /** One more page: kalloc gave p, and mappages put it at hi. */
  lemma RangedMap(s: State, owner: map<nat, Pos>, t: State, owner': map<nat, Pos>, t': State, mid: map<nat, Pos>,
                  u: State, owner'': map<nat, Pos>, r: nat, lo: nat, hi: nat, next: nat, want: map<nat, nat>, e: Pte)
    requires Ranged(s, owner, t, owner', r, lo, hi, want) && hi < TRAPFRAME && next == hi + 1 && hi in want
    requires t.free != [] && t.free[0] !in owner' && V(e) && e == Pte(t.free[0], want[hi])
    requires t' == t.(free := t.free[1..]) && mid == owner'[t.free[0] := Loose]
    requires MappedTo(t', mid, u, owner'', r, hi, e)
    ensures Ranged(s, owner, u, owner'', r, lo, next, want)
  {
    KallocOwns(t, owner');
    SameTablesMaps(t, t', owner');
    RangeMapsSame(s, owner, t, t', owner', r, lo, hi, want);
    RangeMapsMore(s, owner, t', u, mid, r, lo, hi, next, want, e);
    RangeOwnersMore(owner, owner', owner'', r, lo, hi, next, t.free[0]);
  }

  /** Out of memory for a table: the page goes back and the range stays. */
  lemma RangedMapFails(s: State, owner: map<nat, Pos>, t: State, owner': map<nat, Pos>, u: State,
                       owner'': map<nat, Pos>,
                       r: nat, lo: nat, hi: nat, want: map<nat, nat>)
    requires Ranged(s, owner, t, owner', r, lo, hi, want) && t.free != [] && t.free[0] !in owner'
    requires Grown(t.(free := t.free[1..]), owner'[t.free[0] := Loose], u, owner'', r)
    ensures t.free[0] in owner'' && owner''[t.free[0]].Loose?
    ensures Ranged(s, owner, u.(free := [t.free[0]] + u.free), owner'' - {t.free[0]}, r, lo, hi, want)
  {
    var p, t' := t.free[0], t.(free := t.free[1..]);
    KallocOwns(t, owner');
    assert p in owner'[p := Loose] && owner''[p].Loose?;
    KfreeOwns(u, owner'', p);
    var u' := u.(free := [p] + u.free);
    SameTablesMaps(t, t', owner');
    RangeMapsSame(s, owner, t, t', owner', r, lo, hi, want);
    RangeMapsSame(s, owner, t', u, owner'[p := Loose], r, lo, hi, want);
    SameTablesMaps(u, u', owner');
    RangeMapsSame(s, owner, u, u', owner', r, lo, hi, want);
  }

  // ----- uvmunmap over a range -----

  ghost predicate IsMapped(s: State, r: nat, v: nat)
    requires Shape(s) && v < MAXVPN
  {
    V(At(s, r, v))
  }

  ghost predicate AllMapped(s: State, r: nat, lo: nat, hi: nat)
    requires Shape(s) && hi <= MAXVPN
  {
    forall v {:trigger IsMapped(s, r, v)} :: lo <= v < hi ==> IsMapped(s, r, v)
  }

  ghost predicate UnmapAt(s: State, t: State, r: nat, lo: nat, hi: nat, r': nat, v: nat)
    requires Shape(s) && Shape(t) && v < MAXVPN
  {
    At(t, r', v) == if r' == r && lo <= v < hi then ZERO else At(s, r', v)
  }

  ghost predicate UnmapMaps(s: State, owner: map<nat, Pos>, t: State, r: nat, lo: nat, hi: nat) {
    && Shape(s) && Shape(t)
    && forall r', v {:trigger UnmapAt(s, t, r, lo, hi, r', v)} :: IsRoot(owner, r') && 0 <= v < MAXVPN ==>
         UnmapAt(s, t, r, lo, hi, r', v)
  }

  ghost function WithoutLeaves(owner: map<nat, Pos>, r: nat, lo: nat, hi: nat): (o: map<nat, Pos>) {
    map p | p in owner && !LeafIn(owner[p], r, lo, hi) :: owner[p]
  }

  /** From s, exactly the pages lo..hi of r are unmapped; the user pages among
      them are free again and no other page changed hands. */
  ghost predicate UnmappedTo(s: State, owner: map<nat, Pos>, t: State, owner': map<nat, Pos>, r: nat, lo: nat,
                             hi: nat) {
    && Owns(t, owner') && Pages(t, owner') == Pages(s, owner) && UnmapMaps(s, owner, t, r, lo, hi)
    && owner' == WithoutLeaves(owner, r, lo, hi)
  }

  lemma UnmappedNone(s: State, owner: map<nat, Pos>, r: nat, lo: nat)
    requires Owns(s, owner)
    ensures UnmappedTo(s, owner, s, owner, r, lo, lo)
  {
    assert WithoutLeaves(owner, r, lo, lo) == owner;
  }

  lemma UnmapMapsMore(s: State, owner: map<nat, Pos>, t: State, u: State, owner': map<nat, Pos>, r: nat, lo: nat,
                      hi: nat)
    requires UnmapMaps(s, owner, t, r, lo, hi) && lo <= hi && AtSet(t, u, owner', r, hi, ZERO)
    requires forall x :: IsRoot(owner, x) ==> IsRoot(owner', x)
    ensures UnmapMaps(s, owner, u, r, lo, hi + 1)
  {
    var hi' := hi + 1;
    forall r', v | IsRoot(owner, r') && 0 <= v < MAXVPN
      ensures UnmapAt(s, u, r, lo, hi', r', v)
    {
      assert UnmapAt(s, t, r, lo, hi, r', v) && AtSetAt(t, u, r, hi, ZERO, r', v);
    }
  }

  /** One more user page: kfree it and clear the entry. */
  lemma UnmappedMore(s: State, owner: map<nat, Pos>, t: State, owner': map<nat, Pos>, r: nat, lo: nat, hi: nat)
    requires UnmappedTo(s, owner, t, owner', r, lo, hi) && lo <= hi < TRAPFRAME && IsRoot(owner, r) && V(At(t, r, hi))
    ensures var p, q := At(t, r, hi).ppn, P0(t, r, Px2(hi), Px1(hi));
            && p in owner' && q in t.tables
            && UnmappedTo(s, owner, Put(t, q, Px0(hi), ZERO).(free := [p] + t.free), owner' - {p}, r, lo, hi + 1)
  {
    UnmapFree(t, owner', r, hi);
    var p, q := At(t, r, hi).ppn, P0(t, r, Px2(hi), Px1(hi));
    UnmapMapsMore(s, owner, t, Put(t, q, Px0(hi), ZERO).(free := [p] + t.free), owner', r, lo, hi);
    forall x | x in owner'
      ensures owner'[x] == Leaf(r, hi) <==> x == p
    {
      assert PageAt(t, owner', x);
    }
    assert owner' - {p} == WithoutLeaves(owner, r, lo, hi + 1);
  }

  /** The same for TRAMPOLINE or TRAPFRAME, whose pages are not freed. */
  lemma UnmappedSpecial(s: State, owner: map<nat, Pos>, t: State, owner': map<nat, Pos>, r: nat, lo: nat, hi: nat)
    requires Owns(s, owner) && UnmappedTo(s, owner, t, owner', r, lo, hi)
    requires TRAPFRAME <= lo <= hi < MAXVPN && IsRoot(owner, r) && V(At(t, r, hi))
    ensures var q := P0(t, r, Px2(hi), Px1(hi));
            q in t.tables && UnmappedTo(s, owner, Put(t, q, Px0(hi), ZERO), owner', r, lo, hi + 1)
  {
    PutSpecialLeaf(t, owner', r, hi, ZERO);
    UnmapMapsMore(s, owner, t, Put(t, P0(t, r, Px2(hi), Px1(hi)), Px0(hi), ZERO), owner', r, lo, hi);
    forall p | p in owner
      ensures !LeafIn(owner[p], r, lo, hi + 1)
    {
      assert PageAt(s, owner, p);
    }
    assert owner' == WithoutLeaves(owner, r, lo, hi + 1);
  }

  /** Unmapping everything an allocation mapped undoes it, up to page tables. */
  lemma RangedUndone(s: State, owner: map<nat, Pos>, t: State, owner': map<nat, Pos>, u: State, owner'': map<nat, Pos>,
                     r: nat, lo: nat, hi: nat, want: map<nat, nat>)
    requires Ranged(s, owner, t, owner', r, lo, hi, want) && UnmappedTo(t, owner', u, owner'', r, lo, hi)
    requires forall v :: lo <= v < hi ==> At(s, r, v) == ZERO
    ensures Grown(s, owner, u, owner'', r)
  {
    forall r', v | IsRoot(owner, r') && 0 <= v < MAXVPN
      ensures SameAt(s, u, r', v)
    {
      assert RangeAt(s, t, r, lo, hi, want, r', v) && UnmapAt(t, u, r, lo, hi, r', v);
    }
    forall p | p in owner
      ensures p in owner''
    {
      assert PageAt(s, owner, p) && p in owner' && owner'[p] == owner[p];
    }
  }

  // ----- mappages over a range -----

  ghost predicate MapRangeAt(s: State, t: State, r: nat, vpn: nat, n: nat, ppn: nat, flags: nat, r': nat, v: nat)
    requires Shape(s) && Shape(t) && v < MAXVPN
  {
    At(t, r', v) == if r' == r && vpn <= v < vpn + n then Pte(ppn + (v - vpn), flags) else At(s, r', v)
  }

  ghost predicate MapRangeMaps(s: State, owner: map<nat, Pos>, t: State, r: nat, vpn: nat, n: nat, ppn: nat,
                               flags: nat) {
    && Shape(s) && Shape(t)
    && forall r', v {:trigger MapRangeAt(s, t, r, vpn, n, ppn, flags, r', v)} ::
            IsRoot(owner, r') && 0 <= v < MAXVPN ==>
         MapRangeAt(s, t, r, vpn, n, ppn, flags, r', v)
  }

  /** From s, n consecutive pages of r are mapped to n consecutive physical
      pages, which become theirs where they are user pages. */
  ghost predicate MappedRange(s: State, owner: map<nat, Pos>, t: State, owner': map<nat, Pos>,
                              r: nat, vpn: nat, n: nat, ppn: nat, flags: nat) {
    && Owns(t, owner') && Pages(t, owner') == Pages(s, owner) && MapRangeMaps(s, owner, t, r, vpn, n, ppn, flags)
    && owner.Keys <= owner'.Keys
    && (forall p {:trigger owner'[p]} :: p in owner' ==>
          if p !in owner then TableOf(owner'[p], r)
          else owner'[p] == if ppn <= p < ppn + n && vpn + (p - ppn) < TRAPFRAME then Leaf(r, vpn + (p - ppn))
                            else owner[p])
  }

  lemma MappedNone(s: State, owner: map<nat, Pos>, r: nat, vpn: nat, ppn: nat, flags: nat)
    requires Owns(s, owner)
    ensures MappedRange(s, owner, s, owner, r, vpn, 0, ppn, flags)
  {
  }

  /** The physical pages ppn.. may be given to the user pages among vpn.. . */
  ghost predicate Givable(owner: map<nat, Pos>, vpn: nat, n: nat, ppn: nat) {
    forall p :: ppn <= p < ppn + n && vpn + (p - ppn) < TRAPFRAME ==> p in owner && owner[p].Loose?
  }

  lemma MapRangeMore(s: State, owner: map<nat, Pos>, t: State, u: State, owner': map<nat, Pos>,
                     r: nat, vpn: nat, n: nat, ppn: nat, flags: nat)
    requires MapRangeMaps(s, owner, t, r, vpn, n, ppn, flags) && AtSet(t, u, owner', r, vpn + n, Pte(ppn + n, flags))
    requires forall x :: IsRoot(owner, x) ==> IsRoot(owner', x)
    ensures MapRangeMaps(s, owner, u, r, vpn, n + 1, ppn, flags)
  {
    var n', e := n + 1, Pte(ppn + n, flags);
    var w := vpn + n;
    forall r', v | IsRoot(owner, r') && 0 <= v < MAXVPN
      ensures MapRangeAt(s, u, r, vpn, n', ppn, flags, r', v)
    {
      assert MapRangeAt(s, t, r, vpn, n, ppn, flags, r', v);
      assert AtSetAt(t, u, r, w, e, r', v);
    }
  }

  lemma MappedMore(s: State, owner: map<nat, Pos>, t: State, owner': map<nat, Pos>, u: State, owner'': map<nat, Pos>,
                   r: nat, vpn: nat, n: nat, ppn: nat, flags: nat)
    requires MappedRange(s, owner, t, owner', r, vpn, n, ppn, flags)
    requires MappedTo(t, owner', u, owner'', r, vpn + n, Pte(ppn + n, flags)) && Givable(owner, vpn, n + 1, ppn)
    ensures MappedRange(s, owner, u, owner'', r, vpn, n + 1, ppn, flags)
  {
    forall x | IsRoot(owner, x)
      ensures IsRoot(owner', x)
    {
      assert owner'[x].Root?;
    }
    MapRangeMore(s, owner, t, u, owner', r, vpn, n, ppn, flags);
  }

  lemma MappedGrown(s: State, owner: map<nat, Pos>, t: State, owner': map<nat, Pos>, u: State, owner'': map<nat, Pos>,
                    r: nat, vpn: nat, n: nat, ppn: nat, flags: nat)
    requires MappedRange(s, owner, t, owner', r, vpn, n, ppn, flags) && Grown(t, owner', u, owner'', r)
    requires Givable(owner, vpn, n, ppn)
    ensures MappedRange(s, owner, u, owner'', r, vpn, n, ppn, flags)
  {
    forall r', v | IsRoot(owner, r') && 0 <= v < MAXVPN
      ensures MapRangeAt(s, u, r, vpn, n, ppn, flags, r', v)
    {
      assert MapRangeAt(s, t, r, vpn, n, ppn, flags, r', v);
      assert owner'[r'].Root?;
      assert SameAt(t, u, r', v);
    }
  }

  /** mappages on a single page. */
  lemma MappedOne(s: State, owner: map<nat, Pos>, t: State, owner': map<nat, Pos>, r: nat, vpn: nat, ppn: nat,
                  flags: nat)
    requires MappedRange(s, owner, t, owner', r, vpn, 1, ppn, flags)
    ensures MappedTo(s, owner, t, owner', r, vpn, Pte(ppn, flags))
  {
    var e := Pte(ppn, flags);
    forall r', v | IsRoot(owner, r') && 0 <= v < MAXVPN
      ensures AtSetAt(s, t, r, vpn, e, r', v)
    {
      assert MapRangeAt(s, t, r, vpn, 1, ppn, flags, r', v);
    }
  }

  lemma MappedZero(s: State, owner: map<nat, Pos>, t: State, owner': map<nat, Pos>, r: nat, vpn: nat, ppn: nat,
                   flags: nat)
    requires MappedRange(s, owner, t, owner', r, vpn, 0, ppn, flags)
    ensures Grown(s, owner, t, owner', r)
  {
    forall r', v | IsRoot(owner, r') && 0 <= v < MAXVPN
      ensures SameAt(s, t, r', v)
    {
      assert MapRangeAt(s, t, r, vpn, 0, ppn, flags, r', v);
    }
  }
}
