/**
 The heap of the user allocator (user/umalloc.c) in units of one Header: which
 blocks tile it, and which of them are on the free list.
 */
module ArenaModel {
  /** size is the s.size field of every header. ring is the free list in address
      order, from base; live are the blocks handed out; at gives, for every unit
      obtained from sbrk, the block it belongs to. */
  datatype Arena = Arena(base: nat, size: map<nat, nat>, ring: seq<nat>, live: set<nat>, at: map<nat, nat>)

  predicate Block(a: Arena, b: nat) { b in a.live || (b in a.ring && b != a.base) }

  ghost predicate GapAt(a: Arena, i: nat, j: nat)
    requires i < j < |a.ring|
  {
    a.ring[i] in a.size && a.ring[i] + a.size[a.ring[i]] < a.ring[j]
  }

  ghost predicate BlockAt(a: Arena, b: nat) {
    Block(a, b) ==> b in a.size && a.size[b] > 0 && b > a.base && (b in a.live ==> b !in a.ring)
  }

  /** Block b owns each of its units. */
  ghost predicate FillAt(a: Arena, b: nat, u: nat) {
    Block(a, b) && b in a.size && b <= u < b + a.size[b] ==> u in a.at && a.at[u] == b
  }

  ghost predicate UnitAt(a: Arena, u: nat)
    requires u in a.at
  {
    var b := a.at[u];
    Block(a, b) && b in a.size && b <= u < b + a.size[b]
  }

  /** The free list is sorted, its blocks never touch one another, and free and
      live blocks together tile exactly the units obtained. */
  ghost predicate Layout(a: Arena) {
    && |a.ring| > 0 && a.ring[0] == a.base && a.base in a.size && a.size[a.base] == 0
    && (forall i, j {:trigger GapAt(a, i, j)} :: 0 <= i < j < |a.ring| ==> GapAt(a, i, j))
    && (forall b {:trigger BlockAt(a, b)} :: 0 <= b ==> BlockAt(a, b))
    && (forall b, u {:trigger FillAt(a, b, u)} :: 0 <= b && 0 <= u ==> FillAt(a, b, u))
    && (forall u {:trigger UnitAt(a, u)} :: u in a.at ==> UnitAt(a, u))
  }

  /** Blocks do not overlap. */
  lemma Apart(a: Arena, b: nat, c: nat)
    requires Layout(a) && Block(a, b) && Block(a, c) && b < c
    ensures b in a.size && b + a.size[b] <= c
  {
    assert BlockAt(a, b) && BlockAt(a, c);
    assert FillAt(a, b, c) && FillAt(a, c, c);
  }

  lemma RingSorted(a: Arena, i: nat, j: nat)
    requires Layout(a) && i < |a.ring| && j < |a.ring|
    ensures a.ring[i] in a.size && (i < j ==> a.ring[i] + a.size[a.ring[i]] < a.ring[j])
    ensures a.ring[i] == a.ring[j] ==> i == j
  {
    if i < j {
      assert GapAt(a, i, j);
    }
    if j < i {
      assert GapAt(a, j, i);
    }
    assert BlockAt(a, a.ring[i]);
  }

  function Without(s: seq<nat>, i: nat): (t: seq<nat>)
    requires i < |s|
  {
    s[..i] + s[i + 1..]
  }

  function WithAfter(s: seq<nat>, k: nat, x: nat): (t: seq<nat>)
    requires k < |s|
  {
    s[..k + 1] + [x] + s[k + 1..]
  }

  /** Units of block b now belong to block c. */
  function Moved(at: map<nat, nat>, b: nat, c: nat): (r: map<nat, nat>) {
    map u | u in at :: if at[u] == b then c else at[u]
  }

  /** malloc on an exact fit: the i-th free block becomes live. */
  function Take(a: Arena, i: nat): (r: Arena)
    requires 0 < i < |a.ring|
  {
    a.(ring := Without(a.ring, i), live := a.live + {a.ring[i]})
  }

  lemma TakeBlocks(a: Arena, i: nat, b: nat)
    requires Layout(a) && 0 < i < |a.ring|
    ensures Block(Take(a, i), b) <==> Block(a, b)
    ensures b in Take(a, i).ring <==> b in a.ring && b != a.ring[i]
  {
    var r := Take(a, i);
    if b in a.ring {
      var k :| 0 <= k < |a.ring| && a.ring[k] == b;
      RingSorted(a, k, i);
      RingSorted(a, 0, i);
      assert k < i ==> r.ring[k] == b;
      assert k > i ==> r.ring[k - 1] == b;
    }
    if b in r.ring {
      var k :| 0 <= k < |r.ring| && r.ring[k] == b;
      assert b == a.ring[if k < i then k else k + 1];
      RingSorted(a, if k < i then k else k + 1, i);
    }
  }

  lemma TakeLayout(a: Arena, i: nat)
    requires Layout(a) && 0 < i < |a.ring|
    ensures Layout(Take(a, i))
  {
    var r := Take(a, i);
    forall j, k | 0 <= j < k < |r.ring|
      ensures GapAt(r, j, k)
    {
      assert GapAt(a, if j < i then j else j + 1, if k < i then k else k + 1);
    }
    forall b | 0 <= b
      ensures BlockAt(r, b)
    {
      TakeBlocks(a, i, b);
      assert BlockAt(a, b);
    }
    forall b, u | 0 <= b && 0 <= u
      ensures FillAt(r, b, u)
    {
      TakeBlocks(a, i, b);
      assert FillAt(a, b, u);
    }
    forall u | u in r.at
      ensures UnitAt(r, u)
    {
      assert UnitAt(a, u);
      TakeBlocks(a, i, a.at[u]);
    }
  }

  /** malloc on a larger block: its last n units become a live block. */
  function Split(a: Arena, i: nat, n: nat): (r: Arena)
    requires i < |a.ring| && a.ring[i] in a.size && a.size[a.ring[i]] > n
  {
    var p := a.ring[i];
    var t := p + (a.size[p] - n);
    a.(size := a.size[p := a.size[p] - n][t := n], live := a.live + {t},
       at := map u | u in a.at :: if a.at[u] == p && u >= t then t else a.at[u])
  }

  lemma SplitLayout(a: Arena, i: nat, n: nat)
    requires Layout(a) && 0 < i < |a.ring| && a.ring[i] in a.size && a.size[a.ring[i]] > n > 0
    ensures Layout(Split(a, i, n)) && !Block(a, a.ring[i] + (a.size[a.ring[i]] - n))
  {
    var r, p := Split(a, i, n), a.ring[i];
    var t := p + (a.size[p] - n);
    RingSorted(a, 0, i);
    assert FillAt(a, p, t) && FillAt(a, t, t) && BlockAt(a, t);
    assert t !in a.ring;
    forall j, k | 0 <= j < k < |r.ring|
      ensures GapAt(r, j, k)
    {
      assert GapAt(a, j, k);
    }
    forall b | 0 <= b
      ensures BlockAt(r, b)
    {
      assert BlockAt(a, b) && BlockAt(a, p);
    }
    forall b, u | 0 <= b && 0 <= u
      ensures FillAt(r, b, u)
    {
      assert FillAt(a, b, u) && FillAt(a, p, u);
    }
    forall u | u in r.at
      ensures UnitAt(r, u)
    {
      assert UnitAt(a, u);
    }
  }

  /** free: the block above, ring[k + 1], is joined to the block being freed. */
  function Absorb(a: Arena, b: nat, k: nat): (r: Arena)
    requires k + 1 < |a.ring| && b in a.size && a.ring[k + 1] in a.size
  {
    var q := a.ring[k + 1];
    a.(size := a.size[b := a.size[b] + a.size[q]], ring := Without(a.ring, k + 1), at := Moved(a.at, q, b))
  }

  lemma AbsorbLayout(a: Arena, b: nat, k: nat)
    requires Layout(a) && b in a.live && b in a.size && k + 1 < |a.ring|
    requires a.ring[k] < b && a.ring[k + 1] in a.size && b + a.size[b] == a.ring[k + 1]
    ensures Layout(Absorb(a, b, k))
  {
    var r, q := Absorb(a, b, k), a.ring[k + 1];
    assert BlockAt(a, b);
    assert q in a.ring && q != a.base by { RingSorted(a, 0, k + 1); }
    assert BlockAt(a, q);
    forall i, j | 0 <= i < j < |r.ring|
      ensures GapAt(r, i, j)
    {
      assert GapAt(a, if i < k + 1 then i else i + 1, if j < k + 1 then j else j + 1);
    }
    forall c | 0 <= c
      ensures BlockAt(r, c)
    {
      TakeBlocks(a, k + 1, c);
      assert BlockAt(a, c);
    }
    forall c, u | 0 <= c && 0 <= u
      ensures FillAt(r, c, u)
    {
      TakeBlocks(a, k + 1, c);
      assert FillAt(a, c, u) && FillAt(a, q, u);
    }
    forall u | u in r.at
      ensures UnitAt(r, u)
    {
      assert UnitAt(a, u);
      TakeBlocks(a, k + 1, a.at[u]);
      TakeBlocks(a, k + 1, b);
    }
  }

  /** free: the block is joined to the one below, ring[k]. */
  function MergeDown(a: Arena, b: nat, k: nat): (r: Arena)
    requires k < |a.ring| && b in a.size && a.ring[k] in a.size
  {
    var p := a.ring[k];
    a.(size := a.size[p := a.size[p] + a.size[b]], live := a.live - {b}, at := Moved(a.at, b, p))
  }

  lemma MergeDownLayout(a: Arena, b: nat, k: nat)
    requires Layout(a) && b in a.live && b in a.size && k < |a.ring|
    requires a.ring[k] in a.size && a.ring[k] + a.size[a.ring[k]] == b
    requires k + 1 < |a.ring| ==> b + a.size[b] < a.ring[k + 1]
    ensures Layout(MergeDown(a, b, k))
  {
    var r, p := MergeDown(a, b, k), a.ring[k];
    assert BlockAt(a, b);
    RingSorted(a, 0, k);
    assert k > 0;
    assert BlockAt(a, p);
    forall i, j | 0 <= i < j < |r.ring|
      ensures GapAt(r, i, j)
    {
      assert GapAt(a, i, j);
      if i == k && j > k + 1 {
        assert GapAt(a, k + 1, j);
      }
      RingSorted(a, i, k);
    }
    forall c | 0 <= c
      ensures BlockAt(r, c)
    {
      assert BlockAt(a, c);
    }
    forall c, u | 0 <= c && 0 <= u
      ensures FillAt(r, c, u)
    {
      assert FillAt(a, c, u) && FillAt(a, b, u);
    }
    forall u | u in r.at
      ensures UnitAt(r, u)
    {
      assert UnitAt(a, u);
    }
  }

  /** free: the block touches neither neighbour and joins the list after ring[k]. */
  function Insert(a: Arena, b: nat, k: nat): (r: Arena)
    requires k < |a.ring|
  {
    a.(ring := WithAfter(a.ring, k, b), live := a.live - {b})
  }

  lemma InsertLayout(a: Arena, b: nat, k: nat)
    requires Layout(a) && b in a.live && b in a.size && k < |a.ring|
    requires a.ring[k] in a.size && a.ring[k] + a.size[a.ring[k]] < b
    requires k + 1 < |a.ring| ==> b + a.size[b] < a.ring[k + 1]
    ensures Layout(Insert(a, b, k))
  {
    var r := Insert(a, b, k);
    assert BlockAt(a, b);
    forall i, j | 0 <= i < j < |r.ring|
      ensures GapAt(r, i, j)
    {
      InsertGap(a, b, k, i, j);
    }
    forall c | 0 <= c
      ensures c in r.ring <==> c == b || c in a.ring
    {
      if c in a.ring {
        var i :| 0 <= i < |a.ring| && a.ring[i] == c;
        assert r.ring[if i <= k then i else i + 1] == c;
      }
      assert r.ring[k + 1] == b;
    }
    forall c | 0 <= c
      ensures BlockAt(r, c)
    {
      assert BlockAt(a, c);
    }
    forall c, u | 0 <= c && 0 <= u
      ensures FillAt(r, c, u)
    {
      assert FillAt(a, c, u);
    }
    forall u | u in r.at
      ensures UnitAt(r, u)
    {
      assert UnitAt(a, u);
    }
  }

  lemma InsertGap(a: Arena, b: nat, k: nat, i: nat, j: nat)
    requires Layout(a) && b in a.live && b in a.size && k < |a.ring|
    requires a.ring[k] in a.size && a.ring[k] + a.size[a.ring[k]] < b
    requires k + 1 < |a.ring| ==> b + a.size[b] < a.ring[k + 1]
    requires i < j < |a.ring| + 1
    ensures GapAt(Insert(a, b, k), i, j)
  {
    var r := Insert(a, b, k);
    var i', j' := if i <= k then i else i - 1, if j <= k then j else j - 1;
    if i == k + 1 {
      assert r.ring[i] == b && r.ring[j] == a.ring[j - 1];
      RingSorted(a, k + 1, j - 1);
    } else if j == k + 1 {
      assert r.ring[j] == b && r.ring[i] == a.ring[i];
      RingSorted(a, i, k);
    } else {
      assert r.ring[i] == a.ring[i'] && r.ring[j] == a.ring[j'];
      assert GapAt(a, i', j');
    }
  }

  predicate InSpan(h: nat, n: nat, u: nat) { h <= u < h + n }

  /** The n units from h on. */
  function Span(h: nat, n: nat): (r: set<nat>) { set u: nat | u < h + n && InSpan(h, n, u) }

  /** morecore: a new region of nu units at h, as a live block about to be freed. */
  function AddCore(a: Arena, h: nat, nu: nat): (r: Arena) {
    a.(size := a.size[h := nu], live := a.live + {h}, at := a.at + map u | u in Span(h, nu) :: h)
  }

  lemma AddCoreLayout(a: Arena, h: nat, nu: nat)
    requires Layout(a) && nu > 0 && h > a.base && forall u :: u in a.at ==> u < h
    ensures Layout(AddCore(a, h, nu)) && !Block(a, h)
  {
    var r := AddCore(a, h, nu);
    assert BlockAt(a, h) && FillAt(a, h, h);
    assert h !in a.ring;
    forall i, j | 0 <= i < j < |r.ring|
      ensures GapAt(r, i, j)
    {
      assert GapAt(a, i, j);
    }
    forall b | 0 <= b
      ensures BlockAt(r, b)
    {
      assert BlockAt(a, b);
    }
    forall b, u | 0 <= b && 0 <= u
      ensures FillAt(r, b, u)
    {
      assert FillAt(a, b, u);
    }
    forall u | u in r.at
      ensures UnitAt(r, u)
    {
      if u in a.at {
        assert UnitAt(a, u);
      }
    }
  }

  // ----- the free list is determined by the live blocks -----

  predicate FreeUnit(a: Arena, u: int) { u >= 0 && u in a.at && a.at[u] !in a.live }

  /** Unit u lies in block b. */
  predicate Covers(a: Arena, b: nat, u: nat) { Block(a, b) && b in a.size && b <= u < b + a.size[b] }

  /** Every obtained unit lies in exactly one block, and no other unit does. */
  lemma Tiles(a: Arena, u: nat)
    requires Layout(a)
    ensures u in a.at <==> exists b: nat :: Covers(a, b, u)
    ensures forall b: nat, c: nat :: Covers(a, b, u) && Covers(a, c, u) ==> b == c
  {
    if u in a.at {
      assert UnitAt(a, u);
      assert Covers(a, a.at[u], u);
    }
    forall b: nat | Covers(a, b, u)
      ensures u in a.at && a.at[u] == b
    {
      assert FillAt(a, b, u);
    }
  }

  /** A free block starts exactly where free units do: blocks are coalesced. */
  lemma Starts(a: Arena, b: nat)
    requires Layout(a)
    ensures b in a.ring && b != a.base <==> FreeUnit(a, b) && !FreeUnit(a, b - 1)
  {
    assert BlockAt(a, b) && FillAt(a, b, b);
    if b in a.ring && b != a.base && FreeUnit(a, b - 1) {
      assert UnitAt(a, b - 1);
      var c := a.at[b - 1];
      var i :| 0 <= i < |a.ring| && a.ring[i] == c;
      var j :| 0 <= j < |a.ring| && a.ring[j] == b;
      RingSorted(a, i, j);
      RingSorted(a, j, i);
      assert false;
    }
    if FreeUnit(a, b) && !FreeUnit(a, b - 1) {
      assert UnitAt(a, b);
      var c := a.at[b];
      assert c >= b || FillAt(a, c, b - 1);
    }
  }

  /** Free units that follow one another lie in one free block. */
  lemma {:induction false} FreeRun(a: Arena, lo: nat, hi: nat)
    requires Layout(a) && lo <= hi && forall u :: lo <= u <= hi ==> FreeUnit(a, u)
    ensures lo in a.at && hi in a.at && a.at[hi] == a.at[lo]
    decreases hi
  {
    assert FreeUnit(a, lo);
    if lo < hi {
      FreeRun(a, lo, hi - 1);
      assert FreeUnit(a, hi) && FreeUnit(a, hi - 1) && UnitAt(a, hi);
      Starts(a, hi);
      var c := a.at[hi];
      assert c < hi;
      assert FillAt(a, c, hi - 1);
    }
  }

  lemma SortedSame(s: seq<nat>, t: seq<nat>, i: nat)
    requires forall j, k :: 0 <= j < k < |s| ==> s[j] < s[k]
    requires forall j, k :: 0 <= j < k < |t| ==> t[j] < t[k]
    requires forall x :: x in s <==> x in t
    ensures i < |s| ==> i < |t| && s[i] == t[i]
    decreases i
  {
    if i < |s| {
      forall j | 0 <= j < i
        ensures j < |t| && s[j] == t[j]
      {
        SortedSame(s, t, j);
      }
      assert s[i] in s;
      var k :| 0 <= k < |t| && t[k] == s[i];
      assert k >= i;
      assert i < |t| ==> t[i] in t;
    }
  }

  ghost predicate SameLive(a: Arena, a': Arena) {
    && a'.base == a.base && a'.live == a.live && a'.at.Keys == a.at.Keys
    && forall c :: c in a.live ==> c in a.size && c in a'.size && a'.size[c] == a.size[c]
  }

  lemma SameFreeUnits(a: Arena, a': Arena, u: int)
    requires Layout(a) && Layout(a') && SameLive(a, a')
    ensures FreeUnit(a, u) <==> FreeUnit(a', u)
  {
    if u >= 0 && u in a.at {
      assert UnitAt(a, u) && UnitAt(a', u);
      assert FillAt(a', a.at[u], u) && FillAt(a, a'.at[u], u);
    }
  }

  /** Two heaps with the same live blocks and the same units have one free list. */
  lemma Canonical(a: Arena, a': Arena)
    requires Layout(a) && Layout(a') && SameLive(a, a')
    ensures a'.ring == a.ring
    ensures forall i :: 0 <= i < |a.ring| ==>
              a.ring[i] in a.size && a.ring[i] in a'.size && a'.size[a.ring[i]] == a.size[a.ring[i]]
  {
    forall b | 0 <= b
      ensures b in a.ring <==> b in a'.ring
    {
      Starts(a, b);
      Starts(a', b);
      SameFreeUnits(a, a', b);
      SameFreeUnits(a, a', b - 1);
    }
    RingSortedAll(a);
    RingSortedAll(a');
    forall i: nat
      ensures i < |a.ring| ==> i < |a'.ring| && a.ring[i] == a'.ring[i]
      ensures i < |a'.ring| ==> i < |a.ring| && a.ring[i] == a'.ring[i]
    {
      SortedSame(a.ring, a'.ring, i);
      SortedSame(a'.ring, a.ring, i);
    }
    SortedSame(a.ring, a'.ring, |a'.ring|);
    SortedSame(a'.ring, a.ring, |a.ring|);
    forall i | 0 <= i < |a.ring|
      ensures a.ring[i] in a.size && a.ring[i] in a'.size && a'.size[a.ring[i]] == a.size[a.ring[i]]
    {
      RingSorted(a, i, 0);
      RingSorted(a', i, 0);
      SizeAtMost(a, a', i);
      SizeAtMost(a', a, i);
    }
  }

  lemma RingSortedAll(a: Arena)
    requires Layout(a)
    ensures forall j, k :: 0 <= j < k < |a.ring| ==> a.ring[j] < a.ring[k]
  {
    forall j, k | 0 <= j < k < |a.ring|
      ensures a.ring[j] < a.ring[k]
    {
      RingSorted(a, j, k);
    }
  }

  lemma SizeAtMost(a: Arena, a': Arena, i: nat)
    requires Layout(a) && Layout(a') && SameLive(a, a') && a'.ring == a.ring && i < |a.ring|
    requires a.ring[i] in a.size && a.ring[i] in a'.size
    ensures a.size[a.ring[i]] <= a'.size[a.ring[i]]
  {
    var b := a.ring[i];
    if b != a.base {
      RingSorted(a, 0, i);
      assert BlockAt(a, b) && BlockAt(a', b);
      var e := b + a'.size[b];
      if e < b + a.size[b] {
        assert FillAt(a, b, e) && FillAt(a', b, e - 1);
        SameFreeUnits(a, a', e);
        SameFreeUnits(a, a', e - 1);
        assert UnitAt(a', e);
        var c := a'.at[e];
        assert FillAt(a', b, c) && FillAt(a', c, c) && FillAt(a', c, b) && FillAt(a', b, b);
        assert c == e;
        Starts(a', e);
      }
    }
  }
}
