/**
 The block and inode layer (kernel/fs.c) as values: the free bitmap, block
 contents, and each inode's direct and indirect block numbers. Ownership is a
 bijection: every data block whose bit is set is named by exactly one slot of
 exactly one inode.
 */
module FsModel {

  const BSIZE := 1024
  const NDIRECT := 12
  const NINDIRECT := 256
  const MAXFILE := NDIRECT + NINDIRECT

  const UINT := 0x1_0000_0000

  datatype Inode = Inode(addrs: seq<nat>, size: nat)

  /** data holds the bytes of every block, file data and indirect blocks alike. */
  datatype State = State(nmeta: nat, bits: seq<bool>, data: seq<seq<int>>, inodes: seq<Inode>)

  /** A place that can hold a block number. */
  datatype Slot = Direct(i: nat, k: nat) | Indirect(i: nat) | Entry(i: nat, j: nat)

  function ZeroData(): (r: seq<int>) { seq(BSIZE, _ => 0) }

  // ----- a block read as 256 little-endian words -----

  function Word(block: seq<int>, j: nat): (n: nat)
    requires |block| == BSIZE && j < NINDIRECT
  {
    var at := 4 * j;
    block[at] % 256 + block[at + 1] % 256 * 0x100 + block[at + 2] % 256 * 0x1_0000 + block[at + 3] % 256 * 0x100_0000
  }

  function PutWord(block: seq<int>, j: nat, n: nat): (r: seq<int>)
    requires |block| == BSIZE && j < NINDIRECT
    ensures |r| == BSIZE
  {
    var at := 4 * j;
    block[at := n % 256][at + 1 := n / 0x100 % 256][at + 2 := n / 0x1_0000 % 256][at + 3 := n / 0x100_0000 % 256]
  }

  lemma Bytes(n: nat)
    requires n < UINT
    ensures n == n % 256 + n / 0x100 % 256 * 0x100 + n / 0x1_0000 % 256 * 0x1_0000 + n / 0x100_0000 % 256 * 0x100_0000
  {
    assert n / 0x1_0000 == n / 0x100 / 256 && n / 0x100_0000 == n / 0x1_0000 / 256;
  }

  /** a[j] = n changes word j and no other. */
  lemma WordPut(block: seq<int>, j: nat, n: nat, k: nat)
    requires |block| == BSIZE && j < NINDIRECT && k < NINDIRECT && n < UINT
    ensures Word(PutWord(block, j, n), k) == if j == k then n else Word(block, k)
  {
    var r, at := PutWord(block, j, n), 4 * k;
    if j == k {
      Bytes(n);
      assert r[at] == n % 256 && r[at + 1] == n / 0x100 % 256;
      assert r[at + 2] == n / 0x1_0000 % 256 && r[at + 3] == n / 0x100_0000 % 256;
    } else {
      assert r[at] == block[at] && r[at + 1] == block[at + 1];
      assert r[at + 2] == block[at + 2] && r[at + 3] == block[at + 3];
    }
  }

  ghost predicate Shape(s: State) {
    && 0 < s.nmeta <= |s.bits| && |s.data| == |s.bits| <= UINT
    && (forall b :: 0 <= b < |s.data| ==> |s.data[b]| == BSIZE)
    && (forall i :: 0 <= i < |s.inodes| ==> |s.inodes[i].addrs| == NDIRECT + 1)
  }

  predicate IsSlot(s: State, x: Slot) {
    && x.i < |s.inodes|
    && (x.Direct? ==> x.k < NDIRECT) && (x.Entry? ==> x.j < NINDIRECT)
  }

  /** The indirect block of inode i, or 0. */
  function IndOf(s: State, i: nat): (b: nat)
    requires Shape(s) && i < |s.inodes|
  {
    s.inodes[i].addrs[NDIRECT]
  }

  /** The block number a slot holds; 0 is "none". */
  function Ptr(s: State, x: Slot): (b: nat)
    requires Shape(s) && IsSlot(s, x)
  {
    match x
    case Direct(i, k) => s.inodes[i].addrs[k]
    case Indirect(i) => IndOf(s, i)
    case Entry(i, j) => if 0 < IndOf(s, i) < |s.data| then Word(s.data[IndOf(s, i)], j) else 0
  }

  // ----- ownership -----

  ghost predicate SlotAt(s: State, owner: map<nat, Slot>, x: Slot)
    requires Shape(s) && IsSlot(s, x)
  {
    Ptr(s, x) != 0 ==> Ptr(s, x) in owner && owner[Ptr(s, x)] == x
  }

  ghost predicate BlockAt(s: State, owner: map<nat, Slot>, b: nat)
    requires Shape(s) && b in owner
  {
    s.nmeta <= b < |s.bits| && IsSlot(s, owner[b]) && Ptr(s, owner[b]) == b
  }

  /** bit b is set exactly if b is metadata, owned, or pending: allocated but
      not yet stored in a slot (0 when there is none). */
  ghost predicate BitAt(s: State, owner: map<nat, Slot>, pending: nat, b: nat)
    requires Shape(s) && b < |s.bits|
  {
    s.bits[b] <==> b < s.nmeta || b in owner || b == pending
  }

  ghost predicate Owns(s: State, owner: map<nat, Slot>, pending: nat) {
    && Shape(s) && pending < |s.bits| && pending !in owner
    && (forall x {:trigger SlotAt(s, owner, x)} :: IsSlot(s, x) ==> SlotAt(s, owner, x))
    && (forall b {:trigger BlockAt(s, owner, b)} :: b in owner ==> BlockAt(s, owner, b))
    && (forall b {:trigger BitAt(s, owner, pending, b)} :: 0 <= b < |s.bits| ==> BitAt(s, owner, pending, b))
  }

  // ----- primitive updates -----

  /** balloc's effect: mark the block and zero it. */
  function Allocated(s: State, r: nat): (t: State)
    requires r < |s.bits| && r < |s.data|
  {
    s.(bits := s.bits[r := true], data := s.data[r := ZeroData()])
  }

  function Freed(s: State, b: nat): (t: State)
    requires b < |s.bits|
  {
    s.(bits := s.bits[b := false])
  }

  /** Store block number b in slot x. */
  function Stored(s: State, x: Slot, b: nat): (t: State)
    requires Shape(s) && IsSlot(s, x) && (x.Entry? ==> 0 < IndOf(s, x.i) < |s.data|)
  {
    match x
    case Direct(i, k) => s.(inodes := s.inodes[i := s.inodes[i].(addrs := s.inodes[i].addrs[k := b])])
    case Indirect(i) => s.(inodes := s.inodes[i := s.inodes[i].(addrs := s.inodes[i].addrs[NDIRECT := b])])
    case Entry(i, j) =>
      s.(data := s.data[IndOf(s, i) := PutWord(s.data[IndOf(s, i)], j, b)])
  }

  lemma AllocatedOwns(s: State, owner: map<nat, Slot>, r: nat)
    requires Owns(s, owner, 0) && 0 < r < |s.bits| && !s.bits[r]
    ensures Owns(Allocated(s, r), owner, r)
  {
    var t := Allocated(s, r);
    assert BitAt(s, owner, 0, r);
    forall x | IsSlot(t, x)
      ensures SlotAt(t, owner, x)
    {
      assert SlotAt(s, owner, x);
      if x.Entry? {
        assert SlotAt(s, owner, Indirect(x.i));
      }
    }
    forall b | b in owner
      ensures BlockAt(t, owner, b)
    {
      assert BlockAt(s, owner, b);
      if owner[b].Entry? {
        assert SlotAt(s, owner, Indirect(owner[b].i));
      }
    }
    forall b | 0 <= b < |t.bits|
      ensures BitAt(t, owner, r, b)
    {
      assert BitAt(s, owner, 0, b);
    }
  }

  /** bfree of an allocated data block keeps the file system consistent exactly if
      no inode names the block; balloc and then bfree is then as if nothing. */
  lemma FreedExactly(s: State, owner: map<nat, Slot>, pending: nat, b: nat)
    requires Owns(s, owner, pending) && s.nmeta <= b < |s.bits| && s.bits[b]
    ensures b == pending <==> exists owner' :: Owns(Freed(s, b), owner', 0)
    ensures b == pending ==> Owns(Freed(s, b), owner, 0)
  {
    var t := Freed(s, b);
    assert BitAt(s, owner, pending, b);
    if b == pending {
      forall x | IsSlot(t, x)
        ensures SlotAt(t, owner, x)
      {
        assert SlotAt(s, owner, x);
      }
      forall c | c in owner
        ensures BlockAt(t, owner, c)
      {
        assert BlockAt(s, owner, c);
      }
      forall c | 0 <= c < |t.bits|
        ensures BitAt(t, owner, 0, c)
      {
        assert BitAt(s, owner, pending, c);
      }
      assert Owns(t, owner, 0);
    } else {
      assert BlockAt(s, owner, b);
      forall owner'
        ensures !Owns(t, owner', 0)
      {
        assert Owns(t, owner', 0) ==> SlotAt(t, owner', owner[b]) && BitAt(t, owner', 0, b);
      }
    }
  }

  /** Storing changes the one slot and no other. */
  lemma PtrStored(s: State, owner: map<nat, Slot>, x: Slot, r: nat, y: Slot)
    requires Owns(s, owner, r) && IsSlot(s, x) && Ptr(s, x) == 0 && IsSlot(s, y)
    requires x.Entry? ==> 0 < IndOf(s, x.i) < |s.data|
    requires x.Indirect? ==> s.data[r] == ZeroData()
    ensures Shape(Stored(s, x, r)) && Ptr(Stored(s, x, r), y) == if x == y then r else Ptr(s, y)
  {
    if x.Entry? && y.Entry? {
      assert SlotAt(s, owner, Indirect(x.i)) && SlotAt(s, owner, Indirect(y.i));
      WordPut(s.data[IndOf(s, x.i)], x.j, r, y.j);
    }
  }

  /** Storing the pending block in an empty slot completes an allocation. */
  lemma StoredOwns(s: State, owner: map<nat, Slot>, x: Slot, r: nat)
    requires Owns(s, owner, r) && s.nmeta <= r && IsSlot(s, x) && Ptr(s, x) == 0
    requires x.Entry? ==> 0 < IndOf(s, x.i) < |s.data|
    requires x.Indirect? ==> s.data[r] == ZeroData()
    ensures Owns(Stored(s, x, r), owner[r := x], 0)
  {
    var t := Stored(s, x, r);
    var owner' := owner[r := x];
    PtrStored(s, owner, x, r, x);
    forall y | IsSlot(t, y)
      ensures SlotAt(t, owner', y)
    {
      PtrStored(s, owner, x, r, y);
      assert SlotAt(s, owner, y);
    }
    forall b | b in owner'
      ensures BlockAt(t, owner', b)
    {
      if b != r {
        assert BlockAt(s, owner, b);
        PtrStored(s, owner, x, r, owner[b]);
      }
    }
    forall b | 0 <= b < |t.bits|
      ensures BitAt(t, owner', 0, b)
    {
      assert BitAt(s, owner, r, b);
    }
  }

  /** itrunc on a direct block: bfree it and clear the slot. */
  lemma DirectFreed(s: State, owner: map<nat, Slot>, i: nat, k: nat)
    requires Owns(s, owner, 0) && i < |s.inodes| && k < NDIRECT && Ptr(s, Direct(i, k)) != 0
    ensures var b := Ptr(s, Direct(i, k));
            && b < |s.bits| && s.bits[b] && b in owner && owner[b] == Direct(i, k)
            && Owns(Stored(Freed(s, b), Direct(i, k), 0), owner - {b}, 0)
  {
    var b := Ptr(s, Direct(i, k));
    assert SlotAt(s, owner, Direct(i, k)) && BlockAt(s, owner, b) && BitAt(s, owner, 0, b);
    var t := Stored(Freed(s, b), Direct(i, k), 0);
    var owner' := owner - {b};
    forall y | IsSlot(t, y)
      ensures SlotAt(t, owner', y)
    {
      assert SlotAt(s, owner, y);
    }
    forall c | c in owner'
      ensures BlockAt(t, owner', c)
    {
      assert BlockAt(s, owner, c);
    }
    forall c | 0 <= c < |t.bits|
      ensures BitAt(t, owner', 0, c)
    {
      assert BitAt(s, owner, 0, c);
    }
  }

  ghost function WithoutDirect(owner: map<nat, Slot>, i: nat, k: nat): (r: map<nat, Slot>) {
    map b | b in owner && !(owner[b].Direct? && owner[b].i == i && owner[b].k < k) :: owner[b]
  }

  /** Dropping the owner of one more direct slot drops its block, if it has one. */
  lemma WithoutDirectStep(s: State, owner0: map<nat, Slot>, owner: map<nat, Slot>, i: nat, k: nat)
    requires Owns(s, owner, 0) && i < |s.inodes| && k < NDIRECT && owner == WithoutDirect(owner0, i, k)
    ensures WithoutDirect(owner0, i, k + 1) ==
            if Ptr(s, Direct(i, k)) == 0 then owner else owner - {Ptr(s, Direct(i, k))}
  {
    assert SlotAt(s, owner, Direct(i, k));
    forall b | b in owner
      ensures owner[b] == Direct(i, k) <==> b == Ptr(s, Direct(i, k))
    {
      assert BlockAt(s, owner, b);
    }
  }

  /** The blocks reached through inode i's indirect pointer. */
  predicate ThroughIndirect(x: Slot, i: nat) { x.i == i && !x.Direct? }

  ghost function WithoutIndirect(owner: map<nat, Slot>, i: nat): (r: map<nat, Slot>) {
    map b | b in owner && !ThroughIndirect(owner[b], i) :: owner[b]
  }

  /** itrunc's indirect part: the entries' blocks and the indirect block itself
      go back to the bitmap, and nothing else does. */
  lemma IndirectFreed(s: State, owner: map<nat, Slot>, i: nat, bits: seq<bool>)
    requires Owns(s, owner, 0) && i < |s.inodes| && |bits| == |s.bits|
    requires forall b :: 0 <= b < |bits| ==> (bits[b] <==> s.bits[b] && !(b in owner && ThroughIndirect(owner[b], i)))
    ensures Owns(Stored(s.(bits := bits), Indirect(i), 0), WithoutIndirect(owner, i), 0)
  {
    var t := Stored(s.(bits := bits), Indirect(i), 0);
    var owner' := WithoutIndirect(owner, i);
    forall y | IsSlot(t, y)
      ensures SlotAt(t, owner', y)
    {
      assert SlotAt(s, owner, y);
    }
    forall c | c in owner'
      ensures BlockAt(t, owner', c)
    {
      assert BlockAt(s, owner, c);
    }
    forall c | 0 <= c < |t.bits|
      ensures BitAt(t, owner', 0, c)
    {
      assert BitAt(s, owner, 0, c);
      if c in owner {
        assert BlockAt(s, owner, c);
      }
    }
  }

  /** With no indirect block there is nothing to drop. */
  lemma NoIndirect(s: State, owner: map<nat, Slot>, i: nat)
    requires Owns(s, owner, 0) && i < |s.inodes| && IndOf(s, i) == 0
    ensures WithoutIndirect(owner, i) == owner
  {
    forall b | b in owner
      ensures !ThroughIndirect(owner[b], i)
    {
      assert BlockAt(s, owner, b);
    }
  }

  /** While itrunc walks the indirect block, entry j's block is still marked. */
  lemma EntryStillSet(s: State, owner: map<nat, Slot>, i: nat, j: nat, bits: seq<bool>)
    requires Owns(s, owner, 0) && i < |s.inodes| && j < NINDIRECT && |bits| == |s.bits|
    requires forall b :: 0 <= b < |bits| ==> (bits[b] <==> s.bits[b] && !(b in owner && EntryBelow(owner[b], i, j)))
    requires Ptr(s, Entry(i, j)) != 0
    ensures var b := Ptr(s, Entry(i, j));
            && b < |bits| && bits[b]
            && forall c :: 0 <= c < |bits| ==>
                 (bits[b := false][c] <==> s.bits[c] && !(c in owner && EntryBelow(owner[c], i, j + 1)))
  {
    var b := Ptr(s, Entry(i, j));
    assert SlotAt(s, owner, Entry(i, j)) && BlockAt(s, owner, b) && BitAt(s, owner, 0, b);
    forall c | c in owner
      ensures owner[c] == Entry(i, j) <==> c == b
    {
      assert BlockAt(s, owner, c);
    }
  }

  lemma EntryEmpty(s: State, owner: map<nat, Slot>, i: nat, j: nat)
    requires Owns(s, owner, 0) && i < |s.inodes| && j < NINDIRECT && Ptr(s, Entry(i, j)) == 0
    ensures forall c :: c in owner ==> owner[c] != Entry(i, j)
  {
    forall c | c in owner
      ensures owner[c] != Entry(i, j)
    {
      assert BlockAt(s, owner, c);
    }
  }

  predicate EntryBelow(x: Slot, i: nat, j: nat) { x.Entry? && x.i == i && x.j < j }

  /** The owner map once inode i has been truncated. */
  ghost function Without(owner: map<nat, Slot>, i: nat): (r: map<nat, Slot>) {
    map b | b in owner && owner[b].i != i :: owner[b]
  }

  lemma WithoutBoth(s: State, owner: map<nat, Slot>, i: nat)
    requires Owns(s, owner, 0)
    ensures WithoutIndirect(WithoutDirect(owner, i, NDIRECT), i) == Without(owner, i)
  {
    forall b | b in owner
      ensures owner[b].i != i <==> b in WithoutIndirect(WithoutDirect(owner, i, NDIRECT), i)
    {
      assert BlockAt(s, owner, b);
    }
  }

  // ----- file contents -----

  /** bmap without allocation: the block that holds file block bn, or 0. */
  function MapOf(s: State, i: nat, bn: nat): (b: nat)
    requires Shape(s) && i < |s.inodes| && bn < MAXFILE
  {
    Ptr(s, SlotOf(i, bn))
  }

  function SlotOf(i: nat, bn: nat): (x: Slot) {
    if bn < NDIRECT then Direct(i, bn) else Entry(i, bn - NDIRECT)
  }

  function ByteAt(s: State, i: nat, o: nat): (c: int)
    requires Shape(s) && i < |s.inodes|
  {
    if o >= MAXFILE * BSIZE then 0
    else
      var b := MapOf(s, i, o / BSIZE);
      if b < |s.data| then s.data[b][o % BSIZE] else 0
  }

  /** The file as one byte sequence of length size. */
  function Content(s: State, i: nat): (r: seq<int>)
    requires Shape(s) && i < |s.inodes|
  {
    seq(s.inodes[i].size, o requires 0 <= o < s.inodes[i].size => ByteAt(s, i, o))
  }

  /** Every file block below size is mapped. */
  ghost predicate FileAt(s: State, i: nat)
    requires Shape(s) && i < |s.inodes|
  {
    && s.inodes[i].size <= MAXFILE * BSIZE
    && forall bn :: 0 <= bn < MAXFILE && bn * BSIZE < s.inodes[i].size ==> MapOf(s, i, bn) != 0
  }

  /** The whole file-system invariant. */
  ghost predicate Inv(s: State, owner: map<nat, Slot>) {
    Owns(s, owner, 0) && forall i {:trigger FileAt(s, i)} :: 0 <= i < |s.inodes| ==> FileAt(s, i)
  }

  /** The bitmap marks exactly the metadata blocks and the blocks that some inode
      names, and no block is named twice. */
  lemma BitmapIsExact(s: State, owner: map<nat, Slot>, b: nat)
    requires Inv(s, owner) && b < |s.bits|
    ensures s.bits[b] <==> b < s.nmeta || exists x :: IsSlot(s, x) && Ptr(s, x) == b != 0
    ensures forall x, y :: IsSlot(s, x) && IsSlot(s, y) && Ptr(s, x) == Ptr(s, y) == b != 0 ==> x == y && b >= s.nmeta
  {
    assert BitAt(s, owner, 0, b);
    if b in owner {
      assert BlockAt(s, owner, b);
    }
    forall x | IsSlot(s, x) && Ptr(s, x) == b != 0
      ensures b in owner && owner[b] == x && b >= s.nmeta
    {
      assert SlotAt(s, owner, x) && BlockAt(s, owner, b);
    }
  }

  /** Two file blocks that are mapped are different disk blocks. */
  lemma MapInjective(s: State, owner: map<nat, Slot>, pending: nat, i: nat, bn: nat, j: nat, bm: nat)
    requires Owns(s, owner, pending) && i < |s.inodes| && j < |s.inodes| && bn < MAXFILE && bm < MAXFILE
    requires MapOf(s, i, bn) != 0 && MapOf(s, i, bn) == MapOf(s, j, bm)
    ensures i == j && bn == bm
  {
    assert SlotAt(s, owner, SlotOf(i, bn)) && SlotAt(s, owner, SlotOf(j, bm));
  }

  // ----- what bmap and writei may change -----

  ghost predicate SameMapAt(s: State, t: State, j: nat, bm: nat)
    requires Shape(s) && Shape(t) && j < |s.inodes| == |t.inodes| && bm < MAXFILE
  {
    MapOf(t, j, bm) == MapOf(s, j, bm)
  }

  /** From s to t, file block (i, bn) may have been given a block; every other
      mapping, every size and the data of every file block are as before. */
  ghost predicate Grew(s: State, t: State, owner: map<nat, Slot>, i: nat, bn: nat) {
    && Shape(s) && Shape(t) && |t.inodes| == |s.inodes| && |t.data| == |s.data| && i < |s.inodes| && bn < MAXFILE
    && (forall j :: 0 <= j < |s.inodes| ==> t.inodes[j].size == s.inodes[j].size)
    && (forall j :: 0 <= j < |s.inodes| && j != i ==> t.inodes[j] == s.inodes[j])
    && (forall j, bm {:trigger SameMapAt(s, t, j, bm)} ::
          0 <= j < |s.inodes| && 0 <= bm < MAXFILE && (j != i || bm != bn || MapOf(s, i, bn) != 0) ==>
            SameMapAt(s, t, j, bm))
    && (forall b {:trigger t.data[b]} :: b in owner && b < |s.data| && !owner[b].Indirect? ==> t.data[b] == s.data[b])
  }

  lemma GrewRefl(s: State, owner: map<nat, Slot>, i: nat, bn: nat)
    requires Shape(s) && i < |s.inodes| && bn < MAXFILE
    ensures Grew(s, s, owner, i, bn)
  {
  }

  lemma AllocGrew(s: State, owner: map<nat, Slot>, x: Slot, r: nat, bn: nat)
    requires Owns(s, owner, 0) && 0 < r < |s.bits| && !s.bits[r] && IsSlot(s, x) && Ptr(s, x) == 0 && bn < MAXFILE
    requires x.Entry? ==> 0 < IndOf(s, x.i) < |s.data|
    requires x == Indirect(x.i) || x == SlotOf(x.i, bn)
    ensures var t := Stored(Allocated(s, r), x, r);
            Owns(t, owner[r := x], 0) && Grew(s, t, owner, x.i, bn) && t.data[r] == ZeroData()
  {
    var u := Allocated(s, r);
    AllocatedOwns(s, owner, r);
    assert BitAt(s, owner, 0, r);
    assert x.Entry? ==> SlotAt(s, owner, Indirect(x.i));
    AllocatedPtr(s, owner, r, x);
    StoredOwns(u, owner, x, r);
    var t := Stored(u, x, r);
    forall j, bm | 0 <= j < |s.inodes| && 0 <= bm < MAXFILE && (j != x.i || bm != bn || MapOf(s, x.i, bn) != 0)
      ensures SameMapAt(s, t, j, bm)
    {
      PtrStored(u, owner, x, r, SlotOf(j, bm));
      AllocatedPtr(s, owner, r, SlotOf(j, bm));
    }
  }

  lemma AllocatedPtr(s: State, owner: map<nat, Slot>, r: nat, y: Slot)
    requires Owns(s, owner, 0) && 0 < r < |s.bits| && !s.bits[r] && IsSlot(s, y)
    ensures Ptr(Allocated(s, r), y) == Ptr(s, y)
  {
    assert BitAt(s, owner, 0, r);
    if y.Entry? {
      assert SlotAt(s, owner, Indirect(y.i));
    }
  }

  lemma GrewTwice(s: State, t: State, u: State, owner: map<nat, Slot>, owner': map<nat, Slot>, i: nat, bn: nat)
    requires Grew(s, t, owner, i, bn) && Grew(t, u, owner', i, bn)
    requires forall b :: b in owner ==> b in owner' && owner'[b] == owner[b]
    requires MapOf(t, i, bn) == MapOf(s, i, bn)
    ensures Grew(s, u, owner, i, bn)
  {
    forall j, bm | 0 <= j < |s.inodes| && 0 <= bm < MAXFILE && (j != i || bm != bn || MapOf(s, i, bn) != 0)
      ensures SameMapAt(s, u, j, bm)
    {
      assert SameMapAt(s, t, j, bm) && SameMapAt(t, u, j, bm);
    }
  }

  /** Bytes that were mapped read the same after growth. */
  lemma GrewBytes(s: State, t: State, owner: map<nat, Slot>, i: nat, bn: nat, j: nat, o: nat)
    requires Owns(s, owner, 0) && Grew(s, t, owner, i, bn) && j < |s.inodes| && o < MAXFILE * BSIZE
    requires MapOf(s, j, o / BSIZE) != 0
    ensures MapOf(t, j, o / BSIZE) == MapOf(s, j, o / BSIZE) && ByteAt(t, j, o) == ByteAt(s, j, o)
  {
    var bm := o / BSIZE;
    assert SameMapAt(s, t, j, bm) && SlotAt(s, owner, SlotOf(j, bm));
    assert BlockAt(s, owner, MapOf(s, j, bm));
  }
}
