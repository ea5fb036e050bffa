/**
 The buffer cache (kernel/bio.c) as a machine whose steps are the critical
 sections of its routines: bcache.lock sections, sleep-lock hand-overs and disk
 transfers, by any number of processes in any order. A handle stands for one
 call of bread that has not been matched by the end of its brelse.
 */
module Bcache {
  import opened Options
  import opened Log

  const NBUF := 30

  datatype Key = Key(dev: nat, blockno: nat)
  datatype Buf = Buf(key: Key, valid: bool, data: Block, refcnt: int)

  /** Wanting: counted in refcnt, waiting for the buffer's lock. Holding: owns
      the lock. Leaving: lock released, refcnt not yet decremented. */
  datatype Phase = Wanting | Holding | Leaving
  datatype Handle = Handle(buf: nat, phase: Phase, touched: bool)

  // ----- list order, as bget and brelse use it -----

  ghost predicate Distinct(order: seq<nat>) {
    forall j, k :: 0 <= j < k < |order| ==> order[j] != order[k]
  }

  ghost predicate Permutation(order: seq<nat>) {
    && |order| == NBUF && Distinct(order)
    && (forall k :: 0 <= k < NBUF ==> order[k] < NBUF)
    && (forall i :: 0 <= i < NBUF ==> i in order)
  }

  /** i is the buffer bget finds for key, scanning from the front. */
  ghost predicate Found(bufs: seq<Buf>, order: seq<nat>, key: Key, i: nat)
    requires forall k :: 0 <= k < |order| ==> order[k] < |bufs|
  {
    exists k :: 0 <= k < |order| && order[k] == i && bufs[order[k]].key == key
                && forall j :: 0 <= j < k ==> bufs[order[j]].key != key
  }

  ghost predicate Absent(bufs: seq<Buf>, key: Key) {
    forall i :: 0 <= i < |bufs| ==> bufs[i].key != key
  }

  /** i is the buffer bget recycles: unused, and least recently released. */
  ghost predicate Victim(bufs: seq<Buf>, order: seq<nat>, i: nat)
    requires forall k :: 0 <= k < |order| ==> order[k] < |bufs|
  {
    exists k :: 0 <= k < |order| && order[k] == i && bufs[order[k]].refcnt == 0
                && forall j :: k < j < |order| ==> bufs[order[j]].refcnt != 0
  }

  function MoveToFront(order: seq<nat>, i: nat): (r: seq<nat>) {
    [i] + Without(order, i)
  }

  function Without(order: seq<nat>, i: nat): (r: seq<nat>) {
    if order == [] then []
    else if order[0] == i then Without(order[1..], i)
    else [order[0]] + Without(order[1..], i)
  }

  lemma {:induction false} WithoutProps(order: seq<nat>, i: nat)
    requires Distinct(order)
    ensures Distinct(Without(order, i))
    ensures forall x :: x in Without(order, i) <==> x in order && x != i
    ensures |Without(order, i)| == |order| - if i in order then 1 else 0
  {
    if order != [] {
      assert forall k :: 0 <= k < |order[1..]| ==> order[1..][k] == order[k + 1];
      assert forall x :: x in order <==> x == order[0] || x in order[1..];
      assert order[0] !in order[1..];
      WithoutProps(order[1..], i);
    }
  }

  /** brelse reorders the list but never loses or duplicates a buffer. */
  lemma MoveToFrontPermutes(order: seq<nat>, i: nat)
    requires Permutation(order) && i < NBUF
    ensures Permutation(MoveToFront(order, i))
  {
    WithoutProps(order, i);
    var r := MoveToFront(order, i);
    assert forall x :: x in r <==> x == i || x in Without(order, i);
    assert forall k :: 0 <= k < |r| ==> r[k] in r;
  }

  /** disk is what the device holds; last is what each block was when its
      buffer was last released (at first, what the disk held). */
  datatype State = State(bufs: seq<Buf>, order: seq<nat>, locked: seq<Option<nat>>, pins: seq<nat>,
                         handles: map<nat, Handle>, disk: map<Key, Block>, last: map<Key, Block>)

  datatype Step =
    | Bget(h: nat, key: Key, i: nat)
    | Acquire(h: nat)
    | Fill(h: nat)
    | Modify(h: nat, data: Block)
    | Bwrite(h: nat)
    | Pin(h: nat)
    | Unpin(h: nat)
    | Release(h: nat)
    | Drop(h: nat)

  ghost predicate Shape(s: State) {
    && |s.bufs| == |s.locked| == |s.pins| == NBUF && Permutation(s.order)
    && (forall h :: h in s.handles ==> s.handles[h].buf < NBUF)
    && s.last.Keys == s.disk.Keys
  }

  ghost predicate Init(s: State) {
    && Shape(s) && s.handles == map[] && s.last == s.disk
    && (forall i :: 0 <= i < NBUF ==>
          s.bufs[i].key == Key(0, 0) && s.bufs[i].refcnt == 0 && !s.bufs[i].valid
          && s.locked[i] == None && s.pins[i] == 0)
  }

  ghost predicate Holds(s: State, h: nat)
    requires Shape(s)
  {
    h in s.handles && s.handles[h].phase.Holding?
  }

  /** The block a handle is on. */
  ghost function Target(s: State, h: nat): (key: Key)
    requires Shape(s) && h in s.handles
  {
    s.bufs[s.handles[h].buf].key
  }

  function Recycled(b: Buf, key: Key): (r: Buf) { b.(key := key, valid := false, refcnt := 1) }

  /** What log_write's comment asks of whoever changes a buffer: log (pin) or write
      it before brelse. */
  ghost predicate MayRelease(s: State, h: nat)
    requires Shape(s) && Holds(s, h)
  {
    var i := s.handles[h].buf;
    var b := s.bufs[i];
    b.valid && b.key in s.disk && (s.pins[i] > 0 || b.data == s.disk[b.key])
  }

  ghost function Released(s: State, h: nat): (t: State)
    requires Shape(s) && Holds(s, h)
  {
    var i := s.handles[h].buf;
    s.(locked := s.locked[i := None], last := s.last[s.bufs[i].key := s.bufs[i].data],
       handles := s.handles[h := Handle(i, Leaving, false)])
  }

  ghost predicate Next(s: State, t: State, step: Step)
    requires Shape(s)
  {
    match step
    case Bget(h, key, i) =>
      && h !in s.handles && key.dev != 0 && key in s.disk && i < NBUF
      && (if Absent(s.bufs, key) then Victim(s.bufs, s.order, i) else Found(s.bufs, s.order, key, i))
      && t == s.(handles := s.handles[h := Handle(i, Wanting, false)],
                 bufs := s.bufs[i := if Absent(s.bufs, key) then Recycled(s.bufs[i], key)
                                     else s.bufs[i].(refcnt := s.bufs[i].refcnt + 1)])
    case Acquire(h) =>
      && h in s.handles && s.handles[h].phase.Wanting?
      && var i := s.handles[h].buf;
         s.locked[i].None?
         && t == s.(locked := s.locked[i := Some(h)], handles := s.handles[h := Handle(i, Holding, false)])
    case Fill(h) =>
      // bread: read the disk if the buffer is not valid.
      && Holds(s, h)
      && var i := s.handles[h].buf;
         !s.bufs[i].valid && s.bufs[i].key in s.disk
         && t == s.(bufs := s.bufs[i := s.bufs[i].(valid := true, data := s.disk[s.bufs[i].key])])
    case Modify(h, data) =>
      && Holds(s, h)
      && var i := s.handles[h].buf;
         s.bufs[i].valid
         && t == s.(bufs := s.bufs[i := s.bufs[i].(data := data)],
                    handles := s.handles[h := Handle(i, Holding, true)])
    case Bwrite(h) =>
      && Holds(s, h)
      && var b := s.bufs[s.handles[h].buf];
         b.valid && t == s.(disk := s.disk[b.key := b.data])
    case Pin(h) =>
      && Holds(s, h)
      && var i := s.handles[h].buf;
         s.bufs[i].valid
         && t == s.(bufs := s.bufs[i := s.bufs[i].(refcnt := s.bufs[i].refcnt + 1)],
                    pins := s.pins[i := s.pins[i] + 1])
    case Unpin(h) =>
      // install_trans: the buffer has just been written to its home.
      && Holds(s, h)
      && var i := s.handles[h].buf;
         && s.pins[i] > 0 && s.bufs[i].key in s.disk && s.bufs[i].data == s.disk[s.bufs[i].key]
         && t == s.(bufs := s.bufs[i := s.bufs[i].(refcnt := s.bufs[i].refcnt - 1)],
                    pins := s.pins[i := s.pins[i] - 1])
    case Release(h) => Holds(s, h) && s.bufs[s.handles[h].buf].valid && t == Released(s, h)
    case Drop(h) =>
      && h in s.handles && s.handles[h].phase.Leaving?
      && var i := s.handles[h].buf;
         var b := s.bufs[i].(refcnt := s.bufs[i].refcnt - 1);
         t == s.(bufs := s.bufs[i := b], handles := s.handles - {h},
                 order := if b.refcnt == 0 then MoveToFront(s.order, i) else s.order)
  }

  // ----- reference counts -----

  ghost function Users(handles: map<nat, Handle>, i: nat): (r: set<nat>) {
    set h | h in handles && handles[h].buf == i
  }

  lemma UsersAdd(handles: map<nat, Handle>, h: nat, x: Handle, i: nat)
    requires h !in handles
    ensures |Users(handles[h := x], i)| == |Users(handles, i)| + if x.buf == i then 1 else 0
  {
    if x.buf == i {
      assert Users(handles[h := x], i) == Users(handles, i) + {h};
    } else {
      assert Users(handles[h := x], i) == Users(handles, i);
    }
  }

  lemma UsersKeep(handles: map<nat, Handle>, h: nat, x: Handle, i: nat)
    requires h in handles && handles[h].buf == x.buf
    ensures Users(handles[h := x], i) == Users(handles, i)
  {
  }

  lemma UsersRemove(handles: map<nat, Handle>, h: nat, i: nat)
    requires h in handles
    ensures |Users(handles - {h}, i)| == |Users(handles, i)| - if handles[h].buf == i then 1 else 0
  {
    if handles[h].buf == i {
      assert Users(handles, i) == Users(handles - {h}, i) + {h};
    } else {
      assert Users(handles - {h}, i) == Users(handles, i);
    }
  }

  /** refcnt counts the handles on a buffer plus its pins. */
  ghost predicate CountsAt(s: State, i: nat)
    requires Shape(s) && i < NBUF
  {
    s.bufs[i].refcnt == s.pins[i] + |Users(s.handles, i)|
  }

  // ----- the invariant, buffer by buffer and handle by handle -----

  ghost predicate UniqueAt(s: State, i: nat, j: nat)
    requires Shape(s) && i < NBUF && j < NBUF
  {
    i != j && s.bufs[i].key.dev != 0 ==> s.bufs[i].key != s.bufs[j].key
  }

  /** Who owns the lock of buffer i, and that owner is a holding handle on i. */
  ghost predicate LockAt(s: State, i: nat)
    requires Shape(s) && i < NBUF
  {
    s.locked[i].Some? ==> Holds(s, s.locked[i].value) && s.handles[s.locked[i].value].buf == i
  }

  ghost predicate HandleAt(s: State, h: nat)
    requires Shape(s) && h in s.handles
  {
    var i := s.handles[h].buf;
    && s.bufs[i].key.dev != 0
    && (s.handles[h].phase.Holding? <==> s.locked[i] == Some(h))
    && (s.handles[h].touched ==> s.handles[h].phase.Holding?)
  }

  /** Nobody has changed buffer i since its lock was last taken. */
  ghost predicate Settled(s: State, i: nat)
    requires Shape(s) && i < NBUF
  {
    s.locked[i].Some? ==> s.locked[i].value in s.handles && !s.handles[s.locked[i].value].touched
  }

  /** A buffer names a block of the disk, or has never been used. */
  ghost predicate NamedAt(s: State, i: nat)
    requires Shape(s) && i < NBUF
  {
    && (if s.bufs[i].key.dev == 0 then !s.bufs[i].valid else s.bufs[i].key in s.disk)
    && (!s.bufs[i].valid ==> s.pins[i] == 0 && Settled(s, i))
  }

  /** What holds of names, counts and locks, whatever holders do to the data. */
  ghost predicate Base(s: State) {
    && Shape(s)
    && (forall i {:trigger CountsAt(s, i)} :: 0 <= i < NBUF ==> CountsAt(s, i))
    && (forall i, j {:trigger UniqueAt(s, i, j)} :: 0 <= i < NBUF && 0 <= j < NBUF ==> UniqueAt(s, i, j))
    && (forall i {:trigger LockAt(s, i)} :: 0 <= i < NBUF ==> LockAt(s, i))
    && (forall i {:trigger NamedAt(s, i)} :: 0 <= i < NBUF ==> NamedAt(s, i))
    && (forall h {:trigger HandleAt(s, h)} :: h in s.handles ==> HandleAt(s, h))
  }

  /** What buffer i may claim about the block it names. */
  ghost predicate ContentAt(s: State, i: nat)
    requires Shape(s) && i < NBUF
  {
    var b := s.bufs[i];
    b.key.dev != 0 && b.key in s.disk ==>
      && (!b.valid ==> s.disk[b.key] == s.last[b.key])
      && (b.valid && Settled(s, i) ==> b.data == s.last[b.key])
  }

  /** A block no buffer names is on the disk as it was last released. */
  ghost predicate UncachedAt(s: State, key: Key)
    requires Shape(s) && key in s.disk
  {
    key.dev != 0 && Absent(s.bufs, key) ==> s.disk[key] == s.last[key]
  }

  /** The cache is transparent: no released contents are lost. */
  ghost predicate Inv(s: State) {
    && Base(s)
    && (forall i {:trigger ContentAt(s, i)} :: 0 <= i < NBUF ==> ContentAt(s, i))
    && (forall key {:trigger UncachedAt(s, key)} :: key in s.disk ==> UncachedAt(s, key))
  }

  ghost predicate CleanAt(s: State, i: nat)
    requires Shape(s) && i < NBUF
  {
    var b := s.bufs[i];
    b.valid && Settled(s, i) && s.pins[i] == 0 && b.key in s.disk ==> b.data == s.disk[b.key]
  }

  /** Every buffer that is not pinned, and not being changed, agrees with the disk. */
  ghost predicate Clean(s: State)
    requires Shape(s)
  {
    forall i {:trigger CleanAt(s, i)} :: 0 <= i < NBUF ==> CleanAt(s, i)
  }

  // ----- the two steps that go wrong -----

  /** A holder that changed a buffer, and neither pinned nor wrote it, releases it. */
  ghost predicate Abandons(s: State, step: Step)
    requires Shape(s)
  {
    step.Release? && Holds(s, step.h) && !MayRelease(s, step.h)
  }

  /** bget recycles a buffer whose contents are not on the disk. */
  ghost predicate Loses(s: State, step: Step)
    requires Shape(s)
  {
    && step.Bget? && Absent(s.bufs, step.key) && step.i < NBUF
    && var b := s.bufs[step.i];
       b.valid && b.key in s.disk && b.data != s.disk[b.key]
  }

  // ----- every step keeps it -----

  lemma IdleIsFree(s: State, i: nat)
    requires Base(s) && i < NBUF && s.bufs[i].refcnt == 0
    ensures s.locked[i].None? && s.pins[i] == 0
    ensures forall h :: h in s.handles ==> s.handles[h].buf != i
  {
    assert CountsAt(s, i) && LockAt(s, i);
    assert Users(s.handles, i) == {};
    forall h | h in s.handles
      ensures s.handles[h].buf != i
    {
      assert h in Users(s.handles, i) <==> s.handles[h].buf == i;
    }
  }

  lemma BgetKeepsBase(s: State, t: State, h: nat, key: Key, i: nat)
    requires Base(s) && Next(s, t, Bget(h, key, i))
    ensures Base(t)
  {
    if Absent(s.bufs, key) {
      IdleIsFree(s, i);
    }
    forall j | 0 <= j < NBUF
      ensures CountsAt(t, j) && LockAt(t, j) && NamedAt(t, j)
    {
      assert CountsAt(s, j) && LockAt(s, j) && NamedAt(s, j);
      UsersAdd(s.handles, h, Handle(i, Wanting, false), j);
    }
    forall j, k | 0 <= j < NBUF && 0 <= k < NBUF
      ensures UniqueAt(t, j, k)
    {
      assert UniqueAt(s, j, k) && UniqueAt(s, k, j);
    }
    forall g | g in t.handles
      ensures HandleAt(t, g)
    {
      assert LockAt(s, i);
      if g != h {
        assert HandleAt(s, g);
      }
    }
  }

  lemma BgetKeepsContent(s: State, t: State, h: nat, key: Key, i: nat)
    requires Inv(s) && Next(s, t, Bget(h, key, i)) && Base(t) && !Loses(s, Bget(h, key, i))
    ensures Inv(t)
  {
    assert ContentAt(s, i) && NamedAt(s, i);
    if Absent(s.bufs, key) {
      IdleIsFree(s, i);
      var was := s.bufs[i].key;
      assert was.dev != 0 ==> s.disk[was] == s.last[was];
    }
    forall j | 0 <= j < NBUF
      ensures ContentAt(t, j)
    {
      assert ContentAt(s, j) && LockAt(s, j) && UncachedAt(s, key);
    }
    forall key' | key' in t.disk
      ensures UncachedAt(t, key')
    {
      assert UncachedAt(s, key');
      if !Absent(s.bufs, key') {
        var j :| 0 <= j < NBUF && s.bufs[j].key == key';
        assert t.bufs[j].key == key' || (j == i && Absent(s.bufs, key));
      }
    }
  }

  /** Steps that change only buffer i, without renaming it, leave the others alone. */
  ghost predicate OnlyAt(s: State, t: State, i: nat)
    requires Shape(s)
  {
    && Shape(t) && i < NBUF && t.bufs[i].key == s.bufs[i].key
    && t.disk.Keys == s.disk.Keys
    && (forall j :: 0 <= j < NBUF && j != i ==>
          t.bufs[j] == s.bufs[j] && t.locked[j] == s.locked[j] && t.pins[j] == s.pins[j])
    && (forall h :: h in s.handles && s.handles[h].buf != i ==> h in t.handles && t.handles[h] == s.handles[h])
    && (forall h :: h in t.handles && t.handles[h].buf != i ==> h in s.handles)
    && (forall h :: h in s.handles && h in t.handles ==> t.handles[h].buf == s.handles[h].buf)
    && (forall key :: key in s.disk && key != s.bufs[i].key ==>
          t.disk[key] == s.disk[key] && t.last[key] == s.last[key])
  }

  /** So only buffer i's own clauses need looking at. */
  lemma OnlyAtBase(s: State, t: State, i: nat)
    requires Base(s) && OnlyAt(s, t, i) && s.bufs[i].key.dev != 0
    requires CountsAt(t, i) && LockAt(t, i) && NamedAt(t, i)
    requires forall h :: h in t.handles && t.handles[h].buf == i ==> HandleAt(t, h)
    requires forall j :: 0 <= j < NBUF && j != i ==> |Users(t.handles, j)| == |Users(s.handles, j)|
    ensures Base(t)
  {
    forall j | 0 <= j < NBUF
      ensures CountsAt(t, j) && LockAt(t, j) && NamedAt(t, j)
    {
      assert CountsAt(s, j) && LockAt(s, j) && NamedAt(s, j);
    }
    forall j, k | 0 <= j < NBUF && 0 <= k < NBUF
      ensures UniqueAt(t, j, k)
    {
      assert UniqueAt(s, j, k);
    }
    forall h | h in t.handles
      ensures HandleAt(t, h)
    {
      if t.handles[h].buf != i {
        assert HandleAt(s, h);
      }
    }
  }

  lemma OnlyAtContent(s: State, t: State, i: nat)
    requires Inv(s) && OnlyAt(s, t, i) && s.bufs[i].key.dev != 0 && Base(t) && ContentAt(t, i)
    ensures Inv(t)
  {
    forall j | 0 <= j < NBUF
      ensures ContentAt(t, j)
    {
      assert LockAt(s, j) && ContentAt(s, j) && UniqueAt(s, j, i);
    }
    forall key | key in t.disk
      ensures UncachedAt(t, key)
    {
      assert UncachedAt(s, key);
      assert forall j :: 0 <= j < NBUF ==> t.bufs[j].key == s.bufs[j].key;
    }
  }

  lemma OnlyAtClean(s: State, t: State, i: nat)
    requires Base(s) && Clean(s) && OnlyAt(s, t, i) && s.bufs[i].key.dev != 0 && CleanAt(t, i)
    ensures Clean(t)
  {
    forall j | 0 <= j < NBUF
      ensures CleanAt(t, j)
    {
      assert LockAt(s, j) && NamedAt(s, j) && CleanAt(s, j) && UniqueAt(s, j, i);
    }
  }

  /** The buffer that a step other than bget is about. */
  lemma StepIsLocal(s: State, t: State, step: Step) returns (i: nat)
    requires Base(s) && Next(s, t, step) && !step.Bget?
    ensures step.h in s.handles && i == s.handles[step.h].buf < NBUF && s.bufs[i].key.dev != 0 && OnlyAt(s, t, i)
  {
    i := s.handles[step.h].buf;
    assert HandleAt(s, step.h) && NamedAt(s, i);
    if step.Drop? {
      MoveToFrontPermutes(s.order, i);
    }
  }

  lemma HoldStepKeepsBase(s: State, t: State, step: Step)
    requires Base(s) && Next(s, t, step) && !step.Bget? && !step.Drop?
    ensures Base(t)
  {
    var i := StepIsLocal(s, t, step);
    assert HandleAt(s, step.h) && CountsAt(s, i) && LockAt(s, i) && NamedAt(s, i);
    forall j | 0 <= j < NBUF
      ensures Users(t.handles, j) == Users(s.handles, j)
    {
      UsersKeep(s.handles, step.h, t.handles[step.h], j);
    }
    forall g | g in t.handles && t.handles[g].buf == i
      ensures HandleAt(t, g)
    {
      assert HandleAt(s, g);
    }
    OnlyAtBase(s, t, i);
  }

  lemma DropKeepsBase(s: State, t: State, h: nat)
    requires Base(s) && Next(s, t, Drop(h))
    ensures Base(t)
  {
    var i := StepIsLocal(s, t, Drop(h));
    assert HandleAt(s, h) && CountsAt(s, i) && LockAt(s, i) && NamedAt(s, i);
    forall j | 0 <= j < NBUF
      ensures |Users(t.handles, j)| == |Users(s.handles, j)| - if i == j then 1 else 0
    {
      UsersRemove(s.handles, h, j);
    }
    forall g | g in t.handles && t.handles[g].buf == i
      ensures HandleAt(t, g)
    {
      assert HandleAt(s, g);
    }
    OnlyAtBase(s, t, i);
  }

  lemma NextKeepsBase(s: State, t: State, step: Step)
    requires Base(s) && Next(s, t, step)
    ensures Base(t)
  {
    match step
    case Bget(h, key, i) => BgetKeepsBase(s, t, h, key, i);
    case Drop(h) => DropKeepsBase(s, t, h);
    case _ => HoldStepKeepsBase(s, t, step);
  }

  /** The cache stays transparent under every step but the one that loses data. */
  lemma NextKeepsInv(s: State, t: State, step: Step)
    requires Inv(s) && Next(s, t, step) && !Loses(s, step)
    ensures Inv(t)
  {
    NextKeepsBase(s, t, step);
    if step.Bget? {
      BgetKeepsContent(s, t, step.h, step.key, step.i);
    } else {
      var i := StepIsLocal(s, t, step);
      assert HandleAt(s, step.h) && LockAt(s, i) && NamedAt(s, i) && ContentAt(s, i);
      OnlyAtContent(s, t, i);
    }
  }

  /** Every buffer stays clean under every step but one that abandons a change. */
  lemma NextKeepsClean(s: State, t: State, step: Step)
    requires Base(s) && Clean(s) && Next(s, t, step) && !Abandons(s, step)
    ensures Shape(t) && Clean(t)
  {
    NextKeepsBase(s, t, step);
    if step.Bget? {
      forall j | 0 <= j < NBUF
        ensures CleanAt(t, j)
      {
        assert CleanAt(s, j) && LockAt(s, j);
      }
    } else {
      var i := StepIsLocal(s, t, step);
      assert HandleAt(s, step.h) && LockAt(s, i) && NamedAt(s, i) && CleanAt(s, i);
      OnlyAtClean(s, t, i);
    }
  }

  /** A clean cache has nothing to lose. */
  lemma CleanLosesNothing(s: State, t: State, step: Step)
    requires Base(s) && Clean(s) && Next(s, t, step)
    ensures !Loses(s, step)
  {
    if step.Bget? && Absent(s.bufs, step.key) {
      IdleIsFree(s, step.i);
      assert CleanAt(s, step.i);
    }
  }

  /** An abandoned change leaves a buffer that is not clean. */
  lemma AbandonedIsDirty(s: State, t: State, step: Step)
    requires Base(s) && Next(s, t, step) && Abandons(s, step)
    ensures Shape(t) && !Clean(t)
  {
    var i := s.handles[step.h].buf;
    NextKeepsBase(s, t, step);
    assert HandleAt(s, step.h) && NamedAt(s, i);
    assert !CleanAt(t, i);
  }

  /** What bread, by a process that nobody overtakes, would deliver for the block. */
  ghost predicate BreadAt(s: State, key: Key)
    requires Shape(s) && key in s.disk
  {
    key.dev != 0 ==>
      && (forall i :: 0 <= i < NBUF && s.bufs[i].key == key && s.bufs[i].valid && Settled(s, i) ==>
            s.bufs[i].data == s.last[key])
      && ((forall i :: 0 <= i < NBUF && s.bufs[i].key == key ==> !s.bufs[i].valid) ==> s.disk[key] == s.last[key])
  }

  /** For every block that nobody is changing, that is what was last released. */
  ghost predicate Transparent(s: State)
    requires Shape(s)
  {
    forall key {:trigger BreadAt(s, key)} :: key in s.disk ==> BreadAt(s, key)
  }

  lemma InvIsTransparent(s: State)
    requires Inv(s)
    ensures Transparent(s)
  {
    forall key | key in s.disk
      ensures BreadAt(s, key)
    {
      assert UncachedAt(s, key);
      assert forall i :: 0 <= i < NBUF && s.bufs[i].key == key ==> ContentAt(s, i);
    }
  }

  /** Once lost, the block reads as the disk has it. */
  lemma LostIsSeen(s: State, t: State, step: Step)
    requires Inv(s) && Next(s, t, step) && Loses(s, step)
    ensures Shape(t) && s.bufs[step.i].key in t.disk && !BreadAt(t, s.bufs[step.i].key)
  {
    NextKeepsBase(s, t, step);
    IdleIsFree(s, step.i);
    var key := s.bufs[step.i].key;
    assert NamedAt(s, step.i) && ContentAt(s, step.i);
    forall j | 0 <= j < NBUF
      ensures t.bufs[j].key != key
    {
      assert UniqueAt(s, step.i, j);
    }
  }

  ghost predicate IsRun(run: seq<State>, steps: seq<Step>) {
    && |run| == |steps| + 1 && Init(run[0])
    && (forall k :: 0 <= k < |run| ==> Shape(run[k]))
    && (forall k :: 0 <= k < |steps| ==> Next(run[k], run[k + 1], steps[k]))
  }

  lemma InitIsInv(s: State)
    requires Init(s)
    ensures Inv(s) && Clean(s)
  {
    forall i | 0 <= i < NBUF
      ensures CountsAt(s, i)
    {
      assert Users(s.handles, i) == {};
    }
  }

  lemma {:induction false} RunKeepsBase(run: seq<State>, steps: seq<Step>, k: nat)
    requires IsRun(run, steps) && k < |run|
    ensures Base(run[k])
  {
    if k == 0 {
      InitIsInv(run[0]);
    } else {
      RunKeepsBase(run, steps, k - 1);
      NextKeepsBase(run[k - 1], run[k], steps[k - 1]);
    }
  }

  ghost predicate AbandonsAt(run: seq<State>, steps: seq<Step>, k: nat)
    requires k < |run| && k < |steps| && Shape(run[k])
  {
    Abandons(run[k], steps[k])
  }

  ghost predicate LosesAt(run: seq<State>, steps: seq<Step>, k: nat)
    requires k < |run| && k < |steps| && Shape(run[k])
  {
    Loses(run[k], steps[k])
  }

  ghost predicate NoneLostBefore(run: seq<State>, steps: seq<Step>, k: nat)
    requires IsRun(run, steps) && k < |run|
  {
    forall j {:trigger LosesAt(run, steps, j)} :: 0 <= j < k ==> !LosesAt(run, steps, j)
  }

  ghost predicate NoneAbandonedBefore(run: seq<State>, steps: seq<Step>, k: nat)
    requires IsRun(run, steps) && k < |run|
  {
    forall j {:trigger AbandonsAt(run, steps, j)} :: 0 <= j < k ==> !AbandonsAt(run, steps, j)
  }

  lemma {:induction false} InvSoFar(run: seq<State>, steps: seq<Step>, k: nat)
    requires IsRun(run, steps) && k < |run| && NoneLostBefore(run, steps, k)
    ensures Inv(run[k])
  {
    if k == 0 {
      InitIsInv(run[0]);
    } else {
      InvSoFar(run, steps, k - 1);
      assert !LosesAt(run, steps, k - 1);
      NextKeepsInv(run[k - 1], run[k], steps[k - 1]);
    }
  }

  lemma {:induction false} CleanSoFar(run: seq<State>, steps: seq<Step>, k: nat)
    requires IsRun(run, steps) && k < |run| && NoneAbandonedBefore(run, steps, k)
    ensures Clean(run[k]) && NoneLostBefore(run, steps, k)
  {
    if k == 0 {
      InitIsInv(run[0]);
    } else {
      CleanSoFar(run, steps, k - 1);
      RunKeepsBase(run, steps, k - 1);
      assert !AbandonsAt(run, steps, k - 1);
      CleanLosesNothing(run[k - 1], run[k], steps[k - 1]);
      NextKeepsClean(run[k - 1], run[k], steps[k - 1]);
    }
  }

  // ----- when the cache keeps its promises -----

  ghost predicate TransparentAt(run: seq<State>, k: nat)
    requires k < |run| && Shape(run[k])
  {
    Transparent(run[k])
  }

  ghost predicate CleanPoint(run: seq<State>, k: nat)
    requires k < |run| && Shape(run[k])
  {
    Clean(run[k])
  }

  lemma {:induction false} TransparentSoFar(run: seq<State>, steps: seq<Step>, k: nat)
    requires IsRun(run, steps) && k < |run|
    requires forall j {:trigger TransparentAt(run, j)} :: 0 <= j <= k ==> TransparentAt(run, j)
    ensures NoneLostBefore(run, steps, k)
  {
    if k > 0 {
      TransparentSoFar(run, steps, k - 1);
      InvSoFar(run, steps, k - 1);
      assert TransparentAt(run, k);
      NothingLost(run[k - 1], run[k], steps[k - 1]);
    }
  }

  lemma NothingLost(s: State, t: State, step: Step)
    requires Inv(s) && Next(s, t, step) && Shape(t) && Transparent(t)
    ensures !Loses(s, step)
  {
    if Loses(s, step) {
      LostIsSeen(s, t, step);
    }
  }

  /**
   Every bread, at every point of a run, would deliver what was last released for
   its block, if and only if no step of the run recycles a buffer whose contents
   are not on the disk.
   */
  lemma TransparentExactly(run: seq<State>, steps: seq<Step>)
    requires IsRun(run, steps)
    ensures (forall k {:trigger TransparentAt(run, k)} :: 0 <= k < |run| ==> TransparentAt(run, k)) <==>
            NoneLostBefore(run, steps, |steps|)
  {
    if forall k {:trigger TransparentAt(run, k)} :: 0 <= k < |run| ==> TransparentAt(run, k) {
      TransparentSoFar(run, steps, |steps|);
    }
    if NoneLostBefore(run, steps, |steps|) {
      forall k | 0 <= k < |run|
        ensures TransparentAt(run, k)
      {
        InvSoFar(run, steps, k);
        InvIsTransparent(run[k]);
      }
    }
  }

  /**
   Every buffer that is not pinned, and not being changed, agrees with the disk at
   every point of a run, if and only if no holder in the run releases a buffer that
   it changed and neither logged nor wrote. Then nothing is ever lost.
   */
  lemma CleanExactly(run: seq<State>, steps: seq<Step>)
    requires IsRun(run, steps)
    ensures (forall k {:trigger CleanPoint(run, k)} :: 0 <= k < |run| ==> CleanPoint(run, k)) <==>
            NoneAbandonedBefore(run, steps, |steps|)
    ensures NoneAbandonedBefore(run, steps, |steps|) ==> NoneLostBefore(run, steps, |steps|)
  {
    if forall k {:trigger CleanPoint(run, k)} :: 0 <= k < |run| ==> CleanPoint(run, k) {
      forall k | 0 <= k < |steps|
        ensures !AbandonsAt(run, steps, k)
      {
        RunKeepsBase(run, steps, k);
        assert CleanPoint(run, k + 1);
        if AbandonsAt(run, steps, k) {
          AbandonedIsDirty(run[k], run[k + 1], steps[k]);
        }
      }
    }
    if NoneAbandonedBefore(run, steps, |steps|) {
      CleanSoFar(run, steps, |steps|);
      forall k | 0 <= k < |run|
        ensures CleanPoint(run, k)
      {
        CleanSoFar(run, steps, k);
      }
    }
  }

  // ----- what callers may rely on -----

  /**
   When bread returns (the handle holds a valid buffer it has not yet changed) the
   data is what was last released for that block, no matter how often the block was
   evicted, re-read, written or pinned since, as long as nothing has been lost.
   */
  lemma BreadReturnsLastReleased(run: seq<State>, steps: seq<Step>, k: nat, h: nat)
    requires IsRun(run, steps) && k < |run| && NoneLostBefore(run, steps, k)
    requires Holds(run[k], h) && !run[k].handles[h].touched && run[k].bufs[run[k].handles[h].buf].valid
    ensures var b := run[k].bufs[run[k].handles[h].buf];
            b.key in run[k].disk && b.data == run[k].last[b.key]
  {
    InvSoFar(run, steps, k);
    var i := run[k].handles[h].buf;
    assert HandleAt(run[k], h) && NamedAt(run[k], i) && ContentAt(run[k], i);
  }

  /** No two buffers name one block, and no two processes hold one block. */
  lemma OneBufferPerBlock(run: seq<State>, steps: seq<Step>, k: nat)
    requires IsRun(run, steps) && k < |run|
    ensures forall i, j :: 0 <= i < NBUF && 0 <= j < NBUF ==> UniqueAt(run[k], i, j)
    ensures forall g, h :: Holds(run[k], g) && Holds(run[k], h) && Target(run[k], g) == Target(run[k], h) ==> g == h
  {
    RunKeepsBase(run, steps, k);
    var s := run[k];
    forall g, h | Holds(s, g) && Holds(s, h) && Target(s, g) == Target(s, h)
      ensures g == h
    {
      assert HandleAt(s, g) && HandleAt(s, h) && UniqueAt(s, s.handles[g].buf, s.handles[h].buf);
    }
  }

  /** As long as no change has been abandoned, a valid buffer that nobody references
      agrees with the disk, so recycling it loses nothing. */
  lemma UnreferencedEqualsDisk(run: seq<State>, steps: seq<Step>, k: nat, i: nat)
    requires IsRun(run, steps) && k < |run| && i < NBUF && NoneAbandonedBefore(run, steps, k)
    requires run[k].bufs[i].refcnt == 0 && run[k].bufs[i].valid
    ensures run[k].bufs[i].key in run[k].disk && run[k].bufs[i].data == run[k].disk[run[k].bufs[i].key]
  {
    RunKeepsBase(run, steps, k);
    CleanSoFar(run, steps, k);
    assert NamedAt(run[k], i) && CleanAt(run[k], i);
    IdleIsFree(run[k], i);
  }

  lemma PinnedKeepsKey(s: State, t: State, step: Step, i: nat)
    requires Base(s) && Next(s, t, step) && i < NBUF && s.pins[i] > 0
    ensures i < |t.bufs| && t.bufs[i].key == s.bufs[i].key && (s.bufs[i].valid ==> t.bufs[i].valid)
  {
    assert CountsAt(s, i);
    if step.Bget? && Absent(s.bufs, step.key) {
      IdleIsFree(s, step.i);
    }
  }

  /** Between log_write's bpin and install_trans's bunpin a buffer keeps its block. */
  lemma PinnedIsNotRecycled(run: seq<State>, steps: seq<Step>, k: nat, i: nat)
    requires IsRun(run, steps) && k < |steps| && i < NBUF && run[k].pins[i] > 0
    ensures run[k + 1].bufs[i].key == run[k].bufs[i].key && (run[k].bufs[i].valid ==> run[k + 1].bufs[i].valid)
  {
    RunKeepsBase(run, steps, k);
    PinnedKeepsKey(run[k], run[k + 1], steps[k], i);
  }

  // ----- it does go wrong -----

  ghost predicate PathAt(path: seq<State>, steps: seq<Step>, k: nat)
    requires k + 1 < |path| && k < |steps|
  {
    Shape(path[k]) && Next(path[k], path[k + 1], steps[k])
  }

  /** Steps from one state on. */
  ghost predicate IsPath(path: seq<State>, steps: seq<Step>) {
    |path| == |steps| + 1 && forall k {:trigger PathAt(path, steps, k)} :: 0 <= k < |steps| ==> PathAt(path, steps, k)
  }

  lemma PathCons(s: State, step: Step, path: seq<State>, steps: seq<Step>)
    requires IsPath(path, steps) && Shape(s) && Next(s, path[0], step)
    ensures IsPath([s] + path, [step] + steps)
  {
    var p, q := [s] + path, [step] + steps;
    forall k | 0 <= k < |q|
      ensures PathAt(p, q, k)
    {
      assert k > 0 ==> PathAt(path, steps, k - 1);
    }
  }

  lemma PathAppend(path: seq<State>, steps: seq<Step>, path': seq<State>, steps': seq<Step>)
    requires IsPath(path, steps) && IsPath(path', steps') && path[|steps|] == path'[0]
    ensures IsPath(path + path'[1..], steps + steps')
  {
    var p, q := path + path'[1..], steps + steps';
    forall k | 0 <= k < |q|
      ensures PathAt(p, q, k)
    {
      if k < |steps| {
        assert PathAt(path, steps, k);
      } else {
        assert PathAt(path', steps', k - |steps|);
        assert p[k] == path'[k - |steps|] && p[k + 1] == path'[k - |steps| + 1];
      }
    }
  }

  /** Buffer i holds block key, as read by handle 0, which alone is in the cache. */
  ghost predicate ReadBy0(s: State, key: Key, i: nat) {
    && Shape(s) && i < NBUF && s.handles == map[0 := Handle(i, Holding, false)] && key in s.disk
    && s.bufs[i] == Buf(key, true, s.disk[key], 1) && s.pins[i] == 0
    && (forall j :: 0 <= j < NBUF && j != i ==> s.bufs[j].key == Key(0, 0) && s.bufs[j].refcnt == 0)
  }

  lemma ReadFirst(s: State, key: Key) returns (path: seq<State>, i: nat)
    requires Init(s) && key.dev != 0 && key in s.disk
    ensures i < NBUF && IsPath(path, [Bget(0, key, i), Acquire(0), Fill(0)])
    ensures path[0] == s && ReadBy0(path[3], key, i) && path[3].disk == s.disk
  {
    i := s.order[NBUF - 1];
    assert s.bufs[s.order[NBUF - 1]].refcnt == 0;
    assert Absent(s.bufs, key) && Victim(s.bufs, s.order, i);
    var s1 := s.(handles := s.handles[0 := Handle(i, Wanting, false)], bufs := s.bufs[i := Recycled(s.bufs[i], key)]);
    var s2 := s1.(locked := s1.locked[i := Some(0)], handles := s1.handles[0 := Handle(i, Holding, false)]);
    var s3 := s2.(bufs := s2.bufs[i := Buf(key, true, s.disk[key], 1)]);
    path := [s, s1, s2, s3];
    var steps := [Bget(0, key, i), Acquire(0), Fill(0)];
    assert PathAt(path, steps, 0) && PathAt(path, steps, 1) && PathAt(path, steps, 2);
  }

  /** writei's error path: the buffer is changed and let go of. It is then valid,
      referenced by nobody, and differs from the disk. */
  lemma AbandonedRun(s: State, key: Key, i: nat, data: Block) returns (path: seq<State>)
    requires ReadBy0(s, key, i) && key.dev != 0 && data != s.disk[key]
    ensures IsPath(path, [Modify(0, data), Release(0), Drop(0)]) && path[0] == s
    ensures Shape(path[1]) && Abandons(path[1], Release(0))
    ensures var t := path[3];
            && Shape(t) && t.handles == map[] && t.disk == s.disk && t.bufs == s.bufs[i := Buf(key, true, data, 0)]
  {
    var s4 := s.(bufs := s.bufs[i := Buf(key, true, data, 1)], handles := s.handles[0 := Handle(i, Holding, true)]);
    var s5 := Released(s4, 0);
    var s6 := s5.(bufs := s5.bufs[i := Buf(key, true, data, 0)], handles := s5.handles - {0},
                  order := MoveToFront(s5.order, i));
    MoveToFrontPermutes(s.order, i);
    path := [s, s4, s5, s6];
    var steps := [Modify(0, data), Release(0), Drop(0)];
    assert PathAt(path, steps, 0) && PathAt(path, steps, 1) && PathAt(path, steps, 2);
  }

  ghost function Idle(s: State): (r: set<nat>)
    requires Shape(s)
  {
    set i: nat | i < NBUF && s.bufs[i].refcnt == 0
  }

  lemma {:induction false} LastIdle(s: State, v: nat, n: nat) returns (i: nat)
    requires Shape(s) && n <= NBUF && v in s.order[..n] && v < NBUF && s.bufs[v].refcnt == 0
    requires forall k :: n <= k < NBUF ==> s.bufs[s.order[k]].refcnt != 0
    ensures i < NBUF && Victim(s.bufs, s.order, i) && s.bufs[i].refcnt == 0
  {
    var last := s.order[n - 1];
    if s.bufs[last].refcnt == 0 {
      i := last;
    } else {
      assert s.order[..n] == s.order[..n - 1] + [last];
      i := LastIdle(s, v, n - 1);
    }
  }

  /** Blocks that can be read in: on the disk, in no buffer, each once. */
  ghost predicate Spare(s: State, keys: seq<Key>) {
    && (forall j :: 0 <= j < |keys| ==> keys[j].dev != 0 && keys[j] in s.disk && Absent(s.bufs, keys[j]))
    && (forall j, k :: 0 <= j < k < |keys| ==> keys[j] != keys[k])
  }

  /** Reading a spare block into the least recently released idle buffer. */
  lemma ReadIn(s: State, v: nat, keys: seq<Key>, h: nat) returns (i: nat, t: State)
    requires Base(s) && Spare(s, keys) && keys != [] && h !in s.handles && v < NBUF && s.bufs[v].refcnt == 0
    ensures i in Idle(s) && Next(s, t, Bget(h, keys[0], i)) && Base(t) && t.disk == s.disk
    ensures t.bufs == s.bufs[i := Recycled(s.bufs[i], keys[0])]
    ensures t.handles == s.handles[h := Handle(i, Wanting, false)]
    ensures Idle(t) == Idle(s) - {i} && Spare(t, keys[1..])
  {
    assert s.order[..NBUF] == s.order;
    i := LastIdle(s, v, NBUF);
    t := s.(handles := s.handles[h := Handle(i, Wanting, false)], bufs := s.bufs[i := Recycled(s.bufs[i], keys[0])]);
    NextKeepsBase(s, t, Bget(h, keys[0], i));
  }

  /** And what differs from the disk in an idle buffer is lost, at the latest when
      the idle buffers are used up. */
  lemma {:induction false} LossFollows(s: State, v: nat, keys: seq<Key>, h: nat)
    returns (path: seq<State>, steps: seq<Step>)
    requires Base(s) && Spare(s, keys) && |Idle(s)| <= |keys| && (forall g :: g in s.handles ==> g < h)
    requires v in Idle(s) && s.bufs[v].valid && s.bufs[v].key in s.disk && s.bufs[v].data != s.disk[s.bufs[v].key]
    ensures IsPath(path, steps) && path[0] == s && |steps| > 0
    ensures var n := |steps| - 1; Shape(path[n]) && Loses(path[n], steps[n])
    decreases |keys|
  {
    var i, t := ReadIn(s, v, keys, h);
    var step := Bget(h, keys[0], i);
    if i == v {
      path, steps := [s, t], [step];
      assert PathAt(path, steps, 0);
    } else {
      var rest, more := LossFollows(t, v, keys[1..], h + 1);
      PathCons(s, step, rest, more);
      path, steps := [s] + rest, [step] + more;
    }
  }

  lemma {:induction false} PathKeepsBase(path: seq<State>, steps: seq<Step>, k: nat)
    requires IsPath(path, steps) && Base(path[0]) && k < |path|
    ensures Base(path[k])
  {
    if k > 0 {
      PathKeepsBase(path, steps, k - 1);
      assert PathAt(path, steps, k - 1);
      NextKeepsBase(path[k - 1], path[k], steps[k - 1]);
    }
  }

  /** From boot, on any disk with enough blocks: a run whose last step loses what a
      holder had put in a buffer and released. */
  lemma LostRun(s: State, key: Key, data: Block, keys: seq<Key>) returns (path: seq<State>, steps: seq<Step>)
    requires Init(s) && Spare(s, [key] + keys) && |keys| == NBUF && key in s.disk && data != s.disk[key]
    ensures IsPath(path, steps) && path[0] == s && |steps| > 0
    ensures var n := |steps| - 1; Shape(path[n]) && Loses(path[n], steps[n])
  {
    assert ([key] + keys)[0] == key && forall j :: 0 <= j < |keys| ==> ([key] + keys)[j + 1] == keys[j];
    var first, i := ReadFirst(s, key);
    var second := AbandonedRun(first[3], key, i, data);
    var start, more := [Bget(0, key, i), Acquire(0), Fill(0)], [Modify(0, data), Release(0), Drop(0)];
    PathAppend(first, start, second, more);
    path, steps := first + second[1..], start + more;
    InitIsInv(s);
    PathKeepsBase(path, steps, 6);
    var t := path[6];
    assert t == second[3];
    SizeOfIdle(t);
    var rest, last := LossFollows(t, i, keys, 0);
    PathAppend(path, steps, rest, last);
    path, steps := path + rest[1..], steps + last;
    assert path[|steps| - 1] == rest[|last| - 1] && steps[|steps| - 1] == last[|last| - 1];
  }

  lemma SizeOfIdle(s: State)
    requires Shape(s)
    ensures |Idle(s)| <= NBUF
  {
    SmallSet(Idle(s), NBUF);
  }

  lemma {:induction false} SmallSet(x: set<nat>, n: nat)
    requires forall e :: e in x ==> e < n
    ensures |x| <= n
  {
    if n == 0 {
      assert x == {};
    } else {
      SmallSet(x - {n - 1}, n - 1);
    }
  }
}
