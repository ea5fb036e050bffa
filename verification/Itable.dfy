/**
 The inode table (kernel/fs.c): iget, idup, ilock, iunlock, iput and ialloc by
 any number of processes. One step is one itable.lock section, one sleep-lock
 hand-over or one buffer update. A handle is one reference that some process
 holds on a table entry.
 */
module Itable {
  import opened Options

  const NINODE := 50

  datatype Key = Key(dev: nat, inum: nat)

  /** An on-disk inode: type 0 is free; rest stands for size, addrs and numbers. */
  datatype Dinode = Dinode(kind: nat, nlink: nat, rest: nat)

  datatype Entry = Entry(key: Key, ref: int, valid: bool, copy: Dinode, lock: Option<nat>)

  /** Held: a counted reference. Locked: ilock done; dirty until iupdate.
      Truncating: in iput, about to write the freed inode. Freed: in iput, type 0
      written, valid not yet cleared. Dropping: in iput, about to decrement ref. */
  datatype Phase = Held | Locked(dirty: bool) | Truncating | Freed | Dropping
  datatype Handle = Handle(e: nat, phase: Phase)

  datatype State = State(table: seq<Entry>, handles: map<nat, Handle>, disk: map<Key, Dinode>)

  datatype Step =
    | Iget(h: nat, key: Key, e: nat)
    | Idup(h: nat, g: nat)
    | Ialloc(key: Key, kind: nat)      // the on-disk half; Iget follows
    | Acquire(h: nat)                  // ilock: acquiresleep
    | Load(h: nat)                     // ilock: read the inode if not valid
    | Change(h: nat, d: Dinode)        // the holder changes ip->xxx ...
    | Iupdate(h: nat)                  // ... and copies it to disk
    | Iunlock(h: nat)
    | IputDrop(h: nat)                 // iput: not the last reference to an unlinked inode
    | IputLock(h: nat)                 // iput: last reference, no links: acquiresleep
    | IputTrunc(h: nat, rest: nat)     // iput: itrunc and its iupdate
    | IputFree(h: nat)                 // iput: type = 0; iupdate
    | IputInvalid(h: nat)              // iput: valid = 0; releasesleep
    | IputEnd(h: nat)                  // iput: reacquire itable.lock; ref--

  ghost predicate Shape(s: State) {
    |s.table| == NINODE && forall h :: h in s.handles ==> s.handles[h].e < NINODE
  }

  ghost predicate InPhase(s: State, h: nat, phase: Phase)
    requires Shape(s)
  {
    h in s.handles && s.handles[h].phase == phase
  }

  ghost predicate HasLocked(s: State, h: nat)
    requires Shape(s)
  {
    h in s.handles && s.handles[h].phase.Locked?
  }

  function E(s: State, h: nat): (x: Entry)
    requires h in s.handles && s.handles[h].e < |s.table|
  {
    s.table[s.handles[h].e]
  }

  function Put(s: State, h: nat, x: Entry, phase: Phase): (t: State)
    requires h in s.handles && s.handles[h].e < |s.table|
  {
    s.(table := s.table[s.handles[h].e := x], handles := s.handles[h := Handle(s.handles[h].e, phase)])
  }

  /** e is what iget's scan finds: the referenced entry for key, or else the
      first free one. */
  ghost predicate Finds(table: seq<Entry>, key: Key, e: nat)
    requires e < |table|
  {
    if exists i :: 0 <= i < |table| && table[i].ref > 0 && table[i].key == key
    then table[e].ref > 0 && table[e].key == key
    else table[e].ref == 0 && forall i :: 0 <= i < e ==> table[i].ref != 0
  }

  ghost predicate IgetFinds(s: State, key: Key, e: nat)
    requires Shape(s) && e < NINODE
  {
    Finds(s.table, key, e)
  }

  /** iget's scan of the table; -1 is "iget: no inodes". */
  method Scan(table: seq<Entry>, key: Key) returns (e: int)
    ensures -1 <= e < |table| && (e >= 0 ==> Finds(table, key, e))
    ensures e < 0 <==> forall i :: 0 <= i < |table| ==> table[i].ref != 0 && !(table[i].ref > 0 && table[i].key == key)
  {
    e := -1;
    for i := 0 to |table|
      invariant forall j :: 0 <= j < i ==> !(table[j].ref > 0 && table[j].key == key)
      invariant -1 <= e < i && (e < 0 ==> forall j :: 0 <= j < i ==> table[j].ref != 0)
      invariant e >= 0 ==> table[e].ref == 0 && forall j :: 0 <= j < e ==> table[j].ref != 0
    {
      if table[i].ref > 0 && table[i].key == key {
        return i;
      }
      if e < 0 && table[i].ref == 0 {
        e := i;
      }
    }
  }

  ghost predicate Next(s: State, t: State, step: Step)
    requires Shape(s)
  {
    match step
    case Iget(h, key, e) =>
      && h !in s.handles && e < NINODE && key in s.disk && IgetFinds(s, key, e)
      && t == s.(handles := s.handles[h := Handle(e, Held)],
                 table := s.table[e := if s.table[e].ref > 0 then s.table[e].(ref := s.table[e].ref + 1)
                                       else s.table[e].(key := key, ref := 1, valid := false)])
    case Idup(h, g) =>
      && h !in s.handles && g in s.handles
      && t == s.(handles := s.handles[h := Handle(s.handles[g].e, Held)],
                 table := s.table[s.handles[g].e := E(s, g).(ref := E(s, g).ref + 1)])
    case Ialloc(key, kind) =>
      && key in s.disk && s.disk[key].kind == 0 && kind != 0
      && t == s.(disk := s.disk[key := Dinode(kind, 0, 0)])
    case Acquire(h) =>
      && InPhase(s, h, Held) && E(s, h).lock.None?
      && t == Put(s, h, E(s, h).(lock := Some(h)), Locked(false))
    case Load(h) =>
      // "ilock: no type" if the inode on disk is free.
      && InPhase(s, h, Locked(false)) && !E(s, h).valid && E(s, h).key in s.disk && s.disk[E(s, h).key].kind != 0
      && t == Put(s, h, E(s, h).(copy := s.disk[E(s, h).key], valid := true), Locked(false))
    case Change(h, d) =>
      && HasLocked(s, h) && E(s, h).valid && d.kind != 0
      && t == Put(s, h, E(s, h).(copy := d), Locked(true))
    case Iupdate(h) =>
      && HasLocked(s, h) && E(s, h).valid
      && t == Put(s, h, E(s, h), Locked(false)).(disk := s.disk[E(s, h).key := E(s, h).copy])
    case Iunlock(h) =>
      // iupdate must follow every change.
      && InPhase(s, h, Locked(false)) && E(s, h).valid
      && t == Put(s, h, E(s, h).(lock := None), Held)
    case IputDrop(h) =>
      && InPhase(s, h, Held) && !(E(s, h).ref == 1 && E(s, h).valid && E(s, h).copy.nlink == 0)
      && t == s.(table := s.table[s.handles[h].e := E(s, h).(ref := E(s, h).ref - 1)], handles := s.handles - {h})
    case IputLock(h) =>
      && InPhase(s, h, Held) && E(s, h).ref == 1 && E(s, h).valid && E(s, h).copy.nlink == 0 && E(s, h).lock.None?
      && t == Put(s, h, E(s, h).(lock := Some(h)), Truncating)
    case IputTrunc(h, rest) =>
      && InPhase(s, h, Truncating)
      && var d := E(s, h).copy.(rest := rest);
         t == Put(s, h, E(s, h).(copy := d), Truncating).(disk := s.disk[E(s, h).key := d])
    case IputFree(h) =>
      && InPhase(s, h, Truncating)
      && var d := E(s, h).copy.(kind := 0);
         t == Put(s, h, E(s, h).(copy := d), Freed).(disk := s.disk[E(s, h).key := d])
    case IputInvalid(h) =>
      && InPhase(s, h, Freed)
      && t == Put(s, h, E(s, h).(valid := false, lock := None), Dropping)
    case IputEnd(h) =>
      && InPhase(s, h, Dropping)
      && t == s.(table := s.table[s.handles[h].e := E(s, h).(ref := E(s, h).ref - 1)], handles := s.handles - {h})
  }

  ghost predicate Init(s: State) {
    && Shape(s) && s.handles == map[]
    && forall e :: 0 <= e < NINODE ==> s.table[e].ref == 0 && s.table[e].lock.None?
  }

  ghost predicate StepAt(run: seq<State>, steps: seq<Step>, k: nat)
    requires |run| == |steps| + 1 && k < |steps| && Shape(run[k])
  {
    Next(run[k], run[k + 1], steps[k])
  }

  ghost predicate IsRun(run: seq<State>, steps: seq<Step>) {
    && |run| == |steps| + 1 && Init(run[0])
    && (forall k :: 0 <= k < |run| ==> Shape(run[k]))
    && (forall k :: 0 <= k < |steps| ==> StepAt(run, steps, k))
  }

  // ----- the invariant -----

  ghost function Users(handles: map<nat, Handle>, e: nat): (r: set<nat>) {
    set h | h in handles && handles[h].e == e
  }

  ghost predicate OneEntryAt(s: State, e: nat, f: nat)
    requires Shape(s) && e < NINODE && f < NINODE
  {
    e != f && s.table[e].ref > 0 && s.table[f].ref > 0 ==> s.table[e].key != s.table[f].key
  }

  ghost predicate CountAt(s: State, e: nat)
    requires Shape(s) && e < NINODE
  {
    s.table[e].ref == |Users(s.handles, e)|
  }

  predicate OwnsLock(phase: Phase) { phase.Locked? || phase.Truncating? || phase.Freed? }

  ghost predicate HandleAt(s: State, h: nat)
    requires Shape(s) && h in s.handles
  {
    && E(s, h).key in s.disk
    && (OwnsLock(s.handles[h].phase) <==> E(s, h).lock == Some(h))
    && (s.handles[h].phase.Truncating? || s.handles[h].phase.Freed? ==> E(s, h).valid)
    && (s.handles[h].phase == Locked(true) ==> E(s, h).valid)
  }

  ghost predicate LockAt(s: State, e: nat)
    requires Shape(s) && e < NINODE
  {
    s.table[e].lock.Some? ==> s.table[e].lock.value in s.handles && s.handles[s.table[e].lock.value].e == e
  }

  /** Some process is between changing the in-memory inode and iupdate, or in
      the middle of freeing it. */
  ghost predicate Unsettled(s: State, e: nat)
    requires Shape(s) && e < NINODE
  {
    && s.table[e].lock.Some? && s.table[e].lock.value in s.handles
    && (s.handles[s.table[e].lock.value].phase == Locked(true) || s.handles[s.table[e].lock.value].phase.Freed?)
  }

  ghost predicate Freeing(s: State, e: nat)
    requires Shape(s) && e < NINODE
  {
    s.table[e].lock.Some? && s.table[e].lock.value in s.handles && s.handles[s.table[e].lock.value].phase.Freed?
  }

  /** A valid entry agrees with the disk except while unsettled, and its inode
      is allocated on disk except after iput has freed it. */
  ghost predicate AgreesAt(s: State, e: nat)
    requires Shape(s) && e < NINODE
  {
    var x := s.table[e];
    x.ref > 0 && x.valid ==>
      && x.key in s.disk
      && (!Unsettled(s, e) ==> x.copy == s.disk[x.key])
      && (!Freeing(s, e) ==> x.copy.kind != 0 && s.disk[x.key].kind != 0)
  }

  ghost predicate Inv(s: State) {
    && Shape(s)
    && (forall e, f {:trigger OneEntryAt(s, e, f)} :: 0 <= e < NINODE && 0 <= f < NINODE ==> OneEntryAt(s, e, f))
    && (forall e {:trigger CountAt(s, e)} :: 0 <= e < NINODE ==> CountAt(s, e))
    && (forall e {:trigger LockAt(s, e)} :: 0 <= e < NINODE ==> LockAt(s, e))
    && (forall e {:trigger AgreesAt(s, e)} :: 0 <= e < NINODE ==> AgreesAt(s, e))
    && (forall h {:trigger HandleAt(s, h)} :: h in s.handles ==> HandleAt(s, h))
  }

  // ----- counting handles -----

  lemma UsersAdd(handles: map<nat, Handle>, h: nat, x: Handle, e: nat)
    requires h !in handles
    ensures |Users(handles[h := x], e)| == |Users(handles, e)| + if x.e == e then 1 else 0
  {
    if x.e == e {
      assert Users(handles[h := x], e) == Users(handles, e) + {h};
    } else {
      assert Users(handles[h := x], e) == Users(handles, e);
    }
  }

  lemma UsersKeep(handles: map<nat, Handle>, h: nat, x: Handle, e: nat)
    requires h in handles && handles[h].e == x.e
    ensures Users(handles[h := x], e) == Users(handles, e)
  {
  }

  lemma UsersRemove(handles: map<nat, Handle>, h: nat, e: nat)
    requires h in handles
    ensures |Users(handles - {h}, e)| == |Users(handles, e)| - if handles[h].e == e then 1 else 0
  {
    if handles[h].e == e {
      assert Users(handles, e) == Users(handles - {h}, e) + {h};
    } else {
      assert Users(handles - {h}, e) == Users(handles, e);
    }
  }

  lemma ReferencedIsPositive(s: State, h: nat)
    requires Inv(s) && h in s.handles
    ensures E(s, h).ref > 0
  {
    assert CountAt(s, s.handles[h].e) && h in Users(s.handles, s.handles[h].e);
  }

  lemma UnreferencedIsFree(s: State, e: nat)
    requires Inv(s) && e < NINODE && s.table[e].ref == 0
    ensures s.table[e].lock.None? && forall h :: h in s.handles ==> s.handles[h].e != e
  {
    assert CountAt(s, e) && LockAt(s, e);
    assert Users(s.handles, e) == {};
    forall h | h in s.handles
      ensures s.handles[h].e != e
    {
      assert h in Users(s.handles, e) <==> s.handles[h].e == e;
    }
  }

  // ----- every step keeps it -----

  /** Steps that change only entry e and its block on disk, without renaming it. */
  ghost predicate OnlyAt(s: State, t: State, e: nat)
    requires Shape(s)
  {
    && Shape(t) && e < NINODE && t.table[e].key == s.table[e].key && s.table[e].ref > 0
    && s.disk.Keys <= t.disk.Keys
    && (forall f :: 0 <= f < NINODE && f != e ==> t.table[f] == s.table[f])
    && (forall h :: h in s.handles && s.handles[h].e != e ==> h in t.handles && t.handles[h] == s.handles[h])
    && (forall h :: h in t.handles && t.handles[h].e != e ==> h in s.handles)
    && (forall h :: h in s.handles && h in t.handles ==> t.handles[h].e == s.handles[h].e)
    && (forall key :: key in s.disk && key != s.table[e].key ==> t.disk[key] == s.disk[key])
  }

  lemma OnlyAtKeeps(s: State, t: State, e: nat)
    requires Inv(s) && OnlyAt(s, t, e)
    requires CountAt(t, e) && LockAt(t, e) && AgreesAt(t, e)
    requires forall h :: h in t.handles && t.handles[h].e == e ==> HandleAt(t, h)
    requires forall f :: 0 <= f < NINODE && f != e ==> |Users(t.handles, f)| == |Users(s.handles, f)|
    ensures Inv(t)
  {
    forall f | 0 <= f < NINODE
      ensures CountAt(t, f) && LockAt(t, f) && AgreesAt(t, f)
    {
      assert CountAt(s, f) && LockAt(s, f) && AgreesAt(s, f) && OneEntryAt(s, f, e);
    }
    forall f, g | 0 <= f < NINODE && 0 <= g < NINODE
      ensures OneEntryAt(t, f, g)
    {
      assert OneEntryAt(s, f, g);
    }
    forall h | h in t.handles
      ensures HandleAt(t, h)
    {
      if t.handles[h].e != e {
        assert HandleAt(s, h);
      }
    }
  }

  lemma IgetKeepsInv(s: State, t: State, h: nat, key: Key, e: nat)
    requires Inv(s) && Next(s, t, Iget(h, key, e))
    ensures Inv(t)
  {
    if s.table[e].ref == 0 {
      UnreferencedIsFree(s, e);
    }
    forall f | 0 <= f < NINODE
      ensures CountAt(t, f) && LockAt(t, f) && AgreesAt(t, f)
    {
      assert CountAt(s, f) && LockAt(s, f) && AgreesAt(s, f);
      UsersAdd(s.handles, h, Handle(e, Held), f);
    }
    forall f, g | 0 <= f < NINODE && 0 <= g < NINODE
      ensures OneEntryAt(t, f, g)
    {
      assert OneEntryAt(s, f, g) && CountAt(s, f) && CountAt(s, g);
    }
    forall g | g in t.handles
      ensures HandleAt(t, g)
    {
      assert LockAt(s, e);
      if g != h {
        assert HandleAt(s, g);
      }
    }
  }

  lemma IallocKeepsInv(s: State, t: State, key: Key, kind: nat)
    requires Inv(s) && Next(s, t, Ialloc(key, kind))
    ensures Inv(t)
  {
    forall e | 0 <= e < NINODE
      ensures CountAt(t, e) && LockAt(t, e) && AgreesAt(t, e)
    {
      assert CountAt(s, e) && LockAt(s, e) && AgreesAt(s, e);
    }
    forall e, f | 0 <= e < NINODE && 0 <= f < NINODE
      ensures OneEntryAt(t, e, f)
    {
      assert OneEntryAt(s, e, f);
    }
    forall h | h in t.handles
      ensures HandleAt(t, h)
    {
      assert HandleAt(s, h);
    }
  }

  lemma HolderKeepsInv(s: State, t: State, step: Step)
    requires Inv(s) && Next(s, t, step)
    requires step.Acquire? || step.Load? || step.Change? || step.Iupdate? || step.Iunlock?
    ensures Inv(t)
  {
    var h := step.h;
    var e := s.handles[h].e;
    ReferencedIsPositive(s, h);
    assert HandleAt(s, h) && CountAt(s, e) && LockAt(s, e) && AgreesAt(s, e);
    forall f | 0 <= f < NINODE
      ensures Users(t.handles, f) == Users(s.handles, f)
    {
      UsersKeep(s.handles, h, t.handles[h], f);
    }
    forall g | g in t.handles && t.handles[g].e == e
      ensures HandleAt(t, g)
    {
      assert HandleAt(s, g);
    }
    OnlyAtKeeps(s, t, e);
  }

  lemma IputKeepsInv(s: State, t: State, step: Step)
    requires Inv(s) && Next(s, t, step)
    requires step.IputLock? || step.IputTrunc? || step.IputFree? || step.IputInvalid?
    ensures Inv(t)
  {
    var h := step.h;
    var e := s.handles[h].e;
    ReferencedIsPositive(s, h);
    assert HandleAt(s, h) && CountAt(s, e) && LockAt(s, e) && AgreesAt(s, e);
    forall f | 0 <= f < NINODE
      ensures Users(t.handles, f) == Users(s.handles, f)
    {
      UsersKeep(s.handles, h, t.handles[h], f);
    }
    forall g | g in t.handles && t.handles[g].e == e
      ensures HandleAt(t, g)
    {
      assert HandleAt(s, g);
    }
    OnlyAtKeeps(s, t, e);
  }

  lemma CountStepKeepsInv(s: State, t: State, step: Step)
    requires Inv(s) && Next(s, t, step) && (step.IputDrop? || step.IputEnd? || step.Idup?)
    ensures Inv(t)
  {
    var h := if step.Idup? then step.g else step.h;
    var e := s.handles[h].e;
    ReferencedIsPositive(s, h);
    assert HandleAt(s, h) && CountAt(s, e) && LockAt(s, e) && AgreesAt(s, e);
    forall f | 0 <= f < NINODE
      ensures |Users(t.handles, f)| == |Users(s.handles, f)| + (if f != e then 0 else if step.Idup? then 1 else -1)
    {
      if step.Idup? {
        UsersAdd(s.handles, step.h, Handle(e, Held), f);
      } else {
        UsersRemove(s.handles, h, f);
      }
    }
    forall g | g in t.handles && t.handles[g].e == e
      ensures HandleAt(t, g)
    {
      if g in s.handles {
        assert HandleAt(s, g);
      }
    }
    OnlyAtKeeps(s, t, e);
  }

  lemma NextKeepsInv(s: State, t: State, step: Step)
    requires Inv(s) && Next(s, t, step)
    ensures Inv(t)
  {
    match step
    case Iget(h, key, e) => IgetKeepsInv(s, t, h, key, e);
    case Ialloc(key, kind) => IallocKeepsInv(s, t, key, kind);
    case Idup(_, _) => CountStepKeepsInv(s, t, step);
    case IputDrop(_) => CountStepKeepsInv(s, t, step);
    case IputEnd(_) => CountStepKeepsInv(s, t, step);
    case IputLock(_) => IputKeepsInv(s, t, step);
    case IputTrunc(_, _) => IputKeepsInv(s, t, step);
    case IputFree(_) => IputKeepsInv(s, t, step);
    case IputInvalid(_) => IputKeepsInv(s, t, step);
    case _ => HolderKeepsInv(s, t, step);
  }

  lemma {:induction false} RunKeepsInv(run: seq<State>, steps: seq<Step>, k: nat)
    requires IsRun(run, steps) && k < |run|
    ensures Inv(run[k])
  {
    if k == 0 {
      forall e | 0 <= e < NINODE
        ensures CountAt(run[0], e)
      {
        assert Users(run[0].handles, e) == {};
      }
    } else {
      RunKeepsInv(run, steps, k - 1);
      assert StepAt(run, steps, k - 1);
      NextKeepsInv(run[k - 1], run[k], steps[k - 1]);
    }
  }

  /**
   On every interleaving: one referenced entry per inode, ref is the number of
   references, and an entry that is valid and unlocked holds exactly what is on
   disk, even while ialloc reuses an inode number that iput is still freeing.
   */
  lemma TableIsCoherent(run: seq<State>, steps: seq<Step>, k: nat, e: nat, f: nat)
    requires IsRun(run, steps) && k < |run| && e < NINODE && f < NINODE
    ensures var s := run[k];
            && (e != f && s.table[e].ref > 0 && s.table[f].ref > 0 ==> s.table[e].key != s.table[f].key)
            && s.table[e].ref == |Users(s.handles, e)|
            && (s.table[e].ref > 0 && s.table[e].valid && s.table[e].lock.None? ==>
                  s.table[e].key in s.disk && s.table[e].copy == s.disk[s.table[e].key])
  {
    RunKeepsInv(run, steps, k);
    assert OneEntryAt(run[k], e, f) && CountAt(run[k], e) && AgreesAt(run[k], e);
  }

  /** iput writes the freed inode only while the disk still holds the inode it
      is freeing: never after ialloc has given the number away. */
  lemma IputNeverClobbers(run: seq<State>, steps: seq<Step>, k: nat)
    requires IsRun(run, steps) && k < |steps| && (steps[k].IputTrunc? || steps[k].IputFree?)
    ensures steps[k].h in run[k].handles
    ensures var x := E(run[k], steps[k].h);
            x.key in run[k].disk && run[k].disk[x.key] == x.copy && x.copy.kind != 0
            && x.lock == Some(steps[k].h)
  {
    RunKeepsInv(run, steps, k);
    assert StepAt(run, steps, k);
    var h := steps[k].h;
    ReferencedIsPositive(run[k], h);
    assert HandleAt(run[k], h) && AgreesAt(run[k], run[k].handles[h].e);
  }

  /** The last holder of a reference finds the inode's sleep-lock free, so iput's
      acquiresleep, called under itable.lock, cannot block or deadlock. */
  lemma IputNeverBlocks(run: seq<State>, steps: seq<Step>, k: nat, h: nat)
    requires IsRun(run, steps) && k < |run| && InPhase(run[k], h, Held) && E(run[k], h).ref == 1
    ensures E(run[k], h).lock.None?
  {
    RunKeepsInv(run, steps, k);
    var s := run[k];
    var e := s.handles[h].e;
    assert HandleAt(s, h) && LockAt(s, e) && CountAt(s, e);
    if s.table[e].lock.Some? {
      var g := s.table[e].lock.value;
      var users := Users(s.handles, e);
      assert h in users && g in users;
      OnlyOne(users, g, h);
    }
  }

  lemma OnlyOne(users: set<nat>, g: nat, h: nat)
    requires |users| == 1 && g in users && h in users
    ensures g == h
  {
    assert |users - {g}| == 0;
    assert h == g || h in users - {g};
  }

  // ----- links -----

  /** A process on its way to freeing an inode has found it without links. */
  lemma {:induction false} FreeingIsUnlinked(run: seq<State>, steps: seq<Step>, k: nat, h: nat)
    requires IsRun(run, steps) && k < |run| && InPhase(run[k], h, Truncating)
    ensures E(run[k], h).copy.nlink == 0
  {
    if k > 0 {
      var s, t, step := run[k - 1], run[k], steps[k - 1];
      RunKeepsInv(run, steps, k - 1);
      assert StepAt(run, steps, k - 1);
      if InPhase(s, h, Truncating) {
        FreeingIsUnlinked(run, steps, k - 1, h);
        OnlyHolderChanges(s, t, step, h);
      }
    }
  }

  /** While h owns the sleep-lock nobody else changes the in-memory inode. */
  lemma OnlyHolderChanges(s: State, t: State, step: Step, h: nat)
    requires Inv(s) && Next(s, t, step) && Shape(t) && InPhase(s, h, Truncating) && InPhase(t, h, Truncating)
    ensures t.handles[h].e == s.handles[h].e && E(t, h).copy.nlink == E(s, h).copy.nlink
  {
    ReferencedIsPositive(s, h);
    assert HandleAt(s, h);
    if step.Load? || step.Change? {
      assert HandleAt(s, step.h);
    }
  }

  /**
   On every interleaving, an inode that becomes free on disk had no links there: iput
   frees no inode that some directory names.
   */
  lemma OnlyUnlinkedIsFreed(run: seq<State>, steps: seq<Step>, k: nat, key: Key)
    requires IsRun(run, steps) && k < |steps| && key in run[k].disk && key in run[k + 1].disk
    requires run[k].disk[key].kind != 0 && run[k + 1].disk[key].kind == 0
    ensures run[k].disk[key].nlink == 0
  {
    var s, step := run[k], steps[k];
    RunKeepsInv(run, steps, k);
    assert StepAt(run, steps, k);
    var h := if step.Iupdate? || step.IputTrunc? || step.IputFree? then step.h else 0;
    if h in s.handles {
      ReferencedIsPositive(s, h);
      assert HandleAt(s, h) && AgreesAt(s, s.handles[h].e);
    }
    if step.IputFree? {
      FreeingIsUnlinked(run, steps, k, h);
    }
  }

  /** Only ialloc makes a free inode an allocated one. */
  lemma OnlyIallocAllocates(s: State, t: State, step: Step, key: Key)
    requires Inv(s) && Next(s, t, step) && key in s.disk && s.disk[key].kind == 0
    ensures key in t.disk && (t.disk[key].kind != 0 ==> step.Ialloc? && step.key == key)
  {
    if step.Iupdate? || step.IputTrunc? || step.IputFree? {
      ReferencedIsPositive(s, step.h);
      assert HandleAt(s, step.h) && AgreesAt(s, s.handles[step.h].e);
    }
  }

  ghost predicate Reallocates(step: Step, key: Key) { step.Ialloc? && step.key == key }

  /** Step j wrote key free, and it is free at k or ialloc has given it away since. */
  ghost predicate FreeSince(run: seq<State>, steps: seq<Step>, j: nat, k: nat, key: Key)
    requires |run| == |steps| + 1 && k < |run|
  {
    && j < k && key in run[j + 1].disk && run[j + 1].disk[key].kind == 0 && key in run[k].disk
    && (run[k].disk[key].kind == 0 ||
        exists i {:trigger Reallocates(steps[i], key)} :: j < i < k && Reallocates(steps[i], key))
  }

  predicate Done(phase: Phase) { phase.Freed? || phase.Dropping? }

  lemma FreeSinceStep(run: seq<State>, steps: seq<Step>, j: nat, k: nat, key: Key)
    requires IsRun(run, steps) && k < |steps| && FreeSince(run, steps, j, k, key)
    ensures FreeSince(run, steps, j, k + 1, key)
  {
    RunKeepsInv(run, steps, k);
    assert StepAt(run, steps, k);
    if run[k].disk[key].kind == 0 {
      OnlyIallocAllocates(run[k], run[k + 1], steps[k], key);
      assert run[k + 1].disk[key].kind != 0 ==> Reallocates(steps[k], key);
    } else {
      var i :| j < i < k && Reallocates(steps[i], key);
      assert key in run[k + 1].disk && Reallocates(steps[i], key);
    }
  }

  /** Whoever is past the freeing in iput did free this inode. */
  lemma {:induction false} FreedBefore(run: seq<State>, steps: seq<Step>, k: nat, h: nat) returns (j: nat)
    requires IsRun(run, steps) && k < |run| && h in run[k].handles && Done(run[k].handles[h].phase)
    ensures j < |steps| && steps[j] == IputFree(h) && FreeSince(run, steps, j, k, E(run[k], h).key)
  {
    assert k > 0;
    var s, t, step := run[k - 1], run[k], steps[k - 1];
    RunKeepsInv(run, steps, k - 1);
    assert StepAt(run, steps, k - 1);
    if h in s.handles && Done(s.handles[h].phase) {
      ReferencedIsPositive(s, h);
      j := FreedBefore(run, steps, k - 1, h);
      FreeSinceStep(run, steps, j, k - 1, E(s, h).key);
    } else {
      j := k - 1;
    }
  }

  /** The last reference to entry e goes away. */
  ghost predicate LastPut(run: seq<State>, k: nat, e: nat)
    requires k + 1 < |run| && Shape(run[k]) && Shape(run[k + 1]) && e < NINODE
  {
    run[k].table[e].ref == 1 && run[k + 1].table[e].ref == 0
  }

  /** iput's second half finds that somebody else has loaded the reallocated inode
      and left it without links. */
  ghost predicate Leaks(s: State, step: Step)
    requires Shape(s)
  {
    step.IputEnd? && step.h in s.handles && E(s, step.h).ref == 1 && E(s, step.h).valid && E(s, step.h).copy.nlink == 0
  }

  lemma LastPutStep(run: seq<State>, steps: seq<Step>, k: nat, e: nat)
    requires IsRun(run, steps) && k < |steps| && e < NINODE && LastPut(run, k, e)
    ensures steps[k].IputDrop? || steps[k].IputEnd?
    ensures steps[k].h in run[k].handles && run[k].handles[steps[k].h].e == e
  {
    assert StepAt(run, steps, k);
  }

  /**
   On every interleaving, when the last reference to a loaded inode without links goes
   away, it has been freed: iput wrote it free on disk, and there it is still free or
   ialloc has given it away since.
   */
  lemma UnlinkedIsFreed(run: seq<State>, steps: seq<Step>, k: nat, e: nat) returns (j: nat)
    requires IsRun(run, steps) && k < |steps| && e < NINODE && LastPut(run, k, e)
    requires steps[k].IputEnd? || (run[k].table[e].valid && run[k].table[e].copy.nlink == 0)
    ensures j < k && steps[j].IputFree? && FreeSince(run, steps, j, k, run[k].table[e].key)
  {
    LastPutStep(run, steps, k, e);
    assert StepAt(run, steps, k);
    j := FreedBefore(run, steps, k, steps[k].h);
  }

  ghost predicate LeaksAt(run: seq<State>, steps: seq<Step>, k: nat)
    requires k < |steps| && k < |run| && Shape(run[k])
  {
    Leaks(run[k], steps[k])
  }

  ghost predicate LinkedPut(run: seq<State>, k: nat, e: nat)
    requires k + 1 < |run| && Shape(run[k]) && Shape(run[k + 1]) && e < NINODE
  {
    LastPut(run, k, e) && run[k].table[e].valid ==> run[k].table[e].copy.nlink != 0
  }

  /**
   No loaded inode without links is left behind by its last reference, on a run, if and
   only if no iput ends with its entry loaded again, without links and otherwise
   unreferenced.
   */
  lemma NoneLeftExactly(run: seq<State>, steps: seq<Step>)
    requires IsRun(run, steps)
    ensures (forall k, e {:trigger LinkedPut(run, k, e)} ::
               0 <= k < |steps| && 0 <= e < NINODE ==> LinkedPut(run, k, e)) <==>
            (forall k {:trigger LeaksAt(run, steps, k)} :: 0 <= k < |steps| ==> !LeaksAt(run, steps, k))
  {
    forall k, e | 0 <= k < |steps| && 0 <= e < NINODE
      ensures !LeaksAt(run, steps, k) ==> LinkedPut(run, k, e)
    {
      assert StepAt(run, steps, k);
      if LastPut(run, k, e) {
        LastPutStep(run, steps, k, e);
      }
    }
    forall k | 0 <= k < |steps| && LeaksAt(run, steps, k)
      ensures run[k].handles[steps[k].h].e < NINODE && !LinkedPut(run, k, run[k].handles[steps[k].h].e)
    {
      assert StepAt(run, steps, k);
    }
  }

  // ----- a run that leaves one behind -----

  ghost predicate Reaches(run: seq<State>, steps: seq<Step>, s: State) {
    IsRun(run, steps) && Shape(s) && run[|steps|] == s
  }

  lemma Extend(run: seq<State>, steps: seq<Step>, s: State, t: State, step: Step)
    returns (run': seq<State>, steps': seq<Step>)
    requires Reaches(run, steps, s) && Next(s, t, step) && Shape(t)
    ensures Reaches(run', steps', t) && run'[0] == run[0]
    ensures |steps'| > 0 && steps'[|steps'| - 1] == step && run'[|steps'| - 1] == s
  {
    run', steps' := run + [t], steps + [step];
    forall k | 0 <= k < |steps'|
      ensures StepAt(run', steps', k)
    {
      if k < |steps| {
        assert StepAt(run, steps, k);
      }
    }
  }

  function Opened(s: State, h: nat, key: Key): (t: State)
    requires Shape(s) && key in s.disk
  {
    s.(table := s.table[0 := Entry(key, s.table[0].ref + 1, true, s.disk[key], None)],
       handles := s.handles[h := Handle(0, Held)])
  }

  /** iget, ilock and iunlock by h, in entry 0. */
  lemma Open(run: seq<State>, steps: seq<Step>, s: State, h: nat, key: Key)
    returns (run': seq<State>, steps': seq<Step>)
    requires Reaches(run, steps, s) && h !in s.handles && key in s.disk && s.disk[key].kind != 0
    requires IgetFinds(s, key, 0) && s.table[0].lock.None? && s.table[0].ref >= 0
    requires s.table[0].ref > 0 ==> !s.table[0].valid
    ensures Reaches(run', steps', Opened(s, h, key)) && run'[0] == run[0]
  {
    var x := s.table[0].(key := key, ref := s.table[0].ref + 1, valid := false);
    var s1 := s.(table := s.table[0 := x], handles := s.handles[h := Handle(0, Held)]);
    run', steps' := Extend(run, steps, s, s1, Iget(h, key, 0));
    var s2 := Put(s1, h, x.(lock := Some(h)), Locked(false));
    run', steps' := Extend(run', steps', s1, s2, Acquire(h));
    var s3 := Put(s2, h, x.(lock := Some(h), copy := s.disk[key], valid := true), Locked(false));
    run', steps' := Extend(run', steps', s2, s3, Load(h));
    var s4 := Opened(s, h, key);
    assert s4 == Put(s3, h, E(s3, h).(lock := None), Held);
    run', steps' := Extend(run', steps', s3, s4, Iunlock(h));
  }

  function LetGo(s: State, h: nat): (t: State)
    requires Shape(s)
  {
    var d := s.table[0].copy.(kind := 0);
    s.(table := s.table[0 := s.table[0].(copy := d, valid := false)],
       handles := s.handles[h := Handle(0, Dropping)], disk := s.disk[s.table[0].key := d])
  }

  /** iput by h, up to where it takes itable.lock again. */
  lemma Free(run: seq<State>, steps: seq<Step>, s: State, h: nat) returns (run': seq<State>, steps': seq<Step>)
    requires Reaches(run, steps, s) && InPhase(s, h, Held) && s.handles[h].e == 0
    requires s.table[0].ref == 1 && s.table[0].valid && s.table[0].copy.nlink == 0 && s.table[0].lock.None?
    ensures Reaches(run', steps', LetGo(s, h)) && run'[0] == run[0]
  {
    var x, d := s.table[0], s.table[0].copy.(kind := 0);
    var s1 := Put(s, h, x.(lock := Some(h)), Truncating);
    run', steps' := Extend(run, steps, s, s1, IputLock(h));
    var s2 := Put(s1, h, x.(lock := Some(h), copy := d), Freed).(disk := s.disk[x.key := d]);
    run', steps' := Extend(run', steps', s1, s2, IputFree(h));
    var s3 := LetGo(s, h);
    assert s3 == Put(s2, h, E(s2, h).(valid := false, lock := None), Dropping);
    run', steps' := Extend(run', steps', s2, s3, IputInvalid(h));
  }

  /**
   Between the two halves of an iput that freed an inode, the inode is allocated again,
   loaded and put without links: neither process frees it.
   */
  lemma LeakRun(s: State, key: Key) returns (run: seq<State>, steps: seq<Step>)
    requires Init(s) && key in s.disk && s.disk[key].kind != 0 && s.disk[key].nlink == 0
    ensures IsRun(run, steps) && run[0] == s && |steps| > 0 && LeaksAt(run, steps, |steps| - 1)
    ensures var t := run[|steps|];
            t.handles == map[] && (forall e :: 0 <= e < NINODE ==> t.table[e].ref == 0)
            && key in t.disk && t.disk[key].kind != 0 && t.disk[key].nlink == 0
  {
    run, steps := Open([s], [], s, 0, key);
    var s1 := Opened(s, 0, key);
    run, steps := Free(run, steps, s1, 0);
    var s2 := LetGo(s1, 0);
    var s3 := s2.(disk := s2.disk[key := Dinode(1, 0, 0)]);
    run, steps := Extend(run, steps, s2, s3, Ialloc(key, 1));
    run, steps := Open(run, steps, s3, 1, key);
    var s4 := Opened(s3, 1, key);
    var s5 := s4.(table := s4.table[0 := s4.table[0].(ref := 1)], handles := s4.handles - {1});
    run, steps := Extend(run, steps, s4, s5, IputDrop(1));
    var s6 := s5.(table := s5.table[0 := s5.table[0].(ref := 0)], handles := s5.handles - {0});
    run, steps := Extend(run, steps, s5, s6, IputEnd(0));
  }
}
