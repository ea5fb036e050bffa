/**
 Pipes (kernel/pipe.c). The ring and its wrapping 32-bit counters stand for a
 queue: ins is every byte ever written, of which the first k have been read.
 Each method is what a system call does between acquiring pi->lock and giving it
 up, by returning or by going to sleep.
 */
module Pipe {
  const PIPESIZE := 512
  const WORD := 0x1_0000_0000

  datatype Ring = Ring(data: seq<int>, nread: nat, nwrite: nat)

  ghost predicate CellAt(data: seq<int>, ins: seq<int>, j: nat)
    requires |data| == PIPESIZE && j < |ins|
  {
    data[j % PIPESIZE] == ins[j]
  }

  ghost predicate Holds(r: Ring, ins: seq<int>, k: nat) {
    && |r.data| == PIPESIZE && k <= |ins| <= k + PIPESIZE && r.nread == k % WORD && r.nwrite == |ins| % WORD
    && forall j {:trigger CellAt(r.data, ins, j)} :: k <= j < |ins| ==> CellAt(r.data, ins, j)
  }

  predicate Full(r: Ring) { r.nwrite == (r.nread + PIPESIZE) % WORD }
  predicate Empty(r: Ring) { r.nread == r.nwrite }

  lemma WrapDiff(k: nat, d: nat)
    requires d <= PIPESIZE
    ensures (k + d) % WORD == k % WORD <==> d == 0
    ensures (k + d) % WORD == (k % WORD + PIPESIZE) % WORD <==> d == PIPESIZE
  {
    var q, w := k / WORD, k % WORD;
    assert k == q * WORD + w;
    assert w + d < WORD ==> (k + d) / WORD == q && (k + d) % WORD == w + d;
    assert w + d >= WORD ==> (k + d) / WORD == q + 1 && (k + d) % WORD == w + d - WORD;
  }

  /** The tests on wrapped counters see exactly the full and the empty queue. */
  lemma TestsAreExact(r: Ring, ins: seq<int>, k: nat)
    requires Holds(r, ins, k)
    ensures Full(r) <==> |ins| == k + PIPESIZE
    ensures Empty(r) <==> |ins| == k
  {
    WrapDiff(k, |ins| - k);
  }

  lemma SlotOf(j: nat)
    ensures (j % WORD) % PIPESIZE == j % PIPESIZE && (j % WORD + 1) % WORD == (j + 1) % WORD
  {
    var q, w := j / WORD, j % WORD;
    assert j == q * WORD + w;
    SlotIs(j, q * 0x80_0000 + w / PIPESIZE, w % PIPESIZE);
    if w + 1 == WORD {
      WordIs(j + 1, q + 1, 0);
    } else {
      WordIs(j + 1, q, w + 1);
    }
  }

  lemma SlotIs(j: nat, q: nat, r: nat)
    requires j == q * PIPESIZE + r && r < PIPESIZE
    ensures j % PIPESIZE == r
  {
  }

  lemma WordIs(j: nat, q: nat, r: nat)
    requires j == q * WORD + r && r < WORD
    ensures j % WORD == r
  {
  }

  lemma SlotsDiffer(i: nat, j: nat)
    requires i < j < i + PIPESIZE
    ensures i % PIPESIZE != j % PIPESIZE
  {
    var a, b := i / PIPESIZE, j / PIPESIZE;
    assert i == a * PIPESIZE + i % PIPESIZE && j == b * PIPESIZE + j % PIPESIZE;
  }

  /** pi->data[pi->nwrite++ % PIPESIZE] = ch */
  function Push(r: Ring, ch: int): (r': Ring)
    requires |r.data| == PIPESIZE
  {
    Ring(r.data[r.nwrite % PIPESIZE := ch], r.nread, (r.nwrite + 1) % WORD)
  }

  lemma PushHolds(r: Ring, ins: seq<int>, k: nat, ch: int)
    requires Holds(r, ins, k) && |ins| < k + PIPESIZE
    ensures Holds(Push(r, ch), ins + [ch], k)
  {
    SlotOf(|ins|);
    var ins', data' := ins + [ch], Push(r, ch).data;
    forall j | k <= j < |ins'|
      ensures CellAt(data', ins', j)
    {
      if j < |ins| {
        SlotsDiffer(j, |ins|);
        assert CellAt(r.data, ins, j);
      }
    }
  }

  lemma PullHolds(r: Ring, ins: seq<int>, k: nat)
    requires Holds(r, ins, k) && k < |ins|
    ensures Holds(Pull(r), ins, k + 1) && Front(r) == ins[k]
  {
    assert CellAt(r.data, ins, k);
    SlotOf(k);
  }

  function Pull(r: Ring): (r': Ring) { r.(nread := (r.nread + 1) % WORD) }

  function Front(r: Ring): (ch: int)
    requires |r.data| == PIPESIZE
  {
    r.data[r.nread % PIPESIZE]
  }

  // ----- many bytes at once -----

  function PushAll(r: Ring, bs: seq<int>): (r': Ring)
    requires |r.data| == PIPESIZE
    ensures |r'.data| == PIPESIZE
  {
    if bs == [] then r else Push(PushAll(r, bs[..|bs| - 1]), bs[|bs| - 1])
  }

  /** No byte of bs is stored into a full ring. */
  predicate CanPush(r: Ring, bs: seq<int>)
    requires |r.data| == PIPESIZE
  {
    bs == [] || (CanPush(r, bs[..|bs| - 1]) && !Full(PushAll(r, bs[..|bs| - 1])))
  }

  function PullAll(r: Ring, m: nat): (r': Ring)
    ensures r'.data == r.data
  {
    if m == 0 then r else Pull(PullAll(r, m - 1))
  }

  /** No byte is taken from an empty ring. */
  predicate CanPull(r: Ring, m: nat) {
    m == 0 || (CanPull(r, m - 1) && !Empty(PullAll(r, m - 1)))
  }

  /** The bytes that m pulls find in data. */
  function Taken(r: Ring, m: nat): (bs: seq<int>)
    requires |r.data| == PIPESIZE
    ensures |bs| == m
  {
    if m == 0 then [] else Taken(r, m - 1) + [Front(PullAll(r, m - 1))]
  }

  lemma {:induction false} PushAllHolds(r: Ring, ins: seq<int>, k: nat, bs: seq<int>)
    requires Holds(r, ins, k) && CanPush(r, bs)
    ensures Holds(PushAll(r, bs), ins + bs, k)
  {
    if bs == [] {
      assert ins + bs == ins;
    } else {
      var n := |bs| - 1;
      PushAllHolds(r, ins, k, bs[..n]);
      var r1, ins1 := PushAll(r, bs[..n]), ins + bs[..n];
      TestsAreExact(r1, ins1, k);
      PushHolds(r1, ins1, k, bs[n]);
      assert ins1 + [bs[n]] == ins + bs;
    }
  }

  lemma {:induction false} PullAllHolds(r: Ring, ins: seq<int>, k: nat, m: nat)
    requires Holds(r, ins, k) && CanPull(r, m)
    ensures Holds(PullAll(r, m), ins, k + m) && Taken(r, m) == ins[k..k + m]
  {
    if m > 0 {
      PullAllHolds(r, ins, k, m - 1);
      var r1 := PullAll(r, m - 1);
      TestsAreExact(r1, ins, k + (m - 1));
      PullHolds(r1, ins, k + (m - 1));
    }
  }

  /** How a stretch under pi->lock ends: asleep, returning a count, or -1. */
  datatype Outcome = Asleep | Returned | Refused

  /** What pipewrite may do from byte i of src: it has written up to byte j. */
  ghost predicate Writes(r: Ring, r': Ring, readopen: bool, src: seq<int>, i: nat, j: nat, out: Outcome) {
    && |r.data| == PIPESIZE && i <= j <= |src| && CanPush(r, src[i..j]) && r' == PushAll(r, src[i..j])
    && (out.Asleep? ==> j < |src| && readopen && Full(r'))
    && (out.Refused? ==> j < |src|)
    && (!readopen && i < |src| ==> out.Refused? && j == i)
  }

  /** What piperead may do: m bytes removed, got of them delivered. */
  ghost predicate Reads(r: Ring, r': Ring, writeopen: bool, want: nat, m: nat, got: nat, out: Outcome) {
    && |r.data| == PIPESIZE && CanPull(r, m) && r' == PullAll(r, m)
    && (if Empty(r) && writeopen then !out.Returned? && m == 0 else out.Returned?)
    && m <= want && got <= m <= got + 1
    && (out.Returned? && got == m ==> m == want || Empty(r'))
  }

  function Min(a: nat, b: nat): (m: nat) { if a < b then a else b }

  /** How far pipewrite gets from byte i of n with the read end open: to the end, to
      the bytes that fit, to where it is killed, or to a byte that cannot be read. */
  function WriteEnd(n: nat, i: nat, room: nat, life: nat, fault: nat): (j: nat)
    requires i <= n
  {
    i + Min(Min(n - i, room), Min(life, if fault < i then n - i else fault - i))
  }

  /** pipewrite, with room for so many bytes, has got to byte j and ends with out. */
  predicate Ended(n: nat, i: nat, room: nat, life: nat, fault: nat, readopen: bool, j: nat, out: Outcome)
    requires i <= n
  {
    && j == (if readopen then WriteEnd(n, i, room, life, fault) else i)
    && out == if j == n then Returned else if !readopen || j - i == life then Refused
              else if j - i == room then Asleep else Returned
  }

  lemma EndsThere(n: nat, i: nat, room: nat, life: nat, fault: nat, readopen: bool, j: nat, out: Outcome)
    requires i <= j <= n && j - i <= life && j - i <= room && (i <= fault ==> j <= fault) && (!readopen ==> j == i)
    requires j < n || out.Returned?
    requires j < n ==>
               if !readopen || j - i == life then out.Refused?
               else if j - i == room then out.Asleep? else j == fault && out.Returned?
    ensures Ended(n, i, room, life, fault, readopen, j, out)
  {
  }

  class Pipe {
    var data: seq<int>
    var nread: nat
    var nwrite: nat
    var readopen: bool
    var writeopen: bool
    ghost var ins: seq<int>
    ghost var k: nat

    function View(): (r: Ring)
      reads this
    {
      Ring(data, nread, nwrite)
    }

    ghost predicate Valid()
      reads this
    {
      Holds(View(), ins, k)
    }

    /** pipealloc */
    constructor (page: seq<int>)
      requires |page| == PIPESIZE
      ensures Valid() && ins == [] && k == 0 && readopen && writeopen
    {
      data, nread, nwrite, readopen, writeopen := page, 0, 0, true, true;
      ins, k := [], 0;
    }

    /** pipewrite has stored the bytes done and nothing else. */
    ghost predicate Stored(r0: Ring, ins0: seq<int>, done: seq<int>)
      reads this
    {
      && Valid() && |r0.data| == PIPESIZE && ins == ins0 + done
      && CanPush(r0, done) && View() == PushAll(r0, done)
    }

    /** pi->data[pi->nwrite++ % PIPESIZE] = ch */
    method StoreByte(ch: int, ghost r0: Ring, ghost ins0: seq<int>, ghost done: seq<int>, ghost next: seq<int>)
      requires Stored(r0, ins0, done) && !Full(View()) && next == done + [ch]
      modifies this`data, this`nwrite, this`ins
      ensures Stored(r0, ins0, next)
    {
      TestsAreExact(View(), ins, k);
      PushHolds(View(), ins, k, ch);
      assert next[..|next| - 1] == done;
      data := data[nwrite % PIPESIZE := ch];
      nwrite := (nwrite + 1) % WORD;
      ins := ins + [ch];
    }

    /** pipewrite from byte i until it returns or sleeps. killed(pr) turns true
        after life iterations; copyin fails at byte fault. woke: wakeup(&nread). */
    method Write(src: seq<int>, i: nat, life: nat, fault: nat) returns (j: nat, out: Outcome, woke: bool)
      requires Valid() && i <= |src|
      modifies this`data, this`nwrite, this`ins
      ensures Valid() && i <= j <= |src| && ins == old(ins) + src[i..j]
      ensures Writes(old(View()), View(), readopen, src, i, j, out)
      ensures Ended(|src|, i, old(k) + PIPESIZE - |old(ins)|, life, fault, readopen, j, out)
      ensures woke <==> !out.Refused?
    {
      j := i;
      ghost var r0, ins0, done, room := View(), ins, src[i..i], k + PIPESIZE - |ins|;
      while j < |src|
        invariant i <= j <= |src| && j - i <= life && (!readopen ==> j == i)
        invariant done == src[i..j] && Stored(r0, ins0, done) && (i <= fault ==> j <= fault)
      {
        TestsAreExact(View(), ins, k);
        if !readopen || j - i >= life {
          EndsThere(|src|, i, room, life, fault, readopen, j, Refused);
          return j, Refused, false;
        }
        if Full(View()) {
          EndsThere(|src|, i, room, life, fault, readopen, j, Asleep);
          return j, Asleep, true;
        }
        if j == fault {
          break;
        }
        ghost var next := src[i..j + 1];
        StoreByte(src[j], r0, ins0, done, next);
        done := next;
        j := j + 1;
      }
      EndsThere(|src|, i, room, life, fault, readopen, j, Returned);
      return j, Returned, true;
    }

    /** piperead until it returns or sleeps; copyout fails at byte fault. dst is
        what reached the caller: all that is wanted and there, and if a copy fails the
        bytes before it, the one it was to move being lost. woke: wakeup(&nwrite). */
    method Read(want: nat, killed: bool, fault: nat) returns (dst: seq<int>, out: Outcome, woke: bool)
      requires Valid()
      modifies this`nread, this`k
      ensures Valid() && old(k) <= k && Reads(old(View()), View(), writeopen, want, k - old(k), |dst|, out)
      ensures dst == ins[old(k)..old(k) + |dst|]
      ensures out == if |ins| > old(k) || !writeopen then Returned else if killed then Refused else Asleep
      ensures out.Returned? ==> |dst| == Min(fault, Min(want, |ins| - old(k)))
      ensures out.Returned? && fault < Min(want, |ins| - old(k)) ==> k == old(k) + |dst| + 1
      ensures !out.Returned? || fault >= Min(want, |ins| - old(k)) ==> k == old(k) + |dst|
      ensures woke <==> out.Returned?
    {
      TestsAreExact(View(), ins, k);
      dst := [];
      if Empty(View()) && writeopen {
        return [], if killed then Refused else Asleep, false;
      }
      ghost var r0, k0 := View(), k;
      while |dst| < want
        invariant Pulled(r0, k0, dst) && |dst| <= want && |dst| <= fault
      {
        TestsAreExact(View(), ins, k);
        if Empty(View()) {
          break;
        }
        var ch := TakeByte(r0, k0, dst);
        if |dst| == fault {
          break;
        }
        dst := dst + [ch];
      }
      return dst, Returned, true;
    }

    /** piperead has delivered dst and removed nothing else. */
    ghost predicate Pulled(r0: Ring, k0: nat, dst: seq<int>)
      reads this
    {
      && Valid() && k == k0 + |dst| && dst == ins[k0..k]
      && CanPull(r0, |dst|) && View() == PullAll(r0, |dst|)
    }

    /** ch = pi->data[pi->nread++ % PIPESIZE] */
    method TakeByte(ghost r0: Ring, ghost k0: nat, ghost dst: seq<int>) returns (ch: int)
      requires Pulled(r0, k0, dst) && !Empty(View())
      modifies this`nread, this`k
      ensures Pulled(r0, k0, dst + [ch])
    {
      TestsAreExact(View(), ins, k);
      PullHolds(View(), ins, k);
      ch := data[nread % PIPESIZE];
      nread := (nread + 1) % WORD;
      k := k + 1;
    }

    /** pipeclose; true when the pipe itself is freed. */
    method Close(writable: bool) returns (freed: bool, wokeReaders: bool, wokeWriters: bool)
      requires Valid()
      modifies this`readopen, this`writeopen
      ensures Valid() && freed == (!readopen && !writeopen)
      ensures writeopen == (old(writeopen) && !writable) && readopen == (old(readopen) && writable)
      ensures wokeReaders == writable && wokeWriters == !writable
    {
      if writable {
        writeopen := false;
      } else {
        readopen := false;
      }
      return !readopen && !writeopen, writable, !writable;
    }
  }
}
