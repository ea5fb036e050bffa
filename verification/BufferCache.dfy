/**
 The cache object of kernel/bio.c: the buffers and the circular prev/next list
 through them, relinked in place. Module Bcache says what bget and brelse mean;
 here the pointer code is shown to do that.
 */
module BufferCache {
  import opened Bcache
  import opened Options

  // The list's sentinel, bcache.head.
  const HEAD := NBUF

  /** The k-th node of the ring; positions -1 and |order| are the sentinel. */
  function Node(order: seq<nat>, k: int): (r: nat) {
    if 0 <= k < |order| then order[k] else HEAD
  }

  ghost predicate InTable(order: seq<nat>) {
    Distinct(order) && forall k :: 0 <= k < |order| ==> order[k] < NBUF
  }

  ghost predicate LinkAt(next: seq<nat>, prev: seq<nat>, order: seq<nat>, k: int)
    requires |next| == |prev| == NBUF + 1 && InTable(order)
  {
    next[Node(order, k - 1)] == Node(order, k) && prev[Node(order, k)] == Node(order, k - 1)
  }

  /** next and prev form one circular list: the sentinel, then order. */
  ghost predicate Linked(next: seq<nat>, prev: seq<nat>, order: seq<nat>) {
    && |next| == |prev| == NBUF + 1 && InTable(order)
    && forall k :: 0 <= k <= |order| ==> LinkAt(next, prev, order, k)
  }

  function RemoveAt(order: seq<nat>, p: nat): (r: seq<nat>)
    requires p < |order|
  {
    order[..p] + order[p + 1..]
  }

  lemma {:induction false} RemoveAtIsWithout(order: seq<nat>, p: nat)
    requires p < |order| && Distinct(order)
    ensures RemoveAt(order, p) == Without(order, order[p])
  {
    if p == 0 {
      WithoutAbsent(order[1..], order[0]);
      assert RemoveAt(order, 0) == order[1..];
    } else {
      RemoveAtIsWithout(order[1..], p - 1);
      assert RemoveAt(order, p) == [order[0]] + RemoveAt(order[1..], p - 1);
    }
  }

  lemma {:induction false} WithoutAbsent(order: seq<nat>, i: nat)
    requires i !in order
    ensures Without(order, i) == order
  {
    if order != [] {
      WithoutAbsent(order[1..], i);
    }
  }

  lemma UnlinkKeepsLinked(next: seq<nat>, prev: seq<nat>, order: seq<nat>, p: nat)
    requires Linked(next, prev, order) && p < |order|
    ensures Linked(next[Node(order, p - 1) := Node(order, p + 1)],
                   prev[Node(order, p + 1) := Node(order, p - 1)], RemoveAt(order, p))
  {
    var next' := next[Node(order, p - 1) := Node(order, p + 1)];
    var prev' := prev[Node(order, p + 1) := Node(order, p - 1)];
    var r := RemoveAt(order, p);
    forall k | 0 <= k <= |r|
      ensures LinkAt(next', prev', r, k)
    {
      assert LinkAt(next, prev, order, k) && LinkAt(next, prev, order, k + 1);
      assert Node(r, k) == Node(order, if k < p then k else k + 1);
      assert Node(r, k - 1) == Node(order, if k <= p then k - 1 else k);
    }
  }

  lemma PushKeepsLinked(next: seq<nat>, prev: seq<nat>, order: seq<nat>, b: nat)
    requires Linked(next, prev, order) && b < NBUF && b !in order && next[HEAD] == Node(order, 0)
    ensures Linked(next[b := next[HEAD]][HEAD := b], prev[b := HEAD][next[HEAD] := b], [b] + order)
  {
    var next' := next[b := next[HEAD]][HEAD := b];
    var prev' := prev[b := HEAD][next[HEAD] := b];
    var r := [b] + order;
    forall k | 0 <= k <= |r|
      ensures LinkAt(next', prev', r, k)
    {
      assert Node(r, k) == if k == 0 then b else Node(order, k - 1);
      assert k > 0 ==> Node(r, k - 1) == if k == 1 then b else Node(order, k - 2);
      if k > 0 {
        assert LinkAt(next, prev, order, k - 1);
      }
    }
  }

  class BufferCache {
    const bufs: array<Buf>
    const next: array<nat>
    const prev: array<nat>
    ghost var order: seq<nat>

    ghost predicate Shaped()
      reads this, bufs, next, prev
    {
      && bufs.Length == NBUF && next.Length == prev.Length == NBUF + 1 && next != prev
      && Linked(next[..], prev[..], order)
    }

    ghost predicate Valid()
      reads this, bufs, next, prev
    {
      Shaped() && Permutation(order)
    }

    /** binit: every buffer is pushed on the front in turn. */
    method Binit()
      requires bufs.Length == NBUF && next.Length == prev.Length == NBUF + 1 && next != prev
      modifies this, next, prev
      ensures Valid() && bufs[..] == old(bufs[..])
    {
      prev[HEAD] := HEAD;
      next[HEAD] := HEAD;
      order := [];
      assert LinkAt(next[..], prev[..], order, 0);
      var b := 0;
      while b < NBUF
        invariant b <= NBUF && Shaped()
        invariant |order| == b && forall i :: 0 <= i < NBUF ==> (i in order <==> i < b)
      {
        PushFront(b);
        b := b + 1;
      }
    }

    /** Put b, which is not on the list, at its front. */
    method PushFront(b: nat)
      requires Shaped() && b < NBUF && b !in order
      modifies this, next, prev
      ensures Shaped() && order == [b] + old(order)
    {
      assert LinkAt(next[..], prev[..], order, 0);
      PushKeepsLinked(next[..], prev[..], order, b);
      next[b] := next[HEAD];
      prev[b] := HEAD;
      prev[next[HEAD]] := b;
      next[HEAD] := b;
      order := [b] + order;
    }

    /** bget under bcache.lock; None is the "no buffers" panic. */
    method Bget(key: Key) returns (r: Option<nat>)
      requires Valid()
      modifies bufs
      ensures Valid() && order == old(order)
      ensures r.None? ==> bufs[..] == old(bufs[..]) && Absent(bufs[..], key)
                          && forall i :: 0 <= i < NBUF ==> bufs[i].refcnt != 0
      ensures r.Some? ==> r.value < NBUF
      ensures r.Some? && !Absent(old(bufs[..]), key) ==>
                && Found(old(bufs[..]), order, key, r.value)
                && bufs[..] == old(bufs[..])[r.value := old(bufs[r.value]).(refcnt := old(bufs[r.value]).refcnt + 1)]
      ensures r.Some? && Absent(old(bufs[..]), key) ==>
                && Victim(old(bufs[..]), order, r.value)
                && bufs[..] == old(bufs[..])[r.value := Recycled(old(bufs[r.value]), key)]
    {
      ghost var was := bufs[..];
      assert LinkAt(next[..], prev[..], order, 0);
      var b := next[HEAD];
      ghost var k := 0;
      while b != HEAD
        invariant 0 <= k <= |order| && b == Node(order, k) && bufs[..] == was
        invariant forall j :: 0 <= j < k ==> was[order[j]].key != key
        decreases |order| - k
      {
        if bufs[b].key == key {
          bufs[b] := bufs[b].(refcnt := bufs[b].refcnt + 1);
          assert was[order[k]].key == key;
          return Some(b);
        }
        assert LinkAt(next[..], prev[..], order, k + 1);
        b := next[b];
        k := k + 1;
      }
      AllScanned(was, order, key);
      assert LinkAt(next[..], prev[..], order, |order|);
      b := prev[HEAD];
      k := |order| - 1;
      while b != HEAD
        invariant -1 <= k < |order| && b == Node(order, k) && bufs[..] == was
        invariant forall j :: k < j < |order| ==> was[order[j]].refcnt != 0
        decreases k
      {
        if bufs[b].refcnt == 0 {
          bufs[b] := Recycled(bufs[b], key);
          assert was[order[k]].refcnt == 0;
          return Some(b);
        }
        assert LinkAt(next[..], prev[..], order, k);
        b := prev[b];
        k := k - 1;
      }
      AllReferenced(was, order);
      return None;
    }

    /** brelse under bcache.lock: drop a reference; the last one moves b to the front. */
    method Brelse(b: nat)
      requires Valid() && b < NBUF
      modifies this, bufs, next, prev
      ensures Valid()
      ensures bufs[..] == old(bufs[..])[b := old(bufs[b]).(refcnt := old(bufs[b]).refcnt - 1)]
      ensures order == if bufs[b].refcnt == 0 then MoveToFront(old(order), b) else old(order)
    {
      bufs[b] := bufs[b].(refcnt := bufs[b].refcnt - 1);
      if bufs[b].refcnt == 0 {
        assert b in order;
        ghost var p: nat :| p < |order| && order[p] == b;
        MoveToFrontPermutes(order, b);
        RemoveAtIsWithout(order, p);
        WithoutProps(order, b);
        UnlinkKeepsLinked(next[..], prev[..], order, p);
        assert LinkAt(next[..], prev[..], order, p) && LinkAt(next[..], prev[..], order, p + 1);
        prev[next[b]] := prev[b];
        next[prev[b]] := next[b];
        order := RemoveAt(order, p);
        PushFront(b);
      }
    }
  }

  lemma AllScanned(bufs: seq<Buf>, order: seq<nat>, key: Key)
    requires |bufs| == NBUF && Permutation(order)
    requires forall j :: 0 <= j < |order| ==> bufs[order[j]].key != key
    ensures Absent(bufs, key)
  {
    forall i | 0 <= i < |bufs|
      ensures bufs[i].key != key
    {
      assert i in order;
    }
  }

  lemma AllReferenced(bufs: seq<Buf>, order: seq<nat>)
    requires |bufs| == NBUF && Permutation(order)
    requires forall j :: 0 <= j < |order| ==> bufs[order[j]].refcnt != 0
    ensures forall i :: 0 <= i < NBUF ==> bufs[i].refcnt != 0
  {
    forall i | 0 <= i < NBUF
      ensures bufs[i].refcnt != 0
    {
      assert i in order;
    }
  }
}
