/**
 Which buffer bget recycles (kernel/bio.c): among those nobody references, the one
 whose last brelse lies furthest back.
 */
module Recency {
  import opened Bcache

  /** x is nearer to the front than y. */
  ghost predicate Ahead(order: seq<nat>, x: nat, y: nat) {
    exists p, q :: 0 <= p < q < |order| && order[p] == x && order[q] == y
  }

  lemma OneWay(order: seq<nat>, x: nat, y: nat)
    requires Distinct(order) && Ahead(order, x, y)
    ensures !Ahead(order, y, x)
  {
  }

  lemma SomeWay(order: seq<nat>, x: nat, y: nat)
    requires x in order && y in order && x != y
    ensures Ahead(order, x, y) || Ahead(order, y, x)
  {
    var p :| 0 <= p < |order| && order[p] == x;
    var q :| 0 <= q < |order| && order[q] == y;
  }

  /** Taking another element out keeps the order of the rest. */
  lemma {:induction false} WithoutKeeps(order: seq<nat>, z: nat, x: nat, y: nat)
    requires Ahead(Without(order, z), x, y)
    ensures Ahead(order, x, y)
    decreases |order|
  {
    var rest, w := order[1..], Without(order, z);
    if order[0] == z {
      WithoutKeeps(rest, z, x, y);
      var p, q :| 0 <= p < q < |rest| && rest[p] == x && rest[q] == y;
      assert order[p + 1] == x && order[q + 1] == y;
    } else {
      var p, q :| 0 <= p < q < |w| && w[p] == x && w[q] == y;
      KeepsTail(order, z, x, y, p, q);
    }
  }

  lemma {:induction false} KeepsTail(order: seq<nat>, z: nat, x: nat, y: nat, p: nat, q: nat)
    requires order != [] && order[0] != z && p < q < |Without(order, z)|
    requires Without(order, z)[p] == x && Without(order, z)[q] == y
    ensures Ahead(order, x, y)
    decreases |order|, 0
  {
    var rest := order[1..];
    var w := Without(rest, z);
    assert w[q - 1] == y;
    if p == 0 {
      Kept(rest, z, y);
      var k :| 0 <= k < |rest| && rest[k] == y;
      assert order[0] == x && order[k + 1] == y;
    } else {
      assert w[p - 1] == x;
      assert Ahead(w, x, y);
      WithoutKeeps(rest, z, x, y);
      var a, b :| 0 <= a < b < |rest| && rest[a] == x && rest[b] == y;
      assert order[a + 1] == x && order[b + 1] == y;
    }
  }

  lemma {:induction false} Kept(order: seq<nat>, z: nat, y: nat)
    requires y in Without(order, z)
    ensures y in order && y != z
  {
    if order != [] && y in Without(order[1..], z) {
      Kept(order[1..], z, y);
    }
  }

  /** Step k is the end of a brelse by the last holder of buffer i. */
  ghost predicate LastRelease(run: seq<State>, steps: seq<Step>, k: nat, i: nat)
    requires |run| == |steps| + 1 && k < |steps| && Shape(run[k]) && Shape(run[k + 1]) && i < NBUF
  {
    && steps[k].Drop? && steps[k].h in run[k].handles && run[k].handles[steps[k].h].buf == i
    && run[k + 1].bufs[i].refcnt == 0
  }

  lemma ReleasedIsFirst(run: seq<State>, steps: seq<Step>, k: nat, i: nat, j: nat)
    requires IsRun(run, steps) && k < |steps| && i < NBUF && j < NBUF && i != j && LastRelease(run, steps, k, i)
    ensures Ahead(run[k + 1].order, i, j)
  {
    assert Next(run[k], run[k + 1], steps[k]);
    var order := run[k + 1].order;
    assert order[0] == i && j in order;
    var q :| 0 <= q < |order| && order[q] == j;
  }

  /** A buffer overtakes another only by being released. */
  lemma OnlyReleaseOvertakes(run: seq<State>, steps: seq<Step>, k: nat, i: nat, j: nat)
    requires IsRun(run, steps) && k < |steps| && i < NBUF && j < NBUF && i != j
    requires Ahead(run[k].order, i, j) && Ahead(run[k + 1].order, j, i)
    ensures LastRelease(run, steps, k, j)
  {
    assert Next(run[k], run[k + 1], steps[k]);
    var s, t, step := run[k], run[k + 1], steps[k];
    OneWay(s.order, i, j);
    if step.Drop? {
      var z := s.handles[step.h].buf;
      if t.order != s.order && z != j {
        FrontKeeps(s.order, z, j, i);
      }
    }
  }

  lemma FrontKeeps(order: seq<nat>, z: nat, x: nat, y: nat)
    requires Distinct(order) && z != x && Ahead(MoveToFront(order, z), x, y)
    ensures Ahead(order, x, y)
  {
    var r, w := MoveToFront(order, z), Without(order, z);
    var p, q :| 0 <= p < q < |r| && r[p] == x && r[q] == y;
    assert w[p - 1] == x && w[q - 1] == y;
    WithoutKeeps(order, z, x, y);
  }

  lemma {:induction false} Overtaken(run: seq<State>, steps: seq<Step>, a: nat, k: nat, i: nat, j: nat)
    requires IsRun(run, steps) && a <= k < |run| && i < NBUF && j < NBUF && i != j
    requires Ahead(run[a].order, i, j) && Ahead(run[k].order, j, i)
    ensures exists b {:trigger LastRelease(run, steps, b, j)} :: a <= b < k && LastRelease(run, steps, b, j)
    decreases k
  {
    OneWay(run[k].order, j, i);
    var m := k - 1;
    SomeWay(run[m].order, i, j);
    if Ahead(run[m].order, j, i) {
      Overtaken(run, steps, a, m, i, j);
    } else {
      OnlyReleaseOvertakes(run, steps, m, i, j);
    }
  }

  lemma VictimIsLast(bufs: seq<Buf>, order: seq<nat>, i: nat, j: nat)
    requires |bufs| == NBUF && Permutation(order) && Victim(bufs, order, i) && j < NBUF && j != i && bufs[j].refcnt == 0
    ensures i < NBUF && bufs[i].refcnt == 0 && Ahead(order, j, i)
  {
    var p :| 0 <= p < |order| && order[p] == i && bufs[order[p]].refcnt == 0
             && forall q :: p < q < |order| ==> bufs[order[q]].refcnt != 0;
    assert j in order;
    var q :| 0 <= q < |order| && order[q] == j;
  }

  /**
   On every interleaving, when bget recycles buffer i, every other buffer without
   references has been released by its last holder since i last was.
   */
  lemma VictimIsOldest(run: seq<State>, steps: seq<Step>, k: nat, i: nat, j: nat, a: nat)
    requires IsRun(run, steps) && k < |steps| && steps[k].Bget? && steps[k].i == i && Absent(run[k].bufs, steps[k].key)
    requires j < NBUF && j != i && run[k].bufs[j].refcnt == 0
    requires i < NBUF && a < k && LastRelease(run, steps, a, i)
    ensures run[k].bufs[i].refcnt == 0
    ensures exists b {:trigger LastRelease(run, steps, b, j)} :: a < b < k && LastRelease(run, steps, b, j)
  {
    assert Next(run[k], run[k + 1], steps[k]);
    VictimIsLast(run[k].bufs, run[k].order, i, j);
    ReleasedIsFirst(run, steps, a, i, j);
    Overtaken(run, steps, a + 1, k, i, j);
  }
}
