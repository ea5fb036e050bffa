/**
 filewrite (kernel/file.c): a long write is cut into chunks that each fit one
 log reservation.
 */
module File {
  import opened FsModel
  import opened FileSystem
  import Log

  // ((MAXOPBLOCKS-1-1-2) / 2) * BSIZE
  const MAXCHUNK := ((Log.MAXOPBLOCKS - 1 - 1 - 2) / 2) * BSIZE

  lemma OverwriteTwice(c: seq<int>, off: nat, a: seq<int>, b: seq<int>)
    requires off <= |c|
    ensures off + |a| <= |Overwrite(c, off, a)|
    ensures Overwrite(Overwrite(c, off, a), off + |a|, b) == Overwrite(c, off, a + b)
  {
    var x, y := Overwrite(Overwrite(c, off, a), off + |a|, b), Overwrite(c, off, a + b);
    assert |x| == |y|;
    forall k | 0 <= k < |x|
      ensures x[k] == y[k]
    {
    }
  }

  // ----- how many blocks one chunk adds to the log -----

  /** The k-th file block from lo on, 0 past the end of the file's map. */
  function Nth(s: State, i: nat, lo: nat, k: nat): (b: nat)
    requires Shape(s) && i < |s.inodes|
  {
    if lo + k < MAXFILE then MapOf(s, i, lo + k) else 0
  }

  lemma AtMostSeven(x: nat, y: nat, z: nat, a: nat, b: nat, c: nat, d: nat, blocks: set<nat>)
    requires blocks <= {x, y, z, a, b, c, d}
    ensures |blocks| <= 7
  {
    var all := {x} + {y} + {z} + {a} + {b} + {c} + {d};
    assert all == {x, y, z, a, b, c, d};
    SubsetSize(blocks, all);
  }

  lemma {:induction false} SubsetSize(x: set<nat>, y: set<nat>)
    requires x <= y
    ensures |x| <= |y|
    decreases |x|
  {
    if x != {} {
      var e :| e in x;
      SubsetSize(x - {e}, y - {e});
    }
  }

  /** With one bitmap block, the blocks a write of at most MAXCHUNK bytes logs
      are at most seven: the inode, the bitmap, the indirect block and four data
      blocks. */
  lemma ChunkLogsAtMostSeven(fs: FileSystem, s: State, i: nat, off: nat, n: nat, blocks: set<nat>)
    requires Shape(s) && i < |s.inodes| && n <= MAXCHUNK && |s.bits| <= BPB
    requires forall b :: b in blocks ==> fs.WriteMayLog(s, i, off, n, b)
    ensures |blocks| <= 7 <= Log.MAXOPBLOCKS - 2
  {
    var lo := off / BSIZE;
    var x, y, z := fs.Iblock(i), IndOf(s, i), fs.bmapstart;
    var p, q, r, t := Nth(s, i, lo, 0), Nth(s, i, lo, 1), Nth(s, i, lo, 2), Nth(s, i, lo, 3);
    forall b | b in blocks
      ensures b in {x, y, z, p, q, r, t}
    {
      var hi := EndBlock(off, n);
      assert fs.WriteMayLog(s, i, off, n, b);
      if b != x && b != y && !IsBitmapBlock(s, fs.bmapstart, b) {
        var bn :| lo <= bn < hi && bn < MAXFILE && b == MapOf(s, i, bn);
        assert bn == lo || bn == lo + 1 || bn == lo + 2 || bn == lo + 3;
      }
    }
    AtMostSeven(x, y, z, p, q, r, t, blocks);
  }

  // ----- room for all the operations together -----

  /** The blocks that n bytes at off of file i lack are free. */
  ghost predicate RoomFor(s: State, i: nat, off: nat, n: nat) { Room(s, i, off / BSIZE, EndBlock(off, n)) }

  ghost predicate BalancedFor(s0: State, s: State, i: nat, off: nat, n: nat) {
    BalancedAround(s0, s, i, off / BSIZE, EndBlock(off, n))
  }

  lemma {:induction false} MissingSplit(s: State, i: nat, lo: nat, m: nat, hi: nat)
    requires Shape(s) && i < |s.inodes| && lo <= m <= hi <= MAXFILE
    ensures Missing(s, i, lo, hi) == Missing(s, i, lo, m) + Missing(s, i, m, hi)
    decreases hi
  {
    if m < hi {
      MissingSplit(s, i, lo, m, hi - 1);
    }
  }

  lemma MissingSub(s: State, i: nat, lo: nat, hi: nat, a: nat, b: nat)
    requires Shape(s) && i < |s.inodes| && lo <= a <= b <= hi <= MAXFILE
    ensures Missing(s, i, a, b) <= Missing(s, i, lo, hi)
  {
    MissingSplit(s, i, lo, a, hi);
    MissingSplit(s, i, a, b, hi);
  }

  /** Where there was room for the whole range there is still room for a part of it. */
  lemma RoomLeft(s0: State, s: State, i: nat, lo: nat, hi: nat, a: nat, b: nat)
    requires Room(s0, i, lo, hi) && Balanced(s0, s, i, lo, hi) && lo <= a <= b <= hi
    ensures Room(s, i, a, b)
  {
    MissingSub(s, i, lo, hi, a, b);
  }

  lemma BlocksWithin(off: nat, n: nat, at: nat, n1: nat)
    requires off <= at && at + n1 <= off + n
    ensures off / BSIZE <= at / BSIZE <= EndBlock(at, n1) <= EndBlock(off, n)
  {
  }

  /** One operation on part of the range. */
  lemma PartHasRoom(s0: State, s: State, i: nat, off: nat, n: nat, at: nat, n1: nat)
    requires BalancedFor(s0, s, i, off, n) && off <= at && at + n1 <= off + n
    ensures RoomFor(s0, i, off, n) ==> RoomFor(s, i, at, n1)
  {
    var lo, hi := off / BSIZE, EndBlock(off, n);
    BlocksWithin(off, n, at, n1);
    if RoomFor(s0, i, off, n) {
      assert Balanced(s0, s, i, lo, hi);
      RoomLeft(s0, s, i, lo, hi, at / BSIZE, EndBlock(at, n1));
    }
  }

  lemma BalancedTrans(s0: State, s: State, t: State, i: nat, off: nat, n: nat, at: nat, n1: nat)
    requires BalancedFor(s0, s, i, off, n) && BalancedFor(s, t, i, at, n1) && off <= at && at + n1 <= off + n
    ensures BalancedFor(s0, t, i, off, n)
  {
    var lo, hi := off / BSIZE, EndBlock(off, n);
    BlocksWithin(off, n, at, n1);
    forall x: nat, y: nat | x <= lo && hi <= y <= MAXFILE
      ensures Balanced(s0, t, i, x, y)
    {
      assert Balanced(s0, s, i, x, y) && Balanced(s, t, i, x, y);
    }
  }

  /** A range that lies inside the file has all its blocks: there was room. */
  lemma InsideHadRoom(s0: State, s: State, owner: map<nat, Slot>, i: nat, off: nat, n: nat)
    requires Inv(s, owner) && i < |s.inodes| && 0 < n && off + n <= s.inodes[i].size
    requires BalancedFor(s0, s, i, off, n)
    ensures RoomFor(s0, i, off, n)
  {
    var lo, hi := off / BSIZE, EndBlock(off, n);
    assert FileAt(s, i) && (hi - 1) * BSIZE < off + n;
    forall bn | lo <= bn < hi
      ensures MapOf(s, i, bn) != 0
    {
      assert bn * BSIZE <= (hi - 1) * BSIZE;
    }
    MissingNone(s, i, lo, hi);
    assert Balanced(s0, s, i, lo, hi);
  }

  /** An open file on an inode: struct file with its offset. */
  class File {
    const fs: FileSystem
    const ip: nat
    var off: nat

    constructor (fs: FileSystem, ip: nat, off: nat)
      ensures this.fs == fs && this.ip == ip && this.off == off
    {
      this.fs, this.ip, this.off := fs, ip, off;
    }

    /** One begin_op ... end_op round of filewrite. */
    method WriteOp(part: seq<int>, readable: nat, ghost c: seq<int>, ghost n1: nat)
      returns (r: int, n: nat, ghost k: nat, ghost c': seq<int>)
      requires fs.Valid() && ip < |fs.inodes| && off < UINT && |part| <= MAXCHUNK && |fs.bits| <= BPB
      requires c == Content(fs.View(), ip) && n1 == |part|
      modifies this`off, fs
      ensures fs.Valid() && |fs.inodes| == old(|fs.inodes|) && |fs.bits| == old(|fs.bits|) && |fs.logged| <= 7
      ensures -1 <= r <= |part| && n == (if r > 0 then r else 0) && off == old(off) + n < UINT
      ensures c' == Content(fs.View(), ip) && Written(c, c', old(off), part, n, k)
      ensures r == |part| || readable >= |part| ==> k == n
      ensures n <= readable
      ensures old(off) <= |c| && readable >= n1 && RoomFor(old(fs.View()), ip, old(off), n1) ==> r == n1
      ensures BalancedFor(old(fs.View()), fs.View(), ip, old(off), n1)
    {
      ContentLength(fs.View(), fs.owner, ip);
      fs.logged := {};
      ghost var kept;
      r, k, kept := fs.Writei(ip, part, off, readable);
      c' := Content(fs.View(), ip);
      ChunkLogsAtMostSeven(fs, fs.View(), ip, off, |part|, fs.logged);
      if r == -1 {
        k := 0;
      } else if k == 0 {
        WroteNothing(c, off, part);
      }
      n := if r > 0 then r else 0;
      if r > 0 {
        off := off + r;
      }
    }

    /** One iteration of filewrite's loop: next bytes are reported in all, k copied. */
    method WriteNext(src: seq<int>, i: nat, readable: nat, ghost c0: seq<int>, ghost off0: nat, ghost c: seq<int>,
                     ghost s0: State)
      returns (next: nat, full: bool, ghost k: nat, ghost c': seq<int>)
      requires fs.Valid() && ip < |fs.inodes| && off < UINT && |fs.bits| <= BPB && i < |src|
      requires off == off0 + i && c == Content(fs.View(), ip) && Written(c0, c, off0, src, i, i)
      requires BalancedFor(s0, fs.View(), ip, off0, |src|)
      modifies this`off, fs
      ensures fs.Valid() && |fs.inodes| == old(|fs.inodes|) && |fs.bits| <= BPB && |fs.logged| <= 7
      ensures BalancedFor(s0, fs.View(), ip, off0, |src|) && (full ==> next <= readable)
      ensures off0 <= |c0| && readable >= |src| && RoomFor(s0, ip, off0, |src|) ==> full
      ensures c' == Content(fs.View(), ip) && Written(c0, c', off0, src, next, k)
      ensures i <= next && off == off0 + next < UINT && (if full then i < next == k else next < |src|)
      ensures readable >= |src| ==> k == next
    {
      var n1 := if |src| - i > MAXCHUNK then MAXCHUNK else |src| - i;
      var part, left := src[i..i + n1], if readable < i then 0 else readable - i;
      ghost var at, more, s := off, 0, fs.View();
      StillInside(c0, c, off0, src, i);
      assert |part| == n1;
      PartHasRoom(s0, s, ip, off0, |src|, at, n1);
      ghost var fits := off <= |c| && left >= n1 && RoomFor(s, ip, at, n1);
      var r, n;
      r, n, more, c' := WriteOp(part, left, c, n1);
      next, k, full := i + n, i + more, r == n1;
      assert fits ==> full;
      BalancedTrans(s0, s, fs.View(), ip, off0, |src|, at, n1);
      WrittenStep(c0, c, c', off0, at, src, part, i, n1, n, more, next, k);
    }

    /**
     filewrite on an inode. It returns the requested count exactly when every byte
     was written, and that is exactly when the offset is inside the file, the bytes can
     be read, and the range fits a file and the blocks it lacks are free. In every case
     off has moved past the prefix of src that was reported written, and the file is its
     old contents with that prefix at the old offset, plus what a copy that failed half
     way had already moved (up to k, no further than the reported prefix if all of src
     can be read), which lasts only while its block is cached. most is the largest
     number of blocks any one of its operations logged.
     */
    method Filewrite(src: seq<int>, readable: nat) returns (ret: int, ghost done: nat, ghost k: nat, ghost most: nat)
      requires fs.Valid() && ip < |fs.inodes| && off < UINT && |src| < UINT && |fs.bits| <= BPB
      modifies this`off, fs
      ensures fs.Valid() && |fs.inodes| == old(|fs.inodes|)
      ensures ret == (if done == |src| then |src| else -1)
      ensures src != [] ==>
                (done == |src| <==>
                 && old(off) <= |old(Content(fs.View(), ip))| && readable >= |src|
                 && RoomFor(old(fs.View()), ip, old(off), |src|))
      ensures off == old(off) + done
      ensures Written(old(Content(fs.View(), ip)), Content(fs.View(), ip), old(off), src, done, k)
      ensures readable >= |src| ==> k == done
      ensures most <= 7
    {
      ghost var c0, off0, s0 := Content(fs.View(), ip), off, fs.View();
      var i := 0;
      ghost var c := c0;
      done, k, most := 0, 0, 0;
      while i < |src|
        invariant i <= |src| && done == k == i && off == off0 + i && off < UINT && most <= 7
        invariant fs.Valid() && |fs.inodes| == old(|fs.inodes|) && |fs.bits| <= BPB
        invariant c == Content(fs.View(), ip) && Written(c0, c, off0, src, i, i) && (i > 0 ==> i <= readable)
        invariant BalancedFor(s0, fs.View(), ip, off0, |src|)
      {
        var next, full;
        next, full, k, c := WriteNext(src, i, readable, c0, off0, c, s0);
        most := if |fs.logged| > most then |fs.logged| else most;
        done := next;
        if !full {
          break;
        }
        i := next;
      }
      if i == |src| > 0 {
        StillInside(c0, c, off0, src, i);
        ContentLength(fs.View(), fs.owner, ip);
        InsideHadRoom(s0, fs.View(), fs.owner, ip, off0, |src|);
      }
      ret := if i == |src| then |src| else -1;
    }
  }

  /** c is c0 with the first k bytes of src written at off, of which n count
      towards the file's size. */
  ghost predicate Written(c0: seq<int>, c: seq<int>, off: nat, src: seq<int>, n: nat, k: nat) {
    && n <= k <= |src|
    && if k == 0 then c == c0 else off <= |c0| && c == Wrote(c0, off, src, n, k)
  }

  /** The offset after n bytes is inside the file if it was before, and all written
      bytes are. */
  lemma StillInside(c0: seq<int>, c: seq<int>, off: nat, src: seq<int>, n: nat)
    requires Written(c0, c, off, src, n, n)
    ensures off <= |c0| ==> off + n <= |c|
    ensures n > 0 ==> off <= |c0|
  {
    if n > 0 {
      WroteAll(c0, off, src, n);
    }
  }

  lemma WroteNothing(c: seq<int>, off: nat, src: seq<int>)
    requires off <= |c|
    ensures Wrote(c, off, src, 0, 0) == c
  {
    assert src[..0] == [];
    assert Overwrite(c, off, []) == c;
  }

  lemma WrittenStep(c0: seq<int>, c: seq<int>, c': seq<int>, off: nat, at: nat, src: seq<int>, part: seq<int>,
                    i: nat, n1: nat, n: nat, more: nat, next: nat, k: nat)
    requires Written(c0, c, off, src, i, i) && i + n1 <= |src| && part == src[i..i + n1] && at == off + i
    requires Written(c, c', at, part, n, more) && next == i + n && k == i + more
    ensures Written(c0, c', off, src, next, k)
  {
    if more > 0 {
      if i == 0 {
        WroteNothing(c0, off, src);
      }
      WroteMore(c0, c, off, at, src, part, i, n, more, next, k);
    }
  }

  lemma WroteMore(c0: seq<int>, c: seq<int>, off: nat, at: nat, src: seq<int>, part: seq<int>,
                  i: nat, n: nat, more: nat, next: nat, k: nat)
    requires off <= |c0| && i <= k <= |src| && c == Wrote(c0, off, src, i, i) && at == off + i
    requires n <= more <= |part| && next == i + n && k == i + more && part[..more] == src[i..k]
    ensures at <= |c| && Wrote(c, at, part, n, more) == Wrote(c0, off, src, next, k)
  {
    WroteAll(c0, off, src, i);
    SplitAt(src, i, k);
    OverwriteTwice(c0, off, src[..i], part[..more]);
    OverwriteLength(c0, off, src[..k]);
  }

  lemma SplitAt(src: seq<int>, i: nat, k: nat)
    requires i <= k <= |src|
    ensures src[..i] + src[i..k] == src[..k]
  {
  }
}
