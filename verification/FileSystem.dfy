/**
 The routines of kernel/fs.c that change blocks and inodes in place: balloc,
 bfree, bmap, itrunc, readi, writei, iupdate. bread and log_write are one array
 of blocks here: by CachedLog.CacheIsLogCache a process that holds a buffer sees
 the log's cache at that block as long as nobody releases a buffer that it changed
 and did not log. writei does that, after a user copy that failed half way: its
 contract says what the file holds then, and once that buffer is recycled.
 */
module FileSystem {
  import opened FsModel

  const BPB := BSIZE * 8
  const IPB := 16

  // ----- what one iteration of writei's loop does to every byte of every file -----

  /** After the first tot bytes of src have been written at off of file i. */
  ghost predicate KeptAt(s0: State, s: State, i: nat, off: nat, src: seq<int>, tot: nat, j: nat, o: nat)
    requires Shape(s0) && Shape(s) && j < |s0.inodes| == |s.inodes| && o < MAXFILE * BSIZE && tot <= |src|
  {
    if j == i && off <= o < off + tot then
      MapOf(s, j, o / BSIZE) != 0 && ByteAt(s, j, o) == src[o - off]
    else MapOf(s0, j, o / BSIZE) != 0 ==>
      MapOf(s, j, o / BSIZE) != 0 && ByteAt(s, j, o) == ByteAt(s0, j, o)
  }

  ghost predicate Kept(s0: State, s: State, i: nat, off: nat, src: seq<int>, tot: nat) {
    && Shape(s0) && Shape(s) && |s.inodes| == |s0.inodes| && tot <= |src|
    && (forall j :: 0 <= j < |s.inodes| ==> s.inodes[j].size == s0.inodes[j].size)
    && (forall j :: 0 <= j < |s.inodes| && j != i ==> s.inodes[j] == s0.inodes[j])
    && (forall j, o :: 0 <= j < |s.inodes| && 0 <= o < MAXFILE * BSIZE ==> KeptAt(s0, s, i, off, src, tot, j, o))
  }

  lemma KeptRefl(s: State, i: nat, off: nat, src: seq<int>)
    requires Shape(s)
    ensures Kept(s, s, i, off, src, 0)
  {
  }

  /** memmove of m bytes into the middle of a block. */
  function Spliced(block: seq<int>, at: nat, bytes: seq<int>): (r: seq<int>)
    requires at + |bytes| <= |block|
    ensures |r| == |block|
  {
    block[..at] + bytes + block[at + |bytes|..]
  }

  function DataSet(s: State, b: nat, block: seq<int>): (t: State)
    requires b < |s.data|
  {
    s.(data := s.data[b := block])
  }

  /** Block b holds file data: its owner is not an indirect pointer. */
  ghost predicate IsData(s: State, owner: map<nat, Slot>, b: nat) {
    b in owner && b < |s.data| && !owner[b].Indirect?
  }

  /** What a file block holds is not read as block numbers. */
  lemma DataSetPtr(s: State, owner: map<nat, Slot>, b: nat, block: seq<int>, x: Slot)
    requires Owns(s, owner, 0) && IsData(s, owner, b) && |block| == BSIZE && IsSlot(s, x)
    ensures Shape(DataSet(s, b, block)) && Ptr(DataSet(s, b, block), x) == Ptr(s, x)
  {
    if x.Entry? {
      assert SlotAt(s, owner, Indirect(x.i));
    }
  }

  lemma DataSetOwns(s: State, owner: map<nat, Slot>, b: nat, block: seq<int>)
    requires Owns(s, owner, 0) && IsData(s, owner, b) && |block| == BSIZE
    ensures Owns(DataSet(s, b, block), owner, 0)
  {
    var t := DataSet(s, b, block);
    forall x | IsSlot(t, x)
      ensures SlotAt(t, owner, x)
    {
      DataSetPtr(s, owner, b, block, x);
      assert SlotAt(s, owner, x);
    }
    forall c | c in owner
      ensures BlockAt(t, owner, c)
    {
      assert BlockAt(s, owner, c);
      DataSetPtr(s, owner, b, block, owner[c]);
    }
    forall c | 0 <= c < |t.bits|
      ensures BitAt(t, owner, 0, c)
    {
      assert BitAt(s, owner, 0, c);
    }
  }

  lemma MappedIsData(s: State, owner: map<nat, Slot>, i: nat, bn: nat)
    requires Owns(s, owner, 0) && i < |s.inodes| && bn < MAXFILE && MapOf(s, i, bn) != 0
    ensures IsData(s, owner, MapOf(s, i, bn))
  {
    assert SlotAt(s, owner, SlotOf(i, bn)) && BlockAt(s, owner, MapOf(s, i, bn));
  }

  /** Writing block (i, bn) leaves every other mapped byte of every file alone. */
  lemma SpliceOther(s: State, owner: map<nat, Slot>, i: nat, bn: nat, block: seq<int>, j: nat, o: nat)
    requires Owns(s, owner, 0) && i < |s.inodes| && bn < MAXFILE && j < |s.inodes| && o < MAXFILE * BSIZE
    requires 0 != MapOf(s, i, bn) < |s.data| && |block| == BSIZE
    requires MapOf(s, j, o / BSIZE) != 0 && (j != i || o / BSIZE != bn)
    ensures var t := DataSet(s, MapOf(s, i, bn), block);
            Shape(t) && MapOf(t, j, o / BSIZE) == MapOf(s, j, o / BSIZE) && ByteAt(t, j, o) == ByteAt(s, j, o)
  {
    MappedIsData(s, owner, i, bn);
    DataSetPtr(s, owner, MapOf(s, i, bn), block, SlotOf(j, o / BSIZE));
    if MapOf(s, j, o / BSIZE) == MapOf(s, i, bn) {
      MapInjective(s, owner, 0, i, bn, j, o / BSIZE);
    }
  }

  lemma SpliceSame(s: State, owner: map<nat, Slot>, i: nat, bn: nat, at: nat, bytes: seq<int>, o: nat)
    requires Owns(s, owner, 0) && i < |s.inodes| && bn < MAXFILE && o < MAXFILE * BSIZE && o / BSIZE == bn
    requires 0 != MapOf(s, i, bn) < |s.data| && at + |bytes| <= BSIZE
    ensures var b := MapOf(s, i, bn);
            var t := DataSet(s, b, Spliced(s.data[b], at, bytes));
            && Shape(t) && MapOf(t, i, bn) == b
            && ByteAt(t, i, o) == if at <= o % BSIZE < at + |bytes| then bytes[o % BSIZE - at] else ByteAt(s, i, o)
  {
    MappedIsData(s, owner, i, bn);
    DataSetPtr(s, owner, MapOf(s, i, bn), Spliced(s.data[MapOf(s, i, bn)], at, bytes), SlotOf(i, bn));
  }

  /** One iteration: bmap took s to u, then m bytes were copied into the block. */
  lemma WriteStepAt(s0: State, s: State, u: State, owner: map<nat, Slot>, owner': map<nat, Slot>,
                    i: nat, off: nat, src: seq<int>, tot: nat, m: nat, j: nat, o: nat)
    requires Shape(s0) && |s0.inodes| == |s.inodes| && tot + m <= |src| && off + tot + m <= MAXFILE * BSIZE
    requires i < |s.inodes| && j < |s.inodes| && o < MAXFILE * BSIZE && 0 < m && off + tot < MAXFILE * BSIZE
    requires (off + tot) % BSIZE + m <= BSIZE
    requires Owns(s, owner, 0) && Grew(s, u, owner, i, (off + tot) / BSIZE) && Owns(u, owner', 0)
    requires 0 != MapOf(u, i, (off + tot) / BSIZE) < |u.data|
    requires KeptAt(s0, s, i, off, src, tot, j, o)
    ensures var b := MapOf(u, i, (off + tot) / BSIZE);
            var t := DataSet(u, b, Spliced(u.data[b], (off + tot) % BSIZE, src[tot..tot + m]));
            Shape(t) && KeptAt(s0, t, i, off, src, tot + m, j, o)
  {
    var bn, at := (off + tot) / BSIZE, (off + tot) % BSIZE;
    var b := MapOf(u, i, bn);
    var block := Spliced(u.data[b], at, src[tot..tot + m]);
    if MapOf(s, j, o / BSIZE) != 0 {
      GrewBytes(s, u, owner, i, bn, j, o);
    }
    if j == i && o / BSIZE == bn {
      SpliceSame(u, owner', i, bn, at, src[tot..tot + m], o);
      assert off + tot == bn * BSIZE + at && o == bn * BSIZE + o % BSIZE;
    } else if MapOf(u, j, o / BSIZE) != 0 {
      SpliceOther(u, owner', i, bn, block, j, o);
    } else {
      assert Shape(DataSet(u, b, block));
    }
  }

  lemma ChunkKept(s0: State, s: State, u: State, owner: map<nat, Slot>, owner': map<nat, Slot>,
                  i: nat, off: nat, src: seq<int>, tot: nat, m: nat)
    requires Kept(s0, s, i, off, src, tot) && i < |s.inodes|
    requires 0 < m && tot + m <= |src| && off + tot + m <= MAXFILE * BSIZE
    requires (off + tot) % BSIZE + m <= BSIZE
    requires Owns(s, owner, 0) && Grew(s, u, owner, i, (off + tot) / BSIZE) && Owns(u, owner', 0)
    requires 0 != MapOf(u, i, (off + tot) / BSIZE) < |u.data|
    ensures var b := MapOf(u, i, (off + tot) / BSIZE);
            Kept(s0, DataSet(u, b, Spliced(u.data[b], (off + tot) % BSIZE, src[tot..tot + m])), i, off, src, tot + m)
  {
    var b := MapOf(u, i, (off + tot) / BSIZE);
    var t, tot' := DataSet(u, b, Spliced(u.data[b], (off + tot) % BSIZE, src[tot..tot + m])), tot + m;
    forall j, o | 0 <= j < |s.inodes| && 0 <= o < MAXFILE * BSIZE
      ensures Shape(t) && KeptAt(s0, t, i, off, src, tot', j, o)
    {
      assert KeptAt(s0, s, i, off, src, tot, j, o);
      WriteStepAt(s0, s, u, owner, owner', i, off, src, tot, m, j, o);
    }
  }

  lemma KeptGrew(s0: State, s: State, t: State, owner: map<nat, Slot>, i: nat, bn: nat, off: nat, src: seq<int>,
                 tot: nat)
    requires Kept(s0, s, i, off, src, tot) && Owns(s, owner, 0) && Grew(s, t, owner, i, bn)
    ensures Kept(s0, t, i, off, src, tot)
  {
    forall j, o | 0 <= j < |s.inodes| && 0 <= o < MAXFILE * BSIZE
      ensures KeptAt(s0, t, i, off, src, tot, j, o)
    {
      assert KeptAt(s0, s, i, off, src, tot, j, o);
      if MapOf(s, j, o / BSIZE) != 0 {
        GrewBytes(s, t, owner, i, bn, j, o);
      }
    }
  }

  // ----- the whole write, as a sequence operation -----

  function Overwrite(c: seq<int>, off: nat, bytes: seq<int>): (r: seq<int>)
    requires off <= |c|
  {
    c[..off] + bytes + if off + |bytes| <= |c| then c[off + |bytes|..] else []
  }

  function Resized(s: State, i: nat, size: nat): (t: State)
    requires i < |s.inodes|
  {
    s.(inodes := s.inodes[i := s.inodes[i].(size := size)])
  }

  function Max(a: int, b: int): (r: int) { if a < b then b else a }
  function Min(a: int, b: int): (r: int) { if a < b then a else b }

  lemma ResizedOwns(s: State, owner: map<nat, Slot>, i: nat, size: nat)
    requires Owns(s, owner, 0) && i < |s.inodes|
    ensures Owns(Resized(s, i, size), owner, 0)
  {
    var t := Resized(s, i, size);
    forall x | IsSlot(t, x)
      ensures SlotAt(t, owner, x)
    {
      assert SlotAt(s, owner, x);
    }
    forall c | c in owner
      ensures BlockAt(t, owner, c)
    {
      assert BlockAt(s, owner, c);
    }
    forall c | 0 <= c < |t.bits|
      ensures BitAt(t, owner, 0, c)
    {
      assert BitAt(s, owner, 0, c);
    }
  }

  lemma ResizedMap(s: State, i: nat, size: nat, j: nat, bn: nat)
    requires Shape(s) && i < |s.inodes| && j < |s.inodes| && bn < MAXFILE
    ensures Shape(Resized(s, i, size)) && MapOf(Resized(s, i, size), j, bn) == MapOf(s, j, bn)
  {
  }

  /**
   What writei leaves when it reports r bytes and the last, failing copy had
   already moved bytes up to k into the block: they show wherever they are below
   the file's size.
   */
  function Wrote(c: seq<int>, off: nat, src: seq<int>, r: nat, k: nat): (d: seq<int>)
    requires off <= |c| && r <= k <= |src|
  {
    OverwriteLength(c, off, src[..k]);
    Overwrite(c, off, src[..k])[..Max(|c|, off + r)]
  }

  lemma OverwriteLength(c: seq<int>, off: nat, bytes: seq<int>)
    requires off <= |c|
    ensures |Overwrite(c, off, bytes)| == Max(|c|, off + |bytes|)
  {
  }

  lemma OverwriteAt(c: seq<int>, off: nat, bytes: seq<int>, o: nat)
    requires off <= |c| && o < Max(|c|, off + |bytes|)
    ensures |Overwrite(c, off, bytes)| == Max(|c|, off + |bytes|)
    ensures Overwrite(c, off, bytes)[o] == if off <= o < off + |bytes| then bytes[o - off] else c[o]
  {
  }

  lemma WroteAt(c: seq<int>, off: nat, src: seq<int>, r: nat, k: nat, o: nat)
    requires off <= |c| && r <= k <= |src| && o < Max(|c|, off + r)
    ensures |Wrote(c, off, src, r, k)| == Max(|c|, off + r)
    ensures Wrote(c, off, src, r, k)[o] == if off <= o < off + k then src[o - off] else c[o]
  {
    OverwriteAt(c, off, src[..k], o);
  }

  ghost predicate AgreesAt(c: seq<int>, off: nat, src: seq<int>, o: nat)
    requires off <= o < |c| && o - off < |src|
  {
    c[o] == src[o - off]
  }

  /** The bytes of src from r to k that lie within the file are there already. */
  ghost predicate AlreadyThere(c: seq<int>, off: nat, src: seq<int>, r: nat, k: nat)
    requires off <= |c| && r <= k <= |src|
  {
    forall o {:trigger AgreesAt(c, off, src, o)} :: off + r <= o < off + k && o < |c| ==> AgreesAt(c, off, src, o)
  }

  /** What was copied beyond the r bytes reported does not show if and only if it was
      there already, or lies past the end. */
  lemma ReportedExactly(c: seq<int>, off: nat, src: seq<int>, r: nat, k: nat)
    requires off <= |c| && r <= k <= |src|
    ensures Wrote(c, off, src, r, k) == Overwrite(c, off, src[..r]) <==> AlreadyThere(c, off, src, r, k)
  {
    var w, v := Wrote(c, off, src, r, k), Overwrite(c, off, src[..r]);
    OverwriteLength(c, off, src[..r]);
    OverwriteLength(c, off, src[..k]);
    forall o | 0 <= o < Max(|c|, off + r)
      ensures w[o] == v[o] <==> !(off + r <= o < off + k) || c[o] == src[o - off]
    {
      WroteAt(c, off, src, r, k, o);
      OverwriteAt(c, off, src[..r], o);
    }
    forall o | off + r <= o < off + k && o < |c|
      ensures w == v ==> AgreesAt(c, off, src, o)
    {
      assert w[o] == v[o] <==> c[o] == src[o - off];
    }
    if AlreadyThere(c, off, src, r, k) {
      forall o | 0 <= o < |w|
        ensures w[o] == v[o]
      {
        if off + r <= o < off + k {
          assert AgreesAt(c, off, src, o);
        }
      }
    }
  }

  /** After the loop, growing size to what is reported keeps every block below
      size mapped. */
  lemma WrittenFiles(s0: State, owner0: map<nat, Slot>, s: State, i: nat, off: nat, src: seq<int>, r: nat, k: nat,
                     j: nat)
    requires Inv(s0, owner0) && Kept(s0, s, i, off, src, k) && i < |s.inodes| && j < |s.inodes|
    requires off <= s0.inodes[i].size && r <= k && off + k <= MAXFILE * BSIZE
    ensures var t := Resized(s, i, Max(s0.inodes[i].size, off + r));
            Shape(t) && FileAt(t, j)
  {
    var t := Resized(s, i, Max(s0.inodes[i].size, off + r));
    assert FileAt(s0, j) && FileAt(s0, i);
    forall bn | 0 <= bn < MAXFILE && bn * BSIZE < t.inodes[j].size
      ensures MapOf(t, j, bn) != 0
    {
      ResizedMap(s, i, Max(s0.inodes[i].size, off + r), j, bn);
      assert KeptAt(s0, s, i, off, src, k, j, bn * BSIZE);
    }
  }

  lemma WrittenByte(s0: State, owner0: map<nat, Slot>, s: State, i: nat, off: nat, src: seq<int>, r: nat, k: nat,
                    j: nat, o: nat)
    requires Inv(s0, owner0) && Kept(s0, s, i, off, src, k) && i < |s.inodes| && j < |s.inodes|
    requires r <= k && off + k <= MAXFILE * BSIZE && o < MAXFILE * BSIZE
    requires o < s0.inodes[j].size || (j == i && off <= o < off + k)
    ensures var t := Resized(s, i, Max(s0.inodes[i].size, off + r));
            Shape(t) && ByteAt(t, j, o) == if j == i && off <= o < off + k then src[o - off] else ByteAt(s0, j, o)
  {
    assert FileAt(s0, j) && KeptAt(s0, s, i, off, src, k, j, o);
    assert (o / BSIZE) * BSIZE <= o;
    ResizedMap(s, i, Max(s0.inodes[i].size, off + r), j, o / BSIZE);
  }

  lemma ContentAt(s: State, i: nat, o: nat)
    requires Shape(s) && i < |s.inodes| && o < s.inodes[i].size <= MAXFILE * BSIZE
    ensures |Content(s, i)| == s.inodes[i].size && Content(s, i)[o] == ByteAt(s, i, o)
  {
  }

  /** The loop's byte-level account says: overwrite/append on file i ... */
  lemma WrittenContent(s0: State, owner0: map<nat, Slot>, s: State, i: nat, off: nat, src: seq<int>, r: nat, k: nat)
    requires Inv(s0, owner0) && Kept(s0, s, i, off, src, k) && i < |s.inodes|
    requires off <= s0.inodes[i].size <= MAXFILE * BSIZE && r <= k && off + k <= MAXFILE * BSIZE
    ensures var t := Resized(s, i, Max(s0.inodes[i].size, off + r));
            Shape(t) && Content(t, i) == Wrote(Content(s0, i), off, src, r, k)
  {
    var size := Max(s0.inodes[i].size, off + r);
    var t := Resized(s, i, size);
    var c := Content(s0, i);
    var w := Wrote(c, off, src, r, k);
    forall o | 0 <= o < size
      ensures Content(t, i)[o] == w[o]
    {
      WrittenByte(s0, owner0, s, i, off, src, r, k, i, o);
      WroteAt(c, off, src, r, k, o);
      ContentAt(t, i, o);
      if o < s0.inodes[i].size {
        ContentAt(s0, i, o);
      }
    }
    OverwriteLength(c, off, src[..k]);
    assert |Content(t, i)| == |w| == size;
  }

  /** ... and no change to any other file. */
  lemma OtherContent(s0: State, owner0: map<nat, Slot>, s: State, i: nat, off: nat, src: seq<int>, r: nat, k: nat,
                     j: nat)
    requires Inv(s0, owner0) && Kept(s0, s, i, off, src, k) && i < |s.inodes| && j < |s.inodes| && j != i
    requires r <= k && off + k <= MAXFILE * BSIZE && s0.inodes[j].size <= MAXFILE * BSIZE
    ensures var t := Resized(s, i, Max(s0.inodes[i].size, off + r));
            Shape(t) && t.inodes[j].size == s0.inodes[j].size && Content(t, j) == Content(s0, j)
  {
    var t := Resized(s, i, Max(s0.inodes[i].size, off + r));
    forall o | 0 <= o < s0.inodes[j].size
      ensures Content(t, j)[o] == Content(s0, j)[o]
    {
      WrittenByte(s0, owner0, s, i, off, src, r, k, j, o);
      ContentAt(t, j, o);
      ContentAt(s0, j, o);
    }
  }

  ghost predicate SameContent(s: State, t: State, j: nat)
    requires Shape(s) && Shape(t) && j < |s.inodes| && j < |t.inodes|
  {
    Content(t, j) == Content(s, j)
  }

  lemma WriteDone(s0: State, owner0: map<nat, Slot>, s: State, owner: map<nat, Slot>,
                  i: nat, off: nat, src: seq<int>, r: nat, k: nat)
    requires Inv(s0, owner0) && Owns(s, owner, 0) && Kept(s0, s, i, off, src, k) && i < |s.inodes|
    requires off <= s0.inodes[i].size && r <= k && off + k <= MAXFILE * BSIZE
    ensures var t := Resized(s, i, Max(s0.inodes[i].size, off + r));
            && Inv(t, owner) && Content(t, i) == Wrote(Content(s0, i), off, src, r, k)
            && forall j {:trigger SameContent(s0, t, j)} :: 0 <= j < |t.inodes| && j != i ==> SameContent(s0, t, j)
  {
    var size := Max(s0.inodes[i].size, off + r);
    var t := Resized(s, i, size);
    assert FileAt(s0, i);
    ResizedOwns(s, owner, i, size);
    WrittenContent(s0, owner0, s, i, off, src, r, k);
    forall j | 0 <= j < |t.inodes|
      ensures FileAt(t, j)
    {
      WrittenFiles(s0, owner0, s, i, off, src, r, k, j);
    }
    forall j | 0 <= j < |t.inodes| && j != i
      ensures SameContent(s0, t, j)
    {
      assert FileAt(s0, j);
      OtherContent(s0, owner0, s, i, off, src, r, k, j);
    }
  }

  /** The bytes of one block that readi copies are a slice of the file. */
  lemma ChunkIsSlice(s: State, i: nat, cur: nat, bn: nat, at: nat, m: nat, end: nat, block: seq<int>)
    requires Shape(s) && i < |s.inodes| && end == cur + m <= s.inodes[i].size <= MAXFILE * BSIZE && bn < MAXFILE
    requires bn == cur / BSIZE && at == cur % BSIZE && at + m <= BSIZE
    requires MapOf(s, i, bn) < |s.data| && block == s.data[MapOf(s, i, bn)]
    ensures |Content(s, i)| == s.inodes[i].size && block[at..at + m] == Content(s, i)[cur..end]
  {
    var part, slice := block[at..at + m], Content(s, i)[cur..end];
    forall k | 0 <= k < m
      ensures part[k] == slice[k]
    {
      ContentAt(s, i, cur + k);
      assert (cur + k) / BSIZE == bn && (cur + k) % BSIZE == at + k;
    }
  }

  // ----- what an operation logs -----

  /** BBLOCK of some block, for a bitmap that starts at start. */
  ghost predicate IsBitmapBlock(s: State, start: nat, b: nat) {
    exists c :: 0 <= c < |s.bits| && b == c / BPB + start
  }

  ghost predicate IsFileBlock(s: State, i: nat, lo: nat, hi: nat, b: nat)
    requires Shape(s) && i < |s.inodes|
  {
    exists bn :: lo <= bn < hi && bn < MAXFILE && b == MapOf(s, i, bn)
  }

  /** Block b may be logged by bmap calls for the file blocks lo..hi of inode i. */
  ghost predicate MayLog(start: nat, s: State, i: nat, lo: nat, hi: nat, b: nat)
    requires Shape(s) && i < |s.inodes|
  {
    (b != 0 && (b == IndOf(s, i) || IsFileBlock(s, i, lo, hi, b))) || IsBitmapBlock(s, start, b)
  }

  /** What has been logged since log0 belongs to blocks lo..hi of inode i. */
  ghost predicate LogOk(start: nat, s: State, i: nat, lo: nat, hi: nat, log0: set<nat>, log: set<nat>)
    requires Shape(s) && i < |s.inodes|
  {
    forall b {:trigger MayLog(start, s, i, lo, hi, b)} :: b in log ==> b in log0 || MayLog(start, s, i, lo, hi, b)
  }

  ghost predicate MayLogOne(start: nat, s: State, i: nat, bn: nat, b: nat)
    requires Shape(s) && i < |s.inodes|
  {
    MayLog(start, s, i, bn, bn + 1, b)
  }

  ghost predicate LogOne(start: nat, s: State, i: nat, bn: nat, log0: set<nat>, log: set<nat>)
    requires Shape(s) && i < |s.inodes|
  {
    forall b {:trigger MayLogOne(start, s, i, bn, b)} :: b in log ==> b in log0 || MayLogOne(start, s, i, bn, b)
  }

  ghost predicate BlockLogged(data0: seq<seq<int>>, data: seq<seq<int>>, logged: set<nat>, b: nat)
    requires b < |data0| == |data|
  {
    data[b] != data0[b] ==> b in logged
  }

  ghost predicate BitLogged(start: nat, bits0: seq<bool>, bits: seq<bool>, logged: set<nat>, b: nat)
    requires b < |bits0| == |bits|
  {
    bits[b] != bits0[b] ==> b / BPB + start in logged
  }

  /** The bitmap block of every bit that is not as in bits0 has been logged. */
  ghost predicate BitsLogged(start: nat, bits0: seq<bool>, bits: seq<bool>, logged: set<nat>) {
    && |bits| == |bits0|
    && forall b {:trigger BitLogged(start, bits0, bits, logged, b)} ::
            0 <= b < |bits| ==> BitLogged(start, bits0, bits, logged, b)
  }

  /** And so has every block that is not as in s0. */
  ghost predicate Logs(start: nat, s0: State, s: State, logged: set<nat>) {
    && |s.data| == |s0.data| && BitsLogged(start, s0.bits, s.bits, logged)
    && forall b {:trigger BlockLogged(s0.data, s.data, logged, b)} ::
            0 <= b < |s.data| ==> BlockLogged(s0.data, s.data, logged, b)
  }

  lemma LogsRefl(start: nat, s: State, logged: set<nat>)
    ensures Logs(start, s, s, logged)
  {
  }

  lemma LogsTrans(start: nat, s0: State, s: State, t: State, logged: set<nat>, logged': set<nat>)
    requires Logs(start, s0, s, logged) && Logs(start, s, t, logged') && logged <= logged'
    ensures Logs(start, s0, t, logged')
  {
    forall b | 0 <= b < |t.data|
      ensures BlockLogged(s0.data, t.data, logged', b)
    {
      assert BlockLogged(s0.data, s.data, logged, b) && BlockLogged(s.data, t.data, logged', b);
    }
    forall b | 0 <= b < |t.bits|
      ensures BitLogged(start, s0.bits, t.bits, logged', b)
    {
      assert BitLogged(start, s0.bits, s.bits, logged, b) && BitLogged(start, s.bits, t.bits, logged', b);
    }
  }

  lemma BitsLoggedMore(start: nat, bits0: seq<bool>, bits: seq<bool>, logged: set<nat>, logged': set<nat>)
    requires BitsLogged(start, bits0, bits, logged) && logged <= logged'
    ensures BitsLogged(start, bits0, bits, logged')
  {
    forall b | 0 <= b < |bits|
      ensures BitLogged(start, bits0, bits, logged', b)
    {
      assert BitLogged(start, bits0, bits, logged, b);
    }
  }

  lemma LogsSame(start: nat, s0: State, s: State, t: State, logged: set<nat>, logged': set<nat>)
    requires Logs(start, s0, s, logged) && t.data == s.data && t.bits == s.bits && logged <= logged'
    ensures Logs(start, s0, t, logged')
  {
    LogsRefl(start, s, logged');
    assert Logs(start, s, t, logged') by {
      forall b | 0 <= b < |t.data|
        ensures BlockLogged(s.data, t.data, logged', b)
      {
      }
    }
    LogsTrans(start, s0, s, t, logged, logged');
  }

  /** c is the bitmap block of a bit that has been cleared. */
  ghost predicate FreedIn(start: nat, bits0: seq<bool>, bits: seq<bool>, c: nat) {
    |bits| == |bits0| && exists b :: 0 <= b < |bits| && bits0[b] && !bits[b] && c == b / BPB + start
  }

  /** Bits were cleared, and exactly their bitmap blocks logged. */
  ghost predicate Freeing(start: nat, bits0: seq<bool>, logged0: set<nat>, bits: seq<bool>, logged: set<nat>) {
    && BitsLogged(start, bits0, bits, logged) && logged0 <= logged
    && (forall b :: 0 <= b < |bits| && bits[b] ==> bits0[b])
    && forall c {:trigger FreedIn(start, bits0, bits, c)} ::
            c in logged && c !in logged0 ==> FreedIn(start, bits0, bits, c)
  }

  lemma FreeingNone(start: nat, bits: seq<bool>, logged: set<nat>)
    ensures Freeing(start, bits, logged, bits, logged)
  {
  }

  lemma FreeingMore(start: nat, bits0: seq<bool>, logged0: set<nat>, bits: seq<bool>, logged: set<nat>, b: nat)
    requires Freeing(start, bits0, logged0, bits, logged) && b < |bits| && bits[b]
    ensures Freeing(start, bits0, logged0, bits[b := false], logged + {b / BPB + start})
  {
    FreeingNone(start, bits, logged);
    var bits', logged' := bits[b := false], logged + {b / BPB + start};
    forall x | 0 <= x < |bits|
      ensures BitLogged(start, bits, bits', logged', x)
    {
    }
    assert bits[b] && !bits'[b] && FreedIn(start, bits, bits', b / BPB + start);
    FreeingTwice(start, bits0, logged0, bits, logged, bits', logged');
  }

  lemma FreeingTwice(start: nat, bits0: seq<bool>, logged0: set<nat>, bits: seq<bool>, logged: set<nat>,
                     bits': seq<bool>, logged': set<nat>)
    requires Freeing(start, bits0, logged0, bits, logged) && Freeing(start, bits, logged, bits', logged')
    ensures Freeing(start, bits0, logged0, bits', logged')
  {
    forall b | 0 <= b < |bits'|
      ensures BitLogged(start, bits0, bits', logged', b)
    {
      assert BitLogged(start, bits0, bits, logged, b) && BitLogged(start, bits, bits', logged', b);
    }
    forall c | c in logged' && c !in logged0
      ensures FreedIn(start, bits0, bits', c)
    {
      if c in logged {
        assert FreedIn(start, bits0, bits, c);
        var b :| 0 <= b < |bits| && bits0[b] && !bits[b] && c == b / BPB + start;
        assert !bits'[b];
      } else {
        assert FreedIn(start, bits, bits', c);
        var b :| 0 <= b < |bits'| && bits[b] && !bits'[b] && c == b / BPB + start;
        assert bits0[b];
      }
    }
  }

  predicate AllSet(bits: seq<bool>) { forall b :: 0 <= b < |bits| ==> bits[b] }

  // ----- how many blocks are left -----

  function FreeCount(bits: seq<bool>): (n: nat) {
    if bits == [] then 0 else FreeCount(bits[..|bits| - 1]) + if bits[|bits| - 1] then 0 else 1
  }

  lemma {:induction false} OneFewer(bits: seq<bool>, r: nat)
    requires r < |bits| && !bits[r]
    ensures FreeCount(bits[r := true]) == FreeCount(bits) - 1
  {
    var n := |bits| - 1;
    if r < n {
      OneFewer(bits[..n], r);
      assert bits[r := true][..n] == bits[..n][r := true];
    } else {
      assert bits[r := true][..n] == bits[..n];
    }
  }

  lemma {:induction false} NoneLeft(bits: seq<bool>)
    requires AllSet(bits)
    ensures FreeCount(bits) == 0
  {
    if bits != [] {
      NoneLeft(bits[..|bits| - 1]);
    }
  }

  /** How many blocks bmap(i, bn) has added: file block bn, and the indirect block. */
  ghost function Added(s: State, t: State, i: nat, bn: nat): (n: nat)
    requires Shape(s) && Shape(t) && i < |s.inodes| && i < |t.inodes| && bn < MAXFILE
  {
    (if MapOf(s, i, bn) == 0 && MapOf(t, i, bn) != 0 then 1 else 0) +
    if IndOf(s, i) == 0 && IndOf(t, i) != 0 then 1 else 0
  }

  /** How many of the file blocks lo..hi of i are missing. */
  function Missing(s: State, i: nat, lo: nat, hi: nat): (n: nat)
    requires Shape(s) && i < |s.inodes| && hi <= MAXFILE
    ensures n <= if lo < hi then hi - lo else 0
    decreases hi
  {
    if lo >= hi then 0 else Missing(s, i, lo, hi - 1) + if MapOf(s, i, hi - 1) == 0 then 1 else 0
  }

  /** How many blocks it takes to have them all: those, and the indirect block. */
  function Need(s: State, i: nat, lo: nat, hi: nat): (n: nat)
    requires Shape(s) && i < |s.inodes| && hi <= MAXFILE
    ensures lo <= hi ==> n <= hi - lo + 1
  {
    Missing(s, i, lo, hi) + if lo < hi && NDIRECT < hi && IndOf(s, i) == 0 then 1 else 0
  }

  /** There are as many free blocks. */
  ghost predicate Room(s: State, i: nat, lo: nat, hi: nat) {
    Shape(s) && i < |s.inodes| && hi <= MAXFILE && FreeCount(s.bits) >= Need(s, i, lo, hi)
  }

  /** Every block used from s0 to s was one of those. */
  ghost predicate Balanced(s0: State, s: State, i: nat, lo: nat, hi: nat) {
    && Shape(s0) && Shape(s) && i < |s0.inodes| && i < |s.inodes| && hi <= MAXFILE
    && FreeCount(s0.bits) + Need(s, i, lo, hi) == FreeCount(s.bits) + Need(s0, i, lo, hi)
  }

  /** The same for every range of file blocks around lo..hi. */
  ghost predicate BalancedAround(s0: State, s: State, i: nat, lo: nat, hi: nat) {
    forall a: nat, b: nat {:trigger Balanced(s0, s, i, a, b)} ::
      a <= lo && hi <= b <= MAXFILE ==> Balanced(s0, s, i, a, b)
  }

  ghost predicate SameLackAt(s: State, t: State, i: nat, bn: nat)
    requires Shape(s) && Shape(t) && i < |s.inodes| && i < |t.inodes| && bn < MAXFILE
  {
    MapOf(s, i, bn) == 0 <==> MapOf(t, i, bn) == 0
  }

  lemma {:induction false} MissingSame(s: State, t: State, i: nat, lo: nat, hi: nat)
    requires Shape(s) && Shape(t) && i < |s.inodes| && i < |t.inodes| && hi <= MAXFILE
    requires forall bn {:trigger SameLackAt(s, t, i, bn)} :: lo <= bn < hi ==> SameLackAt(s, t, i, bn)
    ensures Missing(t, i, lo, hi) == Missing(s, i, lo, hi)
    decreases hi
  {
    if lo < hi {
      MissingSame(s, t, i, lo, hi - 1);
      assert SameLackAt(s, t, i, hi - 1);
    }
  }

  lemma {:induction false} MissingOne(s: State, t: State, i: nat, lo: nat, hi: nat, bn: nat)
    requires Shape(s) && Shape(t) && i < |s.inodes| && i < |t.inodes| && lo <= bn < hi <= MAXFILE
    requires forall bm {:trigger SameLackAt(s, t, i, bm)} :: lo <= bm < hi && bm != bn ==> SameLackAt(s, t, i, bm)
    requires MapOf(s, i, bn) != 0 ==> MapOf(t, i, bn) != 0
    ensures Missing(s, i, lo, hi) ==
            Missing(t, i, lo, hi) + if MapOf(s, i, bn) == 0 && MapOf(t, i, bn) != 0 then 1 else 0
    decreases hi
  {
    if bn == hi - 1 {
      MissingSame(s, t, i, lo, hi - 1);
    } else {
      MissingOne(s, t, i, lo, hi - 1, bn);
      assert SameLackAt(s, t, i, hi - 1);
    }
  }

  lemma {:induction false} MissingSome(s: State, i: nat, lo: nat, hi: nat, bn: nat)
    requires Shape(s) && i < |s.inodes| && lo <= bn < hi <= MAXFILE && MapOf(s, i, bn) == 0
    ensures Missing(s, i, lo, hi) > 0
    decreases hi
  {
    if bn < hi - 1 {
      MissingSome(s, i, lo, hi - 1, bn);
    }
  }

  lemma {:induction false} MissingNone(s: State, i: nat, lo: nat, hi: nat)
    requires Shape(s) && i < |s.inodes| && hi <= MAXFILE
    requires forall bn :: lo <= bn < hi ==> MapOf(s, i, bn) != 0
    ensures Missing(s, i, lo, hi) == 0
    decreases hi
  {
    if lo < hi {
      MissingNone(s, i, lo, hi - 1);
    }
  }

  // ----- bmap -----

  /** The file system, who owns each block, and what has been passed to log_write. */
  datatype Disk = Disk(s: State, owner: map<nat, Slot>, logged: set<nat>)

  /** What bmap(i, bn) has done when it returns addr. */
  ghost predicate Bmapped(start: nat, d: Disk, e: Disk, i: nat, bn: nat, addr: nat) {
    && Owns(e.s, e.owner, 0) && Grew(d.s, e.s, d.owner, i, bn) && |e.s.bits| == |d.s.bits|
    && addr == MapOf(e.s, i, bn) && (addr == 0 ==> AllSet(e.s.bits))
    && (MapOf(d.s, i, bn) != 0 ==> e == d)
    && (IndOf(d.s, i) != 0 || bn < NDIRECT ==> IndOf(e.s, i) == IndOf(d.s, i))
    && FreeCount(d.s.bits) == FreeCount(e.s.bits) + Added(d.s, e.s, i, bn)
    && LogOne(start, e.s, i, bn, d.logged, e.logged)
    && d.logged <= e.logged && Logs(start, d.s, e.s, e.logged)
  }

  /** balloc gave addr, and it has been stored in slot x. */
  ghost function Linked(start: nat, d: Disk, x: Slot, addr: nat): (e: Disk)
    requires Shape(d.s) && IsSlot(d.s, x) && addr < |d.s.bits|
    requires x.Entry? ==> IndOf(d.s, x.i) != addr && 0 < IndOf(d.s, x.i) < |d.s.data|
  {
    Disk(Stored(Allocated(d.s, addr), x, addr), d.owner[addr := x],
         d.logged + {addr / BPB + start, addr} + if x.Entry? then {IndOf(d.s, x.i)} else {})
  }

  /** Slot x is empty and may be given a block on behalf of file block bn. */
  ghost predicate Linkable(d: Disk, x: Slot, bn: nat) {
    && Owns(d.s, d.owner, 0) && IsSlot(d.s, x) && Ptr(d.s, x) == 0 && bn < MAXFILE
    && (x.Entry? ==> 0 < IndOf(d.s, x.i) < |d.s.data|)
    && (x == Indirect(x.i) || x == SlotOf(x.i, bn))
  }

  lemma IndirectIsSet(d: Disk, x: Slot, bn: nat, addr: nat)
    requires Linkable(d, x, bn) && addr < |d.s.bits| && !d.s.bits[addr] && x.Entry?
    ensures IndOf(d.s, x.i) != addr
  {
    assert SlotAt(d.s, d.owner, Indirect(x.i)) && BitAt(d.s, d.owner, 0, addr);
  }

  lemma LinkedGrew(start: nat, d: Disk, x: Slot, bn: nat, addr: nat)
    requires Linkable(d, x, bn) && 0 < addr < |d.s.bits| && !d.s.bits[addr]
    requires x.Entry? ==> IndOf(d.s, x.i) != addr
    ensures var e := Linked(start, d, x, addr);
            && Owns(e.s, e.owner, 0) && Grew(d.s, e.s, d.owner, x.i, bn) && |e.s.bits| == |d.s.bits|
            && Ptr(e.s, x) == addr && (!x.Indirect? ==> IndOf(e.s, x.i) == IndOf(d.s, x.i))
            && FreeCount(e.s.bits) == FreeCount(d.s.bits) - 1
            && forall b :: b in d.owner ==> b in e.owner && e.owner[b] == d.owner[b]
  {
    AllocGrew(d.s, d.owner, x, addr, bn);
    OneFewer(d.s.bits, addr);
    AllocatedOwns(d.s, d.owner, addr);
    AllocatedPtr(d.s, d.owner, addr, x);
    PtrStored(Allocated(d.s, addr), d.owner, x, addr, x);
    assert BitAt(d.s, d.owner, 0, addr);
  }

  lemma LinkedLogs(start: nat, d: Disk, x: Slot, bn: nat, addr: nat)
    requires Linkable(d, x, bn) && 0 < addr < |d.s.bits| && !d.s.bits[addr]
    requires x.Entry? ==> IndOf(d.s, x.i) != addr
    ensures var e := Linked(start, d, x, addr);
            Shape(e.s) && |e.s.inodes| == |d.s.inodes| && LogOne(start, e.s, x.i, bn, d.logged, e.logged)
  {
    LinkedGrew(start, d, x, bn, addr);
    var e := Linked(start, d, x, addr);
    forall b | b in e.logged && b !in d.logged
      ensures MayLogOne(start, e.s, x.i, bn, b)
    {
      assert b == addr / BPB + start ==> IsBitmapBlock(e.s, start, b);
      if b == addr && !x.Indirect? {
        assert MapOf(e.s, x.i, bn) == b;
        assert IsFileBlock(e.s, x.i, bn, bn + 1, b);
      }
    }
  }

  lemma LinkedCovers(start: nat, d: Disk, x: Slot, bn: nat, addr: nat)
    requires Linkable(d, x, bn) && 0 < addr < |d.s.bits| && !d.s.bits[addr]
    requires x.Entry? ==> IndOf(d.s, x.i) != addr
    ensures var e := Linked(start, d, x, addr); d.logged <= e.logged && Logs(start, d.s, e.s, e.logged)
  {
    var e := Linked(start, d, x, addr);
    forall b | 0 <= b < |e.s.data|
      ensures BlockLogged(d.s.data, e.s.data, e.logged, b)
    {
    }
    forall b | 0 <= b < |e.s.bits|
      ensures BitLogged(start, d.s.bits, e.s.bits, e.logged, b)
    {
    }
  }

  /** A file block that was missing has been given one. */
  lemma LinkedIsMapped(start: nat, d: Disk, x: Slot, bn: nat, addr: nat)
    requires Linkable(d, x, bn) && 0 < addr < |d.s.bits| && !d.s.bits[addr] && !x.Indirect?
    requires x.Entry? ==> IndOf(d.s, x.i) != addr
    ensures Bmapped(start, d, Linked(start, d, x, addr), x.i, bn, addr)
  {
    LinkedGrew(start, d, x, bn, addr);
    LinkedLogs(start, d, x, bn, addr);
    LinkedCovers(start, d, x, bn, addr);
  }

  lemma BmappedSame(start: nat, d: Disk, i: nat, bn: nat)
    requires Owns(d.s, d.owner, 0) && i < |d.s.inodes| && bn < MAXFILE
    requires MapOf(d.s, i, bn) == 0 ==> AllSet(d.s.bits)
    ensures Bmapped(start, d, d, i, bn, MapOf(d.s, i, bn))
  {
    GrewRefl(d.s, d.owner, i, bn);
    LogsRefl(start, d.s, d.logged);
  }

  /** The indirect block was missing: bmap allocates it and goes on. */
  lemma BmappedAfter(start: nat, d: Disk, e: Disk, f: Disk, i: nat, bn: nat, b: nat, addr: nat)
    requires Linkable(d, Indirect(i), bn) && NDIRECT <= bn && 0 < b < |d.s.bits| && !d.s.bits[b]
    requires e == Linked(start, d, Indirect(i), b) && Bmapped(start, e, f, i, bn, addr)
    ensures Bmapped(start, d, f, i, bn, addr)
  {
    LinkedGrew(start, d, Indirect(i), bn, b);
    assert MapOf(e.s, i, bn) == 0 by {
      AllocatedOwns(d.s, d.owner, b);
      AllocatedPtr(d.s, d.owner, b, SlotOf(i, bn));
      PtrStored(Allocated(d.s, b), d.owner, Indirect(i), b, SlotOf(i, bn));
    }
    GrewTwice(d.s, e.s, f.s, d.owner, e.owner, i, bn);
    LinkedCovers(start, d, Indirect(i), bn, b);
    LogsTrans(start, d.s, e.s, f.s, e.logged, f.logged);
    forall c | c in f.logged && c !in d.logged
      ensures MayLogOne(start, f.s, i, bn, c)
    {
      assert c !in e.logged ==> MayLogOne(start, f.s, i, bn, c);
      assert c == b / BPB + start ==> IsBitmapBlock(f.s, start, c);
    }
  }

  // ----- writei -----

  /** writei's loop on the file blocks lo..hi after k bytes: what is written, owned
      and logged. */
  ghost predicate Writing(start: nat, d0: Disk, d: Disk, i: nat, off: nat, src: seq<int>, lo: nat, hi: nat, k: nat) {
    && Owns(d.s, d.owner, 0) && Kept(d0.s, d.s, i, off, src, k) && i < |d.s.inodes| && |d.s.bits| == |d0.s.bits|
    && LogOk(start, d.s, i, lo, hi, d0.logged, d.logged)
  }

  /** Block bn of file i is missing and no block is free. */
  ghost predicate OutOfSpace(s: State, i: nat, bn: nat) {
    Shape(s) && i < |s.inodes| && bn < MAXFILE && AllSet(s.bits) && MapOf(s, i, bn) == 0
  }

  /** Why writei stops after tot bytes, with bytes up to k copied: no block for the
      next one, or the source ends at readable, within the next block. */
  ghost predicate Stopped(s: State, i: nat, off: nat, n: nat, readable: nat, tot: nat, k: nat) {
    if k == tot && OutOfSpace(s, i, (off + tot) / BSIZE) then true
    else k == readable && CutShort(off, n, readable, tot)
  }

  /** The source ends inside the block at off + tot. */
  predicate CutShort(off: nat, n: nat, readable: nat, tot: nat) {
    tot <= readable < n && (off + tot) % BSIZE + (readable - tot) < BSIZE
  }

  /** writei counts whole blocks, but for the first and the last. */
  predicate AtEdge(off: nat, n: nat, tot: nat) { tot == 0 || tot == n || (off + tot) % BSIZE == 0 }

  /** The count that fits a source of which readable bytes can be read: all n, or up
      to the last block edge below. */
  function Edge(off: nat, n: nat, readable: nat): (r: nat)
    ensures r <= n && r <= readable
  {
    var e := (off + readable) / BSIZE * BSIZE;
    if readable >= n then n else if e <= off then 0 else e - off
  }

  lemma CutAtEdge(off: nat, n: nat, readable: nat, r: nat)
    requires CutShort(off, n, readable, r) && AtEdge(off, n, r)
    ensures r == Edge(off, n, readable)
  {
    var q, at := (off + r) / BSIZE, (off + r) % BSIZE;
    assert off + r == q * BSIZE + at;
    assert off + readable == q * BSIZE + (at + (readable - r));
    assert (off + readable) / BSIZE == q;
  }

  lemma StopsAtEdge(s: State, i: nat, off: nat, n: nat, readable: nat, r: nat, k: nat)
    requires r <= n && r <= k <= n && r <= readable && AtEdge(off, n, r)
    requires r < n ==> Stopped(s, i, off, n, readable, r, k)
    ensures (r == Edge(off, n, readable) && k == Min(readable, n)) || (r < n && OutOfSpace(s, i, (off + r) / BSIZE))
  {
    if r < n && CutShort(off, n, readable, r) {
      CutAtEdge(off, n, readable, r);
    }
  }

  /** The first file block past a write of n bytes at off. */
  function EndBlock(off: nat, n: nat): (hi: nat) { (off + n + BSIZE - 1) / BSIZE }

  lemma MayLogGrows(start: nat, d: Disk, e: Disk, i: nat, bn: nat, lo: nat, hi: nat, b: nat, addr: nat)
    requires Bmapped(start, d, e, i, bn, addr) && MayLog(start, d.s, i, lo, hi, b)
    ensures MayLog(start, e.s, i, lo, hi, b)
  {
    if b != 0 && IsFileBlock(d.s, i, lo, hi, b) {
      var bm :| lo <= bm < hi && bm < MAXFILE && b == MapOf(d.s, i, bm);
      assert SameMapAt(d.s, e.s, i, bm);
      assert b == MapOf(e.s, i, bm);
    }
  }

  lemma LogGrows(start: nat, d: Disk, e: Disk, i: nat, bn: nat, lo: nat, hi: nat, log0: set<nat>, addr: nat)
    requires Bmapped(start, d, e, i, bn, addr) && lo <= bn < hi && LogOk(start, d.s, i, lo, hi, log0, d.logged)
    ensures LogOk(start, e.s, i, lo, hi, log0, e.logged)
  {
    forall b | b in e.logged && b !in log0
      ensures MayLog(start, e.s, i, lo, hi, b)
    {
      if b in d.logged {
        assert MayLog(start, d.s, i, lo, hi, b);
        MayLogGrows(start, d, e, i, bn, lo, hi, b, addr);
      } else {
        assert MayLogOne(start, e.s, i, bn, b);
      }
    }
  }

  /** writei's bmap. */
  lemma WritingMapped(start: nat, d0: Disk, d: Disk, e: Disk, i: nat, off: nat, src: seq<int>, lo: nat, hi: nat, k: nat,
                      bn: nat, addr: nat)
    requires Writing(start, d0, d, i, off, src, lo, hi, k) && Bmapped(start, d, e, i, bn, addr) && lo <= bn < hi
    ensures Writing(start, d0, e, i, off, src, lo, hi, k)
  {
    KeptGrew(d0.s, d.s, e.s, d.owner, i, bn, off, src, k);
    LogGrows(start, d, e, i, bn, lo, hi, d0.logged, addr);
  }

  lemma BalancedMapped(start: nat, d0: Disk, d: Disk, e: Disk, i: nat, lo: nat, hi: nat, bn: nat, addr: nat)
    requires Balanced(d0.s, d.s, i, lo, hi) && Bmapped(start, d, e, i, bn, addr) && lo <= bn < hi
    ensures Balanced(d0.s, e.s, i, lo, hi) && (addr == 0 ==> !Room(d0.s, i, lo, hi))
  {
    forall bm | lo <= bm < hi && bm != bn
      ensures SameLackAt(d.s, e.s, i, bm)
    {
      assert SameMapAt(d.s, e.s, i, bm);
    }
    MissingOne(d.s, e.s, i, lo, hi, bn);
    if addr == 0 {
      NoneLeft(e.s.bits);
      MissingSome(e.s, i, lo, hi, bn);
    }
  }

  /** Between two iterations, when all that was copied has been logged. */
  ghost predicate Round(start: nat, d0: Disk, d: Disk, i: nat, off: nat, src: seq<int>, lo: nat, hi: nat, k: nat) {
    && Writing(start, d0, d, i, off, src, lo, hi, k) && BalancedAround(d0.s, d.s, i, lo, hi) && hi <= MAXFILE
    && d0.logged <= d.logged && Logs(start, d0.s, d.s, d.logged)
  }

  lemma RoundFirst(start: nat, d0: Disk, i: nat, off: nat, src: seq<int>, lo: nat, hi: nat)
    requires Owns(d0.s, d0.owner, 0) && i < |d0.s.inodes| && hi <= MAXFILE
    ensures Round(start, d0, d0, i, off, src, lo, hi, 0)
  {
    KeptRefl(d0.s, i, off, src);
    LogsRefl(start, d0.s, d0.logged);
  }

  lemma RoundMapped(start: nat, d0: Disk, d: Disk, e: Disk, i: nat, off: nat, src: seq<int>, lo: nat, hi: nat, k: nat,
                    bn: nat, addr: nat)
    requires Round(start, d0, d, i, off, src, lo, hi, k) && Bmapped(start, d, e, i, bn, addr) && lo <= bn < hi
    ensures Round(start, d0, e, i, off, src, lo, hi, k) && (addr == 0 ==> !Room(d0.s, i, lo, hi))
  {
    WritingMapped(start, d0, d, e, i, off, src, lo, hi, k, bn, addr);
    assert Balanced(d0.s, d.s, i, lo, hi);
    BalancedMapped(start, d0, d, e, i, lo, hi, bn, addr);
    forall a: nat, b: nat | a <= lo && hi <= b <= MAXFILE
      ensures Balanced(d0.s, e.s, i, a, b)
    {
      assert Balanced(d0.s, d.s, i, a, b);
      BalancedMapped(start, d0, d, e, i, a, b, bn, addr);
    }
    LogsTrans(start, d0.s, d.s, e.s, d.logged, e.logged);
  }

  lemma NextEdge(off: nat, n: nat, tot: nat, at: nat, m: nat, next: nat)
    requires tot < n && at == (off + tot) % BSIZE && next == tot + m
    requires m == if n - tot < BSIZE - at then n - tot else BSIZE - at
    ensures AtEdge(off, n, next) && 0 < m && next <= n && at + m <= BSIZE
  {
    var q := (off + tot) / BSIZE;
    assert off + tot == q * BSIZE + at;
    assert m == BSIZE - at ==> off + next == (q + 1) * BSIZE;
  }

  lemma StillStopped(s: State, t: State, i: nat, off: nat, n: nat, readable: nat, tot: nat, k: nat)
    requires Shape(s) && i < |s.inodes| && |s.inodes| == |t.inodes| && t == Resized(s, i, t.inodes[i].size)
    requires tot < n ==> Stopped(s, i, off, n, readable, tot, k)
    ensures tot < n ==> Stopped(t, i, off, n, readable, tot, k)
  {
    var bn := (off + tot) / BSIZE;
    if bn < MAXFILE {
      ResizedMap(s, i, t.inodes[i].size, i, bn);
    }
  }

  /** The same file system with other block contents: what is left when the buffer
      of a block that was changed and not logged has been recycled. */
  ghost function WithBlocks(s: State, kept: seq<seq<int>>): (t: State) { s.(data := kept) }

  /** kept differs from the blocks of s at most in file block bn of i. */
  ghost predicate OnlyBlock(s: State, kept: seq<seq<int>>, i: nat, bn: nat) {
    && Shape(s) && i < |s.inodes| && |kept| == |s.data|
    && forall b :: 0 <= b < |kept| && kept[b] != s.data[b] ==> bn < MAXFILE && b == MapOf(s, i, bn) != 0
  }

  /** What writei promises of file i, whose contents were c: now, and without what was
      not logged. */
  ghost predicate WroteTo(c: seq<int>, s: State, owner: map<nat, Slot>, i: nat, off: nat, src: seq<int>,
                          r: nat, k: nat, kept: seq<seq<int>>)
  {
    && Shape(s) && i < |s.inodes| && r <= k <= |src| && off + k <= MAXFILE * BSIZE && off <= |c|
    && Content(s, i) == Wrote(c, off, src, r, k)
    && Inv(WithBlocks(s, kept), owner) && Content(WithBlocks(s, kept), i) == Overwrite(c, off, src[..r])
    && OnlyBlock(s, kept, i, (off + r) / BSIZE)
  }

  lemma WroteAll(c: seq<int>, off: nat, src: seq<int>, r: nat)
    requires off <= |c| && r <= |src|
    ensures Wrote(c, off, src, r, r) == Overwrite(c, off, src[..r])
    ensures |Wrote(c, off, src, r, r)| == Max(|c|, off + r)
  {
    OverwriteLength(c, off, src[..r]);
  }

  lemma WriteKept(start: nat, d0: Disk, d: Disk, i: nat, off: nat, src: seq<int>, lo: nat, hi: nat, tot: nat, k: nat,
                  kept: seq<seq<int>>, t: State)
    requires Writing(start, d0, d, i, off, src, lo, hi, k) && Inv(d0.s, d0.owner) && tot <= k
    requires Writing(start, d0, d.(s := WithBlocks(d.s, kept)), i, off, src, lo, hi, tot)
    requires OnlyBlock(d.s, kept, i, (off + tot) / BSIZE)
    requires off <= d0.s.inodes[i].size && off + k <= MAXFILE * BSIZE
    requires t == Resized(d.s, i, Max(d0.s.inodes[i].size, off + tot))
    requires Shape(t) && Content(t, i) == Wrote(Content(d0.s, i), off, src, tot, k)
    ensures WroteTo(Content(d0.s, i), t, d.owner, i, off, src, tot, k, kept)
  {
    var u := WithBlocks(d.s, kept);
    WriteDone(d0.s, d0.owner, u, d.owner, i, off, src, tot, tot);
    WroteAll(Content(d0.s, i), off, src, tot);
    assert WithBlocks(t, kept) == Resized(u, i, Max(d0.s.inodes[i].size, off + tot));
    var bn := (off + tot) / BSIZE;
    if bn < MAXFILE {
      ResizedMap(d.s, i, Max(d0.s.inodes[i].size, off + tot), i, bn);
    }
  }

  /** Copying into a file block changes no map, and no count. */
  lemma CopiedSame(e: Disk, i: nat, bn: nat, addr: nat, block: seq<int>, log: bool)
    requires Owns(e.s, e.owner, 0) && i < |e.s.inodes| && bn < MAXFILE && addr == MapOf(e.s, i, bn) != 0
    requires |block| == BSIZE && IsData(e.s, e.owner, addr)
    ensures var f := Copied(e, addr, block, log);
            && Shape(f.s) && OnlyBlock(f.s, e.s.data, i, bn) && WithBlocks(f.s, e.s.data) == e.s
            && f.s.bits == e.s.bits && IndOf(f.s, i) == IndOf(e.s, i) && MapOf(f.s, i, bn) == addr
  {
    DataSetPtr(e.s, e.owner, addr, block, SlotOf(i, bn));
  }

  /** Bytes copied into block b, which is then logged or not. */
  ghost function Copied(d: Disk, b: nat, block: seq<int>, log: bool): (e: Disk)
    requires b < |d.s.data|
  {
    Disk(DataSet(d.s, b, block), d.owner, if log then d.logged + {b} else d.logged)
  }

  lemma MayLogData(start: nat, s: State, owner: map<nat, Slot>, i: nat, lo: nat, hi: nat, c: nat, block: seq<int>,
                   b: nat)
    requires Owns(s, owner, 0) && IsData(s, owner, c)
    requires |block| == BSIZE && i < |s.inodes| && MayLog(start, s, i, lo, hi, b)
    ensures Shape(DataSet(s, c, block)) && MayLog(start, DataSet(s, c, block), i, lo, hi, b)
  {
    if b != 0 && IsFileBlock(s, i, lo, hi, b) {
      var bm :| lo <= bm < hi && bm < MAXFILE && b == MapOf(s, i, bm);
      DataSetPtr(s, owner, c, block, SlotOf(i, bm));
      assert MapOf(DataSet(s, c, block), i, bm) == b;
    }
  }

  lemma LogData(start: nat, d: Disk, i: nat, lo: nat, hi: nat, bn: nat, c: nat, block: seq<int>, log: bool,
                log0: set<nat>)
    requires Owns(d.s, d.owner, 0) && i < |d.s.inodes| && |block| == BSIZE && bn < MAXFILE && lo <= bn < hi
    requires c == MapOf(d.s, i, bn) != 0 && IsData(d.s, d.owner, c) && LogOk(start, d.s, i, lo, hi, log0, d.logged)
    ensures var e := Copied(d, c, block, log);
            Shape(e.s) && LogOk(start, e.s, i, lo, hi, log0, e.logged)
  {
    var e := Copied(d, c, block, log);
    assert IsFileBlock(d.s, i, lo, hi, c);
    assert MayLog(start, d.s, i, lo, hi, c);
    forall b | b in e.logged && b !in log0
      ensures MayLog(start, e.s, i, lo, hi, b)
    {
      assert MayLog(start, d.s, i, lo, hi, b);
      MayLogData(start, d.s, d.owner, i, lo, hi, c, block, b);
    }
  }

  /** The copy that bmap prepared: bytes tot..k of src go into the block. */
  lemma WritingCopied(start: nat, d0: Disk, d: Disk, e: Disk, i: nat, off: nat, src: seq<int>, lo: nat, hi: nat,
                      tot: nat, k: nat, bn: nat, addr: nat, log: bool)
    requires Writing(start, d0, d, i, off, src, lo, hi, tot) && Bmapped(start, d, e, i, bn, addr) && addr != 0
    requires Writing(start, d0, e, i, off, src, lo, hi, tot) && bn == (off + tot) / BSIZE && lo <= bn < hi
    requires tot < k <= |src| && off + k <= MAXFILE * BSIZE && (off + tot) % BSIZE + (k - tot) <= BSIZE
    ensures addr < |e.s.data|
    ensures Writing(start, d0, Copied(e, addr, Spliced(e.s.data[addr], (off + tot) % BSIZE, src[tot..k]), log),
                    i, off, src, lo, hi, k)
  {
    MappedIsData(e.s, e.owner, i, bn);
    var block := Spliced(e.s.data[addr], (off + tot) % BSIZE, src[tot..k]);
    ChunkKept(d0.s, d.s, e.s, d.owner, e.owner, i, off, src, tot, k - tot);
    DataSetOwns(e.s, e.owner, addr, block);
    LogData(start, e, i, lo, hi, bn, addr, block, log, d0.logged);
  }

  lemma BalancedCopied(d0: Disk, e: Disk, i: nat, lo: nat, hi: nat, addr: nat, block: seq<int>)
    requires Owns(e.s, e.owner, 0) && Balanced(d0.s, e.s, i, lo, hi) && IsData(e.s, e.owner, addr) && |block| == BSIZE
    ensures Balanced(d0.s, DataSet(e.s, addr, block), i, lo, hi)
  {
    var t := DataSet(e.s, addr, block);
    forall bn | lo <= bn < hi
      ensures SameLackAt(e.s, t, i, bn)
    {
      DataSetPtr(e.s, e.owner, addr, block, SlotOf(i, bn));
    }
    MissingSame(e.s, t, i, lo, hi);
  }

  lemma LogsCopied(start: nat, d0: Disk, e: Disk, addr: nat, block: seq<int>)
    requires addr < |e.s.data| && Logs(start, d0.s, e.s, e.logged)
    ensures var f := Copied(e, addr, block, true); Logs(start, d0.s, f.s, f.logged)
  {
    var f := Copied(e, addr, block, true);
    forall b | 0 <= b < |f.s.data|
      ensures BlockLogged(e.s.data, f.s.data, f.logged, b)
    {
    }
    forall b | 0 <= b < |f.s.bits|
      ensures BitLogged(start, e.s.bits, f.s.bits, f.logged, b)
    {
    }
    LogsTrans(start, d0.s, e.s, f.s, e.logged, f.logged);
  }

  /** A copy that succeeded, and log_write. */
  lemma RoundCopied(start: nat, d0: Disk, d: Disk, e: Disk, i: nat, off: nat, src: seq<int>, lo: nat, hi: nat,
                    tot: nat, k: nat, bn: nat, addr: nat, block: seq<int>)
    requires Round(start, d0, d, i, off, src, lo, hi, tot) && Bmapped(start, d, e, i, bn, addr) && 0 < addr < |e.s.data|
    requires Round(start, d0, e, i, off, src, lo, hi, tot) && bn == (off + tot) / BSIZE && lo <= bn < hi
    requires tot < k <= |src| && off + k <= MAXFILE * BSIZE && (off + tot) % BSIZE + (k - tot) <= BSIZE
    requires block == Spliced(e.s.data[addr], (off + tot) % BSIZE, src[tot..k])
    ensures Round(start, d0, Copied(e, addr, block, true), i, off, src, lo, hi, k)
  {
    WritingCopied(start, d0, d, e, i, off, src, lo, hi, tot, k, bn, addr, true);
    MappedIsData(e.s, e.owner, i, bn);
    forall a: nat, b: nat | a <= lo && hi <= b <= MAXFILE
      ensures Balanced(d0.s, DataSet(e.s, addr, block), i, a, b)
    {
      assert Balanced(d0.s, e.s, i, a, b);
      BalancedCopied(d0, e, i, a, b, addr, block);
    }
    LogsCopied(start, d0, e, addr, block);
  }

  /** A copy that failed half way: without it, the block is as it was. */
  lemma FailedCopied(start: nat, d0: Disk, d: Disk, e: Disk, i: nat, off: nat, src: seq<int>, lo: nat, hi: nat,
                     tot: nat, k: nat, bn: nat, addr: nat, block: seq<int>)
    requires Round(start, d0, d, i, off, src, lo, hi, tot) && Bmapped(start, d, e, i, bn, addr) && 0 < addr < |e.s.data|
    requires Round(start, d0, e, i, off, src, lo, hi, tot) && bn == (off + tot) / BSIZE && lo <= bn < hi
    requires tot < k <= |src| && off + k <= MAXFILE * BSIZE && (off + tot) % BSIZE + (k - tot) <= BSIZE
    requires block == Spliced(e.s.data[addr], (off + tot) % BSIZE, src[tot..k])
    ensures var f := Copied(e, addr, block, false);
            && Writing(start, d0, f, i, off, src, lo, hi, k) && OnlyBlock(f.s, e.s.data, i, bn)
            && f.(s := WithBlocks(f.s, e.s.data)) == e
  {
    WritingCopied(start, d0, d, e, i, off, src, lo, hi, tot, k, bn, addr, false);
    MappedIsData(e.s, e.owner, i, bn);
    CopiedSame(e, i, bn, addr, block, false);
  }

  /** What is left in the block after a failed copy, and the new size, change no map. */
  lemma BalancedKept(s0: State, s: State, owner: map<nat, Slot>, kept: seq<seq<int>>, t: State, i: nat, lo: nat,
                     hi: nat)
    requires BalancedAround(s0, WithBlocks(s, kept), i, lo, hi)
    requires Owns(s, owner, 0) && Owns(WithBlocks(s, kept), owner, 0)
    requires i < |s.inodes| == |t.inodes| && t == Resized(s, i, t.inodes[i].size)
    ensures BalancedAround(s0, t, i, lo, hi)
  {
    var u := WithBlocks(s, kept);
    forall a: nat, b: nat | a <= lo && hi <= b <= MAXFILE
      ensures Balanced(s0, t, i, a, b)
    {
      assert Balanced(s0, u, i, a, b);
      forall bn | a <= bn < b
        ensures SameLackAt(u, t, i, bn)
      {
        OwnerDecides(s, u, owner, i, bn);
        ResizedMap(s, i, t.inodes[i].size, i, bn);
      }
      MissingSame(u, t, i, a, b);
    }
  }

  /** A file block is missing exactly if nobody owns one for it. */
  lemma OwnerDecides(s: State, u: State, owner: map<nat, Slot>, i: nat, bn: nat)
    requires Owns(s, owner, 0) && Owns(u, owner, 0) && i < |s.inodes| && i < |u.inodes| && bn < MAXFILE
    ensures SameLackAt(u, s, i, bn)
  {
    var x := SlotOf(i, bn);
    assert SlotAt(s, owner, x) && SlotAt(u, owner, x);
    if Ptr(s, x) != 0 {
      assert BlockAt(u, owner, Ptr(s, x));
    }
    if Ptr(u, x) != 0 {
      assert BlockAt(s, owner, Ptr(u, x));
    }
  }

  /** When all of src is written, all its blocks are there: there was room. */
  lemma WholeHadRoom(start: nat, d0: Disk, d: Disk, i: nat, off: nat, src: seq<int>, lo: nat, hi: nat)
    requires Round(start, d0, d, i, off, src, lo, hi, |src|) && Inv(d0.s, d0.owner) && off <= d0.s.inodes[i].size
    requires off + |src| <= MAXFILE * BSIZE && lo == off / BSIZE && hi == EndBlock(off, |src|)
    ensures Room(d0.s, i, lo, hi)
  {
    forall bn | lo <= bn < hi
      ensures MapOf(d.s, i, bn) != 0
    {
      WholeMapped(d0, d, i, off, src, lo, hi, bn);
    }
    MissingNone(d.s, i, lo, hi);
    assert Balanced(d0.s, d.s, i, lo, hi);
  }

  lemma WholeMapped(d0: Disk, d: Disk, i: nat, off: nat, src: seq<int>, lo: nat, hi: nat, bn: nat)
    requires Kept(d0.s, d.s, i, off, src, |src|) && Inv(d0.s, d0.owner) && i < |d.s.inodes|
    requires off <= d0.s.inodes[i].size && off + |src| <= MAXFILE * BSIZE
    requires lo == off / BSIZE && hi == EndBlock(off, |src|) && lo <= bn < hi
    ensures bn < MAXFILE && MapOf(d.s, i, bn) != 0
  {
    var o := Max(off, bn * BSIZE);
    assert (hi - 1) * BSIZE < off + |src|;
    if |src| == 0 {
      assert FileAt(d0.s, i) && bn * BSIZE < off;
      assert KeptAt(d0.s, d.s, i, off, src, |src|, i, bn * BSIZE);
    } else {
      assert o / BSIZE == bn && off <= o < off + |src|;
      assert KeptAt(d0.s, d.s, i, off, src, |src|, i, o);
    }
  }

  /** The loop has ended after tot bytes, with bytes up to k copied. */
  ghost predicate Broke(start: nat, d0: Disk, d: Disk, i: nat, off: nat, src: seq<int>, lo: nat, hi: nat, readable: nat,
                        tot: nat, k: nat, kept: seq<seq<int>>)
  {
    && tot <= k && Writing(start, d0, d, i, off, src, lo, hi, k) && OnlyBlock(d.s, kept, i, (off + tot) / BSIZE)
    && Round(start, d0, d.(s := WithBlocks(d.s, kept)), i, off, src, lo, hi, tot)
    && (tot < |src| ==> Stopped(d.s, i, off, |src|, readable, tot, k))
    && (tot < |src| ==> (k == tot && !Room(d0.s, i, lo, hi)) || (k == readable && CutShort(off, |src|, readable, tot)))
  }

  lemma LoopEnded(start: nat, d0: Disk, d: Disk, i: nat, off: nat, src: seq<int>, lo: nat, hi: nat, readable: nat,
                  tot: nat, k: nat, kept: seq<seq<int>>)
    requires Broke(start, d0, d, i, off, src, lo, hi, readable, tot, k, kept) && Inv(d0.s, d0.owner)
    requires k <= |src| && tot <= readable && AtEdge(off, |src|, tot)
    requires off <= d0.s.inodes[i].size && off + |src| <= MAXFILE * BSIZE
    requires lo == off / BSIZE && hi == EndBlock(off, |src|)
    ensures Room(d0.s, i, lo, hi) ==> tot == Edge(off, |src|, readable) && k == Min(readable, |src|)
    ensures tot == |src| <==> readable >= |src| && Room(d0.s, i, lo, hi)
  {
    if tot == |src| {
      WholeHadRoom(start, d0, d.(s := WithBlocks(d.s, kept)), i, off, src, lo, hi);
    } else if CutShort(off, |src|, readable, tot) {
      CutAtEdge(off, |src|, readable, tot);
    }
  }

  // ----- the object -----

  class FileSystem {
    const nmeta: nat
    const inodestart: nat
    const bmapstart: nat
    var bits: seq<bool>
    var data: seq<seq<int>>
    var inodes: seq<Inode>
    // The inodes as they are on disk; iupdate copies the in-memory one over.
    var dinodes: seq<Inode>
    ghost var owner: map<nat, Slot>
    // Blocks passed to log_write.
    ghost var logged: set<nat>

    function View(): (s: State)
      reads this
    {
      State(nmeta, bits, data, inodes)
    }

    ghost function Snap(): (d: Disk)
      reads this
    {
      Disk(View(), owner, logged)
    }

    function Bblock(b: nat): (r: nat) { b / BPB + bmapstart }
    function Iblock(i: nat): (r: nat) { i / IPB + inodestart }

    ghost predicate Full()
      reads this
    {
      AllSet(bits)
    }

    ghost predicate Valid()
      reads this
    {
      Inv(View(), owner) && dinodes == inodes
    }

    /** The empty file system mkfs starts from: the boot block, the superblock, the
        log, the inodes and the bitmap are in use, every other block is free, and
        every file is empty. */
    constructor Mkfs(size: nat, ninodes: nat, nlog: nat)
      requires 2 + nlog + (ninodes / IPB + 1) + (size / BPB + 1) <= size <= UINT
      ensures Valid() && |bits| == size && |inodes| == ninodes && owner == map[] && logged == {}
      ensures nmeta == 2 + nlog + (ninodes / IPB + 1) + (size / BPB + 1)
      ensures forall b :: 0 <= b < size ==> (bits[b] <==> b < nmeta)
      ensures forall i :: 0 <= i < ninodes ==> Content(View(), i) == []
    {
      var used := 2 + nlog + (ninodes / IPB + 1) + (size / BPB + 1);
      nmeta, inodestart, bmapstart := used, 2 + nlog, 2 + nlog + (ninodes / IPB + 1);
      bits := seq(size, b => b < used);
      data := seq(size, _ => ZeroData());
      inodes := seq(ninodes, _ => NoFile());
      dinodes := seq(ninodes, _ => NoFile());
      owner, logged := map[], {};
      new;
      EmptyIsValid(View());
    }

    /** Allocate and zero the first free block; 0 exactly when there is none. */
    method Balloc() returns (r: nat)
      requires Owns(View(), owner, 0)
      modifies this`bits, this`data, this`logged
      ensures r == 0 ==> Full() && Snap() == old(Snap())
      ensures r != 0 ==>
                && r < |old(bits)| && !old(bits)[r] && (forall b :: 0 <= b < r ==> old(bits)[b])
                && View() == Allocated(old(View()), r)
                && logged == old(logged) + {Bblock(r), r}
    {
      assert BitAt(View(), owner, 0, 0);
      var b := 0;
      while b < |bits|
        invariant Snap() == old(Snap())
        invariant forall c :: 0 <= c < b && c < |bits| ==> bits[c]
      {
        var bi := 0;
        while bi < BPB && b + bi < |bits|
          invariant 0 <= bi <= BPB && Snap() == old(Snap())
          invariant forall c :: 0 <= c < b + bi && c < |bits| ==> bits[c]
        {
          if !bits[b + bi] {
            r := b + bi;
            bits := bits[r := true];
            data := data[r := ZeroData()];
            logged := logged + {Bblock(r), r};
            return;
          }
          bi := bi + 1;
        }
        b := b + BPB;
      }
      r := 0;
    }

    /** panicked is "freeing free block". */
    method Bfree(b: nat) returns (panicked: bool)
      requires b < |bits|
      modifies this`bits, this`logged
      ensures panicked == !old(bits)[b]
      ensures View() == if panicked then old(View()) else Freed(old(View()), b)
      ensures logged == if panicked then old(logged) else old(logged) + {Bblock(b)}
    {
      if !bits[b] {
        return true;
      }
      bits := bits[b := false];
      logged := logged + {Bblock(b)};
      return false;
    }

    method Iupdate(i: nat)
      requires i < |inodes| && |dinodes| == |inodes|
      modifies this`dinodes, this`logged
      ensures dinodes == old(dinodes)[i := inodes[i]] && logged == old(logged) + {Iblock(i)}
    {
      dinodes := dinodes[i := inodes[i]];
      logged := logged + {Iblock(i)};
    }

    /** balloc, and store the new address in slot x: in the inode, or in the
        indirect block, which is then logged. */
    method BallocInto(x: Slot, ghost bn: nat) returns (addr: nat)
      requires Linkable(Snap(), x, bn)
      modifies this`bits, this`data, this`inodes, this`owner, this`logged
      ensures addr == 0 ==> Full() && Snap() == old(Snap())
      ensures addr != 0 ==>
                && addr < |old(bits)| && !old(bits)[addr] && (x.Entry? ==> IndOf(old(View()), x.i) != addr)
                && Snap() == Linked(bmapstart, old(Snap()), x, addr)
    {
      ghost var d := Snap();
      addr := Balloc();
      if addr != 0 {
        owner := owner[addr := x];
        match x {
          case Direct(i, k) => inodes := inodes[i := inodes[i].(addrs := inodes[i].addrs[k := addr])];
          case Indirect(i) => inodes := inodes[i := inodes[i].(addrs := inodes[i].addrs[NDIRECT := addr])];
          case Entry(i, j) =>
            IndirectIsSet(d, x, bn, addr);
            var a := inodes[i].addrs[NDIRECT];
            data := data[a := PutWord(data[a], j, addr)];
            logged := logged + {a};
        }
      }
    }

    /** bmap for slot x, which is where file block bn's address is kept. */
    method BmapSlot(i: nat, bn: nat, x: Slot, found: nat) returns (addr: nat)
      requires Owns(View(), owner, 0) && i < |inodes| && bn < MAXFILE
      requires x == SlotOf(i, bn) && found == MapOf(View(), i, bn)
      requires x.Entry? ==> IndOf(View(), i) != 0
      modifies this`bits, this`data, this`inodes, this`owner, this`logged
      ensures Bmapped(bmapstart, old(Snap()), Snap(), i, bn, addr)
    {
      ghost var d := Snap();
      addr := found;
      if addr == 0 {
        if x.Entry? {
          assert SlotAt(d.s, d.owner, Indirect(i)) && BlockAt(d.s, d.owner, IndOf(d.s, i));
        }
        addr := BallocInto(x, bn);
        if addr != 0 {
          LinkedIsMapped(bmapstart, d, x, bn, addr);
          return;
        }
      }
      BmappedSame(bmapstart, d, i, bn);
    }

    /** The block of file block bn, allocated (with its indirect block) if
        missing; 0 when the disk is full. */
    method Bmap(i: nat, bn: nat) returns (addr: nat)
      requires Owns(View(), owner, 0) && i < |inodes| && bn < MAXFILE
      modifies this`bits, this`data, this`inodes, this`owner, this`logged
      ensures Bmapped(bmapstart, old(Snap()), Snap(), i, bn, addr)
    {
      ghost var d := Snap();
      if bn < NDIRECT {
        addr := BmapSlot(i, bn, Direct(i, bn), inodes[i].addrs[bn]);
        return;
      }
      if inodes[i].addrs[NDIRECT] == 0 {
        addr := BallocInto(Indirect(i), bn);
        if addr == 0 {
          BmappedSame(bmapstart, d, i, bn);
          return;
        }
        ghost var e, b := Snap(), addr;
        LinkedGrew(bmapstart, d, Indirect(i), bn, b);
        addr := BmapEntry(i, bn);
        BmappedAfter(bmapstart, d, e, Snap(), i, bn, b, addr);
      } else {
        addr := BmapEntry(i, bn);
      }
    }

    /** bmap for a file block behind the indirect block, once there is one. */
    method BmapEntry(i: nat, bn: nat) returns (addr: nat)
      requires Owns(View(), owner, 0) && i < |inodes| && NDIRECT <= bn < MAXFILE && IndOf(View(), i) != 0
      modifies this`bits, this`data, this`inodes, this`owner, this`logged
      ensures Bmapped(bmapstart, old(Snap()), Snap(), i, bn, addr)
    {
      assert SlotAt(View(), owner, Indirect(i)) && BlockAt(View(), owner, IndOf(View(), i));
      var j := bn - NDIRECT;
      addr := BmapSlot(i, bn, Entry(i, j), Word(data[inodes[i].addrs[NDIRECT]], j));
    }

    /** memmove into block b, and log_write if log. */
    method CopyInto(b: nat, block: seq<int>, log: bool)
      requires b < |data|
      modifies this`data, this`logged
      ensures Snap() == Copied(old(Snap()), b, block, log)
    {
      data := data[b := block];
      if log {
        logged := logged + {b};
      }
    }

    /** One iteration of writei's loop: m bytes, 0 if it breaks out. Then a copy that
        failed may still have moved bytes up to k into the block, unlogged; kept is the
        blocks without them. */
    method WriteChunk(i: nat, src: seq<int>, off: nat, tot: nat, readable: nat, ghost d0: Disk, ghost lo: nat,
                      ghost hi: nat)
      returns (m: nat, ghost k: nat, ghost kept: seq<seq<int>>)
      requires Round(bmapstart, d0, Snap(), i, off, src, lo, hi, tot) && tot < |src| && off + |src| <= MAXFILE * BSIZE
      requires lo == off / BSIZE && hi == EndBlock(off, |src|) && tot <= readable
      modifies this`bits, this`data, this`inodes, this`owner, this`logged
      ensures tot <= k <= |src|
      ensures m != 0 ==> Round(bmapstart, d0, Snap(), i, off, src, lo, hi, k)
      ensures m != 0 ==> k == tot + m <= readable && AtEdge(off, |src|, k)
      ensures m == 0 ==> Broke(bmapstart, d0, Snap(), i, off, src, lo, hi, readable, tot, k, kept)
    {
      ghost var d := Snap();
      var bn, at := (off + tot) / BSIZE, (off + tot) % BSIZE;
      var addr := Bmap(i, bn);
      ghost var e := Snap();
      RoundMapped(bmapstart, d0, d, e, i, off, src, lo, hi, tot, bn, addr);
      m := if |src| - tot < BSIZE - at then |src| - tot else BSIZE - at;
      k, kept := tot, data;
      assert e.(s := WithBlocks(e.s, kept)) == e;
      if addr == 0 {
        return 0, tot, data;
      }
      MappedIsData(e.s, e.owner, i, bn);
      var next := tot + m;
      NextEdge(off, |src|, tot, at, m, next);
      if next <= readable {
        k := next;
        Copy(i, src, off, tot, next, bn, at, addr, d0, d, lo, hi);
      } else {
        k := FailCopy(i, src, off, tot, readable, bn, at, addr, d0, d, lo, hi);
        m := 0;
      }
    }

    /** either_copyin has moved bytes tot..k into the block; log_write. */
    method Copy(i: nat, src: seq<int>, off: nat, tot: nat, k: nat, bn: nat, at: nat, addr: nat,
                ghost d0: Disk, ghost d: Disk, ghost lo: nat, ghost hi: nat)
      requires Round(bmapstart, d0, d, i, off, src, lo, hi, tot) && Bmapped(bmapstart, d, Snap(), i, bn, addr)
      requires Round(bmapstart, d0, Snap(), i, off, src, lo, hi, tot) && lo <= bn < hi && 0 < addr < |data|
      requires tot < k <= |src| && off + k <= MAXFILE * BSIZE && at + (k - tot) <= BSIZE
      requires bn == (off + tot) / BSIZE && at == (off + tot) % BSIZE && |data[addr]| == BSIZE
      modifies this`data, this`logged
      ensures Round(bmapstart, d0, Snap(), i, off, src, lo, hi, k)
    {
      var block := Spliced(data[addr], at, src[tot..k]);
      RoundCopied(bmapstart, d0, d, Snap(), i, off, src, lo, hi, tot, k, bn, addr, block);
      CopyInto(addr, block, true);
    }

    /** either_copyin has failed: bytes tot..readable are in the block, which is not logged. */
    method FailCopy(i: nat, src: seq<int>, off: nat, tot: nat, readable: nat, bn: nat, at: nat, addr: nat,
                    ghost d0: Disk, ghost d: Disk, ghost lo: nat, ghost hi: nat)
      returns (ghost k: nat)
      requires Round(bmapstart, d0, d, i, off, src, lo, hi, tot) && Bmapped(bmapstart, d, Snap(), i, bn, addr)
      requires Round(bmapstart, d0, Snap(), i, off, src, lo, hi, tot) && lo <= bn < hi && 0 < addr < |data|
      requires tot <= readable < |src| && off + |src| <= MAXFILE * BSIZE && at + (readable - tot) < BSIZE
      requires bn == (off + tot) / BSIZE && at == (off + tot) % BSIZE && |data[addr]| == BSIZE
      modifies this`data, this`logged
      ensures k == readable && Broke(bmapstart, d0, Snap(), i, off, src, lo, hi, readable, tot, k, old(data))
    {
      ghost var e := Snap();
      k := readable;
      if tot < readable {
        var block := Spliced(data[addr], at, src[tot..readable]);
        FailedCopied(bmapstart, d0, d, e, i, off, src, lo, hi, tot, readable, bn, addr, block);
        CopyInto(addr, block, false);
      } else {
        assert e.(s := WithBlocks(e.s, data)) == e;
      }
    }

    /** writei's loop: tot bytes are reported, and bytes up to k have been copied. */
    method WriteLoop(i: nat, src: seq<int>, off: nat, readable: nat, ghost d0: Disk, ghost lo: nat, ghost hi: nat)
      returns (tot: nat, ghost k: nat, ghost kept: seq<seq<int>>)
      requires Round(bmapstart, d0, Snap(), i, off, src, lo, hi, 0) && off + |src| <= MAXFILE * BSIZE
      requires lo == off / BSIZE && hi == EndBlock(off, |src|)
      modifies this`bits, this`data, this`inodes, this`owner, this`logged
      ensures tot <= k <= |src| && tot <= readable && AtEdge(off, |src|, tot)
      ensures Broke(bmapstart, d0, Snap(), i, off, src, lo, hi, readable, tot, k, kept)
    {
      tot, k := 0, 0;
      while tot < |src|
        invariant tot == k <= |src| && tot <= readable && Round(bmapstart, d0, Snap(), i, off, src, lo, hi, k)
        invariant AtEdge(off, |src|, tot)
      {
        var m;
        m, k, kept := WriteChunk(i, src, off, tot, readable, d0, lo, hi);
        if m == 0 {
          return tot, k, kept;
        }
        tot := tot + m;
      }
      kept := data;
      assert Snap().(s := WithBlocks(View(), kept)) == Snap();
    }

    /** Block b may be logged by a write of n bytes at off of inode i. */
    ghost predicate WriteMayLog(s: State, i: nat, off: nat, n: nat, b: nat)
      requires Shape(s) && i < |s.inodes|
    {
      b == Iblock(i) || MayLog(bmapstart, s, i, off / BSIZE, EndBlock(off, n), b)
    }

    lemma ResizedMayLog(s: State, i: nat, size: nat, off: nat, n: nat, b: nat)
      requires Shape(s) && i < |s.inodes| && MayLog(bmapstart, s, i, off / BSIZE, EndBlock(off, n), b)
      ensures Shape(Resized(s, i, size)) && WriteMayLog(Resized(s, i, size), i, off, n, b)
    {
      var lo, hi := off / BSIZE, EndBlock(off, n);
      if b != 0 && IsFileBlock(s, i, lo, hi, b) {
        var bm :| lo <= bm < hi && bm < MAXFILE && b == MapOf(s, i, bm);
        ResizedMap(s, i, size, i, bm);
        assert b == MapOf(Resized(s, i, size), i, bm);
      }
    }

    /**
     writei; only the first readable bytes of src can be copied in. The result is -1
     for a bad range; otherwise the number of bytes reported written, which with room
     on the disk is Edge(off, |src|, readable): all of src exactly if all of it can be
     read and the blocks that are missing are free. While the blocks are cached, the
     file is its old contents overwritten or extended by that prefix of src, plus, when
     a copy failed half way, what it had already moved into its block (up to k). That
     block was not logged: once its buffer is recycled (kept) the file holds the prefix
     alone. Every other change of a block, the bitmap or the inode has been logged.
     */
    method Writei(i: nat, src: seq<int>, off: nat, readable: nat)
      returns (r: int, ghost k: nat, ghost kept: seq<seq<int>>)
      requires Valid() && i < |inodes| && off < UINT && |src| < UINT
      modifies this`bits, this`data, this`inodes, this`owner, this`logged, this`dinodes
      ensures Valid() && |inodes| == old(|inodes|) && |bits| == old(|bits|) && -1 <= r <= |src|
      ensures r == -1 <==> off > old(inodes[i].size) || off + |src| >= UINT || off + |src| > MAXFILE * BSIZE
      ensures r == -1 ==> Snap() == old(Snap())
      ensures r != -1 ==> WroteTo(old(Content(View(), i)), View(), owner, i, off, src, r, k, kept)
      ensures r != -1 ==> r <= readable && AtEdge(off, |src|, r)
      ensures r != -1 && r < |src| ==> Stopped(View(), i, off, |src|, readable, r, k)
      ensures r != -1 && Room(old(View()), i, off / BSIZE, EndBlock(off, |src|)) ==>
                r == Edge(off, |src|, readable) && k == Min(readable, |src|)
      ensures r != -1 ==>
                (r == |src| <==> readable >= |src| && Room(old(View()), i, off / BSIZE, EndBlock(off, |src|)))
      ensures forall j :: 0 <= j < |inodes| && j != i ==>
                inodes[j] == old(inodes[j]) && Content(View(), j) == old(Content(View(), j))
      ensures forall b :: b in logged ==> b in old(logged) || WriteMayLog(View(), i, off, |src|, b)
      ensures old(logged) <= logged && (r != -1 ==> Iblock(i) in logged)
      ensures r != -1 ==> Logs(bmapstart, old(View()), WithBlocks(View(), kept), logged)
      ensures BalancedAround(old(View()), View(), i, off / BSIZE, EndBlock(off, |src|))
    {
      k, kept := 0, data;
      if off > inodes[i].size || off + |src| >= UINT {
        return -1, 0, data;
      }
      if off + |src| > MAXFILE * BSIZE {
        return -1, 0, data;
      }
      ghost var d0 := Snap();
      ghost var lo, hi := off / BSIZE, EndBlock(off, |src|);
      RoundFirst(bmapstart, d0, i, off, src, lo, hi);
      var tot;
      tot, k, kept := WriteLoop(i, src, off, readable, d0, lo, hi);
      ghost var d := Snap();
      LoopEnded(bmapstart, d0, d, i, off, src, lo, hi, readable, tot, k, kept);
      r := Finish(i, src, off, tot, k, kept, d0, lo, hi);
      StillStopped(d.s, View(), i, off, |src|, readable, tot, k);
      LogsSame(bmapstart, d0.s, WithBlocks(d.s, kept), WithBlocks(View(), kept), d.logged, logged);
      BalancedKept(d0.s, d.s, d.owner, kept, View(), i, lo, hi);
    }

    /** writei after its loop. */
    method Finish(i: nat, ghost src: seq<int>, off: nat, tot: nat, ghost k: nat, ghost kept: seq<seq<int>>,
                  ghost d0: Disk, ghost lo: nat, ghost hi: nat)
      returns (r: int)
      requires Writing(bmapstart, d0, Snap(), i, off, src, lo, hi, k) && Inv(d0.s, d0.owner) && tot <= k
      requires Writing(bmapstart, d0, Snap().(s := WithBlocks(View(), kept)), i, off, src, lo, hi, tot)
      requires OnlyBlock(View(), kept, i, (off + tot) / BSIZE)
      requires off <= d0.s.inodes[i].size && off + k <= MAXFILE * BSIZE
      requires lo == off / BSIZE && hi == EndBlock(off, |src|)
      requires dinodes == d0.s.inodes
      modifies this`inodes, this`dinodes, this`logged
      ensures r == tot && Valid() && |inodes| == |d0.s.inodes|
      ensures View() == Resized(old(View()), i, inodes[i].size)
      ensures WroteTo(Content(d0.s, i), View(), owner, i, off, src, tot, k, kept) && logged == old(logged) + {Iblock(i)}
      ensures forall j :: 0 <= j < |inodes| && j != i ==>
                inodes[j] == d0.s.inodes[j] && Content(View(), j) == Content(d0.s, j)
      ensures forall b :: b in logged ==> b in d0.logged || WriteMayLog(View(), i, off, |src|, b)
    {
      ghost var d := Snap();
      ghost var size := Max(d0.s.inodes[i].size, off + tot);
      WriteDone(d0.s, d0.owner, d.s, d.owner, i, off, src, tot, k);
      ghost var t := Resized(d.s, i, size);
      WriteKept(bmapstart, d0, d, i, off, src, lo, hi, tot, k, kept, t);
      forall b | b in d.logged && b !in d0.logged
        ensures WriteMayLog(t, i, off, |src|, b)
      {
        assert MayLog(bmapstart, d.s, i, lo, hi, b);
        ResizedMayLog(d.s, i, size, off, |src|, b);
      }
      if off + tot > inodes[i].size {
        inodes := inodes[i := inodes[i].(size := off + tot)];
      }
      assert View() == t;
      Iupdate(i);
      forall j | 0 <= j < |inodes| && j != i
        ensures Content(View(), j) == Content(d0.s, j)
      {
        assert SameContent(d0.s, t, j);
      }
      return tot;
    }

    /** How many bytes readi means to deliver. */
    function ReadLength(i: nat, off: nat, n: nat): (r: nat)
      requires i < |inodes|
      reads this
    {
      if off > inodes[i].size || off + n >= UINT then 0
      else if off + n > inodes[i].size then inodes[i].size - off else n
    }

    /** readi's bmap: below size every block is mapped, so nothing is allocated. */
    method ReadMap(i: nat, cur: nat) returns (addr: nat)
      requires Valid() && i < |inodes| && cur < inodes[i].size
      modifies this`bits, this`data, this`inodes, this`owner, this`logged
      ensures Snap() == old(Snap())
      ensures inodes[i].size <= MAXFILE * BSIZE && addr == MapOf(View(), i, cur / BSIZE) && 0 < addr < |data|
    {
      ghost var s := View();
      assert FileAt(s, i) && (cur / BSIZE) * BSIZE <= cur;
      addr := Bmap(i, cur / BSIZE);
      assert SlotAt(s, owner, SlotOf(i, cur / BSIZE)) && BlockAt(s, owner, addr);
    }

    /** One iteration of readi's loop: next bytes have been delivered in all. */
    method ReadChunk(i: nat, off: nat, tot: nat, want: nat, writable: nat, dst: seq<int>)
      returns (ok: bool, next: nat, dst': seq<int>)
      requires Valid() && i < |inodes| && tot < want
      requires off + want <= inodes[i].size && ReadSoFar(View(), i, off, tot, dst)
      requires tot <= writable
      modifies this`bits, this`data, this`inodes, this`owner, this`logged
      ensures Snap() == old(Snap()) && ReadSoFar(View(), i, off, next, dst')
      ensures if ok then tot < next <= want && next <= writable else next == writable < want
    {
      ghost var s := View();
      var cur := off + tot;
      var addr := ReadMap(i, cur);
      var at := cur % BSIZE;
      var m := if want - tot < BSIZE - at then want - tot else BSIZE - at;
      ok := tot + m <= writable;
      m := if ok then m else writable - tot;
      next := tot + m;
      ReadStep(s, i, off, tot, next, cur, cur / BSIZE, at, m, off + next, data[addr], dst);
      dst' := dst + data[addr][at..at + m];
    }

    /** readi; only the first writable bytes of dst can be copied out. It changes
        nothing and delivers the requested slice of the file, cut off at its end; the
        result is -1 exactly if that does not fit, and then dst has what does. */
    method Readi(i: nat, off: nat, n: nat, writable: nat) returns (tot: int, dst: seq<int>)
      requires Valid() && i < |inodes| && off < UINT && n < UINT
      modifies this`bits, this`data, this`inodes, this`owner, this`logged
      ensures Snap() == old(Snap())
      ensures tot == if writable < ReadLength(i, off, n) then -1 else ReadLength(i, off, n)
      ensures |dst| == if writable < ReadLength(i, off, n) then writable else ReadLength(i, off, n)
      ensures |dst| > 0 ==> off + |dst| <= |Content(View(), i)| && dst == Content(View(), i)[off..off + |dst|]
    {
      ghost var s := View();
      tot, dst := 0, [];
      if off > inodes[i].size || off + n >= UINT {
        return;
      }
      var want := if off + n > inodes[i].size then inodes[i].size - off else n;
      ContentLength(s, owner, i);
      while tot < want
        invariant 0 <= tot <= want && tot <= writable && Snap() == old(Snap())
        invariant ReadSoFar(View(), i, off, tot, dst) && |Content(s, i)| == inodes[i].size
      {
        var ok;
        ok, tot, dst := ReadChunk(i, off, tot, want, writable, dst);
        if !ok {
          return -1, dst;
        }
      }
    }

    /** itrunc's first loop. */
    method TruncDirect(i: nat) returns (panicked: bool)
      requires Owns(View(), owner, 0) && i < |inodes|
      modifies this`bits, this`inodes, this`owner, this`logged
      ensures !panicked
      ensures Owns(View(), owner, 0) && owner == WithoutDirect(old(owner), i, NDIRECT)
      ensures |inodes| == old(|inodes|) && forall j :: 0 <= j < |inodes| && j != i ==> inodes[j] == old(inodes[j])
      ensures IndOf(View(), i) == IndOf(old(View()), i)
      ensures forall k :: 0 <= k < NDIRECT ==> inodes[i].addrs[k] == 0
      ensures Freeing(bmapstart, old(bits), old(logged), bits, logged)
    {
      panicked := false;
      ghost var s0, owner0 := View(), owner;
      assert WithoutDirect(owner, i, 0) == owner;
      FreeingNone(bmapstart, bits, logged);
      var k := 0;
      while k < NDIRECT
        invariant k <= NDIRECT && !panicked && DirectGone(s0, owner0, View(), owner, i, k)
        invariant Freeing(bmapstart, old(bits), old(logged), bits, logged)
      {
        panicked := TruncOne(i, k, s0, owner0, s0.bits, old(logged));
        k := k + 1;
      }
    }

    /** One iteration of itrunc's first loop. */
    method TruncOne(i: nat, k: nat, ghost s0: State, ghost owner0: map<nat, Slot>, ghost bits0: seq<bool>,
                    ghost logged0: set<nat>)
      returns (panicked: bool)
      requires Freeing(bmapstart, bits0, logged0, bits, logged)
      requires k < NDIRECT && i < |inodes| && DirectGone(s0, owner0, View(), owner, i, k)
      modifies this`bits, this`inodes, this`owner, this`logged
      ensures !panicked && DirectGone(s0, owner0, View(), owner, i, k + 1)
      ensures Freeing(bmapstart, bits0, logged0, bits, logged)
    {
      panicked := false;
      WithoutDirectStep(View(), owner0, owner, i, k);
      if inodes[i].addrs[k] != 0 {
        DirectFreed(View(), owner, i, k);
        var b := inodes[i].addrs[k];
        FreeingMore(bmapstart, bits0, logged0, bits, logged, b);
        panicked := Bfree(b);
        owner := owner - {b};
        inodes := inodes[i := inodes[i].(addrs := inodes[i].addrs[k := 0])];
      }
    }

    /** One iteration of itrunc's loop over the indirect block. */
    method TruncEntry(i: nat, j: nat, a: nat, ghost s: State, ghost logged0: set<nat>) returns (panicked: bool)
      requires Owns(s, owner, 0) && i < |s.inodes| && j < NINDIRECT && a == IndOf(s, i) && 0 < a < |s.data|
      requires View() == s.(bits := bits) && EntriesGone(s, owner, i, j, bits)
      requires Freeing(bmapstart, s.bits, logged0, bits, logged)
      modifies this`bits, this`logged
      ensures !panicked && View() == s.(bits := bits) && EntriesGone(s, owner, i, j + 1, bits)
      ensures Freeing(bmapstart, s.bits, logged0, bits, logged)
    {
      panicked := false;
      if Word(data[a], j) != 0 {
        EntryStillSet(s, owner, i, j, bits);
        FreeingMore(bmapstart, s.bits, logged0, bits, logged, Word(data[a], j));
        panicked := Bfree(Word(data[a], j));
      } else {
        EntryEmpty(s, owner, i, j);
      }
    }

    /** itrunc's loop over the indirect block, and the indirect block itself. */
    method TruncIndirect(i: nat) returns (panicked: bool)
      requires Owns(View(), owner, 0) && i < |inodes|
      modifies this`bits, this`inodes, this`owner, this`logged
      ensures !panicked
      ensures Owns(View(), owner, 0) && owner == WithoutIndirect(old(owner), i)
      ensures |inodes| == old(|inodes|) && forall j :: 0 <= j < |inodes| && j != i ==> inodes[j] == old(inodes[j])
      ensures inodes[i] == old(inodes[i]).(addrs := old(inodes[i]).addrs[NDIRECT := 0])
      ensures Freeing(bmapstart, old(bits), old(logged), bits, logged)
    {
      panicked := false;
      ghost var s := View();
      FreeingNone(bmapstart, bits, logged);
      var a := inodes[i].addrs[NDIRECT];
      if a == 0 {
        NoIndirect(s, owner, i);
        return;
      }
      assert SlotAt(s, owner, Indirect(i)) && BlockAt(s, owner, a) && BitAt(s, owner, 0, a);
      var j := 0;
      while j < NINDIRECT
        invariant j <= NINDIRECT && !panicked && View() == s.(bits := bits) && owner == old(owner)
        invariant EntriesGone(s, owner, i, j, bits) && Freeing(bmapstart, s.bits, old(logged), bits, logged)
      {
        panicked := TruncEntry(i, j, a, s, old(logged));
        j := j + 1;
      }
      FreeingMore(bmapstart, s.bits, old(logged), bits, logged, a);
      panicked := Bfree(a);
      LastBlock(s, owner, i, a);
      IndirectFreed(s, owner, i, bits);
      inodes := inodes[i := inodes[i].(addrs := inodes[i].addrs[NDIRECT := 0])];
      owner := WithoutIndirect(owner, i);
    }

    /** Both loops of itrunc. */
    method TruncBlocks(i: nat) returns (panicked: bool)
      requires Owns(View(), owner, 0) && i < |inodes|
      modifies this`bits, this`inodes, this`owner, this`logged
      ensures !panicked
      ensures Owns(View(), owner, 0) && owner == Without(old(owner), i)
      ensures |inodes| == old(|inodes|) && forall j :: 0 <= j < |inodes| && j != i ==> inodes[j] == old(inodes[j])
      ensures forall k :: 0 <= k <= NDIRECT ==> inodes[i].addrs[k] == 0
      ensures Freeing(bmapstart, old(bits), old(logged), bits, logged)
    {
      WithoutBoth(View(), owner, i);
      panicked := TruncDirect(i);
      ghost var bits1, logged1 := bits, logged;
      var p := TruncIndirect(i);
      panicked := panicked || p;
      FreeingTwice(bmapstart, old(bits), old(logged), bits1, logged1, bits, logged);
    }

    /** itrunc: the file becomes empty, exactly its blocks return to the bitmap, "freeing
        free block" does not happen, and no other file changes. It logs the inode and
        exactly the bitmap blocks that change. */
    method Itrunc(i: nat) returns (panicked: bool)
      requires Valid() && i < |inodes|
      modifies this`bits, this`inodes, this`dinodes, this`owner, this`logged
      ensures !panicked
      ensures Valid() && |inodes| == old(|inodes|) && Content(View(), i) == []
      ensures forall bn :: 0 <= bn < MAXFILE ==> MapOf(View(), i, bn) == 0
      ensures |bits| == |old(bits)| && forall b :: 0 <= b < |bits| ==>
                (bits[b] <==> old(bits)[b] && !(b in old(owner) && old(owner)[b].i == i))
      ensures forall j :: 0 <= j < |inodes| && j != i ==>
                inodes[j] == old(inodes[j]) && Content(View(), j) == old(Content(View(), j))
      ensures Iblock(i) in logged && BitsLogged(bmapstart, old(bits), bits, logged) && old(logged) <= logged
      ensures forall c :: c in logged && c !in old(logged) && c != Iblock(i) ==> FreedIn(bmapstart, old(bits), bits, c)
    {
      ghost var s, owner0 := View(), owner;
      panicked := TruncBlocks(i);
      ghost var logged1 := logged;
      ResizedOwns(View(), owner, i, 0);
      inodes := inodes[i := inodes[i].(size := 0)];
      Iupdate(i);
      BitsLoggedMore(bmapstart, s.bits, bits, logged1, logged);
      TruncatedBits(s, owner0, View(), owner, i);
      forall j | 0 <= j < |inodes|
        ensures FileAt(View(), j)
        ensures j != i ==> Content(View(), j) == Content(s, j)
      {
        UntouchedFile(s, owner0, View(), i, j);
      }
    }
  }

  /** A count that ends at a block edge is at most the last such. */
  lemma EdgeIsLast(off: nat, n: nat, readable: nat, r: nat)
    requires r <= n && r <= readable && AtEdge(off, n, r)
    ensures r <= Edge(off, n, readable)
  {
    var q := (off + r) / BSIZE;
    if readable < n && r > 0 {
      assert off + r == q * BSIZE;
      assert q <= (off + readable) / BSIZE;
    }
  }

  /** Where the disk filled up the file had ended, so nothing beyond the count shows. */
  lemma FullBeyondEnd(c: seq<int>, s: State, owner: map<nat, Slot>, i: nat, off: nat, src: seq<int>, r: nat, k: nat)
    requires Inv(s, owner) && i < |s.inodes| && r <= k <= |src| && off <= |c|
    requires Content(s, i) == Wrote(c, off, src, r, k) && OutOfSpace(s, i, (off + r) / BSIZE)
    ensures |c| <= off + r
  {
    ContentLength(s, owner, i);
    OverwriteLength(c, off, src[..k]);
    assert FileAt(s, i) && (off + r) / BSIZE * BSIZE <= off + r;
  }

  /**
   The file is exactly its old contents with the prefix that writei counted, if and
   only if each byte of src from the last block edge up to what can be read is there
   already or lies past the old end. With room on the disk, that edge is the count.
   */
  method WriteiExactly(fs: FileSystem, i: nat, src: seq<int>, off: nat, readable: nat) returns (r: int)
    requires fs.Valid() && i < |fs.inodes| && off < UINT && |src| < UINT
    modifies fs
    ensures fs.Valid() && i < |fs.inodes| && -1 <= r <= |src|
    ensures r != -1 ==> off <= |old(Content(fs.View(), i))|
    ensures r != -1 && Room(old(fs.View()), i, off / BSIZE, EndBlock(off, |src|)) ==> r == Edge(off, |src|, readable)
    ensures r != -1 ==>
              (Content(fs.View(), i) == Overwrite(old(Content(fs.View(), i)), off, src[..r]) <==>
               AlreadyThere(old(Content(fs.View(), i)), off, src, Edge(off, |src|, readable), Min(readable, |src|)))
  {
    ghost var c := Content(fs.View(), i);
    ghost var k, kept;
    r, k, kept := fs.Writei(i, src, off, readable);
    if r != -1 {
      ghost var s := fs.View();
      ReportedExactly(c, off, src, r, k);
      EdgeIsLast(off, |src|, readable, r);
      StopsAtEdge(s, i, off, |src|, readable, r, k);
      if r < |src| && OutOfSpace(s, i, (off + r) / BSIZE) {
        FullBeyondEnd(c, s, fs.owner, i, off, src, r, k);
      }
    }
  }

  /** A write of two bytes of which only one can be read: writei reports none
      written, and the file has changed, until the buffer is recycled. */
  method FailedWriteShows(fs: FileSystem, i: nat, src: seq<int>) returns (r: int, ghost kept: seq<seq<int>>)
    requires fs.Valid() && i < |fs.inodes| && fs.inodes[i].size > 0 && |src| == 2
    requires Content(fs.View(), i)[0] != src[0]
    modifies fs
    ensures r == 0 && fs.Valid() && i < |fs.inodes| && Content(fs.View(), i) != old(Content(fs.View(), i))
    ensures Shape(WithBlocks(fs.View(), kept)) && Content(WithBlocks(fs.View(), kept), i) == old(Content(fs.View(), i))
  {
    ghost var c := Content(fs.View(), i);
    ContentLength(fs.View(), fs.owner, i);
    ghost var k;
    r, k, kept := fs.Writei(i, src, 0, 1);
    assert FileAt(fs.View(), i);
    WroteAt(c, 0, src, r, k, 0);
    OverwriteLength(c, 0, src[..k]);
    assert src[..0] == [] && Overwrite(c, 0, []) == c;
  }

  function NoFile(): (ip: Inode) { Inode(seq(NDIRECT + 1, _ => 0), 0) }

  lemma EmptyIsValid(s: State)
    requires Shape(s) && (forall i :: 0 <= i < |s.inodes| ==> s.inodes[i] == NoFile())
    requires forall b :: 0 <= b < |s.bits| ==> (s.bits[b] <==> b < s.nmeta)
    ensures Inv(s, map[])
  {
    forall x | IsSlot(s, x)
      ensures SlotAt(s, map[], x)
    {
      assert s.inodes[x.i] == NoFile();
    }
    forall b | 0 <= b < |s.bits|
      ensures BitAt(s, map[], 0, b)
    {
    }
  }

  /** The bits of the blocks that the first j entries of i's indirect block name are
      clear, and the others as they were. */
  ghost predicate EntriesGone(s: State, owner: map<nat, Slot>, i: nat, j: nat, bits: seq<bool>) {
    && |bits| == |s.bits|
    && forall b :: 0 <= b < |bits| ==> (bits[b] <==> s.bits[b] && !(b in owner && EntryBelow(owner[b], i, j)))
  }

  /** The first k direct blocks of inode i are freed, and nothing else. */
  ghost predicate DirectGone(s0: State, owner0: map<nat, Slot>, s: State, owner: map<nat, Slot>, i: nat, k: nat) {
    && Owns(s, owner, 0) && owner == WithoutDirect(owner0, i, k) && i < |s.inodes| == |s0.inodes| && Shape(s0)
    && IndOf(s, i) == IndOf(s0, i)
    && (forall j :: 0 <= j < |s.inodes| && j != i ==> s.inodes[j] == s0.inodes[j])
    && forall l :: 0 <= l < k <= NDIRECT ==> s.inodes[i].addrs[l] == 0
  }

  /** dst is tot bytes of the file from off. */
  ghost predicate ReadSoFar(s: State, i: nat, off: nat, tot: nat, dst: seq<int>)
    requires Shape(s) && i < |s.inodes|
  {
    s.inodes[i].size <= MAXFILE * BSIZE && off + tot <= |Content(s, i)| && dst == Content(s, i)[off..off + tot]
  }

  lemma ContentLength(s: State, owner: map<nat, Slot>, i: nat)
    requires Inv(s, owner) && i < |s.inodes|
    ensures s.inodes[i].size <= MAXFILE * BSIZE && |Content(s, i)| == s.inodes[i].size
  {
    assert FileAt(s, i);
  }

  lemma Joined(c: seq<int>, a: nat, b: nat, d: nat)
    requires a <= b <= d <= |c|
    ensures c[a..b] + c[b..d] == c[a..d]
  {
  }

  lemma ReadStep(s: State, i: nat, off: nat, tot: nat, next: nat, cur: nat, bn: nat, at: nat, m: nat, end: nat,
                 block: seq<int>, dst: seq<int>)
    requires Shape(s) && i < |s.inodes| && end == cur + m <= s.inodes[i].size <= MAXFILE * BSIZE && bn < MAXFILE
    requires bn == cur / BSIZE && at == cur % BSIZE && at + m <= BSIZE
    requires MapOf(s, i, bn) < |s.data| && block == s.data[MapOf(s, i, bn)]
    requires ReadSoFar(s, i, off, tot, dst) && cur == off + tot && end == off + next
    ensures ReadSoFar(s, i, off, next, dst + block[at..at + m])
  {
    ChunkIsSlice(s, i, cur, bn, at, m, end, block);
    Joined(Content(s, i), off, cur, end);
  }

  /** The indirect block's own bit is the last one itrunc clears. */
  lemma LastBlock(s: State, owner: map<nat, Slot>, i: nat, a: nat)
    requires Owns(s, owner, 0) && i < |s.inodes| && a == IndOf(s, i) != 0
    ensures forall c :: c in owner ==> (owner[c] == Indirect(i) <==> c == a)
    ensures forall c :: c in owner ==> (ThroughIndirect(owner[c], i) <==> EntryBelow(owner[c], i, NINDIRECT) || c == a)
  {
    assert SlotAt(s, owner, Indirect(i));
    forall c | c in owner
      ensures owner[c] == Indirect(i) <==> c == a
      ensures ThroughIndirect(owner[c], i) <==> EntryBelow(owner[c], i, NINDIRECT) || c == a
    {
      assert BlockAt(s, owner, c);
    }
  }

  lemma TruncatedBits(s: State, owner0: map<nat, Slot>, t: State, owner: map<nat, Slot>, i: nat)
    requires Owns(s, owner0, 0) && Owns(t, owner, 0) && owner == Without(owner0, i)
    requires |t.bits| == |s.bits| && t.nmeta == s.nmeta
    ensures forall b :: 0 <= b < |t.bits| ==> (t.bits[b] <==> s.bits[b] && !(b in owner0 && owner0[b].i == i))
  {
    forall b | 0 <= b < |t.bits|
      ensures t.bits[b] <==> s.bits[b] && !(b in owner0 && owner0[b].i == i)
    {
      assert BitAt(s, owner0, 0, b) && BitAt(t, owner, 0, b);
      if b in owner0 {
        assert BlockAt(s, owner0, b);
      }
    }
  }

  lemma UntouchedFile(s: State, owner: map<nat, Slot>, t: State, i: nat, j: nat)
    requires Inv(s, owner) && Shape(t) && |t.inodes| == |s.inodes| && j < |s.inodes| && i < |s.inodes|
    requires t.data == s.data && t.inodes[i].size == 0
    requires j != i ==> t.inodes[j] == s.inodes[j]
    ensures FileAt(t, j) && (j != i ==> Content(t, j) == Content(s, j))
  {
    assert FileAt(s, j);
    forall bn | 0 <= bn < MAXFILE && j != i
      ensures MapOf(t, j, bn) == MapOf(s, j, bn)
    {
    }
    if j != i {
      forall o | 0 <= o < s.inodes[j].size
        ensures Content(t, j)[o] == Content(s, j)[o]
      {
        ContentAt(t, j, o);
        ContentAt(s, j, o);
      }
    }
  }
}
