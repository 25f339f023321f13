/** kernel/file.c: filewrite, which cuts a write into transactions that fit the log. */
module File {
  import opened Basics
  import opened Params
  import opened Words
  import opened FsSpec
  import opened FsFiles
  import opened FsSpace
  import opened Fs
  import LogBudget

  // One transaction of filewrite: the state it ends in, who owns the blocks then, and the blocks
  // it logged.
  datatype Transaction = Transaction(after: FsFiles.State, owner: Owner, logged: set<nat>)

  // The state in which the first k of the transactions end.
  function After(s: FsFiles.State, txns: seq<Transaction>, k: nat): FsFiles.State
    requires k <= |txns|
  {
    if k == 0 then s else txns[k - 1].after
  }

  // The most blocks that one transaction logs.
  function ChunkLog(sb: Super): nat
    requires sb.size > 0
  {
    CHUNK / BSIZE + 3 + (sb.size - 1) / BPB + 1
  }

  // A data block, a block of the free map, or that of inode n.
  predicate InFiles(sb: Super, n: nat, b: nat) { sb.meta <= b < sb.size || IsMapBlock(sb, b) || b == InodeBlock(sb, n) }

  // Transaction k of a write from s, with w bytes of src written in all, logged whatever it
  // changed, few enough blocks, and left the file with the bytes up to the end of its chunk.
  ghost predicate Transacted(sb: Super, s: FsFiles.State, n: nat, off: nat, src: seq<int>, w: nat,
                             before: FsFiles.State, t: Transaction, k: nat)
  {
    && sb.size > 0 && Recorded(sb, before, t.after, t.logged) && |t.logged| <= ChunkLog(sb)
    && (forall b :: b in t.logged ==> InFiles(sb, n, b))
    && Consistent(sb, t.after.disk, t.after.inodes, t.owner, {}) && Complete(sb, t.after.disk, t.after.inodes)
    && n < |t.after.inodes| == |before.inodes| && t.after.inodes == before.inodes[n := t.after.inodes[n]]
    && FileWrote(sb, s, t.after, n, off, src, Min((k + 1) * CHUNK, w))
  }

  ghost predicate Transactions(sb: Super, s: FsFiles.State, n: nat, off: nat, src: seq<int>, w: nat, txns: seq<Transaction>)
  {
    forall k :: 0 <= k < |txns| ==> Transacted(sb, s, n, off, src, w, After(s, txns, k), txns[k], k)
  }

  lemma TransactedMore(sb: Super, s: FsFiles.State, n: nat, off: nat, src: seq<int>, i: nat, w: nat,
                       before: FsFiles.State, t: Transaction, k: nat)
    requires Transacted(sb, s, n, off, src, i, before, t, k) && (k + 1) * CHUNK <= i <= w
    ensures Transacted(sb, s, n, off, src, w, before, t, k)
  {
    hide FileWrote, Recorded, ChunkLog, Consistent, Complete;
  }

  lemma TransactionsMore(sb: Super, s: FsFiles.State, n: nat, off: nat, src: seq<int>, i: nat, w: nat,
                         txns: seq<Transaction>, t: Transaction)
    requires Transactions(sb, s, n, off, src, i, txns) && i == |txns| * CHUNK && i <= w <= i + CHUNK
    requires Transacted(sb, s, n, off, src, w, After(s, txns, |txns|), t, |txns|)
    ensures Transactions(sb, s, n, off, src, w, txns + [t]) && After(s, txns + [t], |txns| + 1) == t.after
  {
    hide Transacted;
    var all := txns + [t];
    forall k | 0 <= k < |all| ensures Transacted(sb, s, n, off, src, w, After(s, all, k), all[k], k) {
      assert After(s, all, k) == After(s, txns, k);
      if k < |txns| {
        assert all[k] == txns[k];
        TransactedMore(sb, s, n, off, src, i, w, After(s, txns, k), txns[k], k);
      }
    }
  }

  class OpenFile {
    const fs: FileSystem
    const inum: nat
    var off: nat

    constructor (fs: FileSystem, inum: nat)
      ensures this.fs == fs && this.inum == inum && off == 0
    {
      this.fs, this.inum, this.off := fs, inum, 0;
    }

    ghost predicate Valid()
      reads this, fs
    {
      fs.Valid() && inum < |fs.inodes| && off < UINT32
    }

    // One transaction, for the piece src[i..j]: afterwards fs.logged is what it logged.
    method WriteChunk(src: seq<int>, i: nat, j: nat, ghost s0: FsFiles.State, ghost off0: nat) returns (n: int)
      requires Valid() && AreBytes(src) && i < j <= |src| && j - i <= CHUNK && off == off0 + i
      requires FileDone(fs.sb, s0, fs.St(), inum, off0, src, i)
      modifies this`off, fs
      ensures Valid() && -1 <= n <= j - i && off == old(off) + (if n > 0 then n else 0)
      ensures FileWrote(fs.sb, s0, fs.St(), inum, off0, src, if n > 0 then i + n else i)
      ensures if n == j - i then FileDone(fs.sb, s0, fs.St(), inum, off0, src, j)
              else FileHalted(fs.sb, s0, fs.St(), inum, off0, src, if n > 0 then i + n else i)
      ensures fs.sb.size > 0 && Recorded(fs.sb, old(fs.St()), fs.St(), fs.logged) && |fs.logged| <= ChunkLog(fs.sb)
      ensures forall b :: b in fs.logged ==> InFiles(fs.sb, inum, b)
      ensures |fs.inodes| == |old(fs.inodes)| && fs.inodes == old(fs.inodes)[inum := fs.inodes[inum]]
    {
      hide Consistent, Complete, Wrote, WroteLogs, Stopped, AreBytes, Refused, Addr, FileByte, Content, Recorded, Fits;
      ghost var s := fs.St();
      fs.logged := {};
      PieceBytes(src, i, j);
      SizePositive(fs.sb, s, fs.owner);
      n := fs.Writei(inum, off, src[i..j]);
      FileChunk(fs.sb, s0, s, fs.St(), inum, off0, src, i, j, n);
      if n != -1 {
        ChunkBudget(fs.sb, fs.logged, fs.St(), inum, off, j - i);
        LoggedInFiles(fs.sb, fs.logged, fs.St(), fs.owner, inum, off, j - i);
      }
      if n > 0 {
        off := off + n;
      }
    }

    // Writes src at the file offset; the result is |src| exactly if there is room for all of
    // it, and -1 if only w < |src| bytes went in.
    method FileWrite(src: seq<int>) returns (r: int, ghost w: nat, ghost txns: seq<Transaction>)
      requires Valid() && AreBytes(src) && |src| < UINT32 / 2
      modifies this`off, fs
      ensures Valid() && off == old(off) + w && w <= |src| && Ok(fs.sb, old(fs.St()))
      ensures r == if w == |src| then |src| else -1
      ensures FileWrote(fs.sb, old(fs.St()), fs.St(), inum, old(off), src, w)
      ensures w == |src| <==> Writable(fs.sb, old(fs.St()), inum, old(off), |src|)
      ensures old(off) <= old(fs.inodes)[inum].size && old(off) + |src| <= MAXFILE * BSIZE
              ==> Longest(fs.sb, old(fs.St()), inum, old(off), |src|, w)
      ensures Transactions(fs.sb, old(fs.St()), inum, old(off), src, w, txns)
      ensures fs.St() == After(old(fs.St()), txns, |txns|)
      ensures |txns| == if w == |src| then (|src| + CHUNK - 1) / CHUNK else w / CHUNK + 1
    {
      hide Consistent, Complete, FileWrote, FileDone, FileHalted, AreBytes, Writable, Longest, Transactions, Recorded,
           DiskOk, InodeOk, ChunkLog;
      ghost var s0, off0 := fs.St(), off;
      Start(src);
      var i := 0;
      txns := [];
      while i < |src|
        invariant i <= |src| && Valid() && off == off0 + i && i == Min(|txns| * CHUNK, |src|)
        invariant |txns| * CHUNK < |src| + CHUNK
        invariant FileDone(fs.sb, s0, fs.St(), inum, off0, src, i)
        invariant Transactions(fs.sb, s0, inum, off0, src, i, txns) && fs.St() == After(s0, txns, |txns|)
      {
        var n1 := if |src| - i > CHUNK then CHUNK else |src| - i;
        var n := WriteChunk(src, i, i + n1, s0, off0);
        w := if n > 0 then i + n else i;
        ghost var t := Transaction(fs.St(), fs.owner, fs.logged);
        assert Transacted(fs.sb, s0, inum, off0, src, w, After(s0, txns, |txns|), t, |txns|);
        TransactionsMore(fs.sb, s0, inum, off0, src, i, w, txns, t);
        txns := txns + [t];
        if n != n1 {
          FileExact(fs.sb, s0, fs.St(), inum, off0, src, w);
          return -1, w, txns;
        }
        i := i + n;
      }
      r, w := |src|, |src|;
      DoneWrote(fs.sb, s0, fs.St(), inum, off0, src);
      FileExact(fs.sb, s0, fs.St(), inum, off0, src, w);
    }

    lemma Start(src: seq<int>)
      requires Valid()
      ensures Ok(fs.sb, fs.St()) && FileDone(fs.sb, fs.St(), fs.St(), inum, off, src, 0)
      ensures Transactions(fs.sb, fs.St(), inum, off, src, 0, [])
    {
      ConsistentOk(fs.sb, fs.St(), fs.owner);
      FileStart(fs.sb, fs.St(), fs.owner, inum, off, src);
    }
  }

  lemma DoneWrote(sb: Super, s: FsFiles.State, t: FsFiles.State, n: nat, off: nat, src: seq<int>)
    requires FileDone(sb, s, t, n, off, src, |src|)
    ensures FileWrote(sb, s, t, n, off, src, |src|)
  {
  }

  lemma LoggedInFiles(sb: Super, logged: set<nat>, s: FsFiles.State, owner: Owner, n: nat, off: nat, len: nat)
    requires Consistent(sb, s.disk, s.inodes, owner, {}) && WroteLogs(sb, {}, logged, s, n, off, len)
    ensures forall b :: b in logged ==> InFiles(sb, n, b)
  {
    hide Extra, Used, Mapped;
    RangeFacts(off, len, 0);
    forall b: nat | b in Extra(sb, s, n, BlockNo(off), Blocks(off + len)) && b != 0 ensures InFiles(sb, n, b) {
      ExtraOwned(sb, s, owner, n, BlockNo(off), Blocks(off + len), b);
    }
  }

  // The blocks that a write may log beside the metadata are blocks of the file.
  lemma {:induction false} ExtraOwned(sb: Super, s: FsFiles.State, owner: Owner, n: nat, lo: nat, hi: nat, b: int)
    requires Ok(sb, s) && Owns(sb, s.disk, s.inodes, owner, 0, 0) && n < |s.inodes| && hi <= MAXFILE
    requires b in Extra(sb, s, n, lo, hi) && b != 0
    ensures sb.meta <= b < sb.size
    decreases hi
  {
    if hi <= lo {
      assert Addr(sb, s.disk, s.inodes[n], NDIRECT) == b;
      assert b in owner;
    } else if b != Addr(sb, s.disk, s.inodes[n], DataSlot(hi - 1)) {
      ExtraOwned(sb, s, owner, n, lo, hi - 1, b);
    } else {
      assert b in owner;
    }
  }

  lemma PieceBytes(src: seq<int>, i: nat, j: nat)
    requires AreBytes(src) && i <= j <= |src|
    ensures AreBytes(src[i..j])
  {
  }

  lemma SizePositive(sb: Super, s: FsFiles.State, owner: Owner)
    requires Consistent(sb, s.disk, s.inodes, owner, {})
    ensures sb.size > 0
  {
  }

  // --- a write that succeeds in part ---

  const SMALL := Super(4, 1, 2, 3)

  // Three blocks of metadata, all marked, and a free one.
  function SmallDisk(): (d: FsSpec.Disk)
    ensures DiskOk(SMALL, d)
  {
    [Zeros(), Zeros()[0 := 7], Zeros(), Zeros()]
  }

  lemma SmallUsed(b: nat)
    requires b < 4
    ensures Used(SMALL, SmallDisk(), b) <==> b < 3
  {
    assert MapBlock(SMALL, b) == 1 && b / 8 == 0 && b % BPB == b;
    assert Test(7, 0) && Test(7, 1) && Test(7, 2) && !Test(7, 3);
  }

  function Empty(): Inode { Inode(0, seq(NDIRECT + 1, _ => 0)) }

  // The free block is enough for the first block of the empty file and not for two.
  lemma SmallFits(s: FsFiles.State)
    requires s == FsFiles.State(SmallDisk(), [Empty()]) && Ok(SMALL, s)
    ensures Fits(SMALL, s, 0, 0, BSIZE) && !Fits(SMALL, s, 0, 0, BSIZE + 1)
  {
    forall b: nat | b < 4 ensures Used(SMALL, SmallDisk(), b) <==> b < 3 { SmallUsed(b); }
    SmallFree(s.disk);
    hide Used, DiskOk;
    MissingSlots(SMALL, s, 1, SLOTS);
    MissingSlots(SMALL, s, 2, SLOTS);
  }

  lemma SmallFree(d: FsSpec.Disk)
    requires DiskOk(SMALL, d) && forall b: nat :: b < 4 ==> (Used(SMALL, d, b) <==> b < 3)
    ensures Free(SMALL, d, 4) == 1
  {
    hide Used, DiskOk;
    assert Free(SMALL, d, 0) == 0;
    assert Free(SMALL, d, 1) == 0;
    assert Free(SMALL, d, 2) == 0;
    assert Free(SMALL, d, 3) == 0;
  }

  // Of an empty file the first h data blocks are missing.
  lemma {:induction false} MissingSlots(sb: Super, s: FsFiles.State, h: nat, k: nat)
    requires Ok(sb, s) && s.inodes == [Empty()] && h <= NDIRECT && k <= SLOTS
    ensures Missing(sb, s, 0, 0, h, k) == Min(h, k)
  {
    hide DiskOk;
    if k > 0 { MissingSlots(sb, s, h, k - 1); }
  }

  // A write of two blocks to a disk with one free block: the first block is written and the
  // offset moves, but the result is -1.
  method PartialWrite() returns (r: int, f: OpenFile, ghost w: nat)
    ensures r == -1 && w == BSIZE && f.off == BSIZE
  {
    hide Consistent, Complete, Used, DiskOk, InodeOk, Ok, Fits, Transactions, FileWrote, SmallDisk, AreBytes, Longest, Writable;
    SmallStart();
    var fs := new FileSystem(SMALL, SmallDisk(), [Empty()], map[]);
    f := new OpenFile(fs, 0);
    ghost var s := fs.St();
    ghost var txns;
    r, w, txns := f.FileWrite(Zeros() + Zeros());
    SmallWritten(s, w);
  }

  lemma SmallStart()
    ensures DiskOk(SMALL, SmallDisk()) && Consistent(SMALL, SmallDisk(), [Empty()], map[], {})
    ensures Complete(SMALL, SmallDisk(), [Empty()])
    ensures AreBytes(Zeros() + Zeros())
  {
    forall b: nat | b < 4 ensures Used(SMALL, SmallDisk(), b) <==> b < 3 { SmallUsed(b); }
    hide Used;
    EmptyConsistent(SMALL, SmallDisk(), [Empty()]);
  }

  lemma SmallWritten(s: FsFiles.State, w: nat)
    requires s == FsFiles.State(SmallDisk(), [Empty()]) && Ok(SMALL, s) && w <= 2 * BSIZE
    requires 2 * BSIZE <= MAXFILE * BSIZE ==> Longest(SMALL, s, 0, 0, 2 * BSIZE, w)
    ensures w == BSIZE
  {
    SmallFits(s);
    hide Fits, Ok;
    if w > BSIZE { FitsLess(SMALL, s, 0, 0, BSIZE + 1, w); }
    if w < BSIZE { FitsLess(SMALL, s, 0, 0, w + 1, BSIZE); }
  }

  // With one block of free map every transaction of filewrite logs at most 7 blocks, and
  // operations of that size never run into the log's panic.
  lemma FileWriteFitsLog(sb: Super, steps: seq<LogBudget.Step>)
    requires 0 < sb.size <= BPB
    requires LogBudget.CanRun(LogBudget.INIT, ChunkLog(sb), steps)
    ensures ChunkLog(sb) == 7 && !LogBudget.TooBig(LogBudget.Run(LogBudget.INIT, steps), LOGSIZE)
  {
    LogBudget.Budget(7, steps);
  }
}
