/**
 kernel/fs.c: balloc, bfree, bmap, itrunc, readi and writei, updating the
 buffered disk blocks and the inode table in place.
 */
module Fs {
  import opened Basics
  import opened Params
  import opened Words
  import opened FsSpec
  import opened FsLemmas
  import opened FsFiles
  import opened FsTrunc
  import opened FsSpace

  // Block b + bi of the disk in the free map.
  lemma MapAt(sb: Super, disk: FsSpec.Disk, b: nat, bi: nat)
    requires DiskOk(sb, disk) && b % BPB == 0 && bi < BPB && b + bi < sb.size
    ensures MapBlock(sb, b) < |disk| && IsBlock(disk[MapBlock(sb, b)]) && bi / 8 < |disk[MapBlock(sb, b)]|
    ensures MapBlock(sb, b + bi) == MapBlock(sb, b)
    ensures Used(sb, disk, b + bi) <==> Bit(disk[MapBlock(sb, b)], bi)
    ensures Allocate(sb, disk, b + bi)
            == disk[MapBlock(sb, b) := SetBit(disk[MapBlock(sb, b)], bi)][b + bi := Zeros()]
  {
    hide Bit, SetBit, Zeros;
    BitAt(sb, b, bi);
  }

  lemma BitAt(sb: Super, b: nat, bi: nat)
    requires b % BPB == 0 && bi < BPB
    ensures MapBlock(sb, b + bi) == MapBlock(sb, b) && (b + bi) % BPB == bi && bi / 8 < BSIZE
  {
  }

  lemma BallocStart(sb: Super, disk: FsSpec.Disk, inodes: seq<Inode>, owner: Owner)
    requires Consistent(sb, disk, inodes, owner, {})
    ensures DiskOk(sb, disk) && sb.size > 0 && Used(sb, disk, 0)
  {
  }

  lemma BallocFull(sb: Super, disk: FsSpec.Disk)
    requires DiskOk(sb, disk) && forall x :: 0 <= x < sb.size ==> Used(sb, disk, x)
    ensures FullDisk(sb, disk)
  {
  }

  // A disk whose map marks exactly the metadata, with empty inodes, satisfies the invariant.
  lemma EmptyConsistent(sb: Super, disk: Disk, inodes: seq<Inode>)
    requires DiskOk(sb, disk) && forall b :: 0 <= b < sb.size ==> (Used(sb, disk, b) <==> b < sb.meta)
    requires forall n :: 0 <= n < |inodes| ==> inodes[n] == Inode(0, seq(NDIRECT + 1, _ => 0))
    ensures Consistent(sb, disk, inodes, map[], {}) && Complete(sb, disk, inodes)
  {
    forall m, s | 0 <= m < |inodes| && 0 <= s < SLOTS
      ensures InodeOk(sb, inodes[m]) && Addr(sb, disk, inodes[m], s) == 0
    {
    }
  }

  class FileSystem {
    const sb: Super
    var disk: Disk             // block contents as seen through the buffer cache
    var inodes: seq<Inode>     // in-memory inodes, by number
    var dinodes: seq<Inode>    // their copies in the inode blocks
    ghost var owner: Owner
    ghost var logged: set<nat> // blocks passed to log_write

    constructor (sb: Super, disk: Disk, inodes: seq<Inode>, ghost owner: Owner)
      requires Consistent(sb, disk, inodes, owner, {}) && Complete(sb, disk, inodes)
      ensures this.sb == sb && this.disk == disk && this.inodes == inodes && this.owner == owner
      ensures Valid() && logged == {}
    {
      this.sb, this.disk, this.inodes, this.dinodes := sb, disk, inodes, inodes;
      this.owner, this.logged := owner, {};
    }

    ghost function St(): (s: State)
      reads this
      ensures s == State(disk, inodes)
    {
      State(disk, inodes)
    }

    ghost predicate Valid()
      reads this
    {
      && Consistent(sb, disk, inodes, owner, {}) && Complete(sb, disk, inodes)
      && dinodes == inodes
    }

    function Contents(n: nat): seq<int>
      reads this
      requires Ok(sb, St()) && n < |inodes| && inodes[n].size <= MAXFILE * BSIZE
    {
      Content(sb, disk, inodes[n])
    }

    // --- blocks ---

    // The lowest free block, marked used and zeroed; 0 if there is none.
    method Balloc() returns (r: nat)
      requires Consistent(sb, disk, inodes, owner, {})
      modifies this`disk, this`logged
      ensures r == 0 ==> disk == old(disk) && logged == old(logged) && FullDisk(sb, disk)
      ensures r != 0 ==> r < sb.size && disk == Allocate(sb, old(disk), r)
      ensures r != 0 ==> !Used(sb, old(disk), r) && forall b :: 0 <= b < r ==> Used(sb, old(disk), b)
      ensures r != 0 ==> logged == old(logged) + {MapBlock(sb, r), r}
    {
      hide Consistent, Bit, SetBit, Zeros, MapBlock, IsBlock, FullDisk, Allocate, Used;
      BallocStart(sb, disk, inodes, owner);
      var b := 0;
      while b < sb.size
        invariant b % BPB == 0 && disk == old(disk) && logged == old(logged)
        invariant forall x :: 0 <= x < b && x < sb.size ==> Used(sb, disk, x)
      {
        var bi := ClearBitIn(b);
        if bi < BPB && b + bi < sb.size {
          MapAt(sb, disk, b, bi);
          disk := disk[MapBlock(sb, b) := SetBit(disk[MapBlock(sb, b)], bi)];
          logged := logged + {MapBlock(sb, b)};
          disk := disk[b + bi := Zeros()];
          logged := logged + {b + bi};
          return b + bi;
        }
        b := b + BPB;
      }
      BallocFull(sb, disk);
      return 0;
    }

    // The inner loop of balloc: the first clear bit of the map block for block b on.
    method ClearBitIn(b: nat) returns (bi: nat)
      requires DiskOk(sb, disk) && b % BPB == 0 && b < sb.size
      ensures bi <= BPB && b + bi <= sb.size
      ensures forall x :: b <= x < b + bi && x < sb.size ==> Used(sb, disk, x)
      ensures bi == BPB || b + bi == sb.size || !Used(sb, disk, b + bi)
    {
      hide Bit, MapBlock, IsBlock, Used;
      bi := 0;
      while bi < BPB && b + bi < sb.size
        invariant 0 <= bi <= BPB && b + bi <= sb.size
        invariant forall x :: b <= x < b + bi && x < sb.size ==> Used(sb, disk, x)
      {
        MapAt(sb, disk, b, bi);
        if !Bit(disk[MapBlock(sb, b)], bi) {
          return;
        }
        bi := bi + 1;
      }
    }

    // Panics ("freeing free block") unless b is in use.
    method Bfree(b: nat)
      requires DiskOk(sb, disk) && b < sb.size && Used(sb, disk, b)
      modifies this`disk, this`logged
      ensures disk == Release(sb, old(disk), b) && logged == old(logged) + {MapBlock(sb, b)}
    {
      disk := disk[MapBlock(sb, b) := ClearBit(disk[MapBlock(sb, b)], b % BPB)];
      logged := logged + {MapBlock(sb, b)};
    }

    // --- the n-th block of a file ---

    // addrs[s] of inode n, allocating a block for it if it has none.
    method DirectAddr(n: nat, s: nat, ghost lo: nat, ghost hi: nat) returns (a: int)
      requires Consistent(sb, disk, inodes, owner, {}) && n < |inodes| && s <= NDIRECT && Covers(lo, hi, s)
      modifies this`disk, this`inodes, this`owner, this`logged
      ensures Consistent(sb, disk, inodes, owner, {})
      ensures Extends(sb, old(St()), old(owner), St(), owner, n)
      ensures a == inodes[n].addrs[s] == Addr(sb, disk, inodes[n], s) && (a == 0 ==> FullDisk(sb, disk))
      ensures Addr(sb, old(disk), old(inodes)[n], s) != 0 || a == 0
              ==> St() == old(St()) && owner == old(owner) && logged == old(logged)
      ensures Logs(sb, old(logged), logged, {a})
      ensures forall t :: 0 <= t < SLOTS && t != s
                ==> Addr(sb, disk, inodes[n], t) == Addr(sb, old(disk), old(inodes)[n], t)
      ensures Covered(old(disk), disk, logged) && Spent(sb, old(St()), St(), n, lo, hi)
    {
      SlotKept(sb, St(), owner, logged, {inodes[n].addrs[s]}, n, lo, hi);
      hide Extends, Spent, Covers, Allocate, Consistent, Addr, Used, Logs, Covered, MapBlock, FullDisk, Ok, DiskOk, InodeOk;
      a := inodes[n].addrs[s];
      if a == 0 {
        a := Balloc();
        if a != 0 {
          SlotDirect(sb, old(St()), owner, old(logged), n, s, a, lo, hi);
          inodes := inodes[n := inodes[n].(addrs := inodes[n].addrs[s := a])];
          owner := owner[a := Slot(n, s)];
        }
      }
    }

    // The j-th word of the indirect block of inode n, allocating a block for it.
    method IndirectAddr(n: nat, j: nat) returns (a: int)
      requires Consistent(sb, disk, inodes, owner, {}) && n < |inodes| && j < NINDIRECT
      requires inodes[n].addrs[NDIRECT] != 0
      modifies this`disk, this`owner, this`logged
      ensures Covered(old(disk), disk, logged) && Spent(sb, old(St()), St(), n, NDIRECT + j, NDIRECT + j + 1)
      ensures Consistent(sb, disk, inodes, owner, {})
      ensures Extends(sb, old(St()), old(owner), St(), owner, n)
      ensures a == Addr(sb, disk, inodes[n], NDIRECT + 1 + j) && (a == 0 ==> FullDisk(sb, disk))
      ensures Addr(sb, old(disk), inodes[n], NDIRECT + 1 + j) != 0
              ==> St() == old(St()) && owner == old(owner) && logged == old(logged)
      ensures Logs(sb, old(logged), logged, {a, inodes[n].addrs[NDIRECT]})
    {
      var i := inodes[n].addrs[NDIRECT];
      IndirectWord(sb, St(), owner, n, j);
      SlotKept(sb, St(), owner, logged, {Word(disk[i], j), i}, n, NDIRECT + j, NDIRECT + j + 1);
      hide Extends, Spent, Allocate, Consistent, Addr, Used, SetWord, Logs, Covered, MapBlock, FullDisk, Ok, TakenEntry, DiskOk, InodeOk;
      a := Word(disk[i], j);
      if a == 0 {
        a := Balloc();
        if a != 0 {
          SlotEntry(sb, old(St()), owner, old(logged), n, j, a);
          disk := disk[i := SetWord(disk[i], j, a)];
          logged := logged + {i};
          owner := owner[a := Slot(n, NDIRECT + 1 + j)];
        }
      }
    }

    // The part of bmap beyond the direct blocks.
    method BmapIndirect(n: nat, j: nat) returns (a: int)
      requires Consistent(sb, disk, inodes, owner, {}) && n < |inodes| && j < NINDIRECT
      modifies this`disk, this`inodes, this`owner, this`logged
      ensures Consistent(sb, disk, inodes, owner, {})
      ensures Extends(sb, old(St()), old(owner), St(), owner, n)
      ensures a == Addr(sb, disk, inodes[n], NDIRECT + 1 + j) && (a == 0 ==> FullDisk(sb, disk))
      ensures Covered(old(disk), disk, logged) && Spent(sb, old(St()), St(), n, NDIRECT + j, NDIRECT + j + 1)
      ensures Addr(sb, old(disk), old(inodes)[n], NDIRECT + 1 + j) != 0
              ==> a != 0 && St() == old(St()) && owner == old(owner) && logged == old(logged)
      ensures Logs(sb, old(logged), logged, {a, inodes[n].addrs[NDIRECT]})
    {
      ghost var s0, o0, l0 := St(), owner, logged;
      ConsistentOk(sb, s0, o0);
      hide Spent;
      var i := DirectAddr(n, NDIRECT, NDIRECT + j, NDIRECT + j + 1);
      if i == 0 {
        assert Addr(sb, disk, inodes[n], NDIRECT + 1 + j) == 0;
        hide Extends, Consistent;
        a := 0;
      } else {
        ghost var s1, o1, l1 := St(), owner, logged;
        ConsistentOk(sb, s1, o1);
        hide Extends, Consistent, Addr, Logs;
        a := IndirectAddr(n, j);
        ConsistentOk(sb, St(), owner);
        ExtendsTrans(sb, s0, o0, s1, o1, St(), owner, n);
        SpentTrans(sb, s0, s1, St(), n, NDIRECT + j, NDIRECT + j + 1, NDIRECT + j, NDIRECT + j + 1);
        LogsJoin(sb, l0, l1, logged, {i}, {a, i});
        CoveredLogs(sb, s0.disk, s1.disk, disk, l1, logged, {a, inodes[n].addrs[NDIRECT]});
      }
    }

    // The block of byte bn * BSIZE of inode n, allocating it if there is none.
    method Bmap(n: nat, bn: nat) returns (a: int)
      requires Consistent(sb, disk, inodes, owner, {}) && n < |inodes| && bn < MAXFILE
      modifies this`disk, this`inodes, this`owner, this`logged
      ensures Bmapped(sb, old(St()), old(owner), old(logged), St(), owner, logged, n, bn, a)
      ensures Spent(sb, old(St()), St(), n, bn, bn + 1)
    {
      hide Consistent, Addr, Logs, Spent, Covered;
      ConsistentOk(sb, St(), owner);
      if bn < NDIRECT {
        a := DirectAddr(n, bn, bn, bn + 1);
        ConsistentOk(sb, St(), owner);
        LogsWider(sb, old(logged), logged, {a}, {a, inodes[n].addrs[NDIRECT]});
      } else {
        a := BmapIndirect(n, bn - NDIRECT);
        ConsistentOk(sb, St(), owner);
      }
    }

    // Copies inode n to its inode block.
    method Iupdate(n: nat)
      requires n < |inodes| && |dinodes| == |inodes|
      modifies this`dinodes, this`logged
      ensures logged == old(logged) + {InodeBlock(sb, n)} && |dinodes| == |inodes|
      ensures (forall m :: 0 <= m < |inodes| && m != n ==> old(dinodes)[m] == inodes[m]) ==> dinodes == inodes
      ensures forall m :: 0 <= m < |inodes| ==> dinodes[m] == if m == n then inodes[m] else old(dinodes)[m]
    {
      dinodes := dinodes[n := inodes[n]];
      logged := logged + {InodeBlock(sb, n)};
    }

    // --- truncation ---

    // The first loop of itrunc.
    method TruncDirect(n: nat)
      requires Consistent(sb, disk, inodes, owner, {}) && n < |inodes|
      modifies this`disk, this`inodes, this`owner, this`logged
      ensures Emptying(sb, old(St()), old(owner), St(), owner, n, NDIRECT)
      ensures Covered(old(disk), disk, logged)
    {
      ghost var s0, o0 := St(), owner;
      hide Emptying, Consistent, DiskOk, Used, Release, Covered, MapBlock;
      EmptyingStart(sb, s0, o0, n);
      CoveredNone(disk, logged);
      for i := 0 to NDIRECT
        invariant Emptying(sb, s0, o0, St(), owner, n, i)
        invariant Covered(old(disk), disk, logged)
      {
        EmptyingStep(sb, s0, o0, St(), owner, n, i);
        var a := inodes[n].addrs[i];
        if a != 0 {
          ReleaseCovered(sb, s0.disk, disk, logged, a);
          Bfree(a);
          inodes := inodes[n := inodes[n].(addrs := inodes[n].addrs[i := 0])];
          owner := owner - {a};
        }
      }
    }

    // The loop over the words of the indirect block.
    method TruncWords(n: nat, ghost s0: State, ghost o0: Owner)
      requires EmptyingWords(sb, s0, o0, St(), owner, n, 0)
      modifies this`disk, this`owner, this`logged
      ensures EmptyingWords(sb, s0, o0, St(), owner, n, NINDIRECT)
      ensures Covered(old(disk), disk, logged) && old(logged) <= logged
    {
      hide EmptyingWords, DiskOk, Used, Release, Covered, MapBlock;
      CoveredNone(disk, logged);
      for j := 0 to NINDIRECT
        invariant EmptyingWords(sb, s0, o0, St(), owner, n, j)
        invariant Covered(old(disk), disk, logged) && old(logged) <= logged
      {
        EmptyingWord(sb, s0, o0, St(), owner, n, j);
        var a := Word(disk[inodes[n].addrs[NDIRECT]], j);
        if a != 0 {
          ReleaseCovered(sb, old(disk), disk, logged, a);
          Bfree(a);
          owner := owner - {a};
        }
      }
    }

    // The part of itrunc for the indirect block.
    method TruncIndirect(n: nat, ghost s0: State, ghost o0: Owner)
      requires Emptying(sb, s0, o0, St(), owner, n, NDIRECT)
      requires forall a :: a in o0 ==> o0[a].index < SLOTS
      modifies this`disk, this`inodes, this`owner, this`logged
      ensures Emptying(sb, s0, o0, St(), owner, n, SLOTS)
      ensures Covered(old(disk), disk, logged) && old(logged) <= logged
    {
      hide Emptying, EmptyingWords, DiskOk, Used, Release, Covered, MapBlock;
      CoveredNone(disk, logged);
      EmptyingIndirect(sb, s0, o0, St(), owner, n);
      if inodes[n].addrs[NDIRECT] != 0 {
        TruncWords(n, s0, o0);
        EmptyingLast(sb, s0, o0, St(), owner, n);
        var a := inodes[n].addrs[NDIRECT];
        ReleaseCovered(sb, old(disk), disk, logged, a);
        Bfree(a);
        inodes := inodes[n := inodes[n].(addrs := inodes[n].addrs[NDIRECT := 0])];
        owner := owner - {a};
      } else {
        EmptyingNone(sb, s0, o0, St(), owner, n);
      }
    }

    // Frees exactly the blocks of inode n and makes it empty.
    method Itrunc(n: nat)
      requires Valid() && n < |inodes|
      modifies this`disk, this`inodes, this`dinodes, this`owner, this`logged
      ensures Valid() && |inodes| == |old(inodes)|
      ensures inodes[n].size == 0 && forall x :: 0 <= x <= NDIRECT ==> inodes[n].addrs[x] == 0
      ensures forall m :: 0 <= m < |inodes| && m != n
                ==> inodes[m] == old(inodes)[m] && Contents(m) == old(Contents(m))
      ensures forall b :: 0 <= b < sb.size ==>
                (Used(sb, disk, b) <==> Used(sb, old(disk), b) && !(b in old(owner) && old(owner)[b].inum == n))
      ensures Recorded(sb, old(St()), St(), logged)
    {
      ghost var s0, o0 := St(), owner;
      TruncDirect(n);
      TruncIndirect(n, s0, o0);
      EmptyingDone(sb, s0, o0, St(), owner, n);
      hide Emptying;
      inodes := inodes[n := inodes[n].(size := 0)];
      Iupdate(n);
    }

    // --- reading and writing ---

    // Delivers the clipped slice and changes nothing: bmap finds every block it asks for.  Only
    // the first `good` bytes of the destination can be written; -1 if that is not enough.
    method Readi(n: nat, off: nat, cnt: nat, good: nat) returns (r: int, out: seq<int>)
      requires Valid() && n < |inodes| && off < UINT32 && cnt < UINT32
      modifies this`disk, this`inodes, this`owner, this`logged
      ensures St() == old(St()) && owner == old(owner) && logged == old(logged)
      ensures r == -1 <==> good < |Slice(Contents(n), off, cnt)|
      ensures r != -1 ==> r == |out| && out == Slice(Contents(n), off, cnt)
      ensures out <= Slice(Contents(n), off, cnt) && |out| <= good
    {
      hide Consistent, Complete, Content, Bmapped, DataSlot, BlockNo, BlockAt, InodeOk, DiskOk, Spent;
      SizeBound(sb, St(), owner, n);
      ghost var s0, c := St(), Contents(n);
      out := [];
      if off > inodes[n].size || Wraps(off, cnt) {
        return 0, out;
      }
      var len := if off + cnt > inodes[n].size then inodes[n].size - off else cnt;
      var tot := 0;
      while tot < len
        invariant 0 <= tot <= len && tot <= good
        invariant St() == s0 && owner == old(owner) && logged == old(logged)
        invariant out == c[off..off + tot]
      {
        var cur := off + tot;
        ReadPosition(cur, |c|);
        var a := Bmap(n, BlockNo(cur));
        var m := Min(len - tot, BSIZE - BlockAt(cur));
        ReadBmap(sb, s0, old(owner), old(logged), St(), owner, logged, n, cur, m, a);
        SliceGrows(c, off, cur, m);
        if a == 0 { break; }
        if tot + m > good {
          return -1, out;
        }
        out := out + disk[a][BlockAt(cur)..BlockAt(cur) + m];
        tot := tot + m;
      }
      r := tot;
    }

    // One pass of writei's loop: the bytes copied into one block, 0 if the disk is full.
    method WritePass(n: nat, off: nat, src: seq<int>, tot: nat, ghost s0: State, ghost l0: set<nat>)
      returns (m: nat)
      requires Progress(sb, s0, l0, St(), owner, logged, n, off, src, tot) && tot < |src|
      modifies this`disk, this`inodes, this`owner, this`logged
      ensures tot + m <= |src| && (m == 0 ==> FullDisk(sb, disk) && NoBlock(sb, St(), n, off, tot))
      ensures BlockAt(off + tot) + m <= BSIZE
      ensures Progress(sb, s0, l0, St(), owner, logged, n, off, src, tot + m)
      ensures Spent(sb, old(St()), St(), n, BlockNo(off + tot), BlockNo(off + tot) + 1)
    {
      hide *;
      ProgressFacts(sb, s0, l0, St(), owner, logged, n, off, src, tot);
      ghost var s, o, l := State(disk, inodes), owner, logged;
      var bn, at := BlockNo(off + tot), BlockAt(off + tot);
      var a := Bmap(n, bn);
      ProgressBmap(sb, s0, l0, s, o, l, St(), owner, logged, n, off, src, tot, a);
      m := 0;
      if a != 0 {
        m := if |src| - tot < BSIZE - at then |src| - tot else BSIZE - at;
        ghost var t := St();
        ProgressPatch(sb, s0, l0, t, owner, logged, n, off, src, tot, a, m);
        PatchSpace(sb, s0, l0, t, owner, logged, n, off, src, tot, a, m);
        disk := disk[a := Patch(disk[a], at, src[tot..tot + m])];
        logged := logged + {a};
        SpentSame(sb, s, t, St(), n, bn, bn + 1);
      }
    }

    // The loop of writei: the bytes written before the disk was full.
    method WriteBlocks(n: nat, off: nat, src: seq<int>) returns (tot: nat)
      requires Consistent(sb, disk, inodes, owner, {}) && Complete(sb, disk, inodes) && n < |inodes|
      requires AreBytes(src) && off <= inodes[n].size && off + |src| <= MAXFILE * BSIZE
      modifies this`disk, this`inodes, this`owner, this`logged
      ensures tot <= |src| && Stopped(sb, old(St()), St(), n, off, tot, |src|)
      ensures Progress(sb, old(St()), old(logged), St(), owner, logged, n, off, src, tot)
    {
      hide *;
      ghost var s0, l0 := State(disk, inodes), logged;
      ProgressStart(sb, s0, owner, logged, n, off, src);
      StoppedStart(sb, s0, n, off);
      tot := 0;
      while tot < |src|
        invariant tot <= |src| && Stopped(sb, s0, State(disk, inodes), n, off, tot, tot)
        invariant Progress(sb, s0, l0, State(disk, inodes), owner, logged, n, off, src, tot)
      {
        ghost var s := State(disk, inodes);
        var m := WritePass(n, off, src, tot, s0, l0);
        StoppedPass(sb, s0, s, State(disk, inodes), n, off, tot, m, |src|);
        if m == 0 { return; }
        tot := tot + m;
      }
    }

    // The end of writei: the size grows to `end` if need be, and the inode is written back.
    method Finish(n: nat, end: nat)
      requires n < |inodes| && |dinodes| == |inodes|
      modifies this`inodes, this`dinodes, this`logged
      ensures St() == Resize(old(St()), n, end)
      ensures (forall m :: 0 <= m < |inodes| && m != n ==> old(dinodes)[m] == inodes[m]) ==> dinodes == inodes
      ensures logged == old(logged) + {InodeBlock(sb, n)}
    {
      if end > inodes[n].size {
        inodes := inodes[n := inodes[n].(size := end)];
      }
      Iupdate(n);
    }

    // writei for a range that is not refused.
    method WriteRange(n: nat, off: nat, src: seq<int>) returns (tot: nat)
      requires Valid() && n < |inodes| && AreBytes(src)
      requires off <= inodes[n].size && off + |src| <= MAXFILE * BSIZE
      modifies this`disk, this`inodes, this`dinodes, this`owner, this`logged
      ensures Valid() && Wrote(sb, old(St()), St(), n, off, src, tot) && inodes == old(inodes)[n := inodes[n]]
      ensures Stopped(sb, old(St()), St(), n, off, tot, |src|)
      ensures WroteLogs(sb, old(logged), logged, St(), n, off, |src|)
      ensures Recorded(sb, old(St()), St(), logged)
    {
      hide Consistent, Complete, AreBytes, Progress, Wrote, WroteLogs, InodeBlock, Stopped, Covered;
      tot := WriteBlocks(n, off, src);
      ProgressDone(sb, old(St()), old(logged), St(), owner, logged, n, off, src, tot);
      ProgressFacts(sb, old(St()), old(logged), St(), owner, logged, n, off, src, tot);
      StoppedResize(sb, old(St()), St(), owner, n, off, tot, |src|, off + tot);
      Finish(n, off + tot);
    }

    // Writes src at off; returns the bytes written, or -1 if the range is refused.
    method Writei(n: nat, off: nat, src: seq<int>) returns (r: int)
      requires Valid() && n < |inodes| && off < UINT32 && |src| < UINT32 && AreBytes(src)
      modifies this`disk, this`inodes, this`dinodes, this`owner, this`logged
      ensures Valid() && |inodes| == |old(inodes)| && inodes == old(inodes)[n := inodes[n]]
      ensures r == -1 <==> Refused(old(inodes)[n].size, off, |src|)
      ensures r == -1 ==> St() == old(St()) && logged == old(logged)
      ensures r != -1 ==> Wrote(sb, old(St()), St(), n, off, src, r) && Stopped(sb, old(St()), St(), n, off, r, |src|)
      ensures r != -1 ==> Fits(sb, old(St()), n, off, r) && (r < |src| ==> !Fits(sb, old(St()), n, off, r + 1))
      ensures r != -1 ==> WroteLogs(sb, old(logged), logged, St(), n, off, |src|)
      ensures Recorded(sb, old(St()), St(), logged)
    {
      hide Consistent, Complete, Wrote, WroteLogs, AreBytes, Stopped, Wraps, Fits;
      if off > inodes[n].size || Wraps(off, |src|) {
        r := -1;
      } else if off + |src| > MAXFILE * BSIZE {
        r := -1;
      } else {
        r := WriteRange(n, off, src);
        StoppedExact(sb, old(St()), St(), n, off, src, r);
        assert r >= 0;
      }
    }
  }
}
