/**
 How many blocks a write needs (kernel/fs.c:63-88, 379-421): the free blocks of the map
 against the slots of a range of a file that have no block yet.
 */
module FsSpace {
  import opened Basics
  import opened Params
  import opened Words
  import opened FsSpec
  import opened FsLemmas
  import opened FsFiles

  // The free ones of the first k blocks.
  function Free(sb: Super, disk: Disk, k: nat): nat
    requires DiskOk(sb, disk) && k <= sb.size
  {
    if k == 0 then 0
    else if Used(sb, disk, k - 1) then Free(sb, disk, k - 1)
    else Free(sb, disk, k - 1) + 1
  }

  // The slots that data blocks lo, ..., hi - 1 of a file go through.
  predicate Covers(lo: nat, hi: nat, x: nat) {
    if x < NDIRECT then lo <= x < hi
    else if x == NDIRECT then lo < hi && NDIRECT < hi
    else lo <= x - 1 < hi
  }

  // The empty ones among the first k slots.
  function Missing(sb: Super, s: State, n: nat, lo: nat, hi: nat, k: nat): nat
    requires Ok(sb, s) && n < |s.inodes| && k <= SLOTS
  {
    if k == 0 then 0
    else if Covers(lo, hi, k - 1) && Addr(sb, s.disk, s.inodes[n], k - 1) == 0 then Missing(sb, s, n, lo, hi, k - 1) + 1
    else Missing(sb, s, n, lo, hi, k - 1)
  }

  // The free blocks that are left over when data blocks lo, ..., hi - 1 of file n are there.
  function Balance(sb: Super, s: State, n: nat, lo: nat, hi: nat): int
    requires Ok(sb, s) && n < |s.inodes|
  {
    Free(sb, s.disk, sb.size) - Missing(sb, s, n, lo, hi, SLOTS)
  }

  // There is room for the first k bytes of a write at off: the condition on which all of them
  // are written.
  predicate Fits(sb: Super, s: State, n: nat, off: nat, k: nat)
    requires Ok(sb, s) && n < |s.inodes|
  {
    Balance(sb, s, n, BlockNo(off), Blocks(off + k)) >= 0
  }

  // --- counting ---

  lemma {:induction false} FreeTaken(sb: Super, d: Disk, d': Disk, b: nat, k: nat)
    requires DiskOk(sb, d) && DiskOk(sb, d') && b < sb.size && k <= sb.size && !Used(sb, d, b)
    requires forall x :: 0 <= x < sb.size ==> (Used(sb, d', x) <==> x == b || Used(sb, d, x))
    ensures Free(sb, d', k) == Free(sb, d, k) - if b < k then 1 else 0
  {
    hide Used, DiskOk;
    if k > 0 { FreeTaken(sb, d, d', b, k - 1); }
  }

  lemma {:induction false} FreeSame(sb: Super, d: Disk, d': Disk, k: nat)
    requires DiskOk(sb, d) && DiskOk(sb, d') && k <= sb.size
    requires forall x :: 0 <= x < sb.size ==> (Used(sb, d', x) <==> Used(sb, d, x))
    ensures Free(sb, d', k) == Free(sb, d, k)
  {
    hide Used, DiskOk;
    if k > 0 { FreeSame(sb, d, d', k - 1); }
  }

  lemma {:induction false} FreeNone(sb: Super, d: Disk, k: nat)
    requires FullDisk(sb, d) && k <= sb.size
    ensures Free(sb, d, k) == 0
  {
    hide Used, DiskOk;
    if k > 0 { FreeNone(sb, d, k - 1); }
  }

  // Slot x of inode n is filled and the others stay.
  ghost predicate Filled(sb: Super, s: State, t: State, n: nat, x: nat)
    requires Ok(sb, s) && Ok(sb, t)
  {
    && n < |s.inodes| && n < |t.inodes| && x < SLOTS && Addr(sb, s.disk, s.inodes[n], x) == 0
    && forall y :: 0 <= y < SLOTS ==>
         if y == x then Addr(sb, t.disk, t.inodes[n], y) != 0
         else Addr(sb, t.disk, t.inodes[n], y) == Addr(sb, s.disk, s.inodes[n], y)
  }

  lemma {:induction false} MissingFilled(sb: Super, s: State, t: State, n: nat, x: nat, lo: nat, hi: nat, k: nat)
    requires Ok(sb, s) && Ok(sb, t) && Filled(sb, s, t, n, x) && k <= SLOTS
    ensures Missing(sb, t, n, lo, hi, k) == Missing(sb, s, n, lo, hi, k) - if x < k && Covers(lo, hi, x) then 1 else 0
  {
    hide Addr, Ok;
    if k > 0 { MissingFilled(sb, s, t, n, x, lo, hi, k - 1); }
  }

  // The same slots of inode n are filled, and the same blocks are in use.
  ghost predicate SameSpace(sb: Super, s: State, t: State, n: nat)
    requires Ok(sb, s) && Ok(sb, t)
  {
    && n < |s.inodes| && n < |t.inodes|
    && (forall y :: 0 <= y < SLOTS ==> Addr(sb, t.disk, t.inodes[n], y) == Addr(sb, s.disk, s.inodes[n], y))
    && (forall b :: 0 <= b < sb.size ==> (Used(sb, t.disk, b) <==> Used(sb, s.disk, b)))
  }

  lemma {:induction false} MissingSame(sb: Super, s: State, t: State, n: nat, lo: nat, hi: nat, k: nat)
    requires Ok(sb, s) && Ok(sb, t) && SameSpace(sb, s, t, n) && k <= SLOTS
    ensures Missing(sb, t, n, lo, hi, k) == Missing(sb, s, n, lo, hi, k)
  {
    hide Addr, Ok, Used;
    if k > 0 { MissingSame(sb, s, t, n, lo, hi, k - 1); }
  }

  lemma BalanceSame(sb: Super, s: State, t: State, n: nat, lo: nat, hi: nat)
    requires Ok(sb, s) && Ok(sb, t) && SameSpace(sb, s, t, n)
    ensures Balance(sb, t, n, lo, hi) == Balance(sb, s, n, lo, hi)
  {
    hide Addr, Used, Missing, Free;
    MissingSame(sb, s, t, n, lo, hi, SLOTS);
    FreeSame(sb, s.disk, t.disk, sb.size);
  }

  lemma {:induction false} MissingNone(sb: Super, s: State, n: nat, lo: nat, hi: nat, k: nat)
    requires Ok(sb, s) && n < |s.inodes| && k <= SLOTS
    requires forall x :: 0 <= x < SLOTS && Covers(lo, hi, x) ==> Addr(sb, s.disk, s.inodes[n], x) != 0
    ensures Missing(sb, s, n, lo, hi, k) == 0
  {
    hide Addr, Ok, Covers;
    if k > 0 { MissingNone(sb, s, n, lo, hi, k - 1); }
  }

  lemma {:induction false} MissingSome(sb: Super, s: State, n: nat, lo: nat, hi: nat, x: nat, k: nat)
    requires Ok(sb, s) && n < |s.inodes| && x < k <= SLOTS
    requires Covers(lo, hi, x) && Addr(sb, s.disk, s.inodes[n], x) == 0
    ensures Missing(sb, s, n, lo, hi, k) > 0
  {
    hide Addr, Ok, Covers;
    if k > x + 1 { MissingSome(sb, s, n, lo, hi, x, k - 1); }
  }

  lemma {:induction false} MissingLess(sb: Super, s: State, n: nat, lo: nat, h: nat, hi: nat, k: nat)
    requires Ok(sb, s) && n < |s.inodes| && k <= SLOTS && h <= hi
    ensures Missing(sb, s, n, lo, h, k) <= Missing(sb, s, n, lo, hi, k)
  {
    hide Addr, Ok;
    if k > 0 { MissingLess(sb, s, n, lo, h, hi, k - 1); }
  }

  // What has room has room for less.
  lemma FitsLess(sb: Super, s: State, n: nat, off: nat, j: nat, k: nat)
    requires Ok(sb, s) && n < |s.inodes| && j <= k && Fits(sb, s, n, off, k)
    ensures Fits(sb, s, n, off, j)
  {
    hide Missing, Free, Ok;
    BlocksLess(off + j, off + k);
    MissingLess(sb, s, n, BlockNo(off), Blocks(off + j), Blocks(off + k), SLOTS);
  }

  lemma BlocksLess(j: nat, k: nat)
    requires j <= k
    ensures Blocks(j) <= Blocks(k)
  {
  }

  // --- what allocation does to the balance ---

  // Blocks were allocated only for what data blocks lo, ..., hi - 1 of inode n go through.
  ghost predicate Spent(sb: Super, s: State, t: State, n: nat, lo: nat, hi: nat)
  {
    && Ok(sb, s) && Ok(sb, t) && n < |s.inodes| && n < |t.inodes|
    && (forall l: nat, h: nat :: Balance(sb, t, n, l, h) <= Balance(sb, s, n, l, h))
    && (forall l: nat, h: nat :: l <= lo && hi <= h ==> Balance(sb, t, n, l, h) == Balance(sb, s, n, l, h))
  }

  lemma SpentNone(sb: Super, s: State, n: nat, lo: nat, hi: nat)
    requires Ok(sb, s) && n < |s.inodes|
    ensures Spent(sb, s, s, n, lo, hi)
  {
    hide Ok, Balance;
  }

  lemma SpentTrans(sb: Super, s: State, t: State, u: State, n: nat, lo: nat, m: nat, l: nat, hi: nat)
    requires Spent(sb, s, t, n, lo, m) && Spent(sb, t, u, n, l, hi) && lo <= l && m <= hi
    ensures Spent(sb, s, u, n, lo, hi)
  {
    hide Ok, Balance;
  }

  lemma SpentSame(sb: Super, s: State, t: State, u: State, n: nat, lo: nat, hi: nat)
    requires Spent(sb, s, t, n, lo, hi) && Ok(sb, u) && SameSpace(sb, t, u, n)
    ensures Spent(sb, s, u, n, lo, hi)
  {
    hide Balance, SameSpace;
    InRange(sb, t, u, n);
    forall l: nat, h: nat ensures Balance(sb, u, n, l, h) == Balance(sb, t, n, l, h) {
      BalanceSame(sb, t, u, n, l, h);
    }
  }

  lemma InRange(sb: Super, s: State, t: State, n: nat)
    requires Ok(sb, s) && Ok(sb, t) && SameSpace(sb, s, t, n)
    ensures n < |s.inodes| && n < |t.inodes|
  {
  }

  // balloc took block b for slot x of inode n.
  lemma SpentSlot(sb: Super, s: State, t: State, n: nat, x: nat, b: nat, lo: nat, hi: nat)
    requires Ok(sb, s) && Ok(sb, t) && Filled(sb, s, t, n, x) && b < sb.size && !Used(sb, s.disk, b)
    requires forall y :: 0 <= y < sb.size ==> (Used(sb, t.disk, y) <==> y == b || Used(sb, s.disk, y))
    requires Covers(lo, hi, x)
    ensures Spent(sb, s, t, n, lo, hi)
  {
    hide Used, Addr, Missing, Free, InodeOk;
    FreeTaken(sb, s.disk, t.disk, b, sb.size);
    forall l: nat, h: nat
      ensures Balance(sb, t, n, l, h) == Balance(sb, s, n, l, h) - if Covers(l, h, x) then 0 else 1
    {
      MissingFilled(sb, s, t, n, x, l, h, SLOTS);
    }
  }

  lemma SpentDirect(sb: Super, s: State, owner: Owner, n: nat, x: nat, b: nat, lo: nat, hi: nat)
    requires Ok(sb, s) && Consistent(sb, s.disk, s.inodes, owner, {})
    requires n < |s.inodes| && x <= NDIRECT && s.inodes[n].addrs[x] == 0 && b < sb.size && !Used(sb, s.disk, b)
    requires Covers(lo, hi, x)
    ensures Spent(sb, s, TakenDirect(sb, s, n, x, b), n, lo, hi)
  {
    hide Spent, Mapped, Extends;
    TakeDirect(sb, s, owner, n, x, b);
    AllocateKeeps(sb, s.disk, s.inodes, owner, b);
    AllocateDisk(sb, s.disk, b);
    hide Allocate, Consistent, Used;
    SpentSlot(sb, s, TakenDirect(sb, s, n, x, b), n, x, b, lo, hi);
  }

  lemma SpentEntry(sb: Super, s: State, owner: Owner, n: nat, j: nat, b: nat, lo: nat, hi: nat)
    requires Ok(sb, s) && Consistent(sb, s.disk, s.inodes, owner, {})
    requires n < |s.inodes| && j < NINDIRECT && s.inodes[n].addrs[NDIRECT] != 0
    requires Addr(sb, s.disk, s.inodes[n], NDIRECT + 1 + j) == 0 && b < sb.size && !Used(sb, s.disk, b)
    requires Covers(lo, hi, NDIRECT + 1 + j)
    ensures Spent(sb, s, TakenEntry(sb, s, n, j, b), n, lo, hi)
  {
    hide Spent, Mapped, Extends;
    TakeEntry(sb, s, owner, n, j, b);
    AllocateKeeps(sb, s.disk, s.inodes, owner, b);
    AllocateDisk(sb, s.disk, b);
    EntryUsed(sb, s, n, j, b);
    hide Allocate, Consistent, Used, Addr;
    SpentSlot(sb, s, TakenEntry(sb, s, n, j, b), n, NDIRECT + 1 + j, b, lo, hi);
  }

  // The word in the indirect block does not touch the free map.
  lemma EntryUsed(sb: Super, s: State, n: nat, j: nat, b: nat)
    requires Ok(sb, s) && n < |s.inodes| && j < NINDIRECT && s.inodes[n].addrs[NDIRECT] != 0
    requires sb.meta <= b < sb.size && DiskOk(sb, Allocate(sb, s.disk, b)) && Ok(sb, TakenEntry(sb, s, n, j, b))
    ensures forall y :: 0 <= y < sb.size
              ==> (Used(sb, TakenEntry(sb, s, n, j, b).disk, y) <==> Used(sb, Allocate(sb, s.disk, b), y))
  {
    hide Allocate;
    var d, i := Allocate(sb, s.disk, b), s.inodes[n].addrs[NDIRECT];
    SetWordBlock(d[i], j, b);
    forall y | 0 <= y < sb.size
      ensures Used(sb, TakenEntry(sb, s, n, j, b).disk, y) <==> Used(sb, d, y)
    {
      UsedFrame(sb, d, i, SetWord(d[i], j, b), y);
    }
  }

  // --- one slot ---

  // The slot stays as it is.
  lemma SlotKept(sb: Super, s: State, owner: Owner, l: set<nat>, x: set<int>, n: nat, lo: nat, hi: nat)
    requires Consistent(sb, s.disk, s.inodes, owner, {}) && n < |s.inodes|
    ensures Ok(sb, s) && |s.inodes[n].addrs| == NDIRECT + 1
    ensures forall y :: 0 <= y <= NDIRECT ==> Addr(sb, s.disk, s.inodes[n], y) == s.inodes[n].addrs[y]
    ensures Extends(sb, s, owner, s, owner, n) && Logs(sb, l, l, x) && Covered(s.disk, s.disk, l)
    ensures Spent(sb, s, s, n, lo, hi)
  {
    ExtendsRefl(sb, s, owner, n);
    SpentNone(sb, s, n, lo, hi);
  }

  lemma DirectLogs(sb: Super, s: State, l: set<nat>, n: nat, x: nat, b: nat)
    requires Ok(sb, s) && n < |s.inodes| && x <= NDIRECT && 0 < b < sb.size
    ensures var l' := l + {MapBlock(sb, b), b};
            Logs(sb, l, l', {b}) && Covered(s.disk, TakenDirect(sb, s, n, x, b).disk, l')
  {
    LogsTake(sb, l, b);
  }

  // A word of the indirect block.
  lemma IndirectWord(sb: Super, s: State, owner: Owner, n: nat, j: nat)
    requires Consistent(sb, s.disk, s.inodes, owner, {}) && n < |s.inodes| && j < NINDIRECT
    requires |s.inodes[n].addrs| == NDIRECT + 1 ==> s.inodes[n].addrs[NDIRECT] != 0
    ensures Ok(sb, s) && |s.inodes[n].addrs| == NDIRECT + 1
    ensures var i := s.inodes[n].addrs[NDIRECT];
            && i == Addr(sb, s.disk, s.inodes[n], NDIRECT) && 0 < i < |s.disk| && |s.disk[i]| == BSIZE
            && Addr(sb, s.disk, s.inodes[n], NDIRECT + 1 + j) == Word(s.disk[i], j)
  {
  }

  lemma SlotDirect(sb: Super, s: State, owner: Owner, l: set<nat>, n: nat, x: nat, b: nat, lo: nat, hi: nat)
    requires Ok(sb, s) && Consistent(sb, s.disk, s.inodes, owner, {})
    requires n < |s.inodes| && x <= NDIRECT && s.inodes[n].addrs[x] == 0 && 0 < b < sb.size && !Used(sb, s.disk, b)
    requires Covers(lo, hi, x)
    ensures var t := TakenDirect(sb, s, n, x, b);
            var o, l' := owner[b := Slot(n, x)], l + {MapBlock(sb, b), b};
            && Ok(sb, t) && Consistent(sb, t.disk, t.inodes, o, {}) && Extends(sb, s, owner, t, o, n)
            && (forall y :: 0 <= y < SLOTS
                  ==> Addr(sb, t.disk, t.inodes[n], y) == if y == x then b else Addr(sb, s.disk, s.inodes[n], y))
            && Logs(sb, l, l', {b}) && Covered(s.disk, t.disk, l') && Spent(sb, s, t, n, lo, hi)
  {
    hide Covers, Used, Extends, Consistent, Logs, Covered, Spent, Addr, Allocate, TakenDirect, Ok;
    DirectLogs(sb, s, l, n, x, b);
    TakeDirect(sb, s, owner, n, x, b);
    SpentDirect(sb, s, owner, n, x, b, lo, hi);
  }

  lemma EntryLogs(sb: Super, s: State, l: set<nat>, n: nat, j: nat, b: nat)
    requires Ok(sb, s) && n < |s.inodes| && j < NINDIRECT && s.inodes[n].addrs[NDIRECT] != 0 && 0 < b < sb.size
    ensures var i := s.inodes[n].addrs[NDIRECT];
            var l' := l + {MapBlock(sb, b), b} + {i};
            0 <= i && Logs(sb, l, l', {b, i}) && Covered(s.disk, TakenEntry(sb, s, n, j, b).disk, l')
  {
    hide SetBit, Zeros;
    var i := s.inodes[n].addrs[NDIRECT];
    LogsTake(sb, l, b);
    LogsMore(sb, l, l + {MapBlock(sb, b), b}, {b}, i);
    assert {b} + {i} == {b, i};
  }

  lemma SlotEntry(sb: Super, s: State, owner: Owner, l: set<nat>, n: nat, j: nat, b: nat)
    requires Ok(sb, s) && Consistent(sb, s.disk, s.inodes, owner, {})
    requires n < |s.inodes| && j < NINDIRECT && s.inodes[n].addrs[NDIRECT] != 0
    requires Addr(sb, s.disk, s.inodes[n], NDIRECT + 1 + j) == 0 && 0 < b < sb.size && !Used(sb, s.disk, b)
    ensures var i := s.inodes[n].addrs[NDIRECT];
            var d := Allocate(sb, s.disk, b);
            && 0 < i < |d| && 4 * j + 4 <= |d[i]|
            && TakenEntry(sb, s, n, j, b) == State(d[i := SetWord(d[i], j, b)], s.inodes)
    ensures var t := TakenEntry(sb, s, n, j, b);
            var o, i := owner[b := Slot(n, NDIRECT + 1 + j)], s.inodes[n].addrs[NDIRECT];
            var l' := l + {MapBlock(sb, b), b} + {i};
            && Ok(sb, t) && Consistent(sb, t.disk, t.inodes, o, {}) && Extends(sb, s, owner, t, o, n)
            && Addr(sb, t.disk, t.inodes[n], NDIRECT + 1 + j) == b
            && Logs(sb, l, l', {b, i}) && Covered(s.disk, t.disk, l')
            && Spent(sb, s, t, n, NDIRECT + j, NDIRECT + j + 1)
  {
    hide Used, Extends, Consistent, Logs, Covered, Spent, Addr, SetWord, Allocate, TakenEntry, Ok;
    EntryLogs(sb, s, l, n, j, b);
    TakeEntry(sb, s, owner, n, j, b);
    SpentEntry(sb, s, owner, n, j, b, NDIRECT + j, NDIRECT + j + 1);
  }

  // --- the end of a write ---

  // How writei stopped after r of len bytes: the next block was needed and the disk was full,
  // or everything was written.
  ghost predicate Stopped(sb: Super, s: State, t: State, n: nat, off: nat, r: nat, len: nat) {
    if r < len then FullDisk(sb, t.disk) && NoBlock(sb, t, n, off, r) && Spent(sb, s, t, n, BlockNo(off), BlockNo(off + r) + 1)
    else Spent(sb, s, t, n, BlockNo(off), Blocks(off + r))
  }

  // Copying bytes into a data block allocates nothing.
  lemma PatchSpace(sb: Super, s0: State, l0: set<nat>, s: State, owner: Owner, logged: set<nat>,
                   n: nat, off: nat, src: seq<int>, tot: nat, a: nat, k: nat)
    requires Progress(sb, s0, l0, s, owner, logged, n, off, src, tot)
    requires 0 < k && tot + k <= |src| && BlockAt(off + tot) + k <= BSIZE
    requires NextBlock(sb, s, n, off, src, tot, a)
    ensures a < |s.disk| && |s.disk[a]| == BSIZE
    ensures var u := State(s.disk[a := Patch(s.disk[a], BlockAt(off + tot), src[tot..tot + k])], s.inodes);
            Ok(sb, u) && SameSpace(sb, s, u, n)
  {
    ProgressFacts(sb, s0, l0, s, owner, logged, n, off, src, tot);
    CopiedShape(sb, s, owner, n, off, src, tot, k);
    hide Progress, Consistent, Written, Logs, Extra, Addr, Used, Patch, Covered, BlockNo, BlockAt, Blocks;
    var u := Copied(sb, s, n, off, src, tot, k);
    assert IsBlock(u.disk[a]);
    forall b | 0 <= b < sb.size ensures Used(sb, u.disk, b) <==> Used(sb, s.disk, b) {
      UsedFrame(sb, s.disk, a, u.disk[a], b);
    }
  }

  lemma StoppedStart(sb: Super, s: State, n: nat, off: nat)
    requires Ok(sb, s) && n < |s.inodes|
    ensures Stopped(sb, s, s, n, off, 0, 0)
  {
    SpentNone(sb, s, n, BlockNo(off), Blocks(off));
  }

  // One more pass of the loop, which copied m bytes, or none because the disk was full.
  lemma StoppedPass(sb: Super, s: State, t: State, u: State, n: nat, off: nat, tot: nat, m: nat, len: nat)
    requires Stopped(sb, s, t, n, off, tot, tot) && BlockAt(off + tot) + m <= BSIZE && tot < len
    requires Spent(sb, t, u, n, BlockNo(off + tot), BlockNo(off + tot) + 1)
    requires m == 0 ==> FullDisk(sb, u.disk) && NoBlock(sb, u, n, off, tot)
    ensures if m == 0 then Stopped(sb, s, u, n, off, tot, len) else Stopped(sb, s, u, n, off, tot + m, tot + m)
  {
    assert BlockNo(off) <= BlockNo(off + tot) && Blocks(off + tot) <= BlockNo(off + tot) + 1;
    assert m > 0 ==> Blocks(off + tot + m) == BlockNo(off + tot) + 1;
    hide Spent, FullDisk, NoBlock, BlockNo, BlockAt, Blocks;
    SpentTrans(sb, s, t, u, n, BlockNo(off), Blocks(off + tot), BlockNo(off + tot), BlockNo(off + tot) + 1);
  }

  lemma StoppedResize(sb: Super, s: State, t: State, owner: Owner, n: nat, off: nat, r: nat, len: nat, end: nat)
    requires Stopped(sb, s, t, n, off, r, len) && n < |t.inodes|
    requires Consistent(sb, t.disk, t.inodes, owner, {})
    ensures Stopped(sb, s, Resize(t, n, end), n, off, r, len)
  {
    hide Spent, FullDisk, BlockNo, Blocks;
    var u := Resize(t, n, end);
    ResizeKeeps(sb, t, owner, n, end);
    assert forall y :: 0 <= y < SLOTS ==> Addr(sb, u.disk, u.inodes[n], y) == Addr(sb, t.disk, t.inodes[n], y);
    SpentSame(sb, s, t, u, n, BlockNo(off), if r < len then BlockNo(off + r) + 1 else Blocks(off + r));
  }

  /** The bytes that writei wrote are exactly as many as there was room for. */
  lemma StoppedExact(sb: Super, s: State, t: State, n: nat, off: nat, src: seq<int>, r: nat)
    requires Wrote(sb, s, t, n, off, src, r) && Stopped(sb, s, t, n, off, r, |src|) && off + |src| <= MAXFILE * BSIZE
    ensures Fits(sb, s, n, off, r) && (r < |src| ==> !Fits(sb, s, n, off, r + 1))
    ensures r == |src| <==> Fits(sb, s, n, off, |src|)
  {
    WroteFacts(sb, s, t, n, off, src, r);
    hide Spent, FullDisk, Addr, Fits, Content, Wrote, Splice;
    FitsDone(sb, s, t, n, off, r, if r < |src| then BlockNo(off + r) + 1 else Blocks(off + r));
    if r < |src| {
      FitsNot(sb, s, t, n, off, r);
      if Fits(sb, s, n, off, |src|) { FitsLess(sb, s, n, off, r + 1, |src|); }
    }
  }

  // All blocks of the range are there: what was asked for did fit.
  lemma FitsDone(sb: Super, s: State, t: State, n: nat, off: nat, w: nat, hi: nat)
    requires Spent(sb, s, t, n, BlockNo(off), hi) && off + w <= MAXFILE * BSIZE
    requires off <= t.inodes[n].size && off + w <= t.inodes[n].size && NoHoles(sb, t.disk, t.inodes[n], t.inodes[n].size)
    ensures Fits(sb, s, n, off, w)
  {
    var lo, h := BlockNo(off), Blocks(off + w);
    forall x | 0 <= x < SLOTS && Covers(lo, h, x) ensures Addr(sb, t.disk, t.inodes[n], x) != 0 {
      var bn := if x < NDIRECT then x else if x == NDIRECT then h - 1 else x - 1;
      assert bn < h && bn * BSIZE < off + w && Addr(sb, t.disk, t.inodes[n], DataSlot(bn)) != 0;
    }
    hide Covers, Addr, NoHoles, Free;
    MissingNone(sb, t, n, lo, h, SLOTS);
  }

  // The disk was full when block bn was asked for.
  lemma FitsNot(sb: Super, s: State, t: State, n: nat, off: nat, w: nat)
    requires Spent(sb, s, t, n, BlockNo(off), BlockNo(off + w) + 1) && off + w < MAXFILE * BSIZE
    requires FullDisk(sb, t.disk) && Addr(sb, t.disk, t.inodes[n], DataSlot(BlockNo(off + w))) == 0
    ensures !Fits(sb, s, n, off, w + 1)
  {
    var x, lo, hi := DataSlot(BlockNo(off + w)), BlockNo(off), BlockNo(off + w) + 1;
    assert Blocks(off + w + 1) == hi && Covers(lo, hi, x);
    hide Covers, Addr, Free;
    FreeNone(sb, t.disk, sb.size);
    MissingSome(sb, t, n, lo, hi, x, SLOTS);
  }

  // --- several writes in a row ---

  // The first w bytes of a write at off are done, and blocks were allocated for them only.
  ghost predicate FileDone(sb: Super, s: State, t: State, n: nat, off: nat, src: seq<int>, w: nat) {
    FileWrote(sb, s, t, n, off, src, w) && (off <= s.inodes[n].size ==> Stopped(sb, s, t, n, off, w, w))
  }

  // A write at off ended after w < |src| bytes.
  ghost predicate FileHalted(sb: Super, s: State, t: State, n: nat, off: nat, src: seq<int>, w: nat) {
    && FileWrote(sb, s, t, n, off, src, w) && w < |src|
    && (off <= s.inodes[n].size && off + |src| <= MAXFILE * BSIZE ==> Stopped(sb, s, t, n, off, w, |src|))
  }

  lemma FileStart(sb: Super, s: State, owner: Owner, n: nat, off: nat, src: seq<int>)
    requires Consistent(sb, s.disk, s.inodes, owner, {}) && Complete(sb, s.disk, s.inodes) && n < |s.inodes|
    ensures FileDone(sb, s, s, n, off, src, 0)
  {
    hide Consistent, Complete, Wrote;
    ConsistentOk(sb, s, owner);
    StoppedStart(sb, s, n, off);
    if off <= s.inodes[n].size { WroteNone(sb, s, n, off, src); }
  }

  lemma StoppedChunk(sb: Super, s: State, t: State, u: State, n: nat, off: nat, i: nat, r: nat, n1: nat, len: nat)
    requires Stopped(sb, s, t, n, off, i, i) && Stopped(sb, t, u, n, off + i, r, n1) && r <= n1 && i + n1 <= len
    ensures Stopped(sb, s, u, n, off, i + r, if r < n1 then len else i + r)
  {
    var top := if r < n1 then BlockNo(off + i + r) + 1 else Blocks(off + i + r);
    assert BlockNo(off) <= BlockNo(off + i) && Blocks(off + i) <= top;
    assert off + i + r == off + (i + r);
    hide Spent, FullDisk, NoBlock, BlockNo, Blocks;
    SpentTrans(sb, s, t, u, n, BlockNo(off), Blocks(off + i), BlockNo(off + i), top);
  }

  // One more call of writei, with the piece src[i..j].
  lemma FileChunk(sb: Super, s: State, t: State, u: State, n: nat, off: nat, src: seq<int>, i: nat, j: nat, r: int)
    requires FileDone(sb, s, t, n, off, src, i) && i < j <= |src| && n < |t.inodes|
    requires r == -1 <==> Refused(t.inodes[n].size, off + i, j - i)
    requires r == -1 ==> u == t
    requires r != -1 ==> Wrote(sb, t, u, n, off + i, src[i..j], r) && Stopped(sb, t, u, n, off + i, r, j - i)
    requires j - i <= CHUNK && (off + i < UINT32 || off <= s.inodes[n].size)
    ensures -1 <= r <= j - i && n < |u.inodes| && FileWrote(sb, s, u, n, off, src, if r > 0 then i + r else i)
    ensures if r == j - i then FileDone(sb, s, u, n, off, src, j)
            else FileHalted(sb, s, u, n, off, src, if r > 0 then i + r else i)
    ensures r == -1 <==> off > s.inodes[n].size || off + j > MAXFILE * BSIZE
    ensures off <= s.inodes[n].size ==> off + (if r > 0 then i + r else i) <= MAXFILE * BSIZE
  {
    hide Wrote, Stopped;
    FileWroteMore(sb, s, t, u, n, off, src, i, j, r);
    if off <= s.inodes[n].size && r != -1 { StoppedChunk(sb, s, t, u, n, off, i, r, j - i, |src|); }
  }

  // The condition on which a write succeeds, in terms of the state before it: the range is not
  // refused, and there are as many free blocks as the range has slots without one.
  predicate Writable(sb: Super, s: State, n: nat, off: nat, len: nat)
    requires Ok(sb, s) && n < |s.inodes|
  {
    len == 0 || (off <= s.inodes[n].size && off + len <= MAXFILE * BSIZE && Fits(sb, s, n, off, len))
  }

  // How far a write gets whose range is not refused.
  ghost predicate Longest(sb: Super, s: State, n: nat, off: nat, len: nat, w: nat)
    requires Ok(sb, s) && n < |s.inodes|
  {
    Fits(sb, s, n, off, w) && (w < len ==> !Fits(sb, s, n, off, w + 1))
  }

  lemma FileExact(sb: Super, s: State, t: State, n: nat, off: nat, src: seq<int>, w: nat)
    requires Ok(sb, s) && n < |s.inodes|
    requires if w == |src| then FileDone(sb, s, t, n, off, src, w) else FileHalted(sb, s, t, n, off, src, w)
    ensures w == |src| <==> Writable(sb, s, n, off, |src|)
    ensures off <= s.inodes[n].size && off + |src| <= MAXFILE * BSIZE ==> Longest(sb, s, n, off, |src|, w)
  {
    hide Wrote, Stopped, Fits, Ok;
    if off <= s.inodes[n].size {
      WroteFits(sb, s, t, n, off, src, w);
      if off + |src| <= MAXFILE * BSIZE { StoppedExact(sb, s, t, n, off, src, w); }
    }
  }

  lemma WroteFits(sb: Super, s: State, t: State, n: nat, off: nat, src: seq<int>, w: nat)
    requires Wrote(sb, s, t, n, off, src, w)
    ensures off + w <= MAXFILE * BSIZE
  {
    WroteFacts(sb, s, t, n, off, src, w);
  }
}
