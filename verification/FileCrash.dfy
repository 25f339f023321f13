/**
 A crash in the middle of filewrite (kernel/file.c on kernel/log.c): whatever reached the disk,
 recovery leaves the files, as they are read back from the disk, after some of the transactions
 and nothing of the others.
 */
module FileCrash {
  import opened Basics
  import opened Params
  import opened Words
  import opened FsSpec
  import opened FsFiles
  import opened File
  import L = LogSpec
  import C = LogCrash

  // --- inodes on disk ---

  // An inode takes 16 of the 256 words of its block: its size is the third, the addresses are
  // those after it; the first two hold its type and link count.
  const IWORDS: nat := 16

  function InodeAt(m: nat): nat { IWORDS * (m % (BSIZE / 64)) }

  // ilock: the inode in slot m of its block.
  function GetInode(b: L.Block, m: nat): Inode {
    if |b| == L.WORDS && b[InodeAt(m) + 2] >= 0
    then Inode(b[InodeAt(m) + 2], b[InodeAt(m) + 3..InodeAt(m) + IWORDS])
    else Inode(0, [])
  }

  // iupdate: the size and the addresses of the inode replace those in its slot.
  function PutInode(b: L.Block, m: nat, ino: Inode): L.Block {
    if |b| == L.WORDS && |ino.addrs| == NDIRECT + 1
    then b[..InodeAt(m) + 2] + [ino.size] + ino.addrs + b[InodeAt(m) + IWORDS..]
    else b
  }

  // What was put is read back, the other inodes of the block are as before, and so is the type.
  lemma GetOfPut(b: L.Block, n: nat, ino: Inode, m: nat)
    requires |b| == L.WORDS && |ino.addrs| == NDIRECT + 1
    ensures |PutInode(b, n, ino)| == L.WORDS
    ensures GetInode(PutInode(b, n, ino), m) == if m % (BSIZE / 64) == n % (BSIZE / 64) then ino else GetInode(b, m)
    ensures PutInode(b, n, ino)[InodeAt(m)..InodeAt(m) + 2] == b[InodeAt(m)..InodeAt(m) + 2]
  {
    var p, i, j := PutInode(b, n, ino), InodeAt(n), InodeAt(m);
    if i == j {
      assert p[i + 3..i + IWORDS] == ino.addrs;
      assert p[i..i + 2] == b[i..i + 2];
    } else {
      assert forall x :: j <= x < j + IWORDS ==> p[x] == b[x];
      assert p[j + 3..j + IWORDS] == b[j + 3..j + IWORDS] && p[j..j + 2] == b[j..j + 2];
    }
  }

  function BlockOf(d: L.Disk, b: int): L.Block { if 0 <= b < |d| then d[b] else [] }

  // Inode m as the disk has it.
  function ReadInode(sb: Super, d: L.Disk, m: nat): Inode { GetInode(BlockOf(d, InodeBlock(sb, m)), m) }

  // --- files on disk ---

  // The number of data block bn of a file, 0 for none: through the inode and its indirect block.
  function ReadAddr(d: L.Disk, ino: Inode, bn: nat): int {
    if |ino.addrs| != NDIRECT + 1 then 0
    else if bn < NDIRECT then ino.addrs[bn]
    else if ino.addrs[NDIRECT] == 0 then 0
    else
      var b := BlockOf(d, ino.addrs[NDIRECT]);
      if 4 * (bn - NDIRECT) + 4 <= |b| then Word(b, bn - NDIRECT) else 0
  }

  // The bytes of file m, read from the disk alone.
  function ReadFile(sb: Super, d: L.Disk, m: nat): (c: seq<int>)
    ensures |c| == ReadInode(sb, d, m).size
  {
    var ino := ReadInode(sb, d, m);
    seq(ino.size, i requires 0 <= i < ino.size => ByteOf(d, ReadAddr(d, ino, i / BSIZE), i % BSIZE))
  }

  // --- what a disk holds ---

  predicate HasInode(sb: Super, count: nat, b: nat) { exists m :: 0 <= m < count && InodeBlock(sb, m) == b }

  // Disk d holds state s: the inodes in their blocks, and outside the log all other blocks.
  ghost predicate Holds(g: L.Region, sb: Super, s: FsFiles.State, d: L.Disk) {
    && |d| == |s.disk|
    && (forall m :: 0 <= m < |s.inodes| ==> HoldsInode(sb, s, d, m))
    && (forall b :: 0 <= b < |d| && !L.InLog(g, b) && !HasInode(sb, |s.inodes|, b) ==> d[b] == s.disk[b])
  }

  predicate HoldsInode(sb: Super, s: FsFiles.State, d: L.Disk, m: nat)
    requires m < |s.inodes|
  {
    |BlockOf(d, InodeBlock(sb, m))| == L.WORDS && ReadInode(sb, d, m) == s.inodes[m]
  }

  // The disk begins with the log, the inodes and the free map, apart from each other.
  ghost predicate Layout(g: L.Region, sb: Super, count: nat) {
    && sb.size > 0 && g.start + g.size <= sb.meta <= sb.size && sb.bmapstart + (sb.size - 1) / BPB < sb.meta
    && ChunkLog(sb) <= LOGSIZE && ChunkLog(sb) < g.size
    && (forall m :: 0 <= m < count ==> InodeApart(g, sb, m))
    && (forall b :: L.InLog(g, b) ==> !IsMapBlock(sb, b))
  }

  predicate InodeApart(g: L.Region, sb: Super, m: nat) {
    var b := InodeBlock(sb, m);
    b < sb.meta && !L.InLog(g, b) && !IsMapBlock(sb, b)
  }

  // Data blocks are where the state has them.
  lemma DataHeld(g: L.Region, sb: Super, s: FsFiles.State, d: L.Disk, b: nat)
    requires Layout(g, sb, |s.inodes|) && Holds(g, sb, s, d) && sb.meta <= b < |d|
    ensures d[b] == s.disk[b]
  {
    forall m | 0 <= m < |s.inodes| ensures InodeBlock(sb, m) < sb.meta { assert InodeApart(g, sb, m); }
  }

  lemma AddrHeld(g: L.Region, sb: Super, s: FsFiles.State, owner: Owner, d: L.Disk, m: nat, bn: nat)
    requires Layout(g, sb, |s.inodes|) && Holds(g, sb, s, d) && m < |s.inodes| && bn < MAXFILE
    requires Consistent(sb, s.disk, s.inodes, owner, {}) && Addr(sb, s.disk, s.inodes[m], DataSlot(bn)) != 0
    ensures ReadAddr(d, ReadInode(sb, d, m), bn) == Addr(sb, s.disk, s.inodes[m], DataSlot(bn))
    ensures sb.meta <= Addr(sb, s.disk, s.inodes[m], DataSlot(bn)) < |d|
  {
    assert HoldsInode(sb, s, d, m);
    assert Addr(sb, s.disk, s.inodes[m], DataSlot(bn)) in owner;
    var i := s.inodes[m].addrs[NDIRECT];
    if bn >= NDIRECT {
      assert Addr(sb, s.disk, s.inodes[m], NDIRECT) == i;
      DataHeld(g, sb, s, d, i);
    }
  }

  // What is read from the disk is the contents of the file.
  lemma FileHeld(g: L.Region, sb: Super, s: FsFiles.State, owner: Owner, d: L.Disk, m: nat)
    requires Layout(g, sb, |s.inodes|) && Holds(g, sb, s, d) && m < |s.inodes|
    requires Consistent(sb, s.disk, s.inodes, owner, {}) && Complete(sb, s.disk, s.inodes)
    ensures s.inodes[m].size <= MAXFILE * BSIZE && ReadFile(sb, d, m) == Content(sb, s.disk, s.inodes[m])
  {
    hide Layout, Consistent, Complete, Addr;
    SizeBound(sb, s, owner, m);
    assert HoldsInode(sb, s, d, m);
    var c := Content(sb, s.disk, s.inodes[m]);
    forall i | 0 <= i < s.inodes[m].size ensures ReadFile(sb, d, m)[i] == c[i] {
      SizeHasBlock(sb, s, owner, m, i);
      AddrHeld(g, sb, s, owner, d, m, BlockNo(i));
      DataHeld(g, sb, s, d, Addr(sb, s.disk, s.inodes[m], DataSlot(BlockNo(i))));
    }
  }

  // --- a transaction of filewrite as one of the log ---

  // The blocks in some order.
  ghost function Listed(blocks: set<nat>): (q: seq<nat>)
    ensures Distinct(q) && |q| == |blocks| && forall b :: b in q <==> b in blocks
    decreases |blocks|
  {
    if blocks == {} then [] else
      var b :| b in blocks;
      [b] + Listed(blocks - {b})
  }

  // What block b has in its buffer when transaction t on file n ends; d are the contents before.
  function Buffered(sb: Super, n: nat, t: Transaction, d: L.Disk, b: nat): L.Block
    requires n < |t.after.inodes|
  {
    if b == InodeBlock(sb, n) then PutInode(BlockOf(d, b), n, t.after.inodes[n]) else BlockOf(t.after.disk, b)
  }

  ghost function LogTxn(sb: Super, n: nat, t: Transaction, d: L.Disk): (r: L.Txn)
    requires n < |t.after.inodes|
    ensures |r.home| == |r.data|
  {
    var home := Listed(t.logged);
    L.Txn(home, seq(|home|, i requires 0 <= i < |home| => Buffered(sb, n, t, d, home[i])))
  }

  ghost predicate FitsLog(g: L.Region, sb: Super, n: nat, t: Transaction) {
    n < |t.after.inodes| && L.ValidHomes(g, sb.size, Listed(t.logged))
  }

  lemma TxnFits(g: L.Region, sb: Super, n: nat, t: Transaction)
    requires Layout(g, sb, |t.after.inodes|) && n < |t.after.inodes| && |t.logged| <= ChunkLog(sb)
    requires forall b :: b in t.logged ==> InFiles(sb, n, b)
    ensures FitsLog(g, sb, n, t)
  {
    var home := Listed(t.logged);
    assert InodeApart(g, sb, n);
    forall i | 0 <= i < |home| ensures home[i] < sb.size && !L.InLog(g, home[i]) {
      assert home[i] in home;
      assert InFiles(sb, n, home[i]);
    }
  }

  // The disk once the transaction is installed, block by block.
  lemma EffectAt(g: L.Region, sb: Super, n: nat, t: Transaction, d: L.Disk, b: nat)
    requires FitsLog(g, sb, n, t) && b < |d|
    ensures L.Effect(d, LogTxn(sb, n, t, d))[b] == if b in t.logged then Buffered(sb, n, t, d, b) else d[b]
  {
    var x := LogTxn(sb, n, t, d);
    if b in t.logged {
      var i :| 0 <= i < |x.home| && x.home[i] == b;
      C.LookupHit(x, i, d[b]);
    } else {
      C.LookupMiss(x, b, d[b]);
    }
  }

  // The inodes are those after the transaction.
  lemma EffectInode(g: L.Region, sb: Super, s: FsFiles.State, n: nat, t: Transaction, d: L.Disk, m: nat)
    requires Layout(g, sb, |s.inodes|) && Holds(g, sb, s, d) && Recorded(sb, s, t.after, t.logged) && FitsLog(g, sb, n, t)
    requires InodeOk(sb, t.after.inodes[n]) && t.after.inodes == s.inodes[n := t.after.inodes[n]] && m < |s.inodes|
    requires |d| == sb.size && forall b :: b in t.logged ==> InFiles(sb, n, b)
    ensures HoldsInode(sb, t.after, L.Effect(d, LogTxn(sb, n, t, d)), m)
  {
    var b := InodeBlock(sb, m);
    assert InodeApart(g, sb, m) && HoldsInode(sb, s, d, m);
    assert b in t.logged ==> InFiles(sb, n, b);
    EffectAt(g, sb, n, t, d, b);
    if b == InodeBlock(sb, n) {
      SameSlot(sb, m, n);
      GetOfPut(d[b], n, t.after.inodes[n], m);
    }
  }

  // Two inodes in one block have different slots there.
  lemma SameSlot(sb: Super, m: nat, n: nat)
    requires InodeBlock(sb, m) == InodeBlock(sb, n)
    ensures m % (BSIZE / 64) == n % (BSIZE / 64) <==> m == n
  {
  }

  // The effect of the log's transaction is the step of the file system.
  lemma EffectHolds(g: L.Region, sb: Super, s: FsFiles.State, n: nat, t: Transaction, d: L.Disk)
    requires Layout(g, sb, |s.inodes|) && Holds(g, sb, s, d) && Recorded(sb, s, t.after, t.logged) && FitsLog(g, sb, n, t)
    requires InodeOk(sb, t.after.inodes[n]) && t.after.inodes == s.inodes[n := t.after.inodes[n]]
    requires |d| == sb.size && forall b :: b in t.logged ==> InFiles(sb, n, b)
    ensures Holds(g, sb, t.after, L.Effect(d, LogTxn(sb, n, t, d)))
  {
    hide Layout, HoldsInode, L.Effect, LogTxn, L.ValidHomes;
    var e := L.Effect(d, LogTxn(sb, n, t, d));
    forall m | 0 <= m < |s.inodes| ensures HoldsInode(sb, t.after, e, m) { EffectInode(g, sb, s, n, t, d, m); }
    forall b | 0 <= b < |d| && !L.InLog(g, b) && !HasInode(sb, |s.inodes|, b) ensures e[b] == t.after.disk[b] {
      EffectAt(g, sb, n, t, d, b);
      assert b != InodeBlock(sb, n);
    }
  }

  // --- all of them ---

  ghost predicate Fit(g: L.Region, sb: Super, n: nat, txns: seq<Transaction>) {
    forall k :: 0 <= k < |txns| ==> FitsLog(g, sb, n, txns[k])
  }

  // The contents of all blocks after the first k transactions.
  ghost function DiskAt(g: L.Region, sb: Super, n: nat, txns: seq<Transaction>, d: L.Disk, k: nat): (e: L.Disk)
    requires Fit(g, sb, n, txns) && k <= |txns|
    ensures |e| == |d|
  {
    if k == 0 then d else
      var e := DiskAt(g, sb, n, txns, d, k - 1);
      assert FitsLog(g, sb, n, txns[k - 1]);
      L.Effect(e, LogTxn(sb, n, txns[k - 1], e))
  }

  ghost function LogTxns(g: L.Region, sb: Super, n: nat, txns: seq<Transaction>, d: L.Disk): (r: seq<L.Txn>)
    requires Fit(g, sb, n, txns)
    ensures |r| == |txns|
    ensures forall k :: 0 <= k < |txns| ==> FitsLog(g, sb, n, txns[k]) && r[k] == LogTxn(sb, n, txns[k], DiskAt(g, sb, n, txns, d, k))
  {
    seq(|txns|, k requires 0 <= k < |txns| =>
      assert FitsLog(g, sb, n, txns[k]); LogTxn(sb, n, txns[k], DiskAt(g, sb, n, txns, d, k)))
  }

  lemma TxnsValid(g: L.Region, sb: Super, n: nat, txns: seq<Transaction>, d: L.Disk)
    requires Fit(g, sb, n, txns)
    ensures L.ValidTxns(g, sb.size, LogTxns(g, sb, n, txns, d))
  {
    var ts := LogTxns(g, sb, n, txns, d);
    forall k | 0 <= k < |ts| ensures L.ValidTxn(g, sb.size, ts[k]) { assert FitsLog(g, sb, n, txns[k]); }
  }

  lemma {:induction false} AllFit(g: L.Region, sb: Super, s: FsFiles.State, n: nat, off: nat, src: seq<int>, w: nat,
                                  txns: seq<Transaction>, k: nat)
    requires Layout(g, sb, |s.inodes|) && Transactions(sb, s, n, off, src, w, txns) && k <= |txns|
    ensures |After(s, txns, k).inodes| == |s.inodes| && Fit(g, sb, n, txns[..k])
  {
    hide Layout, FitsLog, Transacted;
    if k > 0 {
      AllFit(g, sb, s, n, off, src, w, txns, k - 1);
      OneFits(g, sb, s, n, off, src, w, After(s, txns, k - 1), txns[k - 1], k - 1);
    }
  }

  lemma OneFits(g: L.Region, sb: Super, s: FsFiles.State, n: nat, off: nat, src: seq<int>, w: nat,
                before: FsFiles.State, t: Transaction, k: nat)
    requires Layout(g, sb, |before.inodes|) && Transacted(sb, s, n, off, src, w, before, t, k)
    ensures |t.after.inodes| == |before.inodes| && FitsLog(g, sb, n, t)
  {
    hide FileWrote, Layout, Consistent, Complete;
    TxnFits(g, sb, n, t);
  }

  lemma {:induction false} EffectsSnoc(g: L.Region, d: L.Disk, ts: seq<L.Txn>, m: nat)
    requires L.ValidTxns(g, |d|, ts) && m < |ts|
    ensures L.Effects(d, ts[..m + 1]) == L.Effect(L.Effects(d, ts[..m]), ts[m])
    decreases m
  {
    if m == 0 {
      assert ts[..1] == [ts[0]];
    } else {
      assert ts[..m + 1][1..] == ts[1..][..m] && ts[..m][1..] == ts[1..][..m - 1];
      EffectsSnoc(g, L.Effect(d, ts[0]), ts[1..], m - 1);
    }
  }

  lemma {:induction false} EffectsAt(g: L.Region, sb: Super, n: nat, txns: seq<Transaction>, d: L.Disk, m: nat)
    requires Fit(g, sb, n, txns) && |d| == sb.size && m <= |txns|
    ensures L.ValidTxns(g, |d|, LogTxns(g, sb, n, txns, d))
    ensures L.Effects(d, LogTxns(g, sb, n, txns, d)[..m]) == DiskAt(g, sb, n, txns, d, m)
    decreases m
  {
    hide LogTxns, LogTxn, FitsLog, L.Effect, L.ValidTxns;
    var ts := LogTxns(g, sb, n, txns, d);
    TxnsValid(g, sb, n, txns, d);
    NoEffects(g, d, ts);
    if m > 0 {
      EffectsAt(g, sb, n, txns, d, m - 1);
      EffectsSnoc(g, d, ts, m - 1);
    }
  }

  lemma NoEffects(g: L.Region, d: L.Disk, ts: seq<L.Txn>)
    requires L.ValidTxns(g, |d|, ts)
    ensures ts[..0] == [] && L.Effects(d, []) == d
  {
  }

  lemma {:induction false} EffectsHold(g: L.Region, sb: Super, s: FsFiles.State, n: nat, off: nat, src: seq<int>, w: nat,
                                       txns: seq<Transaction>, d: L.Disk, m: nat)
    requires Layout(g, sb, |s.inodes|) && Holds(g, sb, s, d) && |d| == sb.size
    requires Transactions(sb, s, n, off, src, w, txns) && m <= |txns| && Fit(g, sb, n, txns)
    ensures Holds(g, sb, After(s, txns, m), DiskAt(g, sb, n, txns, d, m)) && |After(s, txns, m).inodes| == |s.inodes|
    decreases m
  {
    hide Layout, Holds, Transacted, LogTxn, FitsLog, L.Effect;
    if m > 0 {
      EffectsHold(g, sb, s, n, off, src, w, txns, d, m - 1);
      OneHolds(g, sb, s, n, off, src, w, After(s, txns, m - 1), txns[m - 1], m - 1, DiskAt(g, sb, n, txns, d, m - 1));
    }
  }

  lemma OneHolds(g: L.Region, sb: Super, s: FsFiles.State, n: nat, off: nat, src: seq<int>, w: nat,
                 before: FsFiles.State, t: Transaction, k: nat, d: L.Disk)
    requires Layout(g, sb, |before.inodes|) && Holds(g, sb, before, d) && |d| == sb.size
    requires Transacted(sb, s, n, off, src, w, before, t, k) && FitsLog(g, sb, n, t)
    ensures n < |t.after.inodes| == |before.inodes| && Holds(g, sb, t.after, L.Effect(d, LogTxn(sb, n, t, d)))
  {
    hide FileWrote, Recorded, Holds, LogTxn, L.Effect, FitsLog, Layout, Complete, Addr, Used;
    EffectHolds(g, sb, before, n, t, d);
  }

  lemma HoldsSize(g: L.Region, sb: Super, s: FsFiles.State, d: L.Disk)
    requires Holds(g, sb, s, d)
    ensures |d| == |s.disk|
  {
  }

  // A disk that differs in the log only holds the same.
  lemma HoldsHome(g: L.Region, sb: Super, s: FsFiles.State, d: L.Disk, r: L.Disk)
    requires Layout(g, sb, |s.inodes|) && Holds(g, sb, s, d) && L.SameHome(g, r, d)
    ensures Holds(g, sb, s, r)
  {
    forall m | 0 <= m < |s.inodes| ensures HoldsInode(sb, s, r, m) {
      assert InodeApart(g, sb, m) && HoldsInode(sb, s, d, m);
    }
  }

  // --- the file after a crash ---

  // The owners after the first k transactions.
  ghost function OwnerAt(owner: Owner, txns: seq<Transaction>, k: nat): Owner
    requires k <= |txns|
  {
    if k == 0 then owner else txns[k - 1].owner
  }

  lemma StateAt(sb: Super, s: FsFiles.State, owner: Owner, n: nat, off: nat, src: seq<int>, w: nat, txns: seq<Transaction>,
                m: nat)
    requires Transactions(sb, s, n, off, src, w, txns) && m <= |txns| && n < |s.inodes| && w <= |src|
    requires Consistent(sb, s.disk, s.inodes, owner, {}) && Complete(sb, s.disk, s.inodes) && off <= s.inodes[n].size
    ensures var t := After(s, txns, m);
            && Consistent(sb, t.disk, t.inodes, OwnerAt(owner, txns, m), {}) && Complete(sb, t.disk, t.inodes)
            && Wrote(sb, s, t, n, off, src, Min(m * CHUNK, w))
  {
    hide Consistent, Complete, Wrote, Recorded;
    if m > 0 {
      assert Transacted(sb, s, n, off, src, w, After(s, txns, m - 1), txns[m - 1], m - 1);
    } else {
      ConsistentOk(sb, s, owner);
      WroteNone(sb, s, n, off, src);
    }
  }

  // What is read back from disk r: the files of disk d, with the first m chunks of the w bytes
  // of src spliced into file n.
  ghost predicate Survives(sb: Super, d: L.Disk, r: L.Disk, n: nat, count: nat, off: nat, src: seq<int>, w: nat, m: nat)
    requires w <= |src|
  {
    && off <= |ReadFile(sb, d, n)|
    && ReadFile(sb, r, n) == Splice(ReadFile(sb, d, n), off, src[..Min(m * CHUNK, w)])
    && forall i :: 0 <= i < count && i != n ==> ReadFile(sb, r, i) == ReadFile(sb, d, i)
  }

  lemma FilesSurvive(g: L.Region, sb: Super, s: FsFiles.State, owner: Owner, d: L.Disk, t: FsFiles.State, owner': Owner,
                     r: L.Disk, n: nat, off: nat, src: seq<int>, w: nat, m: nat)
    requires Layout(g, sb, |s.inodes|) && |t.inodes| == |s.inodes| && w <= |src|
    requires Consistent(sb, s.disk, s.inodes, owner, {}) && Holds(g, sb, s, d)
    requires Consistent(sb, t.disk, t.inodes, owner', {}) && Holds(g, sb, t, r)
    requires Wrote(sb, s, t, n, off, src, Min(m * CHUNK, w))
    ensures Survives(sb, d, r, n, |s.inodes|, off, src, w, m)
  {
    hide Layout, Consistent, Complete, Holds, ReadFile, Content, Splice, InodeOk, DiskOk;
    forall i | 0 <= i < |s.inodes|
      ensures s.inodes[i].size <= MAXFILE * BSIZE && t.inodes[i].size <= MAXFILE * BSIZE
      ensures ReadFile(sb, d, i) == Content(sb, s.disk, s.inodes[i]) && ReadFile(sb, r, i) == Content(sb, t.disk, t.inodes[i])
    {
      FileHeld(g, sb, s, owner, d, i);
      FileHeld(g, sb, t, owner', r, i);
    }
  }

  // What a recovered disk means: its home blocks are those after the first m transactions.
  lemma Recovered(g: L.Region, sb: Super, s: FsFiles.State, owner: Owner, n: nat, off: nat, src: seq<int>, w: nat,
                  txns: seq<Transaction>, d: L.Disk, m: nat, r: L.Disk)
    requires Layout(g, sb, |s.inodes|) && Holds(g, sb, s, d) && |d| == sb.size && m <= |txns| && Fit(g, sb, n, txns)
    requires Consistent(sb, s.disk, s.inodes, owner, {}) && Complete(sb, s.disk, s.inodes)
    requires n < |s.inodes| && off <= s.inodes[n].size && w <= |src| && Transactions(sb, s, n, off, src, w, txns)
    requires L.SameHome(g, r, DiskAt(g, sb, n, txns, d, m))
    ensures Survives(sb, d, r, n, |s.inodes|, off, src, w, m) && Holds(g, sb, After(s, txns, m), r)
    ensures var t := After(s, txns, m); Consistent(sb, t.disk, t.inodes, OwnerAt(owner, txns, m), {})
  {
    hide Layout, Transactions, Fit, Holds, L.SameHome, Complete, Consistent, Survives, Wrote, DiskAt;
    EffectsHold(g, sb, s, n, off, src, w, txns, d, m);
    HoldsHome(g, sb, After(s, txns, m), DiskAt(g, sb, n, txns, d, m), r);
    StateAt(sb, s, owner, n, off, src, w, txns, m);
    FilesSurvive(g, sb, s, owner, d, After(s, txns, m), OwnerAt(owner, txns, m), r, n, off, src, w, m);
  }

  /** filewrite survives crashes: cut the disk writes of its transactions anywhere, cut any
      number of recoveries anywhere, and recover.  File n, read back from the disk, is then the
      old file with the first m chunks of the source spliced in, every other file is as it was,
      and free map and inodes agree; with no cut it is all that filewrite wrote. */
  lemma CrashInFileWrite(g: L.Region, sb: Super, s: FsFiles.State, owner: Owner, n: nat, off: nat, src: seq<int>, w: nat,
                         txns: seq<Transaction>, d: L.Disk, k: nat, cuts: seq<nat>)
    requires Layout(g, sb, |s.inodes|) && C.Idle(g, d) && Holds(g, sb, s, d)
    requires Consistent(sb, s.disk, s.inodes, owner, {}) && Complete(sb, s.disk, s.inodes)
    requires n < |s.inodes| && off <= s.inodes[n].size && w <= |src| && Transactions(sb, s, n, off, src, w, txns)
    ensures |d| == sb.size && Fit(g, sb, n, txns) && L.ValidTxns(g, |d|, LogTxns(g, sb, n, txns, d))
    ensures var ts := LogTxns(g, sb, n, txns, d);
            k <= |C.RunWrites(g, d, ts)| ==>
              var crashed := L.Apply(d, C.RunWrites(g, d, ts)[..k]);
              && L.Recoverable(g, crashed) && L.Recoverable(g, C.CutRecoveries(g, crashed, cuts))
              && var c := C.CutRecoveries(g, crashed, cuts);
                 var r, m := L.Apply(c, L.RecoverWrites(g, c)), C.CommittedCount(ts, k);
              && C.Idle(g, r) && Survives(sb, d, r, n, |s.inodes|, off, src, w, m)
              && Holds(g, sb, After(s, txns, m), r)
              && Consistent(sb, After(s, txns, m).disk, After(s, txns, m).inodes, OwnerAt(owner, txns, m), {})
              && (k == |C.RunWrites(g, d, ts)| ==> m == |txns|)
  {
    hide Layout, Transactions, LogTxns, LogTxn, Fit, FitsLog, Holds, Survives, DiskAt, After, Complete, Consistent, L.Apply,
         L.Effects, L.Effect, L.Recoverable, L.RecoverWrites, L.SameHome, L.ValidTxns, C.Idle, C.RunWrites, C.CutRecoveries,
         C.CommittedCount;
    AllFit(g, sb, s, n, off, src, w, txns, |txns|);
    assert txns[..|txns|] == txns;
    DiskSize(g, sb, s, owner, d);
    EffectsAt(g, sb, n, txns, d, 0);
    var ts := LogTxns(g, sb, n, txns, d);
    if k <= |C.RunWrites(g, d, ts)| {
      var m := C.CommittedCount(ts, k);
      C.CrashAtomicity(g, d, ts, k, cuts);
      var c := C.CutRecoveries(g, L.Apply(d, C.RunWrites(g, d, ts)[..k]), cuts);
      EffectsAt(g, sb, n, txns, d, m);
      Recovered(g, sb, s, owner, n, off, src, w, txns, d, m, L.Apply(c, L.RecoverWrites(g, c)));
    }
  }

  lemma DiskSize(g: L.Region, sb: Super, s: FsFiles.State, owner: Owner, d: L.Disk)
    requires Holds(g, sb, s, d) && Consistent(sb, s.disk, s.inodes, owner, {})
    ensures |d| == sb.size
  {
  }
}
