/**
 The disk layout of kernel/fs.c as functions of the disk contents: the free map, the
 blocks an inode lists, who owns each block, and the bytes of a file.
 */
module FsSpec {
  import opened Basics
  import opened Params
  import opened Words

  const NDIRECT: nat := 12
  const NINDIRECT: nat := BSIZE / 4
  const MAXFILE: nat := NDIRECT + NINDIRECT
  const BPB: nat := BSIZE * 8

  // addrs[0..NDIRECT] are data blocks, addrs[NDIRECT] is the indirect block; 0 is "none".
  datatype Inode = Inode(size: nat, addrs: seq<int>)

  // meta is the number of the first data block: everything before it is metadata.
  datatype Super = Super(size: nat, bmapstart: nat, inodestart: nat, meta: nat)

  type Disk = seq<Bytes>

  // The places that can name a block: addrs[0..NDIRECT], then the indirect block itself,
  // then the words of the indirect block.
  const SLOTS: nat := NDIRECT + 1 + NINDIRECT
  datatype Slot = Slot(inum: nat, index: nat)

  function DataSlot(bn: nat): nat { if bn < NDIRECT then bn else bn + 1 }

  ghost predicate DiskOk(sb: Super, disk: Disk) {
    && |disk| == sb.size && 0 < sb.meta <= sb.size < UINT32 && 0 < sb.inodestart && 0 < sb.bmapstart
    && sb.bmapstart + (sb.size - 1) / BPB < sb.meta
    && forall b :: 0 <= b < |disk| ==> IsBlock(disk[b])
  }

  ghost predicate InodeOk(sb: Super, ino: Inode) {
    && |ino.addrs| == NDIRECT + 1
    && forall s :: 0 <= s <= NDIRECT ==> ino.addrs[s] == 0 || sb.meta <= ino.addrs[s] < sb.size
  }

  // The block number in slot s of an inode, 0 for none.
  function Addr(sb: Super, disk: Disk, ino: Inode, s: nat): int
    requires DiskOk(sb, disk) && InodeOk(sb, ino) && s < SLOTS
  {
    if s <= NDIRECT then ino.addrs[s]
    else if ino.addrs[NDIRECT] == 0 then 0
    else Word(disk[ino.addrs[NDIRECT]], s - NDIRECT - 1)
  }

  // --- the free map ---

  function MapBlock(sb: Super, b: nat): nat { sb.bmapstart + b / BPB }

  predicate Used(sb: Super, disk: Disk, b: nat)
    requires DiskOk(sb, disk) && b < sb.size
  {
    Bit(disk[MapBlock(sb, b)], b % BPB)
  }

  // --- ownership ---

  type Owner = map<int, Slot>

  // owner gives every block named by a slot that slot, and nothing else; so no block is
  // named twice.  The first k indirect words of inode n are left out of account.
  ghost predicate Owns(sb: Super, disk: Disk, inodes: seq<Inode>, owner: Owner, n: nat, k: nat)
  {
    && DiskOk(sb, disk) && (forall m :: 0 <= m < |inodes| ==> InodeOk(sb, inodes[m]))
    && (forall m, s :: 0 <= m < |inodes| && 0 <= s < SLOTS && Addr(sb, disk, inodes[m], s) != 0
          && !(m == n && NDIRECT < s < NDIRECT + 1 + k)
          ==> Addr(sb, disk, inodes[m], s) in owner && owner[Addr(sb, disk, inodes[m], s)] == Slot(m, s))
    && (forall a :: a in owner ==>
          && sb.meta <= a < sb.size
          && owner[a].inum < |inodes| && owner[a].index < SLOTS
          && Addr(sb, disk, inodes[owner[a].inum], owner[a].index) == a
          && !(owner[a].inum == n && NDIRECT < owner[a].index < NDIRECT + 1 + k))
  }

  // The set bits of the free map are the metadata, the owned blocks, and those in pend.
  ghost predicate Mapped(sb: Super, disk: Disk, owner: Owner, pend: set<int>)
    requires DiskOk(sb, disk)
  {
    forall b :: 0 <= b < sb.size ==> (Used(sb, disk, b) <==> b < sb.meta || b in owner || b in pend)
  }

  // --- file contents ---

  function ByteOf(disk: Disk, a: int, o: nat): int {
    if 0 <= a < |disk| && o < |disk[a]| then disk[a][o] else 0
  }

  // Byte i of a file is byte BlockAt(i) of its block BlockNo(i).
  function BlockNo(i: nat): nat { i / BSIZE }

  function BlockAt(i: nat): nat { i % BSIZE }

  function FileByte(sb: Super, disk: Disk, ino: Inode, i: nat): int
    requires DiskOk(sb, disk) && InodeOk(sb, ino) && i < MAXFILE * BSIZE
  {
    ByteOf(disk, Addr(sb, disk, ino, DataSlot(BlockNo(i))), BlockAt(i))
  }

  // Every block before byte `limit` is allocated.
  ghost predicate NoHoles(sb: Super, disk: Disk, ino: Inode, limit: nat)
    requires DiskOk(sb, disk) && InodeOk(sb, ino)
  {
    limit <= MAXFILE * BSIZE &&
    forall bn :: 0 <= bn < MAXFILE && bn * BSIZE < limit ==> Addr(sb, disk, ino, DataSlot(bn)) != 0
  }

  function Content(sb: Super, disk: Disk, ino: Inode): (c: seq<int>)
    requires DiskOk(sb, disk) && InodeOk(sb, ino) && ino.size <= MAXFILE * BSIZE
    ensures |c| == ino.size
  {
    seq(ino.size, i requires 0 <= i < ino.size => FileByte(sb, disk, ino, i))
  }

  // --- the invariant of the file system ---

  ghost predicate Consistent(sb: Super, disk: Disk, inodes: seq<Inode>, owner: Owner, pend: set<int>)
  {
    && Owns(sb, disk, inodes, owner, 0, 0)
    && Mapped(sb, disk, owner, pend)
  }

  ghost predicate Complete(sb: Super, disk: Disk, inodes: seq<Inode>)
    requires DiskOk(sb, disk) && forall m :: 0 <= m < |inodes| ==> InodeOk(sb, inodes[m])
  {
    forall m :: 0 <= m < |inodes| ==> NoHoles(sb, disk, inodes[m], inodes[m].size)
  }
}
