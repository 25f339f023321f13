/** How the single updates that kernel/fs.c makes act on the free map and on ownership. */
module FsLemmas {
  import opened Basics
  import opened Words
  import opened FsSpec

  // A block that is in no bitmap block and named by no slot changes nothing.
  lemma UsedFrame(sb: Super, disk: Disk, a: nat, data: Bytes, b: nat)
    requires DiskOk(sb, disk) && sb.meta <= a < sb.size && b < sb.size && IsBlock(data)
    ensures DiskOk(sb, disk[a := data]) && (Used(sb, disk[a := data], b) <==> Used(sb, disk, b))
  {
  }

  lemma MapInjective(a: nat, b: nat)
    ensures a / BPB == b / BPB && a % BPB == b % BPB ==> a == b
  {
  }

  // The free map after its block m is replaced.
  lemma UsedAfter(sb: Super, disk: Disk, m: nat, data: Bytes, b: nat)
    requires DiskOk(sb, disk) && m < sb.meta && IsBlock(data) && b < sb.size
    ensures DiskOk(sb, disk[m := data]) && MapBlock(sb, b) < sb.meta
    ensures Used(sb, disk[m := data], b)
            <==> if MapBlock(sb, b) == m then Bit(data, b % BPB) else Used(sb, disk, b)
  {
    hide Bit;
  }

  lemma UsedSet(sb: Super, disk: Disk, a: nat, b: nat)
    requires DiskOk(sb, disk) && a < sb.size && b < sb.size
    ensures var d := disk[MapBlock(sb, a) := SetBit(disk[MapBlock(sb, a)], a % BPB)];
            DiskOk(sb, d) && (Used(sb, d, b) <==> b == a || Used(sb, disk, b))
  {
    var m := MapBlock(sb, a);
    var data := SetBit(disk[m], a % BPB);
    BitOfSet(disk[m], a % BPB, b % BPB);
    UsedAfter(sb, disk, m, data, b);
    MapInjective(a, b);
    hide Bit, SetBit;
  }

  lemma UsedClear(sb: Super, disk: Disk, a: nat, b: nat)
    requires DiskOk(sb, disk) && a < sb.size && b < sb.size
    ensures var d := disk[MapBlock(sb, a) := ClearBit(disk[MapBlock(sb, a)], a % BPB)];
            DiskOk(sb, d) && (Used(sb, d, b) <==> b != a && Used(sb, disk, b))
  {
    var m := MapBlock(sb, a);
    var data := ClearBit(disk[m], a % BPB);
    BitOfClear(disk[m], a % BPB, b % BPB);
    UsedAfter(sb, disk, m, data, b);
    MapInjective(a, b);
    hide Bit, ClearBit;
  }

  // Slots only depend on the indirect blocks.
  ghost predicate SameIndirect(disk: Disk, disk': Disk, owner: Owner) {
    |disk| == |disk'| &&
    forall a :: a in owner && 0 <= a < |disk| && owner[a].index == NDIRECT ==> disk[a] == disk'[a]
  }

  lemma AddrFrame(sb: Super, disk: Disk, disk': Disk, inodes: seq<Inode>, owner: Owner, n: nat, k: nat, m: nat, s: nat)
    requires Owns(sb, disk, inodes, owner, n, k) && DiskOk(sb, disk') && SameIndirect(disk, disk', owner)
    requires m < |inodes| && s < SLOTS
    ensures Addr(sb, disk', inodes[m], s) == Addr(sb, disk, inodes[m], s)
  {
    assert Addr(sb, disk, inodes[m], NDIRECT) == inodes[m].addrs[NDIRECT];
  }

  lemma OwnsFrame(sb: Super, disk: Disk, disk': Disk, inodes: seq<Inode>, owner: Owner, n: nat, k: nat)
    requires Owns(sb, disk, inodes, owner, n, k) && DiskOk(sb, disk') && SameIndirect(disk, disk', owner)
    ensures Owns(sb, disk', inodes, owner, n, k)
    ensures forall m, s :: 0 <= m < |inodes| && 0 <= s < SLOTS
              ==> Addr(sb, disk', inodes[m], s) == Addr(sb, disk, inodes[m], s)
  {
    forall m, s | 0 <= m < |inodes| && 0 <= s < SLOTS
      ensures Addr(sb, disk', inodes[m], s) == Addr(sb, disk, inodes[m], s)
    {
      AddrFrame(sb, disk, disk', inodes, owner, n, k, m, s);
    }
  }

  // What balloc does to the disk when it takes block b.
  function Allocate(sb: Super, disk: Disk, b: nat): (d: Disk)
    requires DiskOk(sb, disk) && b < sb.size
  {
    disk[MapBlock(sb, b) := SetBit(disk[MapBlock(sb, b)], b % BPB)][b := Zeros()]
  }

  lemma AllocateDisk(sb: Super, disk: Disk, b: nat)
    requires DiskOk(sb, disk) && sb.meta <= b < sb.size
    ensures var d := Allocate(sb, disk, b);
            && DiskOk(sb, d) && d[b] == Zeros()
            && (forall a :: sb.meta <= a < sb.size && a != b ==> d[a] == disk[a])
            && (forall x :: 0 <= x < sb.size ==> (Used(sb, d, x) <==> x == b || Used(sb, disk, x)))
  {
    hide Bit, SetBit;
    var d1 := disk[MapBlock(sb, b) := SetBit(disk[MapBlock(sb, b)], b % BPB)];
    assert DiskOk(sb, d1) by { UsedSet(sb, disk, b, b); }
    var d := Allocate(sb, disk, b);
    assert DiskOk(sb, d) by { UsedFrame(sb, d1, b, Zeros(), b); }
    forall x | 0 <= x < sb.size ensures Used(sb, d, x) <==> x == b || Used(sb, disk, x) {
      UsedSet(sb, disk, b, x);
      UsedFrame(sb, d1, b, Zeros(), x);
    }
  }

  lemma AllocateSize(sb: Super, disk: Disk, b: nat)
    requires DiskOk(sb, disk) && b < sb.size
    ensures |Allocate(sb, disk, b)| == |disk| == sb.size
  {
  }

  lemma AllocateKeeps(sb: Super, disk: Disk, inodes: seq<Inode>, owner: Owner, b: nat)
    requires Consistent(sb, disk, inodes, owner, {}) && b < sb.size && !Used(sb, disk, b)
    ensures b !in owner && sb.meta <= b
    ensures Consistent(sb, Allocate(sb, disk, b), inodes, owner, {b})
    ensures Allocate(sb, disk, b)[b] == Zeros()
    ensures forall m, s :: 0 <= m < |inodes| && 0 <= s < SLOTS
              ==> Addr(sb, Allocate(sb, disk, b), inodes[m], s) == Addr(sb, disk, inodes[m], s)
    ensures forall a :: a in owner ==> Allocate(sb, disk, b)[a] == disk[a]
  {
    AllocateDisk(sb, disk, b);
    assert |disk| == sb.size && forall a :: a in owner ==> sb.meta <= a < sb.size;
    hide Allocate, Used, Addr, InodeOk, DiskOk, Zeros;
    OwnsFrame(sb, disk, Allocate(sb, disk, b), inodes, owner, 0, 0);
  }

  // addrs[s] := b, for a block b that is allocated but not yet named.
  lemma AttachDirect(sb: Super, disk: Disk, inodes: seq<Inode>, owner: Owner, n: nat, s: nat, b: int)
    requires Consistent(sb, disk, inodes, owner, {b}) && b !in owner && sb.meta <= b < sb.size
    requires n < |inodes| && s <= NDIRECT && inodes[n].addrs[s] == 0 && disk[b] == Zeros()
    ensures var ino := inodes[n].(addrs := inodes[n].addrs[s := b]);
            && Consistent(sb, disk, inodes[n := ino], owner[b := Slot(n, s)], {})
            && (forall t :: 0 <= t < SLOTS ==> Addr(sb, disk, ino, t) == if t == s then b else Addr(sb, disk, inodes[n], t))
  {
    var ino := inodes[n].(addrs := inodes[n].addrs[s := b]);
    forall t | 0 <= t < SLOTS
      ensures Addr(sb, disk, ino, t) == if t == s then b else Addr(sb, disk, inodes[n], t)
    {
    }
  }

  // a[j] := b in the indirect block.
  lemma AttachEntry(sb: Super, disk: Disk, inodes: seq<Inode>, owner: Owner, n: nat, j: nat, b: int)
    requires Consistent(sb, disk, inodes, owner, {b}) && b !in owner && sb.meta <= b < sb.size
    requires n < |inodes| && j < NINDIRECT && inodes[n].addrs[NDIRECT] != 0
    requires Addr(sb, disk, inodes[n], NDIRECT + 1 + j) == 0
    ensures var i := inodes[n].addrs[NDIRECT];
            var d := disk[i := SetWord(disk[i], j, b)];
            && Consistent(sb, d, inodes, owner[b := Slot(n, NDIRECT + 1 + j)], {})
            && (forall m, t :: 0 <= m < |inodes| && 0 <= t < SLOTS
                  ==> Addr(sb, d, inodes[m], t)
                      == if m == n && t == NDIRECT + 1 + j then b else Addr(sb, disk, inodes[m], t))
  {
    hide Used, DiskOk, IsBlock, SetWord;
    var i := inodes[n].addrs[NDIRECT];
    EntryBlock(sb, disk, inodes, owner, n, j, b);
    var d := disk[i := SetWord(disk[i], j, b)];
    forall m, t | 0 <= m < |inodes| && 0 <= t < SLOTS
      ensures Addr(sb, d, inodes[m], t)
              == if m == n && t == NDIRECT + 1 + j then b else Addr(sb, disk, inodes[m], t)
    {
      EntryAddr(sb, disk, inodes, owner, n, j, b, m, t);
    }
  }

  // The indirect block, and the free map after it is changed.
  lemma EntryBlock(sb: Super, disk: Disk, inodes: seq<Inode>, owner: Owner, n: nat, j: nat, b: int)
    requires Owns(sb, disk, inodes, owner, 0, 0) && sb.meta <= b < sb.size
    requires n < |inodes| && j < NINDIRECT && inodes[n].addrs[NDIRECT] != 0
    ensures var i := inodes[n].addrs[NDIRECT];
            && 0 < sb.meta <= i < sb.size == |disk| && sb.size < UINT32 && 4 * j + 4 <= |disk[i]|
            && i in owner && owner[i] == Slot(n, NDIRECT)
            && var d := disk[i := SetWord(disk[i], j, b)];
               DiskOk(sb, d) && forall x :: 0 <= x < sb.size ==> (Used(sb, d, x) <==> Used(sb, disk, x))
  {
    hide Used, SetWord;
    var i := inodes[n].addrs[NDIRECT];
    assert Addr(sb, disk, inodes[n], NDIRECT) == i;
    SetWordBlock(disk[i], j, b);
    forall x | 0 <= x < sb.size ensures Used(sb, disk[i := SetWord(disk[i], j, b)], x) <==> Used(sb, disk, x) {
      UsedFrame(sb, disk, i, SetWord(disk[i], j, b), x);
    }
  }

  lemma EntryAddr(sb: Super, disk: Disk, inodes: seq<Inode>, owner: Owner, n: nat, j: nat, b: int, m: nat, t: nat)
    requires Owns(sb, disk, inodes, owner, 0, 0) && 0 <= b < UINT32
    requires n < |inodes| && j < NINDIRECT && inodes[n].addrs[NDIRECT] != 0 && m < |inodes| && t < SLOTS
    ensures var i := inodes[n].addrs[NDIRECT];
            var d := disk[i := SetWord(disk[i], j, b)];
            DiskOk(sb, d) &&
            Addr(sb, d, inodes[m], t) == if m == n && t == NDIRECT + 1 + j then b else Addr(sb, disk, inodes[m], t)
  {
    var i := inodes[n].addrs[NDIRECT];
    SetWordBlock(disk[i], j, b);
    assert Addr(sb, disk, inodes[n], NDIRECT) == i;
    assert Addr(sb, disk, inodes[m], NDIRECT) == inodes[m].addrs[NDIRECT];
    if t > NDIRECT && inodes[m].addrs[NDIRECT] == i {
      assert owner[i] == Slot(n, NDIRECT) && m == n;
      WordOfSet(disk[i], j, b, t - NDIRECT - 1);
    }
  }

  // Writing into a data block.
  lemma WriteKeeps(sb: Super, disk: Disk, inodes: seq<Inode>, owner: Owner, a: int, data: Bytes)
    requires Consistent(sb, disk, inodes, owner, {}) && IsBlock(data)
    requires a in owner && owner[a].index != NDIRECT
    ensures Consistent(sb, disk[a := data], inodes, owner, {})
    ensures forall m, s :: 0 <= m < |inodes| && 0 <= s < SLOTS
              ==> Addr(sb, disk[a := data], inodes[m], s) == Addr(sb, disk, inodes[m], s)
  {
    assert sb.meta <= a < sb.size == |disk|;
    hide Used, Addr, InodeOk, DiskOk, IsBlock;
    UsedFrame(sb, disk, a, data, 0);
    OwnsFrame(sb, disk, disk[a := data], inodes, owner, 0, 0);
    forall x | 0 <= x < sb.size ensures Used(sb, disk[a := data], x) <==> Used(sb, disk, x) {
      UsedFrame(sb, disk, a, data, x);
    }
  }

  function Release(sb: Super, disk: Disk, b: nat): (d: Disk)
    requires DiskOk(sb, disk) && b < sb.size
  {
    disk[MapBlock(sb, b) := ClearBit(disk[MapBlock(sb, b)], b % BPB)]
  }

  lemma ReleaseDisk(sb: Super, disk: Disk, b: nat)
    requires DiskOk(sb, disk) && sb.meta <= b < sb.size
    ensures var d := Release(sb, disk, b);
            && DiskOk(sb, d)
            && (forall a :: sb.meta <= a < sb.size ==> d[a] == disk[a])
            && (forall x :: 0 <= x < sb.size ==> (Used(sb, d, x) <==> x != b && Used(sb, disk, x)))
  {
    var d := Release(sb, disk, b);
    assert DiskOk(sb, d) by { UsedClear(sb, disk, b, b); }
    forall x | 0 <= x < sb.size ensures Used(sb, d, x) <==> x != b && Used(sb, disk, x) {
      UsedClear(sb, disk, b, x);
    }
  }

  // bfree touches only a metadata block.
  lemma ReleaseKeeps(sb: Super, disk: Disk, inodes: seq<Inode>, owner: Owner, n: nat, k: nat, b: int)
    requires Owns(sb, disk, inodes, owner, n, k) && Mapped(sb, disk, owner, {}) && b in owner
    ensures Owns(sb, Release(sb, disk, b), inodes, owner, n, k)
    ensures Mapped(sb, Release(sb, disk, b), owner - {b}, {})
    ensures forall m, s :: 0 <= m < |inodes| && 0 <= s < SLOTS
              ==> Addr(sb, Release(sb, disk, b), inodes[m], s) == Addr(sb, disk, inodes[m], s)
    ensures forall a :: a in owner ==> Release(sb, disk, b)[a] == disk[a]
  {
    ReleaseDisk(sb, disk, b);
    assert |disk| == sb.size && forall a :: a in owner ==> sb.meta <= a < sb.size;
    hide Release, Used, Addr, InodeOk, DiskOk;
    OwnsFrame(sb, disk, Release(sb, disk, b), inodes, owner, n, k);
  }

  // addrs[s] := 0 once the block it named is released; for the indirect block, once all the
  // words in it are.
  lemma DetachSlot(sb: Super, disk: Disk, inodes: seq<Inode>, owner: Owner, n: nat, s: nat)
    requires n < |inodes| && s <= NDIRECT
    requires Owns(sb, disk, inodes, owner, n, if s == NDIRECT then NINDIRECT else 0)
    requires inodes[n].addrs[s] != 0
    ensures inodes[n].addrs[s] in owner
    ensures var ino := inodes[n].(addrs := inodes[n].addrs[s := 0]);
            Owns(sb, disk, inodes[n := ino], owner - {inodes[n].addrs[s]}, 0, 0)
  {
    var a := inodes[n].addrs[s];
    assert Addr(sb, disk, inodes[n], s) == a;
    var ino := inodes[n].(addrs := inodes[n].addrs[s := 0]);
    assert forall t :: 0 <= t < SLOTS && t != s && !(s == NDIRECT && t > NDIRECT)
             ==> Addr(sb, disk, ino, t) == Addr(sb, disk, inodes[n], t);
  }

  // The k-th word of the indirect block leaves the account once its block is released.
  lemma DetachWord(sb: Super, disk: Disk, inodes: seq<Inode>, owner: Owner, n: nat, k: nat)
    requires n < |inodes| && k < NINDIRECT && Owns(sb, disk, inodes, owner, n, k)
    ensures var a := Addr(sb, disk, inodes[n], NDIRECT + 1 + k);
            && (a != 0 ==> a in owner && owner[a] == Slot(n, NDIRECT + 1 + k))
            && Owns(sb, disk, inodes, owner - {a}, n, k + 1)
  {
  }
}
