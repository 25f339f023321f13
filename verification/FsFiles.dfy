/** How allocation and block writes act on the bytes of files (kernel/fs.c:379-539). */
module FsFiles {
  import opened Params
  import opened Words
  import opened FsSpec
  import opened FsLemmas
  import opened Basics

  // One state of the disk and the inode table.
  datatype State = State(disk: Disk, inodes: seq<Inode>)

  ghost predicate Ok(sb: Super, st: State) {
    DiskOk(sb, st.disk) && forall m :: 0 <= m < |st.inodes| ==> InodeOk(sb, st.inodes[m])
  }

  // --- allocation on behalf of inode n keeps everything that was there ---

  ghost predicate Extends(sb: Super, s: State, owner: Owner, t: State, owner': Owner, n: nat)
    requires Ok(sb, s) && Ok(sb, t)
  {
    && |t.inodes| == |s.inodes| && n < |s.inodes| && t.inodes[n].size == s.inodes[n].size
    && (forall m :: 0 <= m < |s.inodes| && m != n ==> t.inodes[m] == s.inodes[m])
    && (forall m, x :: 0 <= m < |s.inodes| && 0 <= x < SLOTS
          && Addr(sb, s.disk, s.inodes[m], x) != 0
          ==> Addr(sb, t.disk, t.inodes[m], x) == Addr(sb, s.disk, s.inodes[m], x))
    && (forall a :: a in owner ==>
          && sb.meta <= a < sb.size && a in owner' && owner'[a] == owner[a]
          && (owner[a].index == NDIRECT || t.disk[a] == s.disk[a]))
  }

  lemma ConsistentOk(sb: Super, s: State, owner: Owner)
    requires Consistent(sb, s.disk, s.inodes, owner, {})
    ensures Ok(sb, s)
  {
  }

  lemma BlockIn(sb: Super, s: State, owner: Owner, n: nat, bn: nat)
    requires Consistent(sb, s.disk, s.inodes, owner, {}) && n < |s.inodes| && bn < MAXFILE
    requires Addr(sb, s.disk, s.inodes[n], DataSlot(bn)) != 0
    ensures sb.meta <= Addr(sb, s.disk, s.inodes[n], DataSlot(bn)) < sb.size
  {
    assert Addr(sb, s.disk, s.inodes[n], DataSlot(bn)) in owner;
  }

  lemma ExtendsRefl(sb: Super, s: State, owner: Owner, n: nat)
    requires Ok(sb, s) && Owns(sb, s.disk, s.inodes, owner, 0, 0) && n < |s.inodes|
    ensures Extends(sb, s, owner, s, owner, n)
  {
  }

  lemma ExtendsTrans(sb: Super, s: State, o1: Owner, t: State, o2: Owner, u: State, o3: Owner, n: nat)
    requires Ok(sb, s) && Ok(sb, t) && Ok(sb, u)
    requires Extends(sb, s, o1, t, o2, n) && Extends(sb, t, o2, u, o3, n)
    ensures Extends(sb, s, o1, u, o3, n)
  {
  }

  // balloc took block b for addrs[x] of inode n.
  function TakenDirect(sb: Super, s: State, n: nat, x: nat, b: nat): State
    requires Ok(sb, s) && n < |s.inodes| && x <= NDIRECT && b < sb.size
  {
    State(Allocate(sb, s.disk, b), s.inodes[n := s.inodes[n].(addrs := s.inodes[n].addrs[x := b])])
  }

  lemma TakeDirect(sb: Super, s: State, owner: Owner, n: nat, x: nat, b: nat)
    requires Ok(sb, s) && Consistent(sb, s.disk, s.inodes, owner, {})
    requires n < |s.inodes| && x <= NDIRECT && s.inodes[n].addrs[x] == 0
    requires b < sb.size && !Used(sb, s.disk, b)
    ensures var t := TakenDirect(sb, s, n, x, b);
            var o := owner[b := Slot(n, x)];
            && Ok(sb, t) && Consistent(sb, t.disk, t.inodes, o, {}) && Extends(sb, s, owner, t, o, n)
            && forall y :: 0 <= y < SLOTS
                 ==> Addr(sb, t.disk, t.inodes[n], y) == if y == x then b else Addr(sb, s.disk, s.inodes[n], y)
  {
    AllocateKeeps(sb, s.disk, s.inodes, owner, b);
    AttachDirect(sb, Allocate(sb, s.disk, b), s.inodes, owner, n, x, b);
    hide Allocate, Zeros, Mapped;
    var t := TakenDirect(sb, s, n, x, b);
    forall m, y | 0 <= m < |s.inodes| && 0 <= y < SLOTS
      ensures Addr(sb, t.disk, t.inodes[m], y)
              == if m == n && y == x then b else Addr(sb, s.disk, s.inodes[m], y)
    {
    }
  }

  // balloc took block b for word j of the indirect block of inode n.
  function TakenEntry(sb: Super, s: State, n: nat, j: nat, b: nat): State
    requires Ok(sb, s) && n < |s.inodes| && j < NINDIRECT && s.inodes[n].addrs[NDIRECT] != 0 && b < sb.size
  {
    var d := Allocate(sb, s.disk, b);
    var i := s.inodes[n].addrs[NDIRECT];
    if 4 * j + 4 <= |d[i]| then State(d[i := SetWord(d[i], j, b)], s.inodes) else s
  }

  lemma TakeEntry(sb: Super, s: State, owner: Owner, n: nat, j: nat, b: nat)
    requires Ok(sb, s) && Consistent(sb, s.disk, s.inodes, owner, {})
    requires n < |s.inodes| && j < NINDIRECT && s.inodes[n].addrs[NDIRECT] != 0
    requires Addr(sb, s.disk, s.inodes[n], NDIRECT + 1 + j) == 0
    requires b < sb.size && !Used(sb, s.disk, b)
    ensures var i := s.inodes[n].addrs[NDIRECT];
            var d := Allocate(sb, s.disk, b);
            && 0 < i < |d| && 4 * j + 4 <= |d[i]|
            && TakenEntry(sb, s, n, j, b) == State(d[i := SetWord(d[i], j, b)], s.inodes)
    ensures var t := TakenEntry(sb, s, n, j, b);
            var o := owner[b := Slot(n, NDIRECT + 1 + j)];
            && Ok(sb, t) && Consistent(sb, t.disk, t.inodes, o, {}) && Extends(sb, s, owner, t, o, n)
            && forall y :: 0 <= y < SLOTS
                 ==> Addr(sb, t.disk, t.inodes[n], y)
                     == if y == NDIRECT + 1 + j then b else Addr(sb, s.disk, s.inodes[n], y)
  {
    hide Allocate, Zeros, Mapped, SetWord, Used, DiskOk, InodeOk, IsBlock;
    AllocateKeeps(sb, s.disk, s.inodes, owner, b);
    EntryBlock(sb, s.disk, s.inodes, owner, n, j, b);
    AllocateSize(sb, s.disk, b);
    EntryBlock(sb, Allocate(sb, s.disk, b), s.inodes, owner, n, j, b);
    AttachEntry(sb, Allocate(sb, s.disk, b), s.inodes, owner, n, j, b);
  }

  // Bytes in allocated blocks survive.
  lemma ExtendsBytes(sb: Super, s: State, owner: Owner, t: State, owner': Owner, n: nat, m: nat, i: nat)
    requires Ok(sb, s) && Ok(sb, t) && Extends(sb, s, owner, t, owner', n)
    requires Owns(sb, s.disk, s.inodes, owner, 0, 0)
    requires m < |s.inodes| && i < MAXFILE * BSIZE
    requires Addr(sb, s.disk, s.inodes[m], DataSlot(BlockNo(i))) != 0
    ensures FileByte(sb, t.disk, t.inodes[m], i) == FileByte(sb, s.disk, s.inodes[m], i)
    ensures Addr(sb, t.disk, t.inodes[m], DataSlot(BlockNo(i))) != 0
  {
    var x := DataSlot(BlockNo(i));
    var a := Addr(sb, s.disk, s.inodes[m], x);
    assert owner[a] == Slot(m, x);
  }

  // --- writing a piece of a block ---

  lemma PatchByte(b: Bytes, o: nat, piece: seq<int>, k: nat)
    requires IsBlock(b) && o + |piece| <= BSIZE && AreBytes(piece) && k < BSIZE
    ensures |b| == BSIZE && IsBlock(Patch(b, o, piece)) && |Patch(b, o, piece)| == BSIZE
    ensures Patch(b, o, piece)[k] == if o <= k < o + |piece| then piece[k - o] else b[k]
  {
  }

  lemma PatchedBytes(sb: Super, s: State, owner: Owner, n: nat, bn: nat, o: nat, piece: seq<int>, m: nat, i: nat)
    requires Consistent(sb, s.disk, s.inodes, owner, {}) && n < |s.inodes| && bn < MAXFILE
    requires Addr(sb, s.disk, s.inodes[n], DataSlot(bn)) != 0 && o + |piece| <= BSIZE && AreBytes(piece)
    requires m < |s.inodes| && i < MAXFILE * BSIZE
    requires Addr(sb, s.disk, s.inodes[m], DataSlot(BlockNo(i))) != 0
    ensures var a := Addr(sb, s.disk, s.inodes[n], DataSlot(bn));
            var d := s.disk[a := Patch(s.disk[a], o, piece)];
            && Ok(sb, State(d, s.inodes)) && Consistent(sb, d, s.inodes, owner, {})
            && Addr(sb, d, s.inodes[m], DataSlot(BlockNo(i))) == Addr(sb, s.disk, s.inodes[m], DataSlot(BlockNo(i)))
            && FileByte(sb, d, s.inodes[m], i)
               == if m == n && bn * BSIZE + o <= i < bn * BSIZE + o + |piece| then piece[i - bn * BSIZE - o]
                  else FileByte(sb, s.disk, s.inodes[m], i)
  {
    var a := Addr(sb, s.disk, s.inodes[n], DataSlot(bn));
    assert owner[a] == Slot(n, DataSlot(bn)) && IsBlock(s.disk[a]);
    hide Used, Mapped, Patch, IsBlock;
    var data := Patch(s.disk[a], o, piece);
    PatchByte(s.disk[a], o, piece, BlockAt(i));
    WriteKeeps(sb, s.disk, s.inodes, owner, a, data);
    var x := DataSlot(BlockNo(i));
    var c := Addr(sb, s.disk, s.inodes[m], x);
    assert owner[c] == Slot(m, x);
    if c == a {
      assert m == n && BlockNo(i) == bn;
    } else {
      assert !(m == n && BlockNo(i) == bn);
    }
  }

  ghost predicate SameSlots(sb: Super, s: State, t: State)
    requires Ok(sb, s) && Ok(sb, t)
  {
    && |s.inodes| == |t.inodes|
    && forall m, x :: 0 <= m < |s.inodes| && 0 <= x < SLOTS
         ==> Addr(sb, t.disk, t.inodes[m], x) == Addr(sb, s.disk, s.inodes[m], x)
  }

  lemma PatchedSlots(sb: Super, s: State, owner: Owner, n: nat, bn: nat, o: nat, piece: seq<int>)
    requires Consistent(sb, s.disk, s.inodes, owner, {}) && n < |s.inodes| && bn < MAXFILE
    requires Addr(sb, s.disk, s.inodes[n], DataSlot(bn)) != 0 && o + |piece| <= BSIZE && AreBytes(piece)
    ensures var a := Addr(sb, s.disk, s.inodes[n], DataSlot(bn));
            var d := s.disk[a := Patch(s.disk[a], o, piece)];
            DiskOk(sb, d) && SameSlots(sb, s, State(d, s.inodes))
  {
    var a := Addr(sb, s.disk, s.inodes[n], DataSlot(bn));
    assert owner[a] == Slot(n, DataSlot(bn));
    var data := Patch(s.disk[a], o, piece);
    assert IsBlock(data);
    WriteKeeps(sb, s.disk, s.inodes, owner, a, data);
  }

  // --- reading ---

  // off + n < off in 32-bit arithmetic.
  predicate Wraps(off: nat, n: nat) { (off + n) % UINT32 < off }

  lemma WrapsIff(off: nat, n: nat)
    requires off < UINT32 && n < UINT32
    ensures Wraps(off, n) <==> off + n >= UINT32
  {
    if off + n >= UINT32 { assert (off + n) % UINT32 == off + n - UINT32; }
  }

  // What readi delivers of a file c.
  function Slice(c: seq<int>, off: nat, n: nat): seq<int> {
    if off > |c| || Wraps(off, n) then [] else c[off..Min(off + n, |c|)]
  }

  lemma PieceByte(sb: Super, disk: Disk, ino: Inode, i: nat, j: nat)
    requires DiskOk(sb, disk) && InodeOk(sb, ino) && ino.size <= MAXFILE * BSIZE
    requires i + j < ino.size && BlockAt(i) + j < BSIZE
    ensures ByteOf(disk, Addr(sb, disk, ino, DataSlot(BlockNo(i))), BlockAt(i) + j) == Content(sb, disk, ino)[i + j]
  {
    assert BlockNo(i + j) == BlockNo(i) && BlockAt(i + j) == BlockAt(i) + j;
  }

  // The piece of a file that lies in one allocated block.
  lemma BlockPiece(sb: Super, disk: Disk, ino: Inode, i: nat, k: nat)
    requires DiskOk(sb, disk) && InodeOk(sb, ino) && ino.size <= MAXFILE * BSIZE
    requires i + k <= ino.size && BlockAt(i) + k <= BSIZE && 0 < k
    requires var a := Addr(sb, disk, ino, DataSlot(BlockNo(i))); 0 <= a < |disk|
    ensures var a := Addr(sb, disk, ino, DataSlot(BlockNo(i)));
            disk[a][BlockAt(i)..BlockAt(i) + k] == Content(sb, disk, ino)[i..i + k]
  {
    var a, o := Addr(sb, disk, ino, DataSlot(BlockNo(i))), BlockAt(i);
    var c := Content(sb, disk, ino);
    var p, q := disk[a][o..o + k], c[i..i + k];
    forall j: nat | j < k ensures p[j] == q[j] {
      PieceByte(sb, disk, ino, i, j);
      assert p[j] == disk[a][o + j] == ByteOf(disk, a, o + j);
    }
  }

  lemma SizeHasBlock(sb: Super, s: State, owner: Owner, n: nat, i: nat)
    requires Consistent(sb, s.disk, s.inodes, owner, {}) && Complete(sb, s.disk, s.inodes)
    requires n < |s.inodes| && i < s.inodes[n].size
    ensures BlockNo(i) < MAXFILE
    ensures sb.meta <= Addr(sb, s.disk, s.inodes[n], DataSlot(BlockNo(i))) < sb.size
  {
    assert NoHoles(sb, s.disk, s.inodes[n], s.inodes[n].size);
    assert BlockNo(i) * BSIZE < s.inodes[n].size;
    assert Addr(sb, s.disk, s.inodes[n], DataSlot(BlockNo(i))) in owner;
  }

  // --- a write in progress ---

  // After `tot` bytes of src have been written at `off` of inode n, starting from state s.
  ghost predicate Written(sb: Super, s: State, t: State, n: nat, off: nat, src: seq<int>, tot: nat)
    requires Ok(sb, s) && Ok(sb, t)
  {
    && |t.inodes| == |s.inodes| && n < |s.inodes| && tot <= |src|
    && t.inodes[n].size == s.inodes[n].size
    && (forall m :: 0 <= m < |s.inodes| && m != n ==> t.inodes[m] == s.inodes[m])
    && (forall m :: 0 <= m < |s.inodes| ==> s.inodes[m].size <= MAXFILE * BSIZE)
    && off + tot <= MAXFILE * BSIZE
    && (forall m, i :: 0 <= m < |s.inodes| && 0 <= i < Reach(s, n, off + tot, m) ==>
          && Addr(sb, t.disk, t.inodes[m], DataSlot(BlockNo(i))) != 0
          && FileByte(sb, t.disk, t.inodes[m], i)
             == if m == n && off <= i < off + tot then src[i - off] else FileByte(sb, s.disk, s.inodes[m], i))
  }

  // How far file m reaches once inode n has been written up to byte `end`.
  function Reach(s: State, n: nat, end: nat, m: nat): nat
    requires m < |s.inodes|
  {
    if m == n then Max(s.inodes[m].size, end) else s.inodes[m].size
  }

  lemma WrittenShape(sb: Super, s: State, t: State, n: nat, off: nat, src: seq<int>, tot: nat)
    requires Ok(sb, s) && Ok(sb, t) && Written(sb, s, t, n, off, src, tot)
    ensures n < |t.inodes| == |s.inodes| && tot <= |src|
    ensures s.inodes[n := t.inodes[n]] == t.inodes
  {
  }

  lemma WrittenStart(sb: Super, s: State, n: nat, off: nat, src: seq<int>)
    requires Ok(sb, s) && Complete(sb, s.disk, s.inodes)
    requires n < |s.inodes| && off <= s.inodes[n].size
    ensures Written(sb, s, s, n, off, src, 0)
  {
    forall m, i | 0 <= m < |s.inodes| && 0 <= i < Reach(s, n, off, m)
      ensures Addr(sb, s.disk, s.inodes[m], DataSlot(BlockNo(i))) != 0
    {
      assert NoHoles(sb, s.disk, s.inodes[m], s.inodes[m].size);
      assert BlockNo(i) * BSIZE < s.inodes[m].size;
    }
  }

  lemma WrittenExtends(sb: Super, s: State, t: State, owner: Owner, u: State, owner': Owner,
                       n: nat, off: nat, src: seq<int>, tot: nat)
    requires Ok(sb, s) && Ok(sb, t) && Ok(sb, u) && Written(sb, s, t, n, off, src, tot)
    requires Owns(sb, t.disk, t.inodes, owner, 0, 0) && Extends(sb, t, owner, u, owner', n)
    ensures Written(sb, s, u, n, off, src, tot)
  {
    forall m, i | 0 <= m < |s.inodes| && 0 <= i < Reach(s, n, off + tot, m)
      ensures Addr(sb, u.disk, u.inodes[m], DataSlot(BlockNo(i))) != 0
      ensures FileByte(sb, u.disk, u.inodes[m], i) == FileByte(sb, t.disk, t.inodes[m], i)
    {
      ExtendsBytes(sb, t, owner, u, owner', n, m, i);
    }
  }

  // Block bn of inode n with the next k bytes of the source copied in.
  function Copied(sb: Super, t: State, n: nat, off: nat, src: seq<int>, tot: nat, k: nat): State
    requires Ok(sb, t) && n < |t.inodes| && BlockNo(off + tot) < MAXFILE
    requires 0 <= Addr(sb, t.disk, t.inodes[n], DataSlot(BlockNo(off + tot))) < sb.size
    requires tot + k <= |src| && BlockAt(off + tot) + k <= BSIZE
  {
    var a := Addr(sb, t.disk, t.inodes[n], DataSlot(BlockNo(off + tot)));
    State(t.disk[a := Patch(t.disk[a], BlockAt(off + tot), src[tot..tot + k])], t.inodes)
  }

  lemma CopiedByte(sb: Super, s: State, t: State, owner: Owner, n: nat, off: nat, src: seq<int>, tot: nat, k: nat,
                   m: nat, i: nat)
    requires Ok(sb, s) && Ok(sb, t) && Written(sb, s, t, n, off, src, tot) && AreBytes(src)
    requires Consistent(sb, t.disk, t.inodes, owner, {})
    requires tot + k <= |src| && off + tot + k <= MAXFILE * BSIZE && BlockAt(off + tot) + k <= BSIZE && 0 < k
    requires sb.meta <= Addr(sb, t.disk, t.inodes[n], DataSlot(BlockNo(off + tot))) < sb.size
    requires m < |s.inodes| && i < Reach(s, n, off + tot + k, m)
    ensures var u := Copied(sb, t, n, off, src, tot, k);
            && Ok(sb, u) && Consistent(sb, u.disk, u.inodes, owner, {})
            && Addr(sb, u.disk, u.inodes[m], DataSlot(BlockNo(i))) != 0
            && FileByte(sb, u.disk, u.inodes[m], i)
               == if m == n && off <= i < off + tot + k then src[i - off] else FileByte(sb, s.disk, s.inodes[m], i)
  {
    hide Used, Mapped, Addr, IsBlock, Patch, FileByte;
    var bn, o := BlockNo(off + tot), BlockAt(off + tot);
    assert i >= Reach(s, n, off + tot, m) ==> m == n && BlockNo(i) == bn;
    PatchedBytes(sb, t, owner, n, bn, o, src[tot..tot + k], m, i);
  }

  lemma WrittenPiece(sb: Super, s: State, t: State, owner: Owner, n: nat, off: nat, src: seq<int>, tot: nat, k: nat)
    requires Ok(sb, s) && Ok(sb, t) && Written(sb, s, t, n, off, src, tot) && AreBytes(src)
    requires Consistent(sb, t.disk, t.inodes, owner, {})
    requires tot + k <= |src| && off + tot + k <= MAXFILE * BSIZE && BlockAt(off + tot) + k <= BSIZE && 0 < k
    requires sb.meta <= Addr(sb, t.disk, t.inodes[n], DataSlot(BlockNo(off + tot))) < sb.size
    ensures var u := Copied(sb, t, n, off, src, tot, k);
            && Ok(sb, u) && Consistent(sb, u.disk, u.inodes, owner, {})
            && Written(sb, s, u, n, off, src, tot + k) && SameSlots(sb, t, u)
  {
    hide Used, Mapped, Consistent, Addr, IsBlock, FileByte, InodeOk, Patch, AreBytes;
    var u := Copied(sb, t, n, off, src, tot, k);
    CopiedShape(sb, t, owner, n, off, src, tot, k);
    assert u.inodes == t.inodes && u.inodes[n].size == s.inodes[n].size;
    forall m, i | 0 <= m < |s.inodes| && 0 <= i < Reach(s, n, off + tot + k, m)
      ensures Addr(sb, u.disk, u.inodes[m], DataSlot(BlockNo(i))) != 0
      ensures FileByte(sb, u.disk, u.inodes[m], i)
              == if m == n && off <= i < off + tot + k then src[i - off] else FileByte(sb, s.disk, s.inodes[m], i)
    {
      CopiedByte(sb, s, t, owner, n, off, src, tot, k, m, i);
    }
  }

  lemma CopiedShape(sb: Super, t: State, owner: Owner, n: nat, off: nat, src: seq<int>, tot: nat, k: nat)
    requires Ok(sb, t) && Consistent(sb, t.disk, t.inodes, owner, {}) && AreBytes(src) && n < |t.inodes|
    requires tot + k <= |src| && off + tot + k <= MAXFILE * BSIZE && BlockAt(off + tot) + k <= BSIZE && 0 < k
    requires BlockNo(off + tot) < MAXFILE
    requires sb.meta <= Addr(sb, t.disk, t.inodes[n], DataSlot(BlockNo(off + tot))) < sb.size
    ensures var u := Copied(sb, t, n, off, src, tot, k);
            u.inodes == t.inodes && Ok(sb, u) && Consistent(sb, u.disk, u.inodes, owner, {}) && SameSlots(sb, t, u)
  {
    hide Used, Mapped, Addr, IsBlock, FileByte, Patch;
    var bn, o := BlockNo(off + tot), BlockAt(off + tot);
    PatchedBytes(sb, t, owner, n, bn, o, src[tot..tot + k], n, off + tot);
    PatchedSlots(sb, t, owner, n, bn, o, src[tot..tot + k]);
  }

  // c with s written over it at off.
  function Splice(c: seq<int>, off: nat, s: seq<int>): seq<int>
    requires off <= |c|
  {
    c[..off] + s + (if off + |s| <= |c| then c[off + |s|..] else [])
  }

  // What was written is read back, and what lies before or after it is read as before.
  lemma ReadAfterWrite(c: seq<int>, off: nat, s: seq<int>, i: nat, n: nat)
    requires off <= |c| && off + |s| < UINT32 && i + n < UINT32
    ensures Slice(Splice(c, off, s), off, |s|) == s
    ensures i + n <= off || off + |s| <= i ==> Slice(Splice(c, off, s), i, n) == Slice(c, i, n)
  {
    WrapsIff(off, |s|);
    WrapsIff(i, n);
  }

  lemma SpliceAgain(c: seq<int>, off: nat, s: seq<int>, t: seq<int>)
    requires off <= |c|
    ensures off + |s| <= |Splice(c, off, s)|
    ensures Splice(Splice(c, off, s), off + |s|, t) == Splice(c, off, s + t)
  {
  }

  // The state in which writei leaves inode n: only the size is still to be set.
  function Resize(t: State, n: nat, end: nat): State
    requires n < |t.inodes|
  {
    State(t.disk, t.inodes[n := t.inodes[n].(size := Max(t.inodes[n].size, end))])
  }

  lemma WrittenDone(sb: Super, s: State, t: State, owner: Owner, n: nat, off: nat, src: seq<int>, tot: nat)
    requires Ok(sb, s) && Ok(sb, t) && Written(sb, s, t, n, off, src, tot) && off <= s.inodes[n].size
    requires Consistent(sb, t.disk, t.inodes, owner, {})
    ensures var u := Resize(t, n, off + tot);
            && Ok(sb, u) && Consistent(sb, u.disk, u.inodes, owner, {}) && Complete(sb, u.disk, u.inodes)
            && Content(sb, u.disk, u.inodes[n])
               == Splice(Content(sb, s.disk, s.inodes[n]), off, src[..tot])
            && forall m :: 0 <= m < |s.inodes| && m != n
                 ==> Content(sb, u.disk, u.inodes[m]) == Content(sb, s.disk, s.inodes[m])
  {
    hide Used, Mapped, FileByte, Addr, Splice, Consistent, DiskOk;
    var u := Resize(t, n, off + tot);
    ResizeKeeps(sb, t, owner, n, off + tot);
    forall m | 0 <= m < |s.inodes| ensures NoHoles(sb, u.disk, u.inodes[m], u.inodes[m].size) {
      WrittenNoHoles(sb, s, t, n, off, src, tot, m);
    }
    ResizeBytes(sb, s, t, n, off, src, tot);
    forall m | 0 <= m < |s.inodes| && m != n
      ensures Content(sb, u.disk, u.inodes[m]) == Content(sb, s.disk, s.inodes[m])
    {
      OtherContent(sb, s, t, n, off, src, tot, m);
    }
  }

  lemma OtherContent(sb: Super, s: State, t: State, n: nat, off: nat, src: seq<int>, tot: nat, m: nat)
    requires Ok(sb, s) && Ok(sb, t) && Written(sb, s, t, n, off, src, tot) && m < |s.inodes| && m != n
    ensures Content(sb, t.disk, t.inodes[m]) == Content(sb, s.disk, s.inodes[m])
  {
    forall i | 0 <= i < s.inodes[m].size
      ensures FileByte(sb, t.disk, t.inodes[m], i) == FileByte(sb, s.disk, s.inodes[m], i)
    {
      assert i < Reach(s, n, off + tot, m);
    }
  }

  // The range that writei refuses.
  predicate Refused(size: nat, off: nat, n: nat) {
    off > size || Wraps(off, n) || off + n > MAXFILE * BSIZE
  }

  // The first r bytes of src replaced what file n had at off, extending it if need be; the
  // other files are as they were.
  ghost predicate Wrote(sb: Super, s: State, t: State, n: nat, off: nat, src: seq<int>, r: int) {
    && Ok(sb, s) && Complete(sb, s.disk, s.inodes) && Ok(sb, t) && Complete(sb, t.disk, t.inodes)
    && |t.inodes| == |s.inodes| && n < |s.inodes| && 0 <= r <= |src| && off <= s.inodes[n].size
    && Content(sb, t.disk, t.inodes[n]) == Splice(Content(sb, s.disk, s.inodes[n]), off, src[..r])
    && forall m :: 0 <= m < |s.inodes| && m != n
         ==> Content(sb, t.disk, t.inodes[m]) == Content(sb, s.disk, s.inodes[m])
  }

  lemma WrittenWrote(sb: Super, s: State, t: State, owner: Owner, n: nat, off: nat, src: seq<int>, tot: nat)
    requires Ok(sb, s) && Ok(sb, t) && Written(sb, s, t, n, off, src, tot) && off <= s.inodes[n].size
    requires Consistent(sb, t.disk, t.inodes, owner, {}) && Complete(sb, s.disk, s.inodes)
    ensures n < |t.inodes| == |s.inodes| && s.inodes[n := t.inodes[n]] == t.inodes
    ensures var u := Resize(t, n, off + tot);
            && Wrote(sb, s, u, n, off, src, tot)
            && Consistent(sb, u.disk, u.inodes, owner, {}) && Complete(sb, u.disk, u.inodes)
            && forall lo: nat, hi: nat :: hi <= MAXFILE ==> Extra(sb, u, n, lo, hi) == Extra(sb, t, n, lo, hi)
  {
    WrittenDone(sb, s, t, owner, n, off, src, tot);
    WrittenShape(sb, s, t, n, off, src, tot);
    var u := Resize(t, n, off + tot);
    forall lo: nat, hi: nat | hi <= MAXFILE ensures Extra(sb, u, n, lo, hi) == Extra(sb, t, n, lo, hi) {
      ExtraFrame(sb, t, u, n, lo, hi);
    }
  }

  lemma ResizeKeeps(sb: Super, t: State, owner: Owner, n: nat, end: nat)
    requires Consistent(sb, t.disk, t.inodes, owner, {}) && n < |t.inodes|
    ensures var u := Resize(t, n, end);
            Ok(sb, u) && Consistent(sb, u.disk, u.inodes, owner, {})
  {
    var u := Resize(t, n, end);
    assert forall m, x :: 0 <= m < |t.inodes| && 0 <= x < SLOTS
             ==> Addr(sb, u.disk, u.inodes[m], x) == Addr(sb, t.disk, t.inodes[m], x);
  }

  lemma WrittenNoHoles(sb: Super, s: State, t: State, n: nat, off: nat, src: seq<int>, tot: nat, m: nat)
    requires Ok(sb, s) && Ok(sb, t) && Written(sb, s, t, n, off, src, tot) && m < |s.inodes|
    ensures var u := Resize(t, n, off + tot);
            InodeOk(sb, u.inodes[m]) && NoHoles(sb, u.disk, u.inodes[m], u.inodes[m].size)
  {
    var u := Resize(t, n, off + tot);
    forall bn | 0 <= bn < MAXFILE && bn * BSIZE < u.inodes[m].size
      ensures Addr(sb, u.disk, u.inodes[m], DataSlot(bn)) != 0
    {
      var i := bn * BSIZE;
      assert i < Reach(s, n, off + tot, m) && BlockNo(i) == bn;
    }
  }

  lemma ResizeBytes(sb: Super, s: State, t: State, n: nat, off: nat, src: seq<int>, tot: nat)
    requires Ok(sb, s) && Ok(sb, t) && Written(sb, s, t, n, off, src, tot) && off <= s.inodes[n].size
    ensures var u := Resize(t, n, off + tot);
            InodeOk(sb, u.inodes[n]) && u.inodes[n].size <= MAXFILE * BSIZE &&
            Content(sb, u.disk, u.inodes[n]) == Splice(Content(sb, s.disk, s.inodes[n]), off, src[..tot])
  {
    var u := Resize(t, n, off + tot);
    forall i | 0 <= i < u.inodes[n].size
      ensures Content(sb, u.disk, u.inodes[n])[i] == Splice(Content(sb, s.disk, s.inodes[n]), off, src[..tot])[i]
    {
      assert i < Reach(s, n, off + tot, n);
      assert FileByte(sb, u.disk, u.inodes[n], i) == FileByte(sb, t.disk, t.inodes[n], i);
    }
  }

  // --- which blocks an operation logs ---

  predicate IsMapBlock(sb: Super, b: nat) { sb.bmapstart <= b <= sb.bmapstart + (sb.size - 1) / BPB }

  // IBLOCK: inodes of 64 bytes.
  function InodeBlock(sb: Super, n: nat): nat { n / (BSIZE / 64) + sb.inodestart }

  // Every block that is not what it was has been logged.
  ghost predicate Covered(disk: Disk, disk': Disk, logged: set<nat>) {
    |disk'| == |disk| && forall b :: 0 <= b < |disk| && b !in logged ==> disk'[b] == disk[b]
  }

  lemma CoveredNone(d: Disk, l: set<nat>)
    ensures Covered(d, d, l)
  {
  }

  lemma CoveredMore(d: Disk, d': Disk, d'': Disk, l: set<nat>, l': set<nat>)
    requires Covered(d, d', l) && Covered(d', d'', l') && l <= l'
    ensures Covered(d, d'', l')
  {
  }

  // And so has the block of every inode that is not what it was.
  ghost predicate Recorded(sb: Super, s: State, t: State, logged: set<nat>) {
    && Covered(s.disk, t.disk, logged) && |t.inodes| == |s.inodes|
    && forall m :: 0 <= m < |s.inodes| && t.inodes[m] != s.inodes[m] ==> InodeBlock(sb, m) in logged
  }

  // Between the two sets only blocks of the free map and those in `extra` were logged.
  ghost predicate Logs(sb: Super, before: set<nat>, after: set<nat>, extra: set<int>) {
    before <= after && forall b :: b in after && b !in before ==> b != 0 && (b in extra || IsMapBlock(sb, b))
  }

  lemma LogsTake(sb: Super, before: set<nat>, b: nat)
    requires 0 < b < sb.size && 0 < sb.bmapstart
    ensures Logs(sb, before, before + {MapBlock(sb, b), b}, {b})
  {
  }

  lemma LogsMore(sb: Super, s: set<nat>, t: set<nat>, x: set<int>, i: nat)
    requires Logs(sb, s, t, x) && i != 0
    ensures Logs(sb, s, t + {i}, x + {i})
  {
  }

  lemma LogsOne(sb: Super, s: set<nat>, t: set<nat>, x: set<int>, a: nat)
    requires Logs(sb, s, t, x) && a in x && a != 0
    ensures Logs(sb, s, t + {a}, x)
  {
  }

  lemma LogsWider(sb: Super, s: set<nat>, t: set<nat>, x: set<int>, y: set<int>)
    requires Logs(sb, s, t, x) && forall b :: b in x && b != 0 ==> b in y
    ensures Logs(sb, s, t, y)
  {
  }

  lemma LogsJoin(sb: Super, s: set<nat>, t: set<nat>, u: set<nat>, x: set<int>, y: set<int>)
    requires Logs(sb, s, t, x) && Logs(sb, t, u, y) && forall b :: b in x && b != 0 ==> b in y
    ensures Logs(sb, s, u, y)
  {
  }

  lemma CoveredLogs(sb: Super, d: Disk, d': Disk, d'': Disk, l: set<nat>, l': set<nat>, x: set<int>)
    requires Covered(d, d', l) && Covered(d', d'', l') && Logs(sb, l, l', x)
    ensures Covered(d, d'', l')
  {
  }

  // The number of blocks that hold the first `end` bytes of a file.
  function Blocks(end: nat): nat { (end + BSIZE - 1) / BSIZE }

  // The indirect block of inode n and its data blocks lo, ..., hi - 1.
  ghost function Extra(sb: Super, s: State, n: nat, lo: nat, hi: nat): set<int>
    requires Ok(sb, s) && n < |s.inodes| && hi <= MAXFILE
    decreases hi
  {
    if hi <= lo then {s.inodes[n].addrs[NDIRECT]}
    else {Addr(sb, s.disk, s.inodes[n], DataSlot(hi - 1))} + Extra(sb, s, n, lo, hi - 1)
  }

  lemma {:induction false} ExtraSize(sb: Super, s: State, n: nat, lo: nat, hi: nat)
    requires Ok(sb, s) && n < |s.inodes| && lo <= hi <= MAXFILE
    ensures |Extra(sb, s, n, lo, hi)| <= 1 + hi - lo
    decreases hi
  {
    if hi > lo { ExtraSize(sb, s, n, lo, hi - 1); }
  }

  lemma {:induction false} ExtraGrows(sb: Super, s: State, owner: Owner, t: State, owner': Owner, n: nat, lo: nat, hi: nat, b: int)
    requires Ok(sb, s) && Ok(sb, t) && Extends(sb, s, owner, t, owner', n) && hi <= MAXFILE
    requires b in Extra(sb, s, n, lo, hi) && b != 0
    ensures b in Extra(sb, t, n, lo, hi)
    decreases hi
  {
    if hi <= lo {
      assert Addr(sb, s.disk, s.inodes[n], NDIRECT) == b;
      assert Addr(sb, t.disk, t.inodes[n], NDIRECT) == t.inodes[n].addrs[NDIRECT];
    } else if b != Addr(sb, s.disk, s.inodes[n], DataSlot(hi - 1)) {
      ExtraGrows(sb, s, owner, t, owner', n, lo, hi - 1, b);
    }
  }

  lemma {:induction false} ExtraHas(sb: Super, s: State, n: nat, lo: nat, hi: nat, bn: nat)
    requires Ok(sb, s) && n < |s.inodes| && lo <= bn < hi <= MAXFILE
    ensures Addr(sb, s.disk, s.inodes[n], DataSlot(bn)) in Extra(sb, s, n, lo, hi)
    ensures s.inodes[n].addrs[NDIRECT] in Extra(sb, s, n, lo, hi)
    decreases hi
  {
    if bn < hi - 1 {
      ExtraHas(sb, s, n, lo, hi - 1, bn);
    } else {
      ExtraIndirect(sb, s, n, lo, hi);
    }
  }

  lemma {:induction false} ExtraIndirect(sb: Super, s: State, n: nat, lo: nat, hi: nat)
    requires Ok(sb, s) && n < |s.inodes| && hi <= MAXFILE
    ensures s.inodes[n].addrs[NDIRECT] in Extra(sb, s, n, lo, hi)
    decreases hi
  {
    if hi > lo { ExtraIndirect(sb, s, n, lo, hi - 1); }
  }

  // The log after one call of bmap for block bn of inode n.
  lemma LogsBmap(sb: Super, l0: set<nat>, l1: set<nat>, l2: set<nat>, s: State, owner: Owner, t: State,
                 owner': Owner, n: nat, lo: nat, hi: nat, bn: nat, a: int)
    requires Ok(sb, s) && Ok(sb, t) && Extends(sb, s, owner, t, owner', n) && lo <= bn < hi <= MAXFILE
    requires Logs(sb, l0, l1, Extra(sb, s, n, lo, hi)) && Logs(sb, l1, l2, {a, t.inodes[n].addrs[NDIRECT]})
    requires a != 0 ==> a == Addr(sb, t.disk, t.inodes[n], DataSlot(bn))
    ensures Logs(sb, l0, l2, Extra(sb, t, n, lo, hi))
    ensures a != 0 ==> a in Extra(sb, t, n, lo, hi)
  {
    forall b | b in Extra(sb, s, n, lo, hi) && b != 0 ensures b in Extra(sb, t, n, lo, hi) {
      ExtraGrows(sb, s, owner, t, owner', n, lo, hi, b);
    }
    ExtraHas(sb, t, n, lo, hi, bn);
  }

  // Extra only looks at slots.
  lemma {:induction false} ExtraFrame(sb: Super, s: State, t: State, n: nat, lo: nat, hi: nat)
    requires Ok(sb, s) && Ok(sb, t) && n < |s.inodes| && n < |t.inodes| && hi <= MAXFILE
    requires forall x :: 0 <= x < SLOTS ==> Addr(sb, t.disk, t.inodes[n], x) == Addr(sb, s.disk, s.inodes[n], x)
    ensures Extra(sb, t, n, lo, hi) == Extra(sb, s, n, lo, hi)
    decreases hi
  {
    if hi <= lo {
      assert Addr(sb, s.disk, s.inodes[n], NDIRECT) == Addr(sb, t.disk, t.inodes[n], NDIRECT);
    } else {
      ExtraFrame(sb, s, t, n, lo, hi - 1);
    }
  }

  // --- what bmap promises ---

  ghost predicate FullDisk(sb: Super, disk: Disk) {
    DiskOk(sb, disk) && forall b :: 0 <= b < sb.size ==> Used(sb, disk, b)
  }

  // From s, with l logged, bmap took the file system to t, with l' logged, and returned a
  // for block bn of inode n: the block there, newly allocated if there was none, or 0 if
  // the disk is full.  What was there before is still there.
  ghost predicate Bmapped(sb: Super, s: State, owner: Owner, l: set<nat>, t: State, owner': Owner, l': set<nat>,
                          n: nat, bn: nat, a: int)
  {
    && Ok(sb, s) && Ok(sb, t) && n < |s.inodes| && bn < MAXFILE
    && Consistent(sb, t.disk, t.inodes, owner', {}) && Extends(sb, s, owner, t, owner', n)
    && a == Addr(sb, t.disk, t.inodes[n], DataSlot(bn)) && (a == 0 ==> FullDisk(sb, t.disk))
    && (Addr(sb, s.disk, s.inodes[n], DataSlot(bn)) != 0 ==> a != 0 && t == s && owner' == owner && l' == l)
    && Logs(sb, l, l', {a, t.inodes[n].addrs[NDIRECT]}) && Covered(s.disk, t.disk, l')
  }

  lemma SizeBound(sb: Super, s: State, owner: Owner, n: nat)
    requires Consistent(sb, s.disk, s.inodes, owner, {}) && Complete(sb, s.disk, s.inodes) && n < |s.inodes|
    ensures Ok(sb, s) && s.inodes[n].size <= MAXFILE * BSIZE
  {
    assert NoHoles(sb, s.disk, s.inodes[n], s.inodes[n].size);
  }

  lemma ReadPosition(i: nat, size: nat)
    requires i < size <= MAXFILE * BSIZE
    ensures BlockNo(i) < MAXFILE && BlockAt(i) < BSIZE
  {
  }

  lemma SliceGrows(c: seq<int>, off: nat, i: nat, k: nat)
    requires off <= i && i + k <= |c|
    ensures c[off..i] + c[i..i + k] == c[off..i + k]
  {
  }

  // readi's use of bmap: the block is there, so nothing happens but the lookup.
  lemma ReadBmap(sb: Super, s: State, owner: Owner, l: set<nat>, t: State, owner': Owner, l': set<nat>,
                 n: nat, i: nat, k: nat, a: int)
    requires Consistent(sb, s.disk, s.inodes, owner, {}) && Complete(sb, s.disk, s.inodes)
    requires n < |s.inodes| && 0 < k && i + k <= s.inodes[n].size && BlockAt(i) + k <= BSIZE
    requires Bmapped(sb, s, owner, l, t, owner', l', n, BlockNo(i), a)
    ensures t == s && owner' == owner && l' == l && 0 < a < |s.disk| && |s.disk[a]| == BSIZE
    ensures s.inodes[n].size <= MAXFILE * BSIZE
    ensures s.disk[a][BlockAt(i)..BlockAt(i) + k] == Content(sb, s.disk, s.inodes[n])[i..i + k]
  {
    SizeHasBlock(sb, s, owner, n, i);
    BlockPiece(sb, s.disk, s.inodes[n], i, k);
  }

  // --- one pass of writei's loop ---

  ghost predicate Progress(sb: Super, s0: State, l0: set<nat>, s: State, owner: Owner, logged: set<nat>,
                           n: nat, off: nat, src: seq<int>, tot: nat)
  {
    && Ok(sb, s0) && Ok(sb, s) && n < |s.inodes| && AreBytes(src) && off + |src| <= MAXFILE * BSIZE
    && Consistent(sb, s.disk, s.inodes, owner, {})
    && Written(sb, s0, s, n, off, src, tot)
    && Logs(sb, l0, logged, Extra(sb, s, n, BlockNo(off), Blocks(off + |src|)))
    && Covered(s0.disk, s.disk, logged)
  }

  lemma ProgressStart(sb: Super, s: State, owner: Owner, logged: set<nat>, n: nat, off: nat, src: seq<int>)
    requires Consistent(sb, s.disk, s.inodes, owner, {}) && Complete(sb, s.disk, s.inodes)
    requires n < |s.inodes| && AreBytes(src) && off <= s.inodes[n].size && off + |src| <= MAXFILE * BSIZE
    ensures Progress(sb, s, logged, s, owner, logged, n, off, src, 0)
  {
    WrittenStart(sb, s, n, off, src);
  }

  lemma ProgressFacts(sb: Super, s0: State, l0: set<nat>, s: State, owner: Owner, logged: set<nat>,
                      n: nat, off: nat, src: seq<int>, tot: nat)
    requires Progress(sb, s0, l0, s, owner, logged, n, off, src, tot)
    ensures Ok(sb, s0) && Ok(sb, s) && n < |s.inodes| && Consistent(sb, s.disk, s.inodes, owner, {})
    ensures Written(sb, s0, s, n, off, src, tot)
    ensures Logs(sb, l0, logged, Extra(sb, s, n, BlockNo(off), Blocks(off + |src|)))
    ensures Covered(s0.disk, s.disk, logged)
    ensures tot < |src| ==> BlockNo(off + tot) < MAXFILE && BlockAt(off + tot) < BSIZE
    ensures off + |src| <= MAXFILE * BSIZE && Blocks(off + |src|) <= MAXFILE && InodeBlock(sb, n) != 0
  {
    hide Consistent, Logs, Extra, IsBlock, InodeOk, AreBytes, Blocks, BlockNo, BlockAt, FileByte, Addr;
    RangeFacts(off, |src|, tot);
  }

  lemma RangeFacts(off: nat, len: nat, tot: nat)
    requires off + len <= MAXFILE * BSIZE
    ensures Blocks(off + len) <= MAXFILE
    ensures tot < len ==> BlockNo(off + tot) < MAXFILE && BlockAt(off + tot) < BSIZE
  {
  }

  // bmap was called for the block of the next byte.
  lemma ProgressBmap(sb: Super, s0: State, l0: set<nat>, s: State, owner: Owner, l1: set<nat>,
                     t: State, owner': Owner, l2: set<nat>, n: nat, off: nat, src: seq<int>, tot: nat, a: int)
    requires Progress(sb, s0, l0, s, owner, l1, n, off, src, tot) && tot < |src|
    requires Bmapped(sb, s, owner, l1, t, owner', l2, n, BlockNo(off + tot), a)
    ensures Progress(sb, s0, l0, t, owner', l2, n, off, src, tot)
    ensures 0 <= a
    ensures if a == 0 then FullDisk(sb, t.disk) && NoBlock(sb, t, n, off, tot)
            else NextBlock(sb, t, n, off, src, tot, a)
  {
    var lo, hi, bn := BlockNo(off), Blocks(off + |src|), BlockNo(off + tot);
    WrittenExtends(sb, s0, s, owner, t, owner', n, off, src, tot);
    LogsBmap(sb, l0, l1, l2, s, owner, t, owner', n, lo, hi, bn, a);
    CoveredMore(s0.disk, s.disk, t.disk, l1, l2);
    if a != 0 { BlockIn(sb, t, owner', n, bn); }
  }

  // Byte off + tot of inode n has no block.
  ghost predicate NoBlock(sb: Super, s: State, n: nat, off: nat, tot: nat) {
    && Ok(sb, s) && n < |s.inodes| && BlockNo(off + tot) < MAXFILE
    && Addr(sb, s.disk, s.inodes[n], DataSlot(BlockNo(off + tot))) == 0
  }

  // a is the block of byte off + tot of inode n.
  ghost predicate NextBlock(sb: Super, s: State, n: nat, off: nat, src: seq<int>, tot: nat, a: int) {
    && Ok(sb, s) && n < |s.inodes| && BlockNo(off + tot) < MAXFILE && Blocks(off + |src|) <= MAXFILE
    && sb.meta <= a < sb.size && a == Addr(sb, s.disk, s.inodes[n], DataSlot(BlockNo(off + tot)))
    && a in Extra(sb, s, n, BlockNo(off), Blocks(off + |src|))
  }

  // The piece of the source that goes into that block was copied and the block logged.
  lemma ProgressPatch(sb: Super, s0: State, l0: set<nat>, s: State, owner: Owner, logged: set<nat>,
                      n: nat, off: nat, src: seq<int>, tot: nat, a: nat, k: nat)
    requires Progress(sb, s0, l0, s, owner, logged, n, off, src, tot)
    requires 0 < k && tot + k <= |src| && BlockAt(off + tot) + k <= BSIZE
    requires NextBlock(sb, s, n, off, src, tot, a)
    ensures a < |s.disk| && |s.disk[a]| == BSIZE
    ensures Progress(sb, s0, l0, State(s.disk[a := Patch(s.disk[a], BlockAt(off + tot), src[tot..tot + k])], s.inodes),
                     owner, logged + {a}, n, off, src, tot + k)
  {
    hide Consistent, Written, Logs, Extra, Addr, Used, Patch, Wrote;
    var u := Copied(sb, s, n, off, src, tot, k);
    var lo, hi := BlockNo(off), Blocks(off + |src|);
    WrittenPiece(sb, s0, s, owner, n, off, src, tot, k);
    ExtraFrame(sb, s, u, n, lo, hi);
    LogsOne(sb, l0, logged, Extra(sb, s, n, lo, hi), a);
  }

  // The end of a write that was not refused: what it wrote and what it logged.
  lemma ProgressDone(sb: Super, s0: State, l0: set<nat>, s: State, owner: Owner, logged: set<nat>,
                     n: nat, off: nat, src: seq<int>, tot: nat)
    requires Progress(sb, s0, l0, s, owner, logged, n, off, src, tot)
    requires off <= s0.inodes[n].size && Complete(sb, s0.disk, s0.inodes)
    ensures n < |s.inodes| == |s0.inodes| && s0.inodes[n := s.inodes[n]] == s.inodes
    ensures var u := Resize(s, n, off + tot);
            && Wrote(sb, s0, u, n, off, src, tot)
            && Consistent(sb, u.disk, u.inodes, owner, {}) && Complete(sb, u.disk, u.inodes)
            && WroteLogs(sb, l0, logged + {InodeBlock(sb, n)}, u, n, off, |src|)
            && Covered(s0.disk, u.disk, logged + {InodeBlock(sb, n)})
  {
    hide Progress, Written, Wrote, Consistent, Complete, Addr, Used, Extra, Logs, InodeBlock, Blocks, BlockNo, AreBytes;
    ProgressFacts(sb, s0, l0, s, owner, logged, n, off, src, tot);
    WrittenWrote(sb, s0, s, owner, n, off, src, tot);
    var extra := Extra(sb, s, n, BlockNo(off), Blocks(off + |src|));
    LogsMore(sb, l0, logged, extra, InodeBlock(sb, n));
  }

  // Writing n bytes at off logs blocks of the free map, the inode block, the indirect block
  // and the data blocks of the range, and no others.
  ghost predicate WroteLogs(sb: Super, before: set<nat>, after: set<nat>, s: State, n: nat, off: nat, len: nat) {
    && Ok(sb, s) && n < |s.inodes| && off + len <= MAXFILE * BSIZE
    && Logs(sb, before, after, Extra(sb, s, n, BlockNo(off), Blocks(off + len)) + {InodeBlock(sb, n)})
  }

  // --- the log space of one write ---

  // The blocks of the free map.
  ghost function MapBlocks(from: nat, count: nat): (s: set<int>)
    ensures |s| <= count
    ensures forall b :: b in s <==> from <= b < from + count
  {
    if count == 0 then {} else {from + count - 1} + MapBlocks(from, count - 1)
  }

  // filewrite's limit for one transaction.
  const CHUNK: nat := ((MAXOPBLOCKS - 1 - 1 - 2) / 2) * BSIZE

  lemma ChunkBlocks(off: nat, len: nat)
    requires len <= CHUNK
    ensures BlockNo(off) <= Blocks(off + len) <= BlockNo(off) + CHUNK / BSIZE + 1
  {
  }

  // A write of at most CHUNK bytes logs at most 6 blocks beside those of the free map.
  lemma ChunkBudget(sb: Super, after: set<nat>, s: State, n: nat, off: nat, len: nat)
    requires WroteLogs(sb, {}, after, s, n, off, len) && len <= CHUNK && sb.size > 0
    ensures |after| <= CHUNK / BSIZE + 3 + (sb.size - 1) / BPB + 1
  {
    hide Extra, DiskOk, InodeOk, Blocks, BlockNo, InodeBlock;
    var lo, hi := BlockNo(off), Blocks(off + len);
    RangeFacts(off, len, 0);
    ChunkBlocks(off, len);
    ExtraSize(sb, s, n, lo, hi);
    var extra := Extra(sb, s, n, lo, hi);
    var bits := MapBlocks(sb.bmapstart, (sb.size - 1) / BPB + 1);
    var all := extra + {InodeBlock(sb, n)} + bits;
    forall b | b in after ensures b in all {
      assert b in extra + {InodeBlock(sb, n)} || IsMapBlock(sb, b);
    }
    SubsetSize(after, all);
  }

  // --- several writes in a row ---

  lemma WroteFacts(sb: Super, s: State, t: State, n: nat, off: nat, src: seq<int>, r: int)
    requires Wrote(sb, s, t, n, off, src, r)
    ensures Ok(sb, s) && Ok(sb, t) && |t.inodes| == |s.inodes| && n < |s.inodes|
    ensures forall m :: 0 <= m < |s.inodes|
              ==> s.inodes[m].size <= MAXFILE * BSIZE && t.inodes[m].size <= MAXFILE * BSIZE
    ensures t.inodes[n].size == Max(s.inodes[n].size, off + r)
    ensures NoHoles(sb, t.disk, t.inodes[n], t.inodes[n].size)
  {
    hide FileByte, Addr;
    assert forall m :: 0 <= m < |s.inodes|
             ==> NoHoles(sb, s.disk, s.inodes[m], s.inodes[m].size) && NoHoles(sb, t.disk, t.inodes[m], t.inodes[m].size);
  }

  lemma WroteAgain(sb: Super, s: State, t: State, u: State, n: nat, off: nat, src: seq<int>, i: nat, j: nat, r: nat)
    requires i <= j <= |src| && r <= j - i
    requires Wrote(sb, s, t, n, off, src, i) && Wrote(sb, t, u, n, off + i, src[i..j], r)
    ensures Wrote(sb, s, u, n, off, src, i + r)
  {
    hide Complete, FileByte, Splice, InodeOk, DiskOk, Content;
    WroteFacts(sb, s, t, n, off, src, i);
    WroteFacts(sb, t, u, n, off + i, src[i..j], r);
    SpliceAgain(Content(sb, s.disk, s.inodes[n]), off, src[..i], src[i..j][..r]);
    assert src[..i] + src[i..j][..r] == src[..i + r];
  }

  lemma WroteNone(sb: Super, s: State, n: nat, off: nat, src: seq<int>)
    requires Ok(sb, s) && Complete(sb, s.disk, s.inodes) && n < |s.inodes| && off <= s.inodes[n].size
    ensures Wrote(sb, s, s, n, off, src, 0)
  {
    assert NoHoles(sb, s.disk, s.inodes[n], s.inodes[n].size);
    var c := Content(sb, s.disk, s.inodes[n]);
    assert src[..0] == [];
    assert Splice(c, off, []) == c;
  }

  // After filewrite wrote the first w bytes of src; a file offset beyond the end of the file
  // refuses everything.
  ghost predicate FileWrote(sb: Super, s: State, t: State, n: nat, off: nat, src: seq<int>, w: nat) {
    n < |s.inodes| && if off <= s.inodes[n].size then Wrote(sb, s, t, n, off, src, w) else t == s && w == 0
  }

  // What one more call of writei makes of that.
  lemma FileWroteMore(sb: Super, s: State, t: State, u: State, n: nat, off: nat, src: seq<int>, i: nat, j: nat, r: int)
    requires FileWrote(sb, s, t, n, off, src, i) && i <= j <= |src| && n < |t.inodes|
    requires r == -1 <==> Refused(t.inodes[n].size, off + i, j - i)
    requires r == -1 ==> u == t
    requires r != -1 ==> Wrote(sb, t, u, n, off + i, src[i..j], r)
    requires j - i <= CHUNK && (off + i < UINT32 || off <= s.inodes[n].size)
    ensures -1 <= r <= j - i && FileWrote(sb, s, u, n, off, src, if r > 0 then i + r else i)
    ensures r == -1 <==> off > s.inodes[n].size || off + j > MAXFILE * BSIZE
    ensures n < |u.inodes|
    ensures off <= s.inodes[n].size ==> off + (if r > 0 then i + r else i) <= MAXFILE * BSIZE
  {
    hide Complete, Content, Splice;
    if off <= s.inodes[n].size {
      WroteFacts(sb, s, t, n, off, src, i);
      if r != -1 {
        WroteAgain(sb, s, t, u, n, off, src, i, j, r);
        WroteFacts(sb, s, u, n, off, src, i + r);
      }
    } else if r != -1 {
      assert false;
    }
  }
}
