/** How itrunc takes an inode's blocks away one by one (kernel/fs.c:426-453). */
module FsTrunc {
  import opened Params
  import opened Words
  import opened FsSpec
  import opened FsLemmas
  import opened FsFiles

  // owner is o0 without the blocks that inode n names in its first i slots and in the first
  // k words of its indirect block.
  ghost predicate Dropped(o0: Owner, owner: Owner, n: nat, i: nat, k: nat) {
    && (forall a :: a in owner ==> a in o0 && owner[a] == o0[a])
    && (forall a :: a in o0 ==> (a in owner <==>
          !(o0[a].inum == n && (o0[a].index < i || NDIRECT < o0[a].index < NDIRECT + 1 + k))))
  }

  // Blocks outside the metadata are as they were.
  ghost predicate SameData(sb: Super, disk: Disk, disk': Disk) {
    |disk| == |disk'| && forall b :: sb.meta <= b < |disk| ==> disk'[b] == disk[b]
  }

  function Cleared(s: State, n: nat, x: nat): State
    requires n < |s.inodes| && x < |s.inodes[n].addrs|
  {
    State(s.disk, s.inodes[n := s.inodes[n].(addrs := s.inodes[n].addrs[x := 0])])
  }

  // bfree(addrs[x]); addrs[x] = 0
  lemma FreeDirect(sb: Super, s: State, o0: Owner, owner: Owner, n: nat, x: nat)
    requires Ok(sb, s) && Consistent(sb, s.disk, s.inodes, owner, {})
    requires n < |s.inodes| && x < NDIRECT && s.inodes[n].addrs[x] != 0 && Dropped(o0, owner, n, x, 0)
    ensures var a := s.inodes[n].addrs[x];
            && a in owner && sb.meta <= a < sb.size && Used(sb, s.disk, a)
            && var t := Cleared(State(Release(sb, s.disk, a), s.inodes), n, x);
            && Ok(sb, t) && Consistent(sb, t.disk, t.inodes, owner - {a}, {})
            && Dropped(o0, owner - {a}, n, x + 1, 0) && SameData(sb, s.disk, t.disk)
  {
    var a := s.inodes[n].addrs[x];
    assert Addr(sb, s.disk, s.inodes[n], x) == a && owner[a] == Slot(n, x);
    DroppedMore(sb, s, o0, owner, n, x, 0, x, a);
    ReleaseDisk(sb, s.disk, a);
    ReleaseKeeps(sb, s.disk, s.inodes, owner, 0, 0, a);
    assert Addr(sb, Release(sb, s.disk, a), s.inodes[n], x) == a;
    hide Release, Used;
    DetachSlot(sb, Release(sb, s.disk, a), s.inodes, owner, n, x);
  }

  // The only block that slot y of inode n accounts for is the one it names.
  lemma OnlyOwned(sb: Super, s: State, owner: Owner, n: nat, k: nat, y: nat, b: int)
    requires Ok(sb, s) && Owns(sb, s.disk, s.inodes, owner, n, k) && n < |s.inodes| && y < SLOTS
    requires !(NDIRECT < y < NDIRECT + 1 + k)
    ensures b in owner && owner[b] == Slot(n, y) <==> b in owner && b == Addr(sb, s.disk, s.inodes[n], y)
  {
  }

  // Taking block a, named by slot y of inode n, out of the account.
  lemma DroppedMore(sb: Super, s: State, o0: Owner, owner: Owner, n: nat, i: nat, k: nat, y: nat, a: int)
    requires Ok(sb, s) && Owns(sb, s.disk, s.inodes, owner, n, k) && n < |s.inodes| && y < SLOTS
    requires Dropped(o0, owner, n, i, k) && Addr(sb, s.disk, s.inodes[n], y) == a
    requires !(NDIRECT < y < NDIRECT + 1 + k)
    ensures y == i ==> Dropped(o0, owner - {a}, n, i + 1, k)
    ensures y == NDIRECT + 1 + k ==> Dropped(o0, owner - {a}, n, i, k + 1)
  {
    forall b | b in owner ensures owner[b] == Slot(n, y) <==> b == a {
      OnlyOwned(sb, s, owner, n, k, y, b);
    }
    hide Owns, Addr;
  }

  // bfree(a[k]) for word k of the indirect block; the word itself stays.
  lemma FreeWord(sb: Super, s: State, o0: Owner, owner: Owner, n: nat, k: nat)
    requires Ok(sb, s) && Owns(sb, s.disk, s.inodes, owner, n, k) && Mapped(sb, s.disk, owner, {})
    requires n < |s.inodes| && k < NINDIRECT && Dropped(o0, owner, n, NDIRECT, k)
    ensures var a := Addr(sb, s.disk, s.inodes[n], NDIRECT + 1 + k);
            && Dropped(o0, owner - {a}, n, NDIRECT, k + 1)
            && (a == 0 ==> Owns(sb, s.disk, s.inodes, owner - {a}, n, k + 1) && owner - {a} == owner)
            && (a != 0 ==>
                  && a in owner && sb.meta <= a < sb.size && Used(sb, s.disk, a)
                  && var d := Release(sb, s.disk, a);
                  && Ok(sb, State(d, s.inodes)) && Owns(sb, d, s.inodes, owner - {a}, n, k + 1)
                  && Mapped(sb, d, owner - {a}, {}) && SameData(sb, s.disk, d))
  {
    var a := Addr(sb, s.disk, s.inodes[n], NDIRECT + 1 + k);
    DetachWord(sb, s.disk, s.inodes, owner, n, k);
    DroppedMore(sb, s, o0, owner, n, NDIRECT, k, NDIRECT + 1 + k, a);
    if a != 0 {
      ReleaseDisk(sb, s.disk, a);
      ReleaseKeeps(sb, s.disk, s.inodes, owner, n, k, a);
      hide Release, Used;
      DetachWord(sb, Release(sb, s.disk, a), s.inodes, owner, n, k);
    } else {
      assert owner - {a} == owner;
    }
  }

  // bfree(addrs[NDIRECT]); addrs[NDIRECT] = 0, once all the words are accounted for.
  lemma FreeIndirect(sb: Super, s: State, o0: Owner, owner: Owner, n: nat)
    requires Ok(sb, s) && Owns(sb, s.disk, s.inodes, owner, n, NINDIRECT) && Mapped(sb, s.disk, owner, {})
    requires n < |s.inodes| && s.inodes[n].addrs[NDIRECT] != 0 && Dropped(o0, owner, n, NDIRECT, NINDIRECT)
    requires forall a :: a in o0 ==> o0[a].index < SLOTS
    ensures var a := s.inodes[n].addrs[NDIRECT];
            && a in owner && sb.meta <= a < sb.size && Used(sb, s.disk, a)
            && var t := Cleared(State(Release(sb, s.disk, a), s.inodes), n, NDIRECT);
            && Ok(sb, t) && Consistent(sb, t.disk, t.inodes, owner - {a}, {})
            && Dropped(o0, owner - {a}, n, SLOTS, 0) && SameData(sb, s.disk, t.disk)
  {
    var a := s.inodes[n].addrs[NDIRECT];
    assert Addr(sb, s.disk, s.inodes[n], NDIRECT) == a && owner[a] == Slot(n, NDIRECT);
    DroppedMore(sb, s, o0, owner, n, NDIRECT, NINDIRECT, NDIRECT, a);
    ReleaseDisk(sb, s.disk, a);
    ReleaseKeeps(sb, s.disk, s.inodes, owner, n, NINDIRECT, a);
    hide Release, Used;
    DetachSlot(sb, Release(sb, s.disk, a), s.inodes, owner, n, NDIRECT);
  }

  // A slot that is 0 drops nothing.
  lemma DropNothing(sb: Super, s: State, o0: Owner, owner: Owner, n: nat, i: nat)
    requires Ok(sb, s) && Consistent(sb, s.disk, s.inodes, owner, {}) && n < |s.inodes|
    requires i <= NDIRECT && s.inodes[n].addrs[i] == 0 && Dropped(o0, owner, n, i, 0)
    ensures Dropped(o0, owner, n, i + 1, 0)
    ensures i == NDIRECT && (forall a :: a in o0 ==> o0[a].index < SLOTS) ==> Dropped(o0, owner, n, SLOTS, 0)
  {
    assert Addr(sb, s.disk, s.inodes[n], i) == 0;
    if i == NDIRECT {
      assert forall y :: NDIRECT <= y < SLOTS ==> Addr(sb, s.disk, s.inodes[n], y) == 0;
    }
  }

  // itrunc has dealt with the first i slots of inode n.
  ghost predicate Emptying(sb: Super, s0: State, o0: Owner, s: State, owner: Owner, n: nat, i: nat) {
    && Ok(sb, s) && Consistent(sb, s.disk, s.inodes, owner, {}) && Dropped(o0, owner, n, i, 0)
    && SameData(sb, s0.disk, s.disk) && SameOthers(s0, s, n)
    && forall x :: 0 <= x < i && x <= NDIRECT ==> s.inodes[n].addrs[x] == 0
  }

  ghost predicate SameOthers(s0: State, s: State, n: nat) {
    && |s.inodes| == |s0.inodes| && n < |s0.inodes|
    && forall m :: 0 <= m < |s0.inodes| && m != n ==> s.inodes[m] == s0.inodes[m]
  }

  // itrunc has freed the blocks of the first k words of the indirect block of inode n.
  ghost predicate EmptyingWords(sb: Super, s0: State, o0: Owner, s: State, owner: Owner, n: nat, k: nat) {
    && Ok(sb, s) && Owns(sb, s.disk, s.inodes, owner, n, k) && Mapped(sb, s.disk, owner, {})
    && Dropped(o0, owner, n, NDIRECT, k)
    && SameData(sb, s0.disk, s.disk) && SameOthers(s0, s, n)
    && (forall x :: 0 <= x < NDIRECT ==> s.inodes[n].addrs[x] == 0)
    && s.inodes[n].addrs[NDIRECT] != 0
  }

  lemma EmptyingStart(sb: Super, s: State, owner: Owner, n: nat)
    requires Consistent(sb, s.disk, s.inodes, owner, {}) && n < |s.inodes|
    ensures Emptying(sb, s, owner, s, owner, n, 0)
  {
  }

  lemma EmptyingStep(sb: Super, s0: State, o0: Owner, s: State, owner: Owner, n: nat, x: nat)
    requires Emptying(sb, s0, o0, s, owner, n, x) && x < NDIRECT
    ensures DiskOk(sb, s.disk) && n < |s.inodes| && |s.inodes[n].addrs| == NDIRECT + 1
    ensures var a := s.inodes[n].addrs[x];
            if a == 0 then Emptying(sb, s0, o0, s, owner, n, x + 1) else
            && sb.meta <= a < sb.size && Used(sb, s.disk, a)
            && Emptying(sb, s0, o0, Cleared(State(Release(sb, s.disk, a), s.inodes), n, x), owner - {a}, n, x + 1)
  {
    if s.inodes[n].addrs[x] == 0 {
      DropNothing(sb, s, o0, owner, n, x);
    } else {
      FreeDirect(sb, s, o0, owner, n, x);
    }
  }

  // bfree logs the block of the free map that it changes.
  lemma ReleaseCovered(sb: Super, d0: FsSpec.Disk, d: FsSpec.Disk, logged: set<nat>, b: nat)
    requires DiskOk(sb, d) && b < sb.size && Covered(d0, d, logged)
    ensures Covered(d0, Release(sb, d, b), logged + {MapBlock(sb, b)})
  {
  }

  lemma EmptyingWord(sb: Super, s0: State, o0: Owner, s: State, owner: Owner, n: nat, k: nat)
    requires EmptyingWords(sb, s0, o0, s, owner, n, k) && k < NINDIRECT
    ensures DiskOk(sb, s.disk) && n < |s.inodes| && |s.inodes[n].addrs| == NDIRECT + 1
    ensures 0 <= s.inodes[n].addrs[NDIRECT] < |s.disk| && 4 * k + 4 <= |s.disk[s.inodes[n].addrs[NDIRECT]]|
    ensures var a := Word(s.disk[s.inodes[n].addrs[NDIRECT]], k);
            if a == 0 then EmptyingWords(sb, s0, o0, s, owner, n, k + 1) else
            && sb.meta <= a < sb.size && Used(sb, s.disk, a)
            && EmptyingWords(sb, s0, o0, State(Release(sb, s.disk, a), s.inodes), owner - {a}, n, k + 1)
  {
    assert Addr(sb, s.disk, s.inodes[n], NDIRECT) == s.inodes[n].addrs[NDIRECT];
    FreeWord(sb, s, o0, owner, n, k);
  }

  // What is left is the indirect block, if there is one.
  lemma EmptyingIndirect(sb: Super, s0: State, o0: Owner, s: State, owner: Owner, n: nat)
    requires Emptying(sb, s0, o0, s, owner, n, NDIRECT)
    ensures n < |s.inodes| && |s.inodes[n].addrs| == NDIRECT + 1
    ensures s.inodes[n].addrs[NDIRECT] != 0 ==> EmptyingWords(sb, s0, o0, s, owner, n, 0)
  {
  }

  lemma EmptyingLast(sb: Super, s0: State, o0: Owner, s: State, owner: Owner, n: nat)
    requires EmptyingWords(sb, s0, o0, s, owner, n, NINDIRECT)
    requires forall a :: a in o0 ==> o0[a].index < SLOTS
    ensures DiskOk(sb, s.disk) && n < |s.inodes| && |s.inodes[n].addrs| == NDIRECT + 1
    ensures var a := s.inodes[n].addrs[NDIRECT];
            && sb.meta <= a < sb.size && Used(sb, s.disk, a)
            && Emptying(sb, s0, o0, Cleared(State(Release(sb, s.disk, a), s.inodes), n, NDIRECT), owner - {a}, n, SLOTS)
  {
    FreeIndirect(sb, s, o0, owner, n);
  }

  lemma EmptyingNone(sb: Super, s0: State, o0: Owner, s: State, owner: Owner, n: nat)
    requires Emptying(sb, s0, o0, s, owner, n, NDIRECT) && s.inodes[n].addrs[NDIRECT] == 0
    requires forall a :: a in o0 ==> o0[a].index < SLOTS
    ensures Emptying(sb, s0, o0, s, owner, n, SLOTS)
  {
    DropNothing(sb, s, o0, owner, n, NDIRECT);
  }

  lemma EmptyingDone(sb: Super, s0: State, o0: Owner, s: State, owner: Owner, n: nat)
    requires Ok(sb, s0) && Consistent(sb, s0.disk, s0.inodes, o0, {}) && Complete(sb, s0.disk, s0.inodes)
    requires Emptying(sb, s0, o0, s, owner, n, SLOTS)
    ensures var t := State(s.disk, s.inodes[n := s.inodes[n].(size := 0)]);
            && Ok(sb, t) && Consistent(sb, t.disk, t.inodes, owner, {}) && Complete(sb, t.disk, t.inodes)
            && SameOthers(s0, t, n)
            && (forall x :: 0 <= x <= NDIRECT ==> t.inodes[n].addrs[x] == 0)
            && (forall b :: 0 <= b < sb.size ==>
                  (Used(sb, t.disk, b) <==> Used(sb, s0.disk, b) && !(b in o0 && o0[b].inum == n)))
            && (forall m :: 0 <= m < |s0.inodes| && m != n
                  ==> Content(sb, t.disk, t.inodes[m]) == Content(sb, s0.disk, s0.inodes[m]))
  {
    var t := State(s.disk, s.inodes[n := s.inodes[n].(size := 0)]);
    assert forall m, x :: 0 <= m < |s.inodes| && 0 <= x < SLOTS
             ==> Addr(sb, t.disk, t.inodes[m], x) == Addr(sb, s.disk, s.inodes[m], x);
    TruncatedRest(sb, s0, o0, t, owner, n);
  }

  // What an emptied inode leaves behind: the free map has exactly its blocks less, and other
  // files keep their bytes.
  lemma TruncatedRest(sb: Super, s: State, o0: Owner, t: State, owner: Owner, n: nat)
    requires Ok(sb, s) && Ok(sb, t) && Consistent(sb, s.disk, s.inodes, o0, {})
    requires Complete(sb, s.disk, s.inodes)
    requires Consistent(sb, t.disk, t.inodes, owner, {}) && Dropped(o0, owner, n, SLOTS, 0)
    requires |t.inodes| == |s.inodes| && SameData(sb, s.disk, t.disk) && n < |s.inodes|
    requires forall m :: 0 <= m < |s.inodes| && m != n ==> t.inodes[m] == s.inodes[m]
    ensures forall b :: 0 <= b < sb.size ==>
              (Used(sb, t.disk, b) <==> Used(sb, s.disk, b) && !(b in o0 && o0[b].inum == n))
    ensures forall m :: 0 <= m < |s.inodes| && m != n ==>
              && NoHoles(sb, t.disk, t.inodes[m], t.inodes[m].size)
              && Content(sb, t.disk, t.inodes[m]) == Content(sb, s.disk, s.inodes[m])
  {
    forall m | 0 <= m < |s.inodes| && m != n
      ensures NoHoles(sb, t.disk, t.inodes[m], t.inodes[m].size)
      ensures Content(sb, t.disk, t.inodes[m]) == Content(sb, s.disk, s.inodes[m])
    {
      OtherFile(sb, s, o0, t, m);
    }
  }

  lemma OtherFile(sb: Super, s: State, o0: Owner, t: State, m: nat)
    requires Ok(sb, s) && Ok(sb, t) && Consistent(sb, s.disk, s.inodes, o0, {})
    requires m < |s.inodes| && m < |t.inodes| && t.inodes[m] == s.inodes[m] && SameData(sb, s.disk, t.disk)
    requires NoHoles(sb, s.disk, s.inodes[m], s.inodes[m].size)
    ensures NoHoles(sb, t.disk, t.inodes[m], t.inodes[m].size)
    ensures Content(sb, t.disk, t.inodes[m]) == Content(sb, s.disk, s.inodes[m])
  {
    var ino := s.inodes[m];
    assert forall x :: 0 <= x < SLOTS ==> Addr(sb, t.disk, ino, x) == Addr(sb, s.disk, ino, x);
    forall i | 0 <= i < ino.size ensures FileByte(sb, t.disk, ino, i) == FileByte(sb, s.disk, ino, i) {
      var bn := BlockNo(i);
      assert bn * BSIZE < ino.size;
      assert Addr(sb, s.disk, ino, DataSlot(bn)) in o0;
    }
  }
}
