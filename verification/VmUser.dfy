/** Adding, copying and giving back the private pages of a process (kernel/vm.c:225-333). */
module VmUser {
  import opened Memory
  import opened Kalloc
  import opened VmSpec
  import opened VmLemmas
  import opened Basics

  // --- one new page ---

  // The first free page, taken off the list and filled.
  function Taken(w: World, page: seq<int>): World
    requires FreeOk(w) && w.free != [] && IsPage(page)
  {
    var pop := Popped(w);
    pop.(mem := pop.mem[w.free[0] := page])
  }

  lemma TakenGood(w: World, root: nat, sp: Space, page: seq<int>)
    requires Good(w, root, sp) && w.free != [] && IsPage(page)
    ensures var c, w1 := w.free[0], Taken(w, page);
            && Good(w1, root, sp) && SameMap(w.mem, sp, w1.mem, sp)
            && w1.lo == w.lo && |w1.mem| == |w.mem| && w1.free == w.free[1..]
            && w.lo <= c < |w.mem| && c !in w1.free && c !in sp.use && w1.mem[c] == page
            && (forall p :: p in w.free <==> p == c || p in w1.free)
            && forall p :: 0 <= p < |w.mem| && p != c ==> w1.mem[p] == w.mem[p]
  {
    hide Linked, Frames, Word, Fill, Lookup, Tables;
    var c, w1 := w.free[0], Taken(w, page);
    GoodFacts(w, root, sp);
    assert c in w.free;
    Rest(w);
    PoppedOk(w);
    FreeFrame(Popped(w), w1.mem);
    forall t | t in sp.page ensures sp.page[t] != c { PageInUse(w, root, sp, t); }
    Framed(w, root, sp, w1);
  }

  lemma PageInUse(w: World, root: nat, sp: Space, t: Table)
    requires Good(w, root, sp) && t in sp.page
    ensures sp.page[t] in sp.use && sp.use[sp.page[t]] == T(t)
  {
  }

  // The frame of a freshly mapped page becomes private.
  lemma AddUse(w: World, root: nat, sp: Space, c: nat, v: nat)
    requires Good(w, root, sp) && w.lo <= c < |w.mem| && c !in w.free && c !in sp.use && v < VPAGES
    requires Owned(w.mem, sp.page, c, v)
    ensures Good(w, root, Space(sp.page, sp.use[c := D(v)]))
  {
    hide FreeOk, Linked, Lookup;
    assert forall t :: t in sp.page ==> sp.page[t] in sp.use;
  }

  lemma AddedKept(w: World, sp: Space, w2: World, sp2: Space, root: nat, v: nat, page: seq<int>)
    requires Good(w, root, sp) && w.free != [] && IsPage(page) && v < VPAGES
    requires Kept(Taken(w, page), sp, w2, sp2, root)
    requires Good(w2, root, Space(sp2.page, sp2.use[w.free[0] := D(v)]))
    ensures Kept(w, sp, w2, Space(sp2.page, sp2.use[w.free[0] := D(v)]), root)
    ensures w.lo <= w.free[0] < |w.mem| == |w2.mem| && w2.mem[w.free[0]] == page
  {
    hide Lookup, Word, Taken, Good, IsPage;
    GoodFacts(w, root, sp);
    KeptFacts(Taken(w, page), sp, w2, sp2, root);
    TakenGood(w, root, sp, page);
  }

  lemma Added(w: World, sp: Space, w2: World, sp2: Space, root: nat, v: nat, page: seq<int>, perm: nat)
    requires Good(w, root, sp) && w.free != [] && IsPage(page) && v < VPAGES && Lookup(w.mem, sp.page, v) == 0
    requires perm < 1024 && Flags(Entry(w.free[0], perm)) != V
    requires Mapped(Taken(w, page), sp, w2, sp2, root, v, 1, w.free[0], perm)
    ensures Extended(w, sp, w2, Space(sp2.page, sp2.use[w.free[0] := D(v)]), root,
                     v, [page], [Flags(Entry(w.free[0], perm))])
  {
    hide Lookup, Word, Taken, Good, IsPage, Entry, Kept, Flags, Frame, AllNew, Conserved, Outside, MemOk, Owned;
    var c := w.free[0];
    AddedOff(w, sp, w2, sp2, root, page);
    OwnedEntry(w2.mem, sp2.page, c, v, perm);
    AddUse(w2, root, sp2, c, v);
    AddedKept(w, sp, w2, sp2, root, v, page);
    AddedNew(w, sp, w2, sp2, v, page, c, perm);
  }

  lemma AddedOff(w: World, sp: Space, w2: World, sp2: Space, root: nat, page: seq<int>)
    requires Good(w, root, sp) && w.free != [] && IsPage(page)
    requires Kept(Taken(w, page), sp, w2, sp2, root)
    ensures w.lo == w2.lo <= w.free[0] < |w2.mem| && w.free[0] !in w2.free && w.free[0] !in sp2.use
    ensures Good(w2, root, sp2) && MemOk(w.mem) && MemOk(w2.mem) && |w2.mem| == |w.mem|
    ensures Good(Taken(w, page), root, sp) && Taken(w, page).free == w.free[1..] && MemOk(Taken(w, page).mem)
    ensures SameMap(w.mem, sp, Taken(w, page).mem, sp)
  {
    hide Lookup, Word, Taken, Good, IsPage, Kept;
    GoodFacts(w, root, sp);
    KeptFacts(Taken(w, page), sp, w2, sp2, root);
    TakenGood(w, root, sp, page);
  }

  lemma OwnedEntry(mem: Mem, page: map<Table, nat>, c: nat, v: nat, perm: nat)
    requires MemOk(mem) && perm < 1024 && v < VPAGES && Flags(Entry(c, perm)) != V
    requires Lookup(mem, page, v) == Entry(c, perm)
    ensures Owned(mem, page, c, v)
  {
    hide Lookup, Entry, MemOk;
    EntryNonzero(c, perm);
  }

  lemma AddedNew(w: World, sp: Space, w2: World, sp2: Space, v: nat, page: seq<int>, c: nat, perm: nat)
    requires MemOk(w.mem) && MemOk(w2.mem) && Lookup(w.mem, sp.page, v) == 0 && c < |w2.mem| && w2.mem[c] == page
    requires perm < 1024 && Lookup(w2.mem, sp2.page, v) == Entry(c, perm)
    ensures AllNew(w.mem, sp, w2.mem, Space(sp2.page, sp2.use[c := D(v)]), v, [page], [Flags(Entry(c, perm))])
  {
    hide Lookup, Entry, MemOk;
    EntryNonzero(c, perm);
  }

  lemma EntryNonzero(c: nat, perm: nat)
    requires perm < 1024
    ensures Entry(c, perm) != 0
  {
  }

  lemma GoodShape(w: World, root: nat, sp: Space)
    requires Good(w, root, sp)
    ensures Shape(w)
  {
  }

  lemma NotAddedKept(w: World, sp: Space, w2: World, sp2: Space, root: nat, page: seq<int>)
    requires Good(w, root, sp) && w.free != [] && IsPage(page)
    requires Kept(Taken(w, page), sp, w2, sp2, root)
    requires Shape(w2) && w.free[0] < |w2.mem| && Good(Freed(w2, w.free[0]), root, sp2)
    ensures Kept(w, sp, Freed(w2, w.free[0]), sp2, root)
  {
    hide Lookup, Word, Taken, Good, IsPage;
    GoodFacts(w, root, sp);
    KeptFacts(Taken(w, page), sp, w2, sp2, root);
    TakenGood(w, root, sp, page);
    FreedShape(w2, w.free[0]);
  }

  lemma NotAdded(w: World, sp: Space, w2: World, sp2: Space, root: nat, v: nat, page: seq<int>, perm: nat)
    requires Good(w, root, sp) && w.free != [] && IsPage(page) && perm < 1024
    requires Mapped(Taken(w, page), sp, w2, sp2, root, v, 0, w.free[0], perm)
    ensures FreeOk(w2) && w.free[0] < |w2.mem| && w2.lo <= w.free[0] && w.free[0] !in w2.free
    ensures Grown(w, sp, Freed(w2, w.free[0]), sp2, root)
    ensures |Freed(w2, w.free[0]).free| == |w2.free| + 1
  {
    hide Lookup, Word, Taken, Freed, Good, IsPage, FreeOk, Kept;
    GoodFacts(w, root, sp);
    KeptFacts(Taken(w, page), sp, w2, sp2, root);
    GoodShape(w2, root, sp2);
    TakenGood(w, root, sp, page);
    GoodFacts(w2, root, sp2);
    var c, w3 := w.free[0], Freed(w2, w.free[0]);
    FreedOk(w2, c);
    FreedShape(w2, c);
    forall t | t in sp2.page ensures sp2.page[t] != c { PageInUse(w2, root, sp2, t); }
    Framed(w2, root, sp2, w3);
    NotAddedKept(w, sp, w2, sp2, root, page);
  }

  // --- several pages ---

  lemma ExtendedNone(w: World, root: nat, sp: Space, v0: nat)
    requires Good(w, root, sp) && v0 <= VPAGES
    ensures Extended(w, sp, w, sp, root, v0, [], [])
  {
  }

  lemma ExtendedGood(w: World, sp: Space, w1: World, sp1: Space, root: nat,
                     v0: nat, pages: seq<seq<int>>, flags: seq<nat>)
    requires Extended(w, sp, w1, sp1, root, v0, pages, flags)
    ensures Good(w, root, sp) && Good(w1, root, sp1) && MemOk(w.mem) && MemOk(w1.mem) && |w1.mem| == |w.mem|
    ensures Kept(w, sp, w1, sp1, root) && |flags| == |pages|
    ensures |w1.free| + |sp1.page| + |pages| == |w.free| + |sp.page|
    ensures forall v :: 0 <= v < VPAGES && !(v0 <= v < v0 + |pages|)
              ==> Lookup(w1.mem, sp1.page, v) == Lookup(w.mem, sp.page, v)
  {
  }

  lemma NewPageKept(w: World, sp: Space, w1: World, sp1: Space, root: nat, v: nat, page: seq<int>, flags: nat)
    requires Kept(w, sp, w1, sp1, root) && MemOk(w.mem) && MemOk(w1.mem)
    requires Private(w.mem, sp, v) && NewPage(w.mem, sp, v, page, flags)
    requires Lookup(w1.mem, sp1.page, v) == Lookup(w.mem, sp.page, v)
    ensures Private(w1.mem, sp1, v) && NewPage(w1.mem, sp1, v, page, flags)
  {
    hide Lookup, Kept, Good, Conserved, Outside, MemOk;
    KeptFacts(w, sp, w1, sp1, root);
  }

  lemma AllNewKept(w: World, sp: Space, w1: World, sp1: Space, w2: World, sp2: Space, root: nat,
                   v0: nat, pages: seq<seq<int>>, flags: seq<nat>)
    requires MemOk(w.mem) && Kept(w1, sp1, w2, sp2, root) && |flags| == |pages| && v0 + |pages| <= VPAGES
    requires MemOk(w1.mem) && MemOk(w2.mem) && AllNew(w.mem, sp, w1.mem, sp1, v0, pages, flags)
    requires forall v :: v0 <= v < v0 + |pages| ==> Lookup(w2.mem, sp2.page, v) == Lookup(w1.mem, sp1.page, v)
    ensures AllNew(w.mem, sp, w2.mem, sp2, v0, pages, flags)
  {
    hide Lookup, Kept, NewPage, Private, Good, MemOk;
    forall v | v0 <= v < v0 + |pages| ensures IsNew(w.mem, sp, w2.mem, sp2, v0, pages, flags, v) {
      assert IsNew(w.mem, sp, w1.mem, sp1, v0, pages, flags, v);
      NewPageKept(w1, sp1, w2, sp2, root, v, pages[v - v0], flags[v - v0]);
    }
  }

  lemma AllNewMore(mem: Mem, sp: Space, mem1: Mem, sp1: Space, mem2: Mem, sp2: Space,
                   v0: nat, pages: seq<seq<int>>, flags: seq<nat>, page: seq<int>, flag: nat)
    requires MemOk(mem) && MemOk(mem1) && MemOk(mem2) && |flags| == |pages| && v0 + |pages| < VPAGES
    requires AllNew(mem, sp, mem2, sp2, v0, pages, flags) && SameElsewhere(mem, sp, mem1, sp1, v0, |pages|)
    requires AllNew(mem1, sp1, mem2, sp2, v0 + |pages|, [page], [flag])
    ensures AllNew(mem, sp, mem2, sp2, v0, pages + [page], flags + [flag])
  {
    hide Lookup, NewPage, MemOk, Private;
    var all, fls := pages + [page], flags + [flag];
    forall v | v0 <= v < v0 + |all| ensures IsNew(mem, sp, mem2, sp2, v0, all, fls, v) {
      if v < v0 + |pages| {
        assert IsNew(mem, sp, mem2, sp2, v0, pages, flags, v);
      } else {
        assert IsNew(mem1, sp1, mem2, sp2, v0 + |pages|, [page], [flag], v);
      }
    }
  }

  lemma ExtendedMore(w: World, sp: Space, w1: World, sp1: Space, w2: World, sp2: Space, root: nat,
                     v0: nat, pages: seq<seq<int>>, flags: seq<nat>, page: seq<int>, flag: nat)
    requires Extended(w, sp, w1, sp1, root, v0, pages, flags)
    requires Extended(w1, sp1, w2, sp2, root, v0 + |pages|, [page], [flag])
    ensures Extended(w, sp, w2, sp2, root, v0, pages + [page], flags + [flag])
  {
    hide Lookup, Kept, AllNew, Good, Conserved, Outside, MemOk;
    KeptFacts(w, sp, w1, sp1, root);
    KeptFacts(w1, sp1, w2, sp2, root);
    KeptTrans(w, sp, w1, sp1, w2, sp2, root);
    AllNewKept(w, sp, w1, sp1, w2, sp2, root, v0, pages, flags);
    AllNewMore(w.mem, sp, w1.mem, sp1, w2.mem, sp2, v0, pages, flags, page, flag);
  }

  lemma ExtendedGrown(w: World, sp: Space, w1: World, sp1: Space, w2: World, sp2: Space, root: nat,
                      v0: nat, pages: seq<seq<int>>, flags: seq<nat>)
    requires Extended(w, sp, w1, sp1, root, v0, pages, flags) && Grown(w1, sp1, w2, sp2, root)
    ensures Extended(w, sp, w2, sp2, root, v0, pages, flags)
  {
    hide Lookup, Kept, AllNew, Good, Conserved, Outside, MemOk;
    KeptFacts(w, sp, w1, sp1, root);
    KeptFacts(w1, sp1, w2, sp2, root);
    KeptTrans(w, sp, w1, sp1, w2, sp2, root);
    AllNewKept(w, sp, w1, sp1, w2, sp2, root, v0, pages, flags);
  }

  // --- giving pages back ---

  lemma UnmappedConserves(w: World, sp: Space, w1: World, sp1: Space, root: nat, v0: nat, n: nat)
    requires Unmapped(w, sp, w1, sp1, root, v0, n, true)
    ensures Conserved(w, sp, w1, sp1) && Good(w, root, sp) && Good(w1, root, sp1) && |w1.mem| == |w.mem|
  {
    hide Lookup, Good;
  }

  // The old data do not lie where the new pages are.
  lemma ExtendedApart(w: World, sp: Space, w1: World, sp1: Space, root: nat,
                      v0: nat, pages: seq<seq<int>>, flags: seq<nat>)
    requires Extended(w, sp, w1, sp1, root, v0, pages, flags)
    ensures forall p :: p in sp.use ==> p in sp1.use && sp1.use[p] == sp.use[p] && !InRange(sp.use[p], v0, |pages|)
    ensures forall p :: p in sp1.use && sp1.use[p].D? && !InRange(sp1.use[p], v0, |pages|) ==> p in sp.use
  {
    hide Lookup, Linked, Tables, NewPage;
    GoodFacts(w, root, sp);
    forall p | p in sp.use ensures !InRange(sp.use[p], v0, |pages|) {
      if sp.use[p].D? {
        var v := sp.use[p].v;
        assert Owned(w.mem, sp.page, p, v);
        assert v0 <= v < v0 + |pages| ==> IsNew(w.mem, sp, w1.mem, sp1, v0, pages, flags, v);
      }
    }
  }

  lemma RolledKept(w: World, sp: Space, w1: World, sp1: Space, w2: World, sp2: Space, root: nat,
                   v0: nat, pages: seq<seq<int>>, flags: seq<nat>)
    requires Extended(w, sp, w1, sp1, root, v0, pages, flags)
    requires Unmapped(w1, sp1, w2, sp2, root, v0, |pages|, true)
    ensures Kept(w, sp, w2, sp2, root)
  {
    hide Lookup, Good, NewPage, AllNew, SameElsewhere;
    ExtendedGood(w, sp, w1, sp1, root, v0, pages, flags);
    GoodFacts(w, root, sp);
    ExtendedApart(w, sp, w1, sp1, root, v0, pages, flags);
    UnmappedConserves(w1, sp1, w2, sp2, root, v0, |pages|);
  }

  // Taking the new pages back leaves nothing behind but tables.
  lemma RolledBack(w: World, sp: Space, w1: World, sp1: Space, w2: World, sp2: Space, root: nat,
                   v0: nat, pages: seq<seq<int>>, flags: seq<nat>)
    requires Extended(w, sp, w1, sp1, root, v0, pages, flags)
    requires Unmapped(w1, sp1, w2, sp2, root, v0, |pages|, true)
    ensures Grown(w, sp, w2, sp2, root) && |w2.free| == |w1.free| + |pages|
  {
    hide Lookup, Good, Kept, AllNew, Outside, Conserved;
    KeptFacts(w, sp, w1, sp1, root);
    UnmappedConserves(w1, sp1, w2, sp2, root, v0, |pages|);
    GoodFacts(w2, root, sp2);
    ExtendedApart(w, sp, w1, sp1, root, v0, pages, flags);
    RolledKept(w, sp, w1, sp1, w2, sp2, root, v0, pages, flags);
    RolledMap(w, sp, w1, sp1, w2, sp2, root, v0, pages, flags);
  }

  lemma RolledMap(w: World, sp: Space, w1: World, sp1: Space, w2: World, sp2: Space, root: nat,
                  v0: nat, pages: seq<seq<int>>, flags: seq<nat>)
    requires Extended(w, sp, w1, sp1, root, v0, pages, flags)
    requires Unmapped(w1, sp1, w2, sp2, root, v0, |pages|, true)
    ensures MemOk(w.mem) && MemOk(w2.mem) && SameMap(w.mem, sp, w2.mem, sp2)
  {
    hide Lookup, Good, Kept, Private, NewPage, Conserved, Outside, MemOk;
    KeptFacts(w, sp, w1, sp1, root);
    GoodFacts(w2, root, sp2);
    forall v | 0 <= v < VPAGES ensures Lookup(w2.mem, sp2.page, v) == Lookup(w.mem, sp.page, v) {
      if v0 <= v < v0 + |pages| { assert IsNew(w.mem, sp, w1.mem, sp1, v0, pages, flags, v); }
    }
  }

  // --- memory bounds the number of private pages ---

  ghost function FrameSet(mem: Mem, page: map<Table, nat>, n: nat): set<nat>
    requires MemOk(mem)
  {
    if n == 0 then {} else FrameSet(mem, page, n - 1) + {Frame(Lookup(mem, page, n - 1))}
  }

  ghost function UpTo(n: nat): (s: set<nat>)
    ensures |s| == n && forall i :: i in s <==> 0 <= i < n
  {
    if n == 0 then {} else UpTo(n - 1) + {n - 1}
  }

  lemma {:induction false} FrameSetSize(w: World, root: nat, sp: Space, n: nat)
    requires MemOk(w.mem) && Good(w, root, sp) && forall v :: 0 <= v < n ==> Private(w.mem, sp, v)
    ensures |FrameSet(w.mem, sp.page, n)| == n
    ensures forall p :: p in FrameSet(w.mem, sp.page, n) ==> p in sp.use && sp.use[p].D? && sp.use[p].v < n
  {
    hide Good, Lookup, Frame;
    if n > 0 {
      FrameSetSize(w, root, sp, n - 1);
      assert Private(w.mem, sp, n - 1);
    }
  }

  // n private pages need n frames, and the root table a page of its own.
  lemma Pigeonhole(w: World, root: nat, sp: Space, n: nat)
    requires MemOk(w.mem) && Good(w, root, sp) && forall v :: 0 <= v < n ==> Private(w.mem, sp, v)
    ensures n < |w.mem|
  {
    hide Frames, Linked, FreeOk, Private, FrameSet;
    FrameSetSize(w, root, sp, n);
    var frames := FrameSet(w.mem, sp.page, n);
    GoodFacts(w, root, sp);
    PageInUse(w, root, sp, ROOT);
    SubsetSize(frames + {root}, UpTo(|w.mem|));
  }

  // --- sizes ---

  // The page of TRAPFRAME: user memory ends below it.
  const USERPAGES: nat := MAXVA / PGSIZE - 2

  lemma UpMonotone(a: nat, b: nat)
    requires a <= b
    ensures Up(a) <= Up(b)
  {
  }

  lemma UpBelow(v: nat, sz: nat)
    ensures v * PGSIZE < sz <==> v < Up(sz)
    ensures Up(v * PGSIZE) == v
  {
  }

  function Repeat<X>(n: nat, x: X): (s: seq<X>)
    ensures |s| == n && forall i :: 0 <= i < n ==> s[i] == x
  {
    seq(n, _ => x)
  }

  lemma RepeatMore<X>(n: nat, x: X)
    ensures Repeat(n, x) + [x] == Repeat(n + 1, x)
  {
  }

  lemma ExtendedPrivate(w: World, sp: Space, w1: World, sp1: Space, root: nat,
                        v0: nat, pages: seq<seq<int>>, flags: seq<nat>)
    requires Extended(w, sp, w1, sp1, root, v0, pages, flags) && MemOk(w.mem) && MemOk(w1.mem)
    ensures forall v :: v0 <= v < v0 + |pages| ==> Private(w1.mem, sp1, v)
    ensures forall v :: 0 <= v < v0 && Private(w.mem, sp, v) ==> Private(w1.mem, sp1, v)
  {
    hide Lookup, Kept, Good, Conserved, Outside, MemOk;
    KeptFacts(w, sp, w1, sp1, root);
    forall v | v0 <= v < v0 + |pages| ensures Private(w1.mem, sp1, v) {
      assert IsNew(w.mem, sp, w1.mem, sp1, v0, pages, flags, v);
    }
  }

  lemma PrivateLeaf(w: World, root: nat, sp: Space, v: nat)
    requires Good(w, root, sp) && Private(w.mem, sp, v)
    ensures Lookup(w.mem, sp.page, v) != 0 && Flags(Lookup(w.mem, sp.page, v)) != V
  {
    hide FreeOk, Linked, Tables, Lookup;
    GoodFacts(w, root, sp);
    assert Owned(w.mem, sp.page, Frame(Lookup(w.mem, sp.page, v)), v);
  }

  // The next page to be added: there is still room for it below TRAPFRAME.
  lemma NextFree(w: World, sp: Space, w1: World, sp1: Space, root: nat,
                 v0: nat, pages: seq<seq<int>>, flags: seq<nat>)
    requires Extended(w, sp, w1, sp1, root, v0, pages, flags) && MemOk(w.mem) && |w.mem| <= USERPAGES
    requires forall v :: 0 <= v < v0 ==> Private(w.mem, sp, v)
    ensures Good(w1, root, sp1) && MemOk(w1.mem) && |w1.mem| == |w.mem| && v0 + |pages| < USERPAGES
    ensures Lookup(w1.mem, sp1.page, v0 + |pages|) == Lookup(w.mem, sp.page, v0 + |pages|)
  {
    hide Lookup, Kept, Good, Conserved, Outside, MemOk, AllNew, Private;
    KeptFacts(w, sp, w1, sp1, root);
    ExtendedPrivate(w, sp, w1, sp1, root, v0, pages, flags);
    Pigeonhole(w1, root, sp1, v0 + |pages|);
  }

  // --- two address spaces ---

  predicate Apart(sp: Space, other: Space) { forall p :: p in sp.use ==> p !in other.use }

  // What happens in one address space leaves another alone.
  lemma OtherKept(w: World, other: Space, root: nat, sp: Space, w1: World, sp1: Space, root1: nat)
    requires Kept(w, sp, w1, sp1, root1) && Good(w, root, other) && Apart(other, sp)
    ensures Good(w1, root, other) && SameMap(w.mem, other, w1.mem, other) && Apart(other, sp1)
    ensures forall p :: p in other.use ==> p < |w.mem| == |w1.mem| && w1.mem[p] == w.mem[p]
  {
    hide Kept, Frames, Linked, Lookup;
    KeptFacts(w, sp, w1, sp1, root1);
    GoodFacts(w, root, other);
    forall t | t in other.page ensures w1.mem[other.page[t]] == w.mem[other.page[t]] { PageInUse(w, root, other, t); }
    Framed(w, root, other, w1);
  }

  // The contents and flags of the first n pages of an address space.
  function Contents(mem: Mem, page: map<Table, nat>, n: nat): (s: seq<seq<int>>)
    requires MemOk(mem)
    ensures |s| == n
  {
    seq(n, v requires 0 <= v < n => PageAt(mem, page, v))
  }

  function PageAt(mem: Mem, page: map<Table, nat>, v: nat): seq<int>
    requires MemOk(mem)
  {
    var p := Frame(Lookup(mem, page, v));
    if p < |mem| then mem[p] else []
  }

  function FlagsOf(mem: Mem, page: map<Table, nat>, n: nat): (s: seq<nat>)
    requires MemOk(mem)
    ensures |s| == n
  {
    seq(n, v requires 0 <= v < n => Flags(Lookup(mem, page, v)))
  }

  lemma ContentsMore(mem: Mem, page: map<Table, nat>, n: nat)
    requires MemOk(mem)
    ensures Contents(mem, page, n) + [PageAt(mem, page, n)] == Contents(mem, page, n + 1)
    ensures FlagsOf(mem, page, n) + [Flags(Lookup(mem, page, n))] == FlagsOf(mem, page, n + 1)
  {
  }

  // A page to be copied, in the current state: it is as it was at the beginning.
  lemma SourcePage(w: World, other: Space, root: nat, sp: Space, w1: World, sp1: Space, root1: nat, v: nat)
    requires Kept(w, sp, w1, sp1, root1) && Good(w, root, other) && Apart(other, sp) && v < VPAGES
    requires Private(w.mem, other, v)
    ensures Good(w1, root, other) && MemOk(w.mem) && MemOk(w1.mem) && At(0, v) in other.page
    ensures other.page[At(0, v)] < |w1.mem|
    ensures var pte := Word(w1.mem, other.page[At(0, v)], PX(0, v));
            && pte == Lookup(w.mem, other.page, v) && Valid(pte) && Flags(pte) != V
            && Frame(pte) < |w1.mem| && w1.mem[Frame(pte)] == PageAt(w.mem, other.page, v) && IsPage(w1.mem[Frame(pte)])
  {
    hide Kept, Good, Word, Lookup, Flags;
    OtherKept(w, other, root, sp, w1, sp1, root1);
    PrivateLeaf(w, root, other, v);
    LeafEntry(w1, root, other, v);
    GoodFacts(w1, root, other);
    GoodFacts(w, root, other);
    assert Lookup(w1.mem, other.page, v) == Lookup(w.mem, other.page, v);
  }

  lemma FlagsKept(pte: nat)
    requires Valid(pte)
    ensures Flags(pte) < 1024 && Flags(Entry(0, Flags(pte))) == Flags(pte)
  {
  }

  // --- what the user sees ---

  // The user may access all of virtual page v.
  lemma UserPage(w: World, root: nat, sp: Space, v: nat, o: nat)
    requires Good(w, root, sp) && MemOk(w.mem) && Private(w.mem, sp, v) && User(Lookup(w.mem, sp.page, v))
    requires (v + 1) * PGSIZE <= MAXVA && o < PGSIZE
    ensures Translate(w.mem, sp.page, v * PGSIZE + o) == Frame(Lookup(w.mem, sp.page, v)) != 0
    ensures Frame(Lookup(w.mem, sp.page, v)) < |w.mem|
  {
    hide FreeOk, Linked, Frames, Lookup, User;
    assert (v * PGSIZE + o) / PGSIZE == v;
    GoodFacts(w, root, sp);
    GoodShape(w, root, sp);
  }

  // What the pages of uvmalloc may be used for.
  predicate Usable(pte: nat, xperm: nat) {
    && User(pte) && Readable(pte) && (Writable(pte) <==> xperm in {4, 12}) && (Executable(pte) <==> xperm in {8, 12})
  }

  // The memory that uvmalloc adds is accessible to the user, and zero.
  lemma AllocUsable(w: World, sp: Space, w1: World, sp1: Space, root: nat, v0: nat, n: nat, xperm: nat)
    requires Extended(w, sp, w1, sp1, root, v0, Repeat(n, Filled(0)), Repeat(n, V + R + U + xperm))
    requires xperm in {0, 4, 8, 12} && (v0 + n) * PGSIZE <= MAXVA
    ensures MemOk(w1.mem) && Accessible(w1.mem, sp1.page, v0 * PGSIZE, n * PGSIZE)
    ensures forall i :: 0 <= i < n * PGSIZE ==> Peek(w1.mem, sp1.page, v0 * PGSIZE, n * PGSIZE)[i] == 0
    ensures forall v :: v0 <= v < v0 + n ==> Usable(Lookup(w1.mem, sp1.page, v), xperm)
  {
    hide Good, Kept, Lookup, Translate, MemOk, Usable, Private, Conserved, Outside;
    KeptFacts(w, sp, w1, sp1, root);
    forall v | v0 <= v < v0 + n ensures Usable(Lookup(w1.mem, sp1.page, v), xperm) {
      NewUsable(w, sp, w1, sp1, v0, n, xperm, v);
    }
    forall x | v0 * PGSIZE <= x < v0 * PGSIZE + n * PGSIZE
      ensures Translate(w1.mem, sp1.page, x) != 0 && Byte(w1.mem, Translate(w1.mem, sp1.page, x), x % PGSIZE) == 0
    {
      PageIn(v0, n, x);
      NewByte(w, sp, w1, sp1, root, v0, n, xperm, x / PGSIZE, x % PGSIZE);
    }
  }

  lemma PageIn(v0: nat, n: nat, x: nat)
    requires v0 * PGSIZE <= x < v0 * PGSIZE + n * PGSIZE
    ensures v0 <= x / PGSIZE < v0 + n && x == x / PGSIZE * PGSIZE + x % PGSIZE
  {
  }

  lemma NewUsable(w: World, sp: Space, w1: World, sp1: Space, v0: nat, n: nat, xperm: nat, v: nat)
    requires MemOk(w.mem) && MemOk(w1.mem) && xperm in {0, 4, 8, 12} && v0 <= v < v0 + n
    requires AllNew(w.mem, sp, w1.mem, sp1, v0, Repeat(n, Filled(0)), Repeat(n, V + R + U + xperm))
    ensures Usable(Lookup(w1.mem, sp1.page, v), xperm) && Private(w1.mem, sp1, v)
    ensures Frame(Lookup(w1.mem, sp1.page, v)) < |w1.mem| && w1.mem[Frame(Lookup(w1.mem, sp1.page, v))] == Filled(0)
  {
    hide Lookup, Filled, Private;
    assert IsNew(w.mem, sp, w1.mem, sp1, v0, Repeat(n, Filled(0)), Repeat(n, V + R + U + xperm), v);
  }

  lemma NewByte(w: World, sp: Space, w1: World, sp1: Space, root: nat, v0: nat, n: nat, xperm: nat, v: nat, o: nat)
    requires Good(w1, root, sp1) && MemOk(w.mem) && MemOk(w1.mem) && xperm in {0, 4, 8, 12} && v0 <= v < v0 + n
    requires AllNew(w.mem, sp, w1.mem, sp1, v0, Repeat(n, Filled(0)), Repeat(n, V + R + U + xperm))
    requires o < PGSIZE && (v0 + n) * PGSIZE <= MAXVA
    ensures Translate(w1.mem, sp1.page, v * PGSIZE + o) != 0
    ensures Byte(w1.mem, Translate(w1.mem, sp1.page, v * PGSIZE + o), o) == 0
  {
    hide Good, Lookup, MemOk, Private, Translate, User, AllNew;
    NewUsable(w, sp, w1, sp1, v0, n, xperm, v);
    UserPage(w1, root, sp1, v, o);
  }

  // Below page n the user of the one address space sees what the user of the other saw.
  ghost predicate SameUser(mem: Mem, page: map<Table, nat>, mem': Mem, page': map<Table, nat>, n: nat)
    requires MemOk(mem) && MemOk(mem')
  {
    forall x :: 0 <= x < n * PGSIZE ==> SameByte(mem, page, mem', page', x)
  }

  predicate SameByte(mem: Mem, page: map<Table, nat>, mem': Mem, page': map<Table, nat>, x: nat)
    requires MemOk(mem) && MemOk(mem')
  {
    var p, p' := Translate(mem, page, x), Translate(mem', page', x);
    (p == 0 <==> p' == 0) && (p != 0 ==> Byte(mem', p', x % PGSIZE) == Byte(mem, p, x % PGSIZE))
  }

  lemma CopyPage(w: World, root: nat, sp: Space, w1: World, root1: nat, sp1: Space, v: nat, o: nat)
    requires Good(w, root, sp) && Good(w1, root1, sp1) && MemOk(w.mem) && MemOk(w1.mem)
    requires Private(w.mem, sp, v) && Private(w1.mem, sp1, v) && (v + 1) * PGSIZE <= MAXVA && o < PGSIZE
    requires NewPage(w1.mem, sp1, v, PageAt(w.mem, sp.page, v), Flags(Lookup(w.mem, sp.page, v)))
    ensures SameByte(w.mem, sp.page, w1.mem, sp1.page, v * PGSIZE + o)
  {
    hide Good, Lookup, MemOk, Private, Flags, Frame;
    var x := v * PGSIZE + o;
    assert x / PGSIZE == v && x % PGSIZE == o && x < MAXVA;
    if User(Lookup(w.mem, sp.page, v)) {
      UserPage(w, root, sp, v, o);
      UserPage(w1, root1, sp1, v, o);
    }
  }

  /** After uvmcopy the child sees what the parent saw: the same bytes are accessible, with the
      same contents. */
  lemma CopySees(w: World, root: nat, sp: Space, sn: Space, w1: World, sn1: Space, root1: nat, n: nat)
    requires Good(w, root, sp) && MemOk(w.mem) && n * PGSIZE <= MAXVA
    requires forall v :: 0 <= v < n ==> Private(w.mem, sp, v)
    requires Extended(w, sn, w1, sn1, root1, 0, Contents(w.mem, sp.page, n), FlagsOf(w.mem, sp.page, n))
    ensures MemOk(w1.mem) && SameUser(w.mem, sp.page, w1.mem, sn1.page, n)
  {
    hide Good, Kept, Lookup, MemOk, Private, NewPage, Flags, PageAt, SameByte, Conserved, Outside;
    KeptFacts(w, sn, w1, sn1, root1);
    forall x | 0 <= x < n * PGSIZE ensures SameByte(w.mem, sp.page, w1.mem, sn1.page, x) {
      PageIn(0, n, x);
      var v := x / PGSIZE;
      assert IsNew(w.mem, sn, w1.mem, sn1, 0, Contents(w.mem, sp.page, n), FlagsOf(w.mem, sp.page, n), v);
      CopyPage(w, root, sp, w1, root1, sn1, v, x % PGSIZE);
    }
  }
}
