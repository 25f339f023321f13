/**
 kernel/vm.c over the pages of kernel/kalloc.c.  Addresses of pages are page numbers, 0 is
 the null pointer; the panics are preconditions.
 */
module Vm {
  import opened Memory
  import opened Kalloc
  import opened VmSpec
  import opened VmSpace
  import opened VmLemmas
  import opened VmUser
  import opened VmFree

  // The address of an entry.
  datatype Ref = Null | Ref(page: nat, index: nat)

  lemma NotHole(t: Table, x: nat)
    requires 0 < t.level <= 2
    ensures Child(t, x) != NOHOLE
  {
  }

  lemma EntryOf(w: World, root: nat, sp: Space, t: Table, x: nat)
    requires Good(w, root, sp) && t in sp.page && t.level > 0 && x < 512
    ensures FreeOk(w) && MemOk(w.mem) && sp.page[t] < |w.mem|
    ensures Child(t, x) in sp.page ==> Word(w.mem, sp.page[t], x) == Entry(sp.page[Child(t, x)], 0)
    ensures Child(t, x) !in sp.page ==> !Valid(Word(w.mem, sp.page[t], x))
  {
    hide FreeOk, Frames, Word, Tables, Child, Valid, Entry;
    GoodFacts(w, root, sp);
    NotHole(t, x);
  }

  lemma WalkStep(w: World, root: nat, sp: Space, level: nat, v: nat)
    requires Good(w, root, sp) && 0 < level && At(level, v) in sp.page
    ensures FreeOk(w) && MemOk(w.mem) && sp.page[At(level, v)] < |w.mem|
    ensures Child(At(level, v), PX(level, v)) == At(level - 1, v)
    ensures var pte := Word(w.mem, sp.page[At(level, v)], PX(level, v));
            if Valid(pte) then At(level - 1, v) in sp.page && sp.page[At(level - 1, v)] == Frame(pte)
            else At(level - 1, v) !in sp.page
  {
    hide Good, Word, Shift, PX, Valid, Frame, Entry;
    ChildAt(level, v);
    EntryOf(w, root, sp, At(level, v), PX(level, v));
  }

  lemma NoLeaf(w: World, root: nat, sp: Space, level: nat, v: nat)
    requires Good(w, root, sp) && level <= 1 && At(level, v) !in sp.page
    ensures At(0, v) !in sp.page
  {
    hide FreeOk, Linked, Frames, Word;
    assert Parent(At(0, v)) == At(1, v);
  }

  // An address space whose only page is its root table.
  ghost function NewSpace(root: nat): Space { Space(map[ROOT := root], map[root := T(ROOT)]) }

  lemma NewSpaceGood(w: World, root: nat)
    requires FreeOk(w) && w.lo <= root < |w.mem| && root !in w.free && w.mem[root] == Filled(0)
    ensures Good(w, root, NewSpace(root)) && MemOk(w.mem) && UserPrivate(w.mem, NewSpace(root))
    ensures forall v :: 0 <= v < VPAGES ==> Lookup(w.mem, NewSpace(root).page, v) == 0
  {
    hide Word;
    var sp := NewSpace(root);
    forall t, x | t in sp.page && t.level > 0 && 0 <= x < 512 && Child(t, x) != NOHOLE
      ensures Child(t, x) !in sp.page && !Valid(Word(w.mem, sp.page[t], x))
    {
      ZeroWord(w.mem, root, x);
    }
  }

  // An empty address space, or 0 exactly when memory is out.
  method UvmCreate(k: Kmem) returns (pagetable: nat, ghost sp: Space)
    requires FreeOk(k.W())
    modifies k
    ensures pagetable == 0 <==> old(k.free) == []
    ensures pagetable == 0 ==> k.W() == old(k.W())
    ensures pagetable != 0 ==>
              && Good(k.W(), pagetable, sp) && MemOk(k.mem) && UserPrivate(k.mem, sp)
              && (forall v :: 0 <= v < VPAGES ==> Lookup(k.mem, sp.page, v) == 0)
              && (forall p :: p in k.free || p in sp.use <==> p in old(k.free))
              && sp.page.Keys == {ROOT} && |k.free| == |old(k.free)| - 1
              && |k.mem| == old(|k.mem|)
              && (forall p :: 0 <= p < |k.mem| && p != pagetable ==> k.mem[p] == old(k.mem[p]))
  {
    hide Word, Good, UserPrivate, Lookup;
    pagetable := k.AllocPage();
    sp := NewSpace(pagetable);
    if pagetable != 0 {
      ghost var w := k.W();
      PoppedOk(old(k.W()));
      k.mem := Fill(k.mem, pagetable, 0);
      forall i | 0 <= i < |k.free| ensures Word(k.mem, k.free[i], 0) == Link(k.free, i + 1) {
        WordFrame(w.mem, k.mem, k.free[i], 0);
      }
      NewSpaceGood(k.W(), pagetable);
    }
  }

  lemma PathStart(page: map<Table, nat>, v: nat)
    ensures TablesAdded(page, page, Path(2, v))
  {
  }

  lemma PathThere(page: map<Table, nat>, page': map<Table, nat>, level: nat, v: nat)
    requires 0 < level <= 2 && TablesAdded(page, page', Path(level, v)) && At(level - 1, v) in page'
    ensures TablesAdded(page, page', Path(level - 1, v))
  {
  }

  lemma PathShort(page: map<Table, nat>, page': map<Table, nat>, level: nat, v: nat)
    requires 0 < level <= 2 && TablesAdded(page, page', Path(level, v)) && At(0, v) !in page'
    ensures TablesShort(page, page', Path(0, v), At(0, v))
  {
    assert Path(0, v) == {At(0, v)} + Path(1, v);
  }

  lemma PathNew(page: map<Table, nat>, page': map<Table, nat>, level: nat, v: nat, w: World, sp: Space)
    requires 0 < level <= 2 && sp.page == page' && TablesAdded(page, page', Path(level, v))
    requires FreeOk(w) && w.free != [] && At(level, v) in sp.page && sp.page[At(level, v)] < |w.mem|
    requires Child(At(level, v), PX(level, v)) == At(level - 1, v)
    ensures TablesAdded(page, WithTable(w, sp, At(level, v), PX(level, v)).1.page, Path(level - 1, v))
  {
    hide FreeOk, PX, Child;
  }

  // Takes a page for a new, empty table and lets entry x of table t point to it.
  method NewTable(k: Kmem, parent: nat, x: nat, ghost root: nat, ghost sp: Space, ghost t: Table) returns (c: nat)
    requires Good(k.W(), root, sp) && t in sp.page && sp.page[t] == parent && t.level > 0 && x < 512
    requires Child(t, x) !in sp.page
    modifies k
    ensures c == 0 ==> k.W() == old(k.W()) && k.free == []
    ensures c != 0 ==>
              && old(k.free) != [] && c == old(k.free)[0] && k.W() == WithTable(old(k.W()), sp, t, x).0
              && Grown(old(k.W()), sp, k.W(), WithTable(old(k.W()), sp, t, x).1, root)
  {
    hide Word, SetWord, Fill, Grown, Linked, Frames;
    c := k.AllocPage();
    if c != 0 {
      Growing(old(k.W()), root, sp, t, x);
      k.mem := Fill(k.mem, c, 0);
      k.mem := SetWord(k.mem, parent, x, Entry(c, 0));
    }
  }

  // The entry for va.  With alloc the missing tables are created, and the walk fails only
  // when the free list is empty; without it nothing changes.  The map stays as it was.
  method Walk(k: Kmem, root: nat, va: nat, alloc: bool, ghost sp: Space) returns (pte: Ref, ghost sp': Space)
    requires Good(k.W(), root, sp) && va < MAXVA
    modifies k
    ensures Grown(old(k.W()), sp, k.W(), sp', root)
    ensures !alloc ==> k.W() == old(k.W()) && sp' == sp
    ensures pte.Null? ==> At(0, va / PGSIZE) !in sp'.page && (alloc ==> k.free == [])
    ensures pte.Ref? ==>
              && At(0, va / PGSIZE) in sp'.page
              && pte == Ref(sp'.page[At(0, va / PGSIZE)], PX(0, va / PGSIZE))
              && (alloc ==> TablesAdded(sp.page, sp'.page, Path(0, va / PGSIZE)))
    ensures alloc && pte.Null? ==> TablesShort(sp.page, sp'.page, Path(0, va / PGSIZE), At(0, va / PGSIZE))
  {
    hide Word, SetWord, Fill, FreeOk, Tables, Linked, Frames, Conserved, Outside, SameMap, SameData, PX, Shift,
         TablesAdded, TablesShort, Path, At;
    var v := va / PGSIZE;
    var pagetable := root;
    sp' := sp;
    GrownRefl(k.W(), sp, root);
    RootAt(v);
    PathStart(sp.page, v);
    var level := 2;
    while level > 0
      invariant level <= 2 && Grown(old(k.W()), sp, k.W(), sp', root)
      invariant At(level, v) in sp'.page && sp'.page[At(level, v)] == pagetable
      invariant !alloc ==> k.W() == old(k.W()) && sp' == sp
      invariant alloc ==> TablesAdded(sp.page, sp'.page, Path(level, v))
    {
      WalkStep(k.W(), root, sp', level, v);
      var e := Word(k.mem, pagetable, PX(level, v));
      if Valid(e) {
        pagetable := Frame(e);
        if alloc { PathThere(sp.page, sp'.page, level, v); }
      } else {
        if !alloc {
          NoLeaf(k.W(), root, sp', level - 1, v);
          return Null, sp';
        }
        ghost var w := k.W();
        pagetable := NewTable(k, pagetable, PX(level, v), root, sp', At(level, v));
        if pagetable == 0 {
          NoLeaf(k.W(), root, sp', level - 1, v);
          PathShort(sp.page, sp'.page, level, v);
          return Null, sp';
        }
        GrownTrans(old(k.W()), sp, w, sp', k.W(), WithTable(w, sp', At(level, v), PX(level, v)).1, root);
        PathNew(sp.page, sp'.page, level, v, w, sp');
        sp' := WithTable(w, sp', At(level, v), PX(level, v)).1;
      }
      level := level - 1;
    }
    pte := Ref(pagetable, PX(0, v));
  }

  // Maps the pages of [va, va + size) to the frames from pa on.  If a table cannot be
  // allocated the result is -1 and the first n pages stay mapped.
  method MapPages(k: Kmem, root: nat, va: nat, size: nat, pa: nat, perm: nat, ghost sp: Space)
    returns (r: int, ghost sp': Space, ghost n: nat)
    requires Good(k.W(), root, sp) && 0 < size && va + size <= MAXVA && perm < 1024
    requires pa / PGSIZE + (va + size - 1) / PGSIZE - va / PGSIZE < FRAMES
    requires forall v :: va / PGSIZE <= v <= (va + size - 1) / PGSIZE ==> Lookup(k.mem, sp.page, v) == 0
    modifies k
    ensures Mapped(old(k.W()), sp, k.W(), sp', root, va / PGSIZE, n, pa / PGSIZE, perm)
    ensures n <= (va + size - 1) / PGSIZE - va / PGSIZE + 1
    ensures r == if n == (va + size - 1) / PGSIZE - va / PGSIZE + 1 then 0 else -1
    ensures r == -1 ==> k.free == []
    ensures |MissingTables(sp.page, va / PGSIZE, n)| <= |old(k.free)|
    ensures r == -1 ==> |old(k.free)| < |MissingTables(sp.page, va / PGSIZE, n + 1)|
    ensures r == 0 <==>
              |MissingTables(sp.page, va / PGSIZE, (va + size - 1) / PGSIZE - va / PGSIZE + 1)| <= |old(k.free)|
    ensures r == 0 ==>
              TablesAdded(sp.page, sp'.page, TablesFor(va / PGSIZE, (va + size - 1) / PGSIZE - va / PGSIZE + 1))
  {
    hide Word, SetWord, Lookup, Good, Mapped, Grown, Entry, At, PX, MemOk, MissingTables, TablesFor, TablesAdded, TablesShort, Path;
    ghost var w0 := k.W();
    var a, last, frame := va / PGSIZE, (va + size - 1) / PGSIZE, pa / PGSIZE;
    n, sp' := 0, sp;
    MappedNone(w0, root, sp, a, frame, perm);
    NoTables(sp.page, a);
    while true
      invariant a == va / PGSIZE + n && frame == pa / PGSIZE + n && a <= last
      invariant Mapped(w0, sp, k.W(), sp', root, va / PGSIZE, n, pa / PGSIZE, perm)
      invariant TablesAdded(sp.page, sp'.page, TablesFor(va / PGSIZE, n))
      decreases last - a
    {
      ghost var w1, sp1 := k.W(), sp';
      MappedGood(w0, sp, w1, sp1, root, va / PGSIZE, n, pa / PGSIZE, perm);
      PageOf(a);
      var pte;
      pte, sp' := Walk(k, root, a * PGSIZE, true, sp');
      MappedGrown(w0, sp, w1, sp1, k.W(), sp', root, va / PGSIZE, n, pa / PGSIZE, perm);
      MissingNext(sp.page, sp1.page, va / PGSIZE, n);
      if pte.Null? {
        MappedShort(w0, sp, w1, sp1, k.W(), sp', root, va / PGSIZE, n, last - va / PGSIZE + 1, pa / PGSIZE, perm);
        return -1, sp', n;
      }
      TablesTrans(sp.page, sp1.page, sp'.page, TablesFor(va / PGSIZE, n), Path(0, a));
      MappedOne(w0, sp, k.W(), sp', root, va / PGSIZE, n, pa / PGSIZE, perm);
      k.mem := SetWord(k.mem, pte.page, pte.index, Entry(frame, perm));
      n := n + 1;
      if a == last { break; }
      a, frame := a + 1, frame + 1;
    }
    MappedSize(w0, sp, k.W(), sp', root, va / PGSIZE, n, pa / PGSIZE, perm);
    r := 0;
  }

  lemma NoTables(page: map<Table, nat>, v0: nat)
    ensures TablesAdded(page, page, TablesFor(v0, 0))
  {
  }

  lemma MappedCount(w: World, sp: Space, w1: World, sp1: Space, root: nat, v0: nat, n: nat, f0: nat, perm: nat)
    requires perm < 1024 && Mapped(w, sp, w1, sp1, root, v0, n, f0, perm)
    ensures |w1.free| + |sp1.page| == |w.free| + |sp.page|
  {
  }

  // So far the missing tables came from the free list.
  lemma MappedSize(w: World, sp: Space, w1: World, sp1: Space, root: nat, v0: nat, n: nat, f0: nat, perm: nat)
    requires perm < 1024 && Mapped(w, sp, w1, sp1, root, v0, n, f0, perm) && TablesAdded(sp.page, sp1.page, TablesFor(v0, n))
    ensures |w.free| == |w1.free| + |MissingTables(sp.page, v0, n)|
  {
    hide Mapped, TablesFor;
    MappedCount(w, sp, w1, sp1, root, v0, n, f0, perm);
    TablesSize(sp.page, sp1.page, TablesFor(v0, n));
  }

  // The tables for page n ran short of free pages.
  lemma MappedShort(w: World, sp: Space, w1: World, sp1: Space, w2: World, sp2: Space, root: nat,
                    v0: nat, n: nat, m: nat, f0: nat, perm: nat)
    requires perm < 1024 && Mapped(w, sp, w1, sp1, root, v0, n, f0, perm) && TablesAdded(sp.page, sp1.page, TablesFor(v0, n))
    requires Mapped(w, sp, w2, sp2, root, v0, n, f0, perm) && w2.free == [] && n < m
    requires TablesShort(sp1.page, sp2.page, Path(0, v0 + n), At(0, v0 + n))
    ensures |MissingTables(sp.page, v0, n)| <= |w.free| < |MissingTables(sp.page, v0, n + 1)|
    ensures |w.free| < |MissingTables(sp.page, v0, m)|
  {
    hide Mapped, TablesShort, TablesAdded, Path, TablesFor, At, MissingTables;
    MappedCount(w, sp, w2, sp2, root, v0, n, f0, perm);
    MappedSize(w, sp, w1, sp1, root, v0, n, f0, perm);
    ShortFor(sp.page, sp1.page, sp2.page, v0, n, At(0, v0 + n));
    MissingMore(sp.page, v0, n + 1, m);
  }

  lemma PageOf(a: nat)
    ensures a * PGSIZE / PGSIZE == a
  {
  }

  // Clears the entry of the mapped page v, and with doFree frees its frame.
  method ClearEntry(k: Kmem, pte: Ref, doFree: bool, ghost root: nat, ghost sp: Space, ghost v: nat)
    requires Good(k.W(), root, sp) && v < VPAGES && At(0, v) in sp.page
    requires pte == Ref(sp.page[At(0, v)], PX(0, v)) && Lookup(k.mem, sp.page, v) != 0
    requires doFree ==> Private(k.mem, sp, v)
    modifies k
    ensures MemOk(old(k.mem)) && Unmapped(old(k.W()), sp, k.W(), Without(old(k.mem), sp, v), root, v, 1, doFree)
  {
    hide Word, SetWord, Lookup, Good, At, PX, MemOk, Private, Without, Unmapped;
    GoodFacts(k.W(), root, sp);
    LeafEntry(k.W(), root, sp, v);
    ClearOne(k.W(), root, sp, v, doFree);
    if doFree {
      FreePrivate(k.W(), root, sp, v);
      k.Kfree(Frame(Word(k.mem, pte.page, pte.index)));
    }
    k.mem := SetWord(k.mem, pte.page, pte.index, 0);
  }

  // Unmaps npages pages from va on, and with doFree frees their frames, which are private.  It
  // panics exactly if one of the pages is not mapped.
  method UvmUnmap(k: Kmem, root: nat, va: nat, npages: nat, doFree: bool, ghost sp: Space)
    returns (panicked: bool, ghost sp': Space)
    requires Good(k.W(), root, sp) && MemOk(k.mem) && va % PGSIZE == 0
    requires doFree ==> forall v :: va / PGSIZE <= v < va / PGSIZE + npages && Leaf(k.mem, sp, v) ==> Private(k.mem, sp, v)
    modifies k
    ensures MemOk(old(k.mem))
    ensures panicked <==> exists v :: va / PGSIZE <= v < va / PGSIZE + npages && !Leaf(old(k.mem), sp, v)
    ensures !panicked ==> Unmapped(old(k.W()), sp, k.W(), sp', root, va / PGSIZE, npages, doFree)
  {
    hide Word, SetWord, Lookup, Good, At, PX, MemOk, Private, Unmapped, Grown, Flags, Valid, Leaf;
    ghost var w0 := k.W();
    sp' := sp;
    UnmappedNone(w0, root, sp, va / PGSIZE, doFree);
    var a := va / PGSIZE;
    for i := 0 to npages
      invariant Unmapped(w0, sp, k.W(), sp', root, va / PGSIZE, i, doFree)
      invariant forall v :: va / PGSIZE <= v < va / PGSIZE + i ==> Leaf(w0.mem, sp, v)
    {
      ghost var w1, sp1 := k.W(), sp';
      UnmappedLeaf(w0, sp, w1, sp1, root, a, i, doFree, a + i);
      PageOf(a + i);
      if (a + i) * PGSIZE >= MAXVA {
        return true, sp';  // walk panics
      }
      var pte;
      pte, sp' := Walk(k, root, (a + i) * PGSIZE, false, sp');
      if pte.Null? {
        return true, sp';
      }
      var e := Word(k.mem, pte.page, pte.index);
      if !Valid(e) || Flags(e) == V {
        return true, sp';
      }
      UnmappedNext(w0, sp, w1, sp1, root, a, i, doFree, a + i);
      ClearEntry(k, pte, doFree, root, sp1, a + i);
      sp' := Without(w1.mem, sp1, a + i);
      UnmappedTrans(w0, sp, w1, sp1, k.W(), sp', root, a, i, doFree);
    }
    panicked := false;
  }

  // Whether the next page has a leaf is decided by the entry that a walk finds now.
  lemma UnmappedLeaf(w: World, sp: Space, w1: World, sp1: Space, root: nat, v0: nat, n: nat, free: bool, v: nat)
    requires Unmapped(w, sp, w1, sp1, root, v0, n, free) && v0 + n <= v
    ensures Good(w1, root, sp1) && MemOk(w.mem) && MemOk(w1.mem)
    ensures v * PGSIZE >= MAXVA ==> !Leaf(w.mem, sp, v)
    ensures v * PGSIZE < MAXVA && At(0, v) !in sp1.page ==> !Leaf(w.mem, sp, v)
    ensures v * PGSIZE < MAXVA && At(0, v) in sp1.page ==>
              && sp1.page[At(0, v)] < |w1.mem|
              && var pte := Word(w1.mem, sp1.page[At(0, v)], PX(0, v));
              && (Leaf(w.mem, sp, v) <==> Valid(pte) && Flags(pte) != V)
              && (Leaf(w.mem, sp, v) ==> Lookup(w.mem, sp.page, v) != 0)
  {
    hide Good, Word, Lookup, Flags, At, PX;
    LeafEntry(w1, root, sp1, v);
    GoodFacts(w, root, sp);
    GoodFacts(w1, root, sp1);
  }

  // kalloc, memset or memmove, mappages, and kfree if that fails: virtual page v becomes a
  // private page with the given contents, or nothing but tables is added.
  method AddPage(k: Kmem, root: nat, v: nat, page: seq<int>, perm: nat, ghost sp: Space) returns (r: int, ghost sp': Space)
    requires Good(k.W(), root, sp) && v * PGSIZE + PGSIZE <= MAXVA && Lookup(k.mem, sp.page, v) == 0
    requires IsPage(page) && perm < 1024 && Flags(Entry(0, perm)) != V
    modifies k
    ensures r == 0 ==> Extended(old(k.W()), sp, k.W(), sp', root, v, [page], [Flags(Entry(0, perm))])
    ensures r != 0 ==> r == -1 && Grown(old(k.W()), sp, k.W(), sp', root) && |k.free| <= 1
    ensures r == 0 <==> Needed(sp.page, v, 1) <= |old(k.free)|
    ensures r == 0 ==> TablesAdded(sp.page, sp'.page, TablesFor(v, 1))
  {
    hide Word, Good, Mapped, Grown, Extended, Lookup, IsPage, FreeOk, Freed, Entry, Flags, MissingTables, TablesFor,
         TablesAdded, MemOk, Kept;
    ghost var w := k.W();
    sp' := sp;
    GrownRefl(w, sp, root);
    GoodFacts(w, root, sp);
    var c := k.AllocPage();
    if c == 0 {
      return -1, sp;
    }
    TakenGood(w, root, sp, page);
    GoodShape(w, root, sp);
    EntryFlags(c, perm);
    k.mem := k.mem[c := page];
    assert k.W() == Taken(w, page);
    ghost var n;
    PageSpan(v);
    r, sp', n := MapPages(k, root, v * PGSIZE, PGSIZE, c * PGSIZE, perm, sp);
    if r != 0 {
      NotAdded(w, sp, k.W(), sp', root, v, page, perm);
      k.Kfree(c);
    } else {
      Added(w, sp, k.W(), sp', root, v, page, perm);
      sp' := Space(sp'.page, sp'.use[c := D(v)]);
    }
  }

  lemma NextTables(page: map<Table, nat>, page1: map<Table, nat>, page2: map<Table, nat>, v0: nat, i: nat)
    requires TablesAdded(page, page1, TablesFor(v0, i)) && TablesAdded(page1, page2, TablesFor(v0 + i, 1))
    ensures TablesAdded(page, page2, TablesFor(v0, i + 1))
  {
    hide MissingTables, Path;
    MissingNext(page, page1, v0, i);
    TablesTrans(page, page1, page2, TablesFor(v0, i), TablesFor(v0 + i, 1));
  }

  // All pages were added, so there were as many free ones as they needed.
  lemma NeededAll(w: World, sp: Space, w1: World, sp1: Space, root: nat, v0: nat, pages: seq<seq<int>>, flags: seq<nat>)
    requires Extended(w, sp, w1, sp1, root, v0, pages, flags) && TablesAdded(sp.page, sp1.page, TablesFor(v0, |pages|))
    ensures |w.free| == |w1.free| + Needed(sp.page, v0, |pages|)
  {
    hide Kept, Lookup, AllNew, TablesFor;
    TablesSize(sp.page, sp1.page, TablesFor(v0, |pages|));
  }

  // If there is not enough for the next of m pages, there was not enough for all of them.
  lemma NeededNext(w: World, sp: Space, w1: World, sp1: Space, root: nat, v0: nat, pages: seq<seq<int>>, flags: seq<nat>,
                   m: nat)
    requires Extended(w, sp, w1, sp1, root, v0, pages, flags) && TablesAdded(sp.page, sp1.page, TablesFor(v0, |pages|))
    requires |pages| < m
    ensures |w1.free| < Needed(sp1.page, v0 + |pages|, 1) ==> |w.free| < Needed(sp.page, v0, m)
  {
    hide Kept, Lookup, AllNew, TablesFor, MissingTables, Path, TablesAdded;
    NeededAll(w, sp, w1, sp1, root, v0, pages, flags);
    MissingNext(sp.page, sp1.page, v0, |pages|);
    MissingMore(sp.page, v0, |pages| + 1, m);
  }

  lemma EntryFlags(c: nat, perm: nat)
    requires perm < 1024
    ensures Flags(Entry(c, perm)) == Flags(Entry(0, perm))
  {
  }

  lemma PageSpan(v: nat)
    ensures v * PGSIZE / PGSIZE == v == (v * PGSIZE + PGSIZE - 1) / PGSIZE
  {
  }

  // Shrinks a process: its pages from newsz up to oldsz, whose frames are its own, go back to
  // the free list.  It panics exactly if one of these pages is not mapped, so oldsz must not
  // lie beyond the mapped pages.  The page count must fit an int.
  method UvmDealloc(k: Kmem, root: nat, oldsz: nat, newsz: nat, ghost sp: Space)
    returns (r: nat, panicked: bool, ghost sp': Space)
    requires Good(k.W(), root, sp) && MemOk(k.mem) && Up(oldsz) < 0x8000_0000
    requires forall v :: Up(newsz) <= v < Up(oldsz) && Leaf(k.mem, sp, v) ==> Private(k.mem, sp, v)
    modifies k
    ensures MemOk(old(k.mem))
    ensures panicked <==> exists v :: Up(newsz) <= v < Up(oldsz) && !Leaf(old(k.mem), sp, v)
    ensures !panicked ==> r == if newsz < oldsz then newsz else oldsz
    ensures !panicked ==> Unmapped(old(k.W()), sp, k.W(), sp', root, Up(newsz),
                                   if Up(newsz) < Up(oldsz) then Up(oldsz) - Up(newsz) else 0, true)
  {
    hide Good, Private, Unmapped, MemOk, Lookup, Flags, Leaf;
    sp', panicked := sp, false;
    UnmappedNone(k.W(), root, sp, Up(newsz), true);
    if newsz >= oldsz {
      UpMonotone(oldsz, newsz);
      return oldsz, false, sp;
    }
    if Up(newsz) < Up(oldsz) {
      var npages := Up(oldsz) - Up(newsz);
      PageOf(Up(newsz));
      panicked, sp' := UvmUnmap(k, root, Up(newsz) * PGSIZE, npages, true, sp);
    }
    r := newsz;
  }

  // uvmdealloc of the i pages from v0 on, which had just been added.
  method Rollback(k: Kmem, root: nat, v0: nat, i: nat, ghost pages: seq<seq<int>>, ghost flags: seq<nat>,
                  ghost w0: World, ghost sp0: Space, ghost sp: Space) returns (ghost sp': Space)
    requires Extended(w0, sp0, k.W(), sp, root, v0, pages, flags) && MemOk(w0.mem) && |pages| == i && v0 + i <= USERPAGES
    modifies k
    ensures Grown(w0, sp0, k.W(), sp', root) && |k.free| == old(|k.free|) + i
  {
    hide Kept, Good, Private, Unmapped, MemOk, Lookup, Grown, AllNew, SameElsewhere;
    KeptFacts(w0, sp0, k.W(), sp, root);
    ExtendedPrivate(w0, sp0, k.W(), sp, root, v0, pages, flags);
    UpBelow(v0, 0);
    UpBelow(v0 + i, 0);
    forall v | v0 <= v < v0 + i ensures Leaf(k.mem, sp, v) { PrivateLeaf(k.W(), root, sp, v); }
    ghost var w1 := k.W();
    var r, panicked;
    r, panicked, sp' := UvmDealloc(k, root, (v0 + i) * PGSIZE, v0 * PGSIZE, sp);
    RolledBack(w0, sp0, w1, sp, k.W(), sp', root, v0, pages, flags);
  }

  // Grows a process whose pages below oldsz are private and whose pages above are free.  If
  // memory runs out, all that is left behind are tables, and no more pages are free than
  // were asked for.
  method UvmAlloc(k: Kmem, root: nat, oldsz: nat, newsz: nat, xperm: nat, ghost sp: Space)
    returns (r: nat, ghost sp': Space, ghost ok: bool)
    requires Good(k.W(), root, sp) && MemOk(k.mem) && |k.mem| <= USERPAGES && xperm in {0, 4, 8, 12}
    requires forall v :: 0 <= v < Up(oldsz) ==> Private(k.mem, sp, v)
    requires forall v :: Up(oldsz) <= v < Up(newsz) && v < USERPAGES ==> Lookup(k.mem, sp.page, v) == 0
    modifies k
    ensures r == if newsz < oldsz then oldsz else if ok then newsz else 0
    ensures newsz < oldsz ==> k.W() == old(k.W()) && sp' == sp
    ensures newsz >= oldsz ==> Up(oldsz) <= Up(newsz)
    ensures newsz >= oldsz && ok ==>
              Extended(old(k.W()), sp, k.W(), sp', root, Up(oldsz),
                       Repeat(Up(newsz) - Up(oldsz), Filled(0)), Repeat(Up(newsz) - Up(oldsz), V + R + U + xperm))
    ensures newsz >= oldsz && !ok ==> Grown(old(k.W()), sp, k.W(), sp', root) && |k.free| <= Up(newsz) - Up(oldsz)
    ensures newsz >= oldsz && ok ==> MemOk(k.mem) && forall v :: Up(oldsz) <= v < Up(newsz) ==> Usable(Lookup(k.mem, sp'.page, v), xperm)
    ensures newsz >= oldsz && ok ==>
              var va, len := Up(oldsz) * PGSIZE, (Up(newsz) - Up(oldsz)) * PGSIZE;
              && Accessible(k.mem, sp'.page, va, len)
              && forall i :: 0 <= i < len ==> Peek(k.mem, sp'.page, va, len)[i] == 0
    ensures newsz >= oldsz ==> (ok <==> Needed(sp.page, Up(oldsz), Up(newsz) - Up(oldsz)) <= |old(k.free)|)
  {
    hide Good, Private, Unmapped, MemOk, Lookup, Extended, Grown, Filled, Entry, Repeat, Up, IsPage, Needed, TablesFor,
         TablesAdded, Accessible, Peek, Usable;
    ghost var w0 := k.W();
    sp', ok := sp, true;
    if newsz < oldsz {
      return oldsz, sp, true;
    }
    UpMonotone(oldsz, newsz);
    var v0, i := Up(oldsz), 0;
    ghost var flag := V + R + U + xperm;
    UpBelow(v0, newsz);
    Pigeonhole(w0, root, sp, v0);
    ExtendedNone(w0, root, sp, v0);
    NoTables(sp.page, v0);
    while (v0 + i) * PGSIZE < newsz
      invariant v0 + i <= Up(newsz) && v0 + i <= USERPAGES && TablesAdded(sp.page, sp'.page, TablesFor(v0, i))
      invariant Extended(w0, sp, k.W(), sp', root, v0, Repeat(i, Filled(0)), Repeat(i, flag))
      decreases Up(newsz) - v0 - i
    {
      ghost var w1, sp1 := k.W(), sp';
      ghost var pages, flags := Repeat(i, Filled(0)), Repeat(i, flag);
      UpBelow(v0 + i, newsz);
      RepeatMore(i, Filled(0));
      RepeatMore(i, flag);
      NextFree(w0, sp, w1, sp1, root, v0, pages, flags);
      var rc;
      rc, sp' := AddPage(k, root, v0 + i, Filled(0), R + U + xperm, sp1);
      NeededNext(w0, sp, w1, sp1, root, v0, pages, flags, Up(newsz) - v0);
      if rc != 0 {
        ExtendedGrown(w0, sp, w1, sp1, k.W(), sp', root, v0, pages, flags);
        sp' := Rollback(k, root, v0, i, pages, flags, w0, sp, sp');
        return 0, sp', false;
      }
      ExtendedMore(w0, sp, w1, sp1, k.W(), sp', root, v0, pages, flags, Filled(0), flag);
      NextTables(sp.page, sp1.page, sp'.page, v0, i);
      i := i + 1;
    }
    UpBelow(v0 + i, newsz);
    NeededAll(w0, sp, k.W(), sp', root, v0, Repeat(i, Filled(0)), Repeat(i, flag));
    AllocUsable(w0, sp, k.W(), sp', root, v0, i, xperm);
    r := newsz;
  }

  // Copies the pages below sz of one address space to private pages of another.  If memory
  // runs out, all that is left behind are tables of the new one.
  method UvmCopy(k: Kmem, oldRoot: nat, newRoot: nat, sz: nat, ghost so: Space, ghost sn: Space)
    returns (r: int, ghost sn': Space)
    requires Good(k.W(), oldRoot, so) && Good(k.W(), newRoot, sn) && Apart(so, sn) && MemOk(k.mem)
    requires |k.mem| <= USERPAGES
    requires forall v :: 0 <= v < Up(sz) ==> Private(k.mem, so, v) && Lookup(k.mem, sn.page, v) == 0
    modifies k
    ensures MemOk(old(k.mem)) && (r == 0 || r == -1)
    ensures r == 0 ==>
              Extended(old(k.W()), sn, k.W(), sn', newRoot, 0,
                       Contents(old(k.mem), so.page, Up(sz)), FlagsOf(old(k.mem), so.page, Up(sz)))
    ensures r == -1 ==> Grown(old(k.W()), sn, k.W(), sn', newRoot) && |k.free| <= Up(sz)
    ensures r == 0 <==> Needed(sn.page, 0, Up(sz)) <= |old(k.free)|
    ensures MemOk(k.mem) && (r == 0 ==> SameUser(old(k.mem), so.page, k.mem, sn'.page, Up(sz)))
    ensures Good(k.W(), oldRoot, so) && SameMap(old(k.mem), so, k.mem, so)
    ensures forall p :: p in so.use ==> p < |old(k.mem)| == |k.mem| && k.mem[p] == old(k.mem)[p]
  {
    hide Good, Private, Unmapped, MemOk, Lookup, Extended, Grown, Kept, Entry, Flags, Up, IsPage, PageAt, Apart,
         Contents, FlagsOf, At, PX, Word, SameUser, SameMap, Needed, TablesFor, TablesAdded, TablesShort;
    ghost var w0 := k.W();
    sn' := sn;
    Pigeonhole(w0, oldRoot, so, Up(sz));
    UpBelow(0, sz);
    ExtendedNone(w0, newRoot, sn, 0);
    assert Contents(w0.mem, so.page, 0) == [] && FlagsOf(w0.mem, so.page, 0) == [];
    NoTables(sn.page, 0);
    var i := 0;
    while i * PGSIZE < sz
      invariant i <= Up(sz) && TablesAdded(sn.page, sn'.page, TablesFor(0, i))
      invariant Extended(w0, sn, k.W(), sn', newRoot, 0, Contents(w0.mem, so.page, i), FlagsOf(w0.mem, so.page, i))
      decreases Up(sz) - i
    {
      ghost var w1, s1 := k.W(), sn';
      ghost var pages, flags := Contents(w0.mem, so.page, i), FlagsOf(w0.mem, so.page, i);
      UpBelow(i, sz);
      PageOf(i);
      ContentsMore(w0.mem, so.page, i);
      ExtendedGood(w0, sn, w1, s1, newRoot, 0, pages, flags);
      SourcePage(w0, so, oldRoot, sn, w1, s1, newRoot, i);
      var pte, rc;
      ghost var same;
      pte, same := Walk(k, oldRoot, i * PGSIZE, false, so);
      var e := Word(k.mem, pte.page, pte.index);
      FlagsKept(e);
      rc, sn' := AddPage(k, newRoot, i, k.mem[Frame(e)], Flags(e), s1);
      NeededNext(w0, sn, w1, s1, newRoot, 0, pages, flags, Up(sz));
      if rc != 0 {
        ExtendedGrown(w0, sn, w1, s1, k.W(), sn', newRoot, 0, pages, flags);
        ExtendedGood(w0, sn, k.W(), sn', newRoot, 0, pages, flags);
        sn' := CopyUndo(k, newRoot, i, pages, flags, w0, sn, sn');
        GrownKeeps(w0, sn, k.W(), sn', newRoot);
        OtherKept(w0, so, oldRoot, sn, k.W(), sn', newRoot);
        return -1, sn';
      }
      ExtendedMore(w0, sn, w1, s1, k.W(), sn', newRoot, 0, pages, flags, PageAt(w0.mem, so.page, i), Flags(e));
      NextTables(sn.page, s1.page, sn'.page, 0, i);
      i := i + 1;
    }
    UpBelow(i, sz);
    NeededAll(w0, sn, k.W(), sn', newRoot, 0, Contents(w0.mem, so.page, i), FlagsOf(w0.mem, so.page, i));
    ExtendedGood(w0, sn, k.W(), sn', newRoot, 0, Contents(w0.mem, so.page, i), FlagsOf(w0.mem, so.page, i));
    OtherKept(w0, so, oldRoot, sn, k.W(), sn', newRoot);
    CopySees(w0, oldRoot, so, sn, k.W(), sn', newRoot, i);
    r := 0;
  }

  lemma GrownKeeps(w: World, sp: Space, w1: World, sp1: Space, root: nat)
    requires Grown(w, sp, w1, sp1, root)
    ensures Kept(w, sp, w1, sp1, root) && MemOk(w1.mem)
  {
    hide Kept;
    KeptFacts(w, sp, w1, sp1, root);
  }

  // The error exit of uvmcopy.
  method CopyUndo(k: Kmem, root: nat, i: nat, ghost pages: seq<seq<int>>, ghost flags: seq<nat>,
                  ghost w0: World, ghost sp0: Space, ghost sp: Space) returns (ghost sp': Space)
    requires Extended(w0, sp0, k.W(), sp, root, 0, pages, flags) && MemOk(w0.mem) && |pages| == i <= USERPAGES
    modifies k
    ensures Grown(w0, sp0, k.W(), sp', root) && |k.free| == old(|k.free|) + i
  {
    hide Kept, Good, Private, Unmapped, MemOk, Lookup, Grown, AllNew, SameElsewhere, Flags;
    KeptFacts(w0, sp0, k.W(), sp, root);
    ExtendedPrivate(w0, sp0, k.W(), sp, root, 0, pages, flags);
    forall v | 0 <= v < i ensures Leaf(k.mem, sp, v) { PrivateLeaf(k.W(), root, sp, v); }
    ghost var w1 := k.W();
    var panicked;
    panicked, sp' := UvmUnmap(k, root, 0, i, true, sp);
    RolledBack(w0, sp0, w1, sp, k.W(), sp', root, 0, pages, flags);
  }

  // Frees the page table `t` at page `pagetable` and all tables below it; their leaves are
  // gone already.
  method FreeWalk(k: Kmem, pagetable: nat, ghost t: Table, ghost sp: Space) returns (ghost sp': Space)
    requires Bare(k.W(), sp, NOHOLE) && t in sp.page && sp.page[t] == pagetable
    modifies k
    ensures Walked(old(k.W()), sp, k.W(), sp', t)
    decreases t.level
  {
    hide Bare, Walking, Walked, Word, SetWord, Freed, Gone, FreeOk, MemOk;
    ghost var w0 := k.W();
    sp' := sp;
    WalkingStart(w0, sp, t);
    for i := 0 to 512
      invariant Walking(w0, sp, k.W(), sp', t, i)
    {
      ghost var w1, sp1 := k.W(), sp';
      WalkingEntry(w0, sp, w1, sp1, t, i);
      var pte := Word(k.mem, pagetable, i);
      if Valid(pte) && Inner(pte) {
        sp' := FreeWalk(k, Frame(pte), Child(t, i), sp1);
        WalkingChild(w0, sp, w1, sp1, k.W(), sp', t, i);
        k.mem := SetWord(k.mem, pagetable, i, 0);
      } else if Valid(pte) {
        assert false;
      }
    }
    WalkingEnd(w0, sp, k.W(), sp', t);
    k.Kfree(pagetable);
    sp' := Gone(sp', t);
  }

  // Frees an address space whose mapped pages are the private ones below sz: afterwards
  // every page it used is free, once.
  method UvmFree(k: Kmem, root: nat, sz: nat, ghost sp: Space)
    requires Good(k.W(), root, sp) && MemOk(k.mem) && |k.mem| <= USERPAGES
    requires forall v :: 0 <= v < Up(sz) ==> Private(k.mem, sp, v)
    requires forall v :: Up(sz) <= v < VPAGES ==> Lookup(k.mem, sp.page, v) == 0
    modifies k
    ensures FreeOk(k.W()) && |k.mem| == |old(k.mem)|
    ensures forall p :: p in k.free <==> p in old(k.free) || p in sp.use
    ensures forall p :: 0 <= p < |k.mem| && p !in k.free ==> k.mem[p] == old(k.mem)[p]
  {
    hide Good, Private, MemOk, Lookup, Flags, Walked, Bare, Up;
    ghost var w0, sp' := k.W(), sp;
    Pigeonhole(w0, root, sp, Up(sz));
    UnmappedNone(w0, root, sp, 0, true);
    if sz > 0 {
      forall v | 0 <= v < Up(sz) ensures Leaf(k.mem, sp, v) { PrivateLeaf(k.W(), root, sp, v); }
      var panicked;
      panicked, sp' := UvmUnmap(k, root, 0, Up(sz), true, sp);
    } else {
      UpBelow(0, 0);
    }
    ghost var w1 := k.W();
    UnmappedConserves(w0, sp, w1, sp', root, 0, Up(sz));
    GoodFacts(w1, root, sp');
    GoodFacts(w0, root, sp);
    RootPage(w1, root, sp');
    BareStart(w1, root, sp');
    ghost var sp2;
    sp2 := FreeWalk(k, root, ROOT, sp');
    WalkedRoot(w1, root, sp', k.W(), sp2);
    WalkedOutside(w1, sp', k.W(), sp2, ROOT);
  }

  lemma RootPage(w: World, root: nat, sp: Space)
    requires Good(w, root, sp)
    ensures ROOT in sp.page && sp.page[ROOT] == root
  {
  }

  lemma WalkedOutside(w: World, sp: Space, w1: World, sp1: Space, t: Table)
    requires Walked(w, sp, w1, sp1, t)
    ensures Outside(w, sp, w1)
  {
  }

  // --- two calls that do not go well ---

  // With tables for one page but not for two, mappages fails and leaves the first page mapped.
  method MapPartly() returns (r: int, k: Kmem, root: nat, ghost sp: Space)
    ensures r == -1 && Good(k.W(), root, sp) && MemOk(k.mem)
    ensures Lookup(k.mem, sp.page, 511) == Entry(0, R) && Lookup(k.mem, sp.page, 512) == 0
  {
    hide Good, Lookup, Mapped, MissingTables, TablesFor, Entry, TablesAdded, UserPrivate;
    k := new Kmem(PGSIZE, [Filled(0), Filled(0), Filled(0), Filled(0)]);
    ghost var sp0, n;
    root, sp0 := UvmCreate(k);
    TwoTables(sp0.page);
    ghost var w0 := k.W();
    r, sp, n := MapPages(k, root, 511 * PGSIZE, 2 * PGSIZE, 0, R, sp0);
    MappedAt(w0, sp0, k.W(), sp, root, 511, n, 0, R);
  }

  lemma MappedAt(w: World, sp: Space, w1: World, sp1: Space, root: nat, v0: nat, n: nat, f0: nat, perm: nat)
    requires perm < 1024 && Mapped(w, sp, w1, sp1, root, v0, n, f0, perm)
    ensures Good(w1, root, sp1) && MemOk(w.mem) && MemOk(w1.mem)
    ensures forall v :: 0 <= v < VPAGES ==>
              Lookup(w1.mem, sp1.page, v) == if v0 <= v < v0 + n then Entry(f0 + (v - v0), perm) else Lookup(w.mem, sp.page, v)
  {
    hide Good, Lookup, Conserved, Outside;
    KeptFacts(w, sp, w1, sp1, root);
  }

  // An empty address space has no tables for page 511, and those for page 512 are one more.
  lemma TwoTables(page: map<Table, nat>)
    requires page.Keys == {ROOT}
    ensures |MissingTables(page, 511, 1)| == 2 && |MissingTables(page, 511, 2)| == 3
  {
    assert Path(0, 511) == {Table(0, 0), Table(1, 0)} by { PathOf(511, 0); }
    assert Path(0, 512) == {Table(0, 1), Table(1, 0)} by { PathOf(512, 1); }
    assert TablesFor(511, 0) == {};
    assert TablesFor(511, 1) == Path(0, 511);
    assert TablesFor(511, 2) == Path(0, 511) + Path(0, 512);
    assert MissingTables(page, 511, 1) == {Table(0, 0), Table(1, 0)};
    assert MissingTables(page, 511, 2) == {Table(0, 0), Table(1, 0), Table(0, 1)};
  }

  lemma PathOf(v: nat, x: nat)
    requires v / 512 == x < 512
    ensures Path(0, v) == {Table(0, x), Table(1, 0)}
  {
    assert Shift(v, 1) == x && Shift(v, 2) == 0;
    assert Path(2, v) == {};
    assert Path(1, v) == {Table(1, 0)};
  }

  // uvmdealloc with an old size beyond the mapped pages, here those of an empty process,
  // panics.
  method DeallocBeyond(k: Kmem) returns (panicked: bool)
    requires FreeOk(k.W()) && k.free != []
    modifies k
    ensures panicked
  {
    hide Good, Lookup, UserPrivate, Unmapped;
    var root, r;
    ghost var sp, sp1;
    root, sp := UvmCreate(k);
    assert !Leaf(k.mem, sp, 0);
    r, panicked, sp1 := UvmDealloc(k, root, PGSIZE, 0, sp);
  }
}
