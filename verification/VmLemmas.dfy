/** How single updates act on page tables. */
module VmLemmas {
  import opened Memory
  import opened Kalloc
  import opened VmSpec

  lemma GoodFacts(w: World, root: nat, sp: Space)
    requires Good(w, root, sp)
    ensures FreeOk(w) && MemOk(w.mem)
    ensures forall t :: t in sp.page ==> sp.page[t] < |w.mem| && t.level <= 2
    ensures forall p :: p in sp.use ==> w.lo <= p < |w.mem| && p !in w.free
  {
  }

  lemma FreeFrame(w: World, mem: Mem)
    requires FreeOk(w) && MemOk(mem) && |mem| == |w.mem|
    requires forall p :: p in w.free ==> mem[p] == w.mem[p]
    ensures FreeOk(w.(mem := mem))
  {
    forall i | 0 <= i < |w.free| ensures Word(mem, w.free[i], 0) == Link(w.free, i + 1) {
      WordFrame(w.mem, mem, w.free[i], 0);
    }
  }

  lemma LookupFrame(mem: Mem, mem': Mem, page: map<Table, nat>, v: nat)
    requires MemOk(mem) && MemOk(mem') && |mem| == |mem'|
    requires forall t :: t in page ==> page[t] < |mem| && mem'[page[t]] == mem[page[t]]
    ensures Lookup(mem', page, v) == Lookup(mem, page, v)
  {
    var t := At(0, v);
    if t in page { WordFrame(mem, mem', page[t], PX(0, v)); }
  }

  // A page table only depends on its own pages.
  lemma Framed(w: World, root: nat, sp: Space, w': World)
    requires Good(w, root, sp) && FreeOk(w') && w'.lo == w.lo && |w'.mem| == |w.mem|
    requires forall t :: t in sp.page ==> w'.mem[sp.page[t]] == w.mem[sp.page[t]]
    requires forall p :: p in sp.use ==> p !in w'.free
    ensures Good(w', root, sp) && SameMap(w.mem, sp, w'.mem, sp)
  {
    forall v ensures Lookup(w'.mem, sp.page, v) == Lookup(w.mem, sp.page, v) {
      LookupFrame(w.mem, w'.mem, sp.page, v);
    }
    forall t, x | t in sp.page && 0 <= x < 512 ensures Word(w'.mem, sp.page[t], x) == Word(w.mem, sp.page[t], x) {
      WordFrame(w.mem, w'.mem, sp.page[t], x);
    }
  }

  // Entry x of table t gets a new, empty table: the first free page.
  function WithTable(w: World, sp: Space, t: Table, x: nat): (World, Space)
    requires FreeOk(w) && w.free != [] && t in sp.page && sp.page[t] < |w.mem| && x < 512 && t.level > 0
  {
    var c := w.free[0];
    var pop := Popped(w);
    (pop.(mem := SetWord(Fill(pop.mem, c, 0), sp.page[t], x, Entry(c, 0))),
     Space(sp.page[Child(t, x) := c], sp.use[c := T(Child(t, x))]))
  }

  lemma NewTableWord(mem: Mem, c: nat, p: nat, x: nat, y: nat)
    requires MemOk(mem) && c < |mem| <= MAXPAGES && p < |mem| && p != c && x < 512 && y < 512
    ensures var m := SetWord(Fill(mem, c, 0), p, x, Entry(c, 0));
            && Word(m, c, y) == 0
            && Word(m, p, y) == if y == x then Entry(c, 0) else Word(mem, p, y)
  {
    hide Word, SetWord, Fill, Filled, MemOk;
    var m := Fill(mem, c, 0);
    ZeroWord(m, c, y);
    WordOfSet(m, p, x, Entry(c, 0), c, y);
    WordOfSet(m, p, x, Entry(c, 0), p, y);
    WordFrame(mem, m, p, y);
  }

  lemma WithTableMem(w: World, sp: Space, t: Table, x: nat)
    requires FreeOk(w) && w.free != [] && t in sp.page && x < 512 && t.level > 0
    requires w.lo <= sp.page[t] < |w.mem| && sp.page[t] !in w.free
    ensures var (w', sp') := WithTable(w, sp, t, x);
            && FreeOk(w') && w'.lo == w.lo && |w'.mem| == |w.mem| && w'.free == w.free[1..]
            && (forall p :: 0 <= p < |w.mem| && p != sp.page[t] && p != w.free[0] ==> w'.mem[p] == w.mem[p])
            && (forall y :: 0 <= y < 512 ==> Word(w'.mem, w.free[0], y) == 0)
            && (forall y :: 0 <= y < 512 ==>
                  Word(w'.mem, sp.page[t], y) == if y == x then Entry(w.free[0], 0) else Word(w.mem, sp.page[t], y))
  {
    hide Word, SetWord, Fill, Filled;
    PoppedOk(w);
    var (w', sp') := WithTable(w, sp, t, x);
    FreeFrame(Popped(w), w'.mem);
    forall y | 0 <= y < 512
      ensures Word(w'.mem, w.free[0], y) == 0
      ensures Word(w'.mem, sp.page[t], y) == if y == x then Entry(w.free[0], 0) else Word(w.mem, sp.page[t], y)
    {
      NewTableWord(Popped(w).mem, w.free[0], sp.page[t], x, y);
      WordFrame(w.mem, Popped(w).mem, sp.page[t], y);
    }
  }

  lemma WithTableLookup(w: World, root: nat, sp: Space, t: Table, x: nat, v: nat)
    requires Good(w, root, sp) && w.free != [] && t in sp.page && t.level > 0 && x < 512 && Child(t, x) !in sp.page
    ensures var (w', sp') := WithTable(w, sp, t, x);
            Lookup(w'.mem, sp'.page, v) == Lookup(w.mem, sp.page, v)
  {
    var (w', sp') := WithTable(w, sp, t, x);
    WithTableMem(w, sp, t, x);
    var l := At(0, v);
    if l in sp.page {
      assert sp.page[l] != sp.page[t] && sp.page[l] != w.free[0];
      WordFrame(w.mem, w'.mem, sp.page[l], PX(0, v));
    }
  }

  // The links of the new tree, entry by entry.
  lemma WithTableLink(w: World, root: nat, sp: Space, t: Table, x: nat, u: Table, y: nat)
    requires Good(w, root, sp) && w.free != [] && t in sp.page && t.level > 0 && x < 512 && Child(t, x) !in sp.page
    requires (u in sp.page || u == Child(t, x)) && u.level > 0 && y < 512
    ensures var (w', sp') := WithTable(w, sp, t, x);
            && MemOk(w'.mem) && u in sp'.page && sp'.page[u] < |w'.mem|
            && var pte := Word(w'.mem, sp'.page[u], y);
            && (Child(u, y) in sp'.page ==> pte == Entry(sp'.page[Child(u, y)], 0))
            && (Child(u, y) !in sp'.page ==> !Valid(pte))
  {
    hide Word, SetWord, Lookup, Frames;
    var (w', sp') := WithTable(w, sp, t, x);
    WithTableMem(w, sp, t, x);
    ChildParent(t, x);
    ChildParent(u, y);
    if u == Child(t, x) {
      assert Word(w'.mem, w.free[0], y) == 0;
    } else if u != t {
      assert sp.page[u] != sp.page[t] && sp.page[u] != w.free[0];
      WordFrame(w.mem, w'.mem, sp.page[u], y);
    }
  }

  lemma ChildLevel(t: Table, x: nat)
    requires t.level > 0
    ensures Child(t, x).level == t.level - 1 && Child(t, x) != t
  {
  }

  lemma Rest(w: World)
    requires FreeOk(w) && w.free != []
    ensures w.free[0] !in w.free[1..] && w.lo <= w.free[0] < |w.mem|
    ensures forall p :: p in w.free <==> p == w.free[0] || p in w.free[1..]
  {
    assert w.free == [w.free[0]] + w.free[1..];
  }

  lemma WithTableTables(w: World, root: nat, sp: Space, t: Table, x: nat)
    requires Good(w, root, sp) && w.free != [] && t in sp.page && t.level > 0 && x < 512 && Child(t, x) !in sp.page
    ensures var (w', sp') := WithTable(w, sp, t, x);
            Tables(w', sp') && FreeOk(w')
  {
    hide Word, SetWord, Lookup, Frames, Linked, Popped, Fill, FreeOk, Child, Parent;
    WithTableMem(w, sp, t, x);
    ChildLevel(t, x);
    ChildParent(t, x);
    Rest(w);
    var (w', sp') := WithTable(w, sp, t, x);
    var n, c := Child(t, x), w.free[0];
    forall u | u in sp'.page
      ensures w'.lo <= sp'.page[u] < |w'.mem| && sp'.page[u] in sp'.use && sp'.use[sp'.page[u]] == T(u)
      ensures u.level <= 2 && (u.level < 2 ==> Parent(u) in sp'.page) && (u.level == 2 ==> u == ROOT)
    {
      if u != n { assert sp.page[u] in sp.use && sp.page[u] != c; }
    }
  }

  lemma WithTableLinked(w: World, root: nat, sp: Space, t: Table, x: nat)
    requires Good(w, root, sp) && w.free != [] && t in sp.page && t.level > 0 && x < 512 && Child(t, x) !in sp.page
    ensures var (w', sp') := WithTable(w, sp, t, x);
            FreeOk(w') && Tables(w', sp') && Linked(w'.mem, sp'.page, NOHOLE)
  {
    hide Good, Word, Valid;
    WithTableTables(w, root, sp, t, x);
    GoodFacts(w, root, sp);
    var (w', sp') := WithTable(w, sp, t, x);
    forall u, y | u in sp'.page && u.level > 0 && 0 <= y < 512
      ensures var pte := Word(w'.mem, sp'.page[u], y);
              if Child(u, y) in sp'.page then pte == Entry(sp'.page[Child(u, y)], 0) else !Valid(pte)
    {
      WithTableLink(w, root, sp, t, x, u, y);
    }
  }

  lemma WithTableOutside(w: World, root: nat, sp: Space, t: Table, x: nat)
    requires Good(w, root, sp) && w.free != [] && t in sp.page && t.level > 0 && x < 512 && Child(t, x) !in sp.page
    ensures var (w', sp') := WithTable(w, sp, t, x);
            Conserved(w, sp, w', sp') && Outside(w, sp, w')
  {
    hide Word, SetWord, Lookup, Linked, Child, Frames;
    WithTableMem(w, sp, t, x);
    Rest(w);
  }

  lemma Growing(w: World, root: nat, sp: Space, t: Table, x: nat)
    requires Good(w, root, sp) && w.free != [] && t in sp.page && t.level > 0 && x < 512 && Child(t, x) !in sp.page
    ensures var (w', sp') := WithTable(w, sp, t, x);
            Grown(w, sp, w', sp', root)
  {
    hide Word, SetWord, Lookup, Fill, Linked, Child, Conserved, Outside, FreeOk, Popped;
    GoodFacts(w, root, sp);
    assert w.free[0] in w.free;
    var (w', sp') := WithTable(w, sp, t, x);
    WithTableMem(w, sp, t, x);
    WithTableLinked(w, root, sp, t, x);
    WithTableOutside(w, root, sp, t, x);
    forall v ensures Lookup(w'.mem, sp'.page, v) == Lookup(w.mem, sp.page, v) {
      WithTableLookup(w, root, sp, t, x, v);
    }
  }

  lemma GrownRefl(w: World, sp: Space, root: nat)
    requires Good(w, root, sp)
    ensures Grown(w, sp, w, sp, root)
  {
  }

  lemma GrownTrans(w: World, sp: Space, w1: World, sp1: Space, w2: World, sp2: Space, root: nat)
    requires Grown(w, sp, w1, sp1, root) && Grown(w1, sp1, w2, sp2, root)
    ensures Grown(w, sp, w2, sp2, root)
  {
  }

  lemma SetLeafLookup(w: World, root: nat, sp: Space, v: nat, pte: nat, u: nat)
    requires Good(w, root, sp) && v < VPAGES && u < VPAGES && At(0, v) in sp.page && pte < UINT64
    ensures var p := sp.page[At(0, v)];
            && p < |w.mem|
            && var mem := SetWord(w.mem, p, PX(0, v), pte);
            Lookup(mem, sp.page, u) == if u == v then (if Valid(pte) then pte else 0) else Lookup(w.mem, sp.page, u)
  {
    hide Word, SetWord, Linked, Frames, FreeOk, Valid, At, PX;
    GoodFacts(w, root, sp);
    var p := sp.page[At(0, v)];
    if At(0, u) in sp.page {
      WordOfSet(w.mem, p, PX(0, v), pte, sp.page[At(0, u)], PX(0, u));
      assert sp.use[sp.page[At(0, u)]] == T(At(0, u));
      if At(0, u) == At(0, v) && PX(0, u) == PX(0, v) { SameSlot(u, v); }
    }
  }

  // Writing the entry of virtual page v, which is no private page (any more).
  lemma SetLeaf(w: World, root: nat, sp: Space, v: nat, pte: nat)
    requires Good(w, root, sp) && v < VPAGES && At(0, v) in sp.page && pte < UINT64
    requires forall p :: p in sp.use ==> sp.use[p] != D(v)
    ensures var p := sp.page[At(0, v)];
            && p < |w.mem| && p in sp.use && sp.use[p].T?
            && var w' := w.(mem := SetWord(w.mem, p, PX(0, v), pte));
            && Kept(w, sp, w', sp, root)
            && forall u :: 0 <= u < VPAGES ==>
                 Lookup(w'.mem, sp.page, u)
                 == if u == v then (if Valid(pte) then pte else 0) else Lookup(w.mem, sp.page, u)
  {
    hide Word, SetWord, Lookup, PX;
    var p := sp.page[At(0, v)];
    var w' := w.(mem := SetWord(w.mem, p, PX(0, v), pte));
    WordsOfSet(w.mem, p, PX(0, v), pte);
    FreeFrame(w, w'.mem);
    forall u | 0 <= u < VPAGES
      ensures Lookup(w'.mem, sp.page, u)
              == if u == v then (if Valid(pte) then pte else 0) else Lookup(w.mem, sp.page, u)
    {
      SetLeafLookup(w, root, sp, v, pte, u);
    }
    assert forall t :: t in sp.page && t.level > 0 ==> sp.page[t] != p;
  }

  // The entry that a walk to a mapped page finds.
  lemma LeafEntry(w: World, root: nat, sp: Space, v: nat)
    requires Good(w, root, sp)
    ensures Lookup(w.mem, sp.page, v) != 0 ==> At(0, v) in sp.page
    ensures At(0, v) in sp.page ==>
              && sp.page[At(0, v)] < |w.mem| && MemOk(w.mem)
              && Lookup(w.mem, sp.page, v)
                 == if Valid(Word(w.mem, sp.page[At(0, v)], PX(0, v))) then Word(w.mem, sp.page[At(0, v)], PX(0, v)) else 0
  {
  }

  lemma MappedNone(w: World, root: nat, sp: Space, v0: nat, f0: nat, perm: nat)
    requires Good(w, root, sp) && perm < 1024
    ensures Mapped(w, sp, w, sp, root, v0, 0, f0, perm)
  {
  }

  lemma MappedGrown(w: World, sp: Space, w1: World, sp1: Space, w2: World, sp2: Space, root: nat,
                    v0: nat, n: nat, f0: nat, perm: nat)
    requires perm < 1024 && Mapped(w, sp, w1, sp1, root, v0, n, f0, perm) && Grown(w1, sp1, w2, sp2, root)
    ensures Mapped(w, sp, w2, sp2, root, v0, n, f0, perm)
  {
  }

  lemma KeptTrans(w: World, sp: Space, w1: World, sp1: Space, w2: World, sp2: Space, root: nat)
    requires Kept(w, sp, w1, sp1, root) && Kept(w1, sp1, w2, sp2, root)
    ensures Kept(w, sp, w2, sp2, root)
  {
  }

  lemma KeptGood(w: World, sp: Space, w1: World, sp1: Space, root: nat)
    requires Kept(w, sp, w1, sp1, root)
    ensures Good(w, root, sp) && Good(w1, root, sp1)
  {
  }

  lemma KeptFacts(w: World, sp: Space, w1: World, sp1: Space, root: nat)
    requires Kept(w, sp, w1, sp1, root)
    ensures Good(w, root, sp) && Good(w1, root, sp1) && MemOk(w.mem) && MemOk(w1.mem)
    ensures w1.lo == w.lo && |w1.mem| == |w.mem| && Conserved(w, sp, w1, sp1) && Outside(w, sp, w1)
    ensures forall p :: p in sp.use ==> p in sp1.use && sp1.use[p] == sp.use[p] && p < |w.mem|
    ensures forall p :: p in sp.use && sp.use[p].D? ==> w1.mem[p] == w.mem[p]
  {
    hide Linked, Frames;
  }

  lemma NoData(w: World, root: nat, sp: Space, v: nat)
    requires Good(w, root, sp) && Lookup(w.mem, sp.page, v) == 0
    ensures forall p :: p in sp.use ==> sp.use[p] != D(v)
  {
  }

  lemma MappedGood(w: World, sp: Space, w1: World, sp1: Space, root: nat, v0: nat, n: nat, f0: nat, perm: nat)
    requires perm < 1024 && Mapped(w, sp, w1, sp1, root, v0, n, f0, perm)
    ensures Good(w, root, sp) && Good(w1, root, sp1)
  {
  }

  // One more page: its table exists and its entry is written.
  lemma MappedOne(w: World, sp: Space, w1: World, sp1: Space, root: nat, v0: nat, n: nat, f0: nat, perm: nat)
    requires perm < 1024 && Mapped(w, sp, w1, sp1, root, v0, n, f0, perm)
    requires v0 + n < VPAGES && At(0, v0 + n) in sp1.page && Lookup(w.mem, sp.page, v0 + n) == 0
    requires f0 + n < FRAMES
    ensures var p := sp1.page[At(0, v0 + n)];
            && p < |w1.mem| && MemOk(w1.mem)
            && Mapped(w, sp, w1.(mem := SetWord(w1.mem, p, PX(0, v0 + n), Entry(f0 + n, perm))), sp1, root,
                      v0, n + 1, f0, perm)
  {
    hide Good, Kept, Word, SetWord, FreeOk, Conserved, Outside, PX, At, Lookup, MemOk;
    KeptGood(w, sp, w1, sp1, root);
    GoodFacts(w1, root, sp1);
    NoData(w1, root, sp1, v0 + n);
    SetLeaf(w1, root, sp1, v0 + n, Entry(f0 + n, perm));
    var p := sp1.page[At(0, v0 + n)];
    var w2 := w1.(mem := SetWord(w1.mem, p, PX(0, v0 + n), Entry(f0 + n, perm)));
    KeptTrans(w, sp, w1, sp1, w2, sp1, root);
  }

  // --- unmapping ---

  lemma UnmappedNone(w: World, root: nat, sp: Space, v0: nat, free: bool)
    requires Good(w, root, sp)
    ensures Unmapped(w, sp, w, sp, root, v0, 0, free)
  {
  }

  // The address space without the private page of v, if it has one.
  function Without(mem: Mem, sp: Space, v: nat): Space
    requires MemOk(mem)
  {
    if Private(mem, sp, v) then Space(sp.page, sp.use - {Frame(Lookup(mem, sp.page, v))}) else sp
  }

  lemma WithoutUse(w: World, root: nat, sp: Space, v: nat)
    requires Good(w, root, sp) && v < VPAGES
    ensures var sp' := Without(w.mem, sp, v);
            && sp'.page == sp.page && Good(w, root, sp')
            && (forall p :: p in sp'.use <==> p in sp.use && sp.use[p] != D(v))
            && (forall p :: p in sp'.use ==> sp'.use[p] == sp.use[p])
  {
    hide FreeOk, Linked, Lookup;
    GoodFacts(w, root, sp);
    assert forall p :: p in sp.use && sp.use[p] == D(v) ==> Owned(w.mem, sp.page, p, v);
    assert forall t :: t in sp.page ==> sp.use[sp.page[t]] == T(t);
  }

  // uvmunmap's step for virtual page v.
  function Cleared(w: World, sp: Space, v: nat, free: bool): World
    requires Shape(w) && At(0, v) in sp.page && sp.page[At(0, v)] < |w.mem|
    requires free ==> Frame(Lookup(w.mem, sp.page, v)) < |w.mem|
  {
    var w1 := if free then Freed(w, Frame(Lookup(w.mem, sp.page, v))) else w;
    w1.(mem := SetWord(w1.mem, sp.page[At(0, v)], PX(0, v), 0))
  }

  lemma FreePrivate(w: World, root: nat, sp: Space, v: nat)
    requires Good(w, root, sp) && v < VPAGES && Private(w.mem, sp, v)
    ensures var f, sp' := Frame(Lookup(w.mem, sp.page, v)), Without(w.mem, sp, v);
            && w.lo <= f < |w.mem| && f !in w.free && f !in sp'.use && f in sp.use
            && (forall p :: p in sp.use && sp.use[p] == D(v) ==> p == f)
            && Good(Freed(w, f), root, sp') && SameMap(w.mem, sp, Freed(w, f).mem, sp')
            && (forall p :: 0 <= p < |w.mem| && p != f ==> Freed(w, f).mem[p] == w.mem[p])
  {
    hide Linked, Frames, Word, Lookup, Freed;
    assert MemOk(w.mem);
    var f, sp' := Frame(Lookup(w.mem, sp.page, v)), Without(w.mem, sp, v);
    WithoutUse(w, root, sp, v);
    FreedOk(w, f);
    FreedShape(w, f);
    Framed(w, root, sp', Freed(w, f));
  }

  lemma FreedShape(w: World, p: nat)
    requires Shape(w) && p < |w.mem|
    ensures Freed(w, p).lo == w.lo && |Freed(w, p).mem| == |w.mem| && Freed(w, p).free == [p] + w.free
  {
  }

  lemma ClearOne(w: World, root: nat, sp: Space, v: nat, free: bool)
    requires Good(w, root, sp) && v < VPAGES && At(0, v) in sp.page
    requires free ==> Private(w.mem, sp, v)
    ensures sp.page[At(0, v)] < |w.mem| && (free ==> Frame(Lookup(w.mem, sp.page, v)) < |w.mem|)
    ensures Unmapped(w, sp, Cleared(w, sp, v, free), Without(w.mem, sp, v), root, v, 1, free)
  {
    hide Linked, Frames, Word, Lookup, Freed, FreeOk, SetWord, Private, Without, Good;
    GoodFacts(w, root, sp);
    WithoutUse(w, root, sp, v);
    var sp1 := Without(w.mem, sp, v);
    if free {
      var f := Frame(Lookup(w.mem, sp.page, v));
      FreePrivate(w, root, sp, v);
      FreedShape(w, f);
      SetLeaf(Freed(w, f), root, sp1, v, 0);
    } else {
      SetLeaf(w, root, sp1, v, 0);
    }
  }

  // The next page is as it was before, and a walk finds its entry.
  lemma UnmappedNext(w: World, sp: Space, w1: World, sp1: Space, root: nat, v0: nat, n: nat, free: bool, v: nat)
    requires Unmapped(w, sp, w1, sp1, root, v0, n, free) && v0 + n <= v < VPAGES && Lookup(w.mem, sp.page, v) != 0
    ensures Good(w1, root, sp1) && FreeOk(w1) && At(0, v) in sp1.page && sp1.page[At(0, v)] < |w1.mem|
    ensures Word(w1.mem, sp1.page[At(0, v)], PX(0, v)) == Lookup(w1.mem, sp1.page, v) == Lookup(w.mem, sp.page, v)
    ensures Private(w.mem, sp, v) ==> Private(w1.mem, sp1, v)
  {
    hide Word, Lookup;
    LeafEntry(w1, root, sp1, v);
  }

  lemma UnmappedTrans(w: World, sp: Space, w1: World, sp1: Space, w2: World, sp2: Space, root: nat,
                      v0: nat, n: nat, free: bool)
    requires Unmapped(w, sp, w1, sp1, root, v0, n, free) && Unmapped(w1, sp1, w2, sp2, root, v0 + n, 1, free)
    ensures Unmapped(w, sp, w2, sp2, root, v0, n + 1, free)
  {
    hide Good, Lookup;
  }
}
