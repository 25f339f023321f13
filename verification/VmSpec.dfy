/**
 The three-level page tables of kernel/vm.c (Sv39, section 4.4 of the RISC-V privileged
 architecture) as a tree of table pages, and the map from virtual pages to entries they hold.
 */
module VmSpec {
  import opened Memory
  import opened Kalloc

  // --- page table entries: frame * 1024 + flags ---

  const V: nat := 1
  const R: nat := 2
  const U: nat := 16
  const FRAMES: nat := 0x1000_0000_0000

  function Frame(pte: nat): nat { pte / 1024 }

  function Flags(pte: nat): nat { pte % 1024 }

  predicate Valid(pte: nat) { pte % 2 == 1 }

  predicate Readable(pte: nat) { Flags(pte) / 2 % 2 == 1 }

  predicate Writable(pte: nat) { Flags(pte) / 4 % 2 == 1 }

  predicate Executable(pte: nat) { Flags(pte) / 8 % 2 == 1 }

  predicate User(pte: nat) { Flags(pte) / 16 % 2 == 1 }

  // No R, W or X bit: the entry points to another table.
  predicate Inner(pte: nat) { pte / 2 % 8 == 0 }

  // PA2PTE(pa) | perm | PTE_V
  function Entry(frame: nat, perm: nat): (pte: nat)
    requires perm < 1024
    ensures frame < FRAMES ==> pte < UINT64
    ensures Frame(pte) == frame && Valid(pte) && Flags(pte) == if perm % 2 == 0 then perm + 1 else perm
  {
    frame * 1024 + if perm % 2 == 0 then perm + 1 else perm
  }

  // --- which table an address uses at each level ---

  // Level 2 is the root.  Table (level, pre) serves the virtual pages v with
  // Shift(v, level + 1) == pre.
  datatype Table = Table(level: nat, pre: nat)

  const ROOT := Table(2, 0)

  function Shift(v: nat, n: nat): nat
  {
    if n == 0 then v else Shift(v, n - 1) / 512
  }

  function At(level: nat, v: nat): Table { Table(level, Shift(v, level + 1)) }

  function PX(level: nat, v: nat): (x: nat)
    ensures x < 512
  {
    Shift(v, level) % 512
  }

  function Child(t: Table, x: nat): Table
    requires t.level > 0
  {
    Table(t.level - 1, t.pre * 512 + x)
  }

  function Parent(t: Table): Table { Table(t.level + 1, t.pre / 512) }

  function Slot(t: Table): (x: nat)
    ensures x < 512
  {
    t.pre % 512
  }

  // 2^27 virtual pages fit the three levels; MAXVA allows half of them.
  const VPAGES: nat := 0x800_0000
  const MAXVA: nat := 0x40_0000_0000

  lemma ChildAt(level: nat, v: nat)
    requires level > 0
    ensures Child(At(level, v), PX(level, v)) == At(level - 1, v)
  {
  }

  lemma ChildParent(t: Table, x: nat)
    requires t.level > 0 && x < 512
    ensures Parent(Child(t, x)) == t && Slot(Child(t, x)) == x
  {
  }

  lemma ParentChild(t: Table)
    ensures Child(Parent(t), Slot(t)) == t
  {
  }

  lemma RootAt(v: nat)
    requires v < VPAGES
    ensures At(2, v) == ROOT
  {
    assert Shift(v, 1) == v / 512;
    assert Shift(v, 2) == v / 512 / 512;
    assert Shift(v, 3) == v / 512 / 512 / 512;
  }

  lemma SameSlot(v: nat, u: nat)
    requires At(0, v) == At(0, u) && PX(0, v) == PX(0, u)
    ensures v == u
  {
    assert Shift(v, 1) == v / 512 && Shift(u, 1) == u / 512;
  }

  // --- an address space ---

  // What a page is used for: as a table, or as the private frame of virtual page v.
  datatype Use = T(table: Table) | D(v: nat)

  // page gives each table its page; use gives each page of the address space its one use.
  datatype Space = Space(page: map<Table, nat>, use: map<nat, Use>)

  // The entry for virtual page v, 0 if v is not mapped.
  function Lookup(mem: Mem, page: map<Table, nat>, v: nat): nat
    requires MemOk(mem)
  {
    var t := At(0, v);
    if t in page && page[t] < |mem| && Valid(Word(mem, page[t], PX(0, v))) then Word(mem, page[t], PX(0, v)) else 0
  }

  // hole is a table that has just been freed: its parent still points to it.
  const NOHOLE := Table(3, 0)

  ghost predicate Linked(mem: Mem, page: map<Table, nat>, hole: Table)
    requires MemOk(mem) && forall t :: t in page ==> page[t] < |mem|
  {
    forall t, x :: t in page && t.level > 0 && 0 <= x < 512 && Child(t, x) != hole ==>
      var pte := Word(mem, page[t], x);
      if Child(t, x) in page then pte == Entry(page[Child(t, x)], 0) else !Valid(pte)
  }

  ghost predicate Tables(w: World, sp: Space) {
    && (forall t :: t in sp.page ==>
          && w.lo <= sp.page[t] < |w.mem| && t.level <= 2
          && sp.page[t] in sp.use && sp.use[sp.page[t]] == T(t)
          && (t.level < 2 ==> Parent(t) in sp.page) && (t.level == 2 ==> t == ROOT))
    && (forall p :: p in sp.use ==>
          && w.lo <= p < |w.mem| && p !in w.free
          && (sp.use[p].T? ==> sp.use[p].table in sp.page && sp.page[sp.use[p].table] == p))
  }

  // Page p is the frame of virtual page v.
  predicate Owned(mem: Mem, page: map<Table, nat>, p: nat, v: nat)
    requires MemOk(mem)
  {
    var pte := Lookup(mem, page, v);
    v < VPAGES && pte != 0 && Flags(pte) != V && Frame(pte) == p
  }

  ghost predicate Frames(mem: Mem, sp: Space)
    requires MemOk(mem)
  {
    forall p :: p in sp.use && sp.use[p].D? ==> Owned(mem, sp.page, p, sp.use[p].v)
  }

  // The page table with root page `root` is a tree of distinct pages off the free list.
  ghost predicate Good(w: World, root: nat, sp: Space) {
    && FreeOk(w) && Tables(w, sp) && Linked(w.mem, sp.page, NOHOLE) && Frames(w.mem, sp)
    && ROOT in sp.page && sp.page[ROOT] == root
  }

  // Virtual page v is mapped to a page that nothing else uses.
  predicate Private(mem: Mem, sp: Space, v: nat)
    requires MemOk(mem)
  {
    var pte := Lookup(mem, sp.page, v);
    pte != 0 && Frame(pte) in sp.use && sp.use[Frame(pte)] == D(v)
  }

  // uvmunmap finds a leaf for virtual page v; otherwise it panics.
  predicate Leaf(mem: Mem, sp: Space, v: nat)
    requires MemOk(mem)
  {
    var pte := Lookup(mem, sp.page, v);
    v * PGSIZE < MAXVA && pte != 0 && Flags(pte) != V
  }

  // Every page that the user may access is private.
  ghost predicate UserPrivate(mem: Mem, sp: Space)
    requires MemOk(mem)
  {
    forall v :: 0 <= v < VPAGES && User(Lookup(mem, sp.page, v)) ==> Private(mem, sp, v)
  }

  // --- what operations keep ---

  // Pages only move between the free list and the address space.
  ghost predicate Conserved(w: World, sp: Space, w': World, sp': Space) {
    forall p :: (p in w.free || p in sp.use) <==> (p in w'.free || p in sp'.use)
  }

  // Pages outside the address space and the free list are not touched.
  ghost predicate Outside(w: World, sp: Space, w': World) {
    && w'.lo == w.lo && |w'.mem| == |w.mem|
    && forall p :: 0 <= p < |w.mem| && p !in sp.use && p !in w.free ==> w'.mem[p] == w.mem[p]
  }

  ghost predicate SameData(w: World, sp: Space, w': World, sp': Space) {
    forall p, v :: (p in sp.use && sp.use[p] == D(v)) <==> (p in sp'.use && sp'.use[p] == D(v))
  }

  ghost predicate SameMap(mem: Mem, sp: Space, mem': Mem, sp': Space)
    requires MemOk(mem) && MemOk(mem')
  {
    forall v :: 0 <= v < VPAGES ==> Lookup(mem', sp'.page, v) == Lookup(mem, sp.page, v)
  }

  // Tables and frames that were there are still there, with the same data in the frames.
  ghost predicate Kept(w: World, sp: Space, w': World, sp': Space, root: nat) {
    && Good(w, root, sp) && Good(w', root, sp') && Conserved(w, sp, w', sp') && Outside(w, sp, w')
    && (forall t :: t in sp.page ==> t in sp'.page && sp'.page[t] == sp.page[t])
    && (forall p :: p in sp.use ==> p in sp'.use && sp'.use[p] == sp.use[p])
    && (forall p :: p in sp.use && sp.use[p].D? ==> w'.mem[p] == w.mem[p])
  }

  // Nothing happened but that free pages became tables.
  ghost predicate Grown(w: World, sp: Space, w': World, sp': Space, root: nat) {
    && Kept(w, sp, w', sp', root) && SameMap(w.mem, sp, w'.mem, sp') && SameData(w, sp, w', sp')
    && |w'.free| + |sp'.page| == |w.free| + |sp.page|
  }

  // Beside that, the n virtual pages from v0 on were mapped to the frames from f0 on.
  ghost predicate Mapped(w: World, sp: Space, w': World, sp': Space, root: nat, v0: nat, n: nat, f0: nat, perm: nat)
    requires perm < 1024
  {
    && Kept(w, sp, w', sp', root) && SameData(w, sp, w', sp')
    && |w'.free| + |sp'.page| == |w.free| + |sp.page|
    && forall v :: 0 <= v < VPAGES ==>
         Lookup(w'.mem, sp'.page, v)
         == if v0 <= v < v0 + n then Entry(f0 + (v - v0), perm) else Lookup(w.mem, sp.page, v)
  }

  // All private pages are old ones, or serve the n virtual pages from v0 on.
  ghost predicate NewOnly(sp: Space, sp': Space, v0: nat, n: nat) {
    forall p :: p in sp'.use && sp'.use[p].D? ==> p in sp.use || v0 <= sp'.use[p].v < v0 + n
  }

  ghost predicate SameElsewhere(mem: Mem, sp: Space, mem': Mem, sp': Space, v0: nat, n: nat)
    requires MemOk(mem) && MemOk(mem')
  {
    forall v :: 0 <= v < VPAGES && !(v0 <= v < v0 + n) ==> Lookup(mem', sp'.page, v) == Lookup(mem, sp.page, v)
  }

  // Virtual page v has the given contents and flags.
  predicate NewPage(mem: Mem, sp: Space, v: nat, page: seq<int>, flags: nat)
    requires MemOk(mem)
  {
    var pte := Lookup(mem, sp.page, v);
    Flags(pte) == flags && Frame(pte) < |mem| && mem[Frame(pte)] == page
  }

  // Page v of the pages from v0 on, which was not mapped, is private, with the given contents
  // and flags.
  predicate IsNew(mem: Mem, sp: Space, mem': Mem, sp': Space, v0: nat, pages: seq<seq<int>>, flags: seq<nat>, v: nat)
    requires MemOk(mem) && MemOk(mem') && |flags| == |pages| && v0 <= v < v0 + |pages|
  {
    Lookup(mem, sp.page, v) == 0 && Private(mem', sp', v) && NewPage(mem', sp', v, pages[v - v0], flags[v - v0])
  }

  ghost predicate AllNew(mem: Mem, sp: Space, mem': Mem, sp': Space, v0: nat, pages: seq<seq<int>>, flags: seq<nat>)
    requires MemOk(mem) && MemOk(mem') && |flags| == |pages|
  {
    forall v :: v0 <= v < v0 + |pages| ==> IsNew(mem, sp, mem', sp', v0, pages, flags, v)
  }

  // Beside growing tables, exactly these pages were added.
  ghost predicate Extended(w: World, sp: Space, w': World, sp': Space, root: nat,
                           v0: nat, pages: seq<seq<int>>, flags: seq<nat>)
  {
    && Kept(w, sp, w', sp', root) && |flags| == |pages| && v0 + |pages| <= VPAGES
    && |w'.free| + |sp'.page| + |pages| == |w.free| + |sp.page|
    && NewOnly(sp, sp', v0, |pages|) && SameElsewhere(w.mem, sp, w'.mem, sp', v0, |pages|)
    && AllNew(w.mem, sp, w'.mem, sp', v0, pages, flags)
  }

  // The n virtual pages from v0 on are gone, and with `free` so are their frames.
  ghost predicate Unmapped(w: World, sp: Space, w': World, sp': Space, root: nat, v0: nat, n: nat, free: bool) {
    && Good(w, root, sp) && Good(w', root, sp') && Outside(w, sp, w') && sp'.page == sp.page
    && (forall p :: p in sp'.use <==> p in sp.use && !InRange(sp.use[p], v0, n))
    && (forall p :: p in sp'.use ==> sp'.use[p] == sp.use[p] && (sp.use[p].D? ==> w'.mem[p] == w.mem[p]))
    && (forall p :: p in w'.free <==> p in w.free || (free && p in sp.use && InRange(sp.use[p], v0, n)))
    && |w'.free| == |w.free| + (if free then n else 0)
    && forall v :: 0 <= v < VPAGES ==>
         Lookup(w'.mem, sp'.page, v) == if v0 <= v < v0 + n then 0 else Lookup(w.mem, sp.page, v)
  }

  // --- user memory as bytes ---

  // walkaddr: the frame that the user may access at va, or 0.
  function Translate(mem: Mem, page: map<Table, nat>, va: nat): nat
    requires MemOk(mem)
  {
    if va >= MAXVA then 0
    else if User(Lookup(mem, page, va / PGSIZE)) then Frame(Lookup(mem, page, va / PGSIZE))
    else 0
  }

  function Byte(mem: Mem, p: nat, o: nat): int {
    if p < |mem| && o < |mem[p]| then mem[p][o] else 0
  }

  // The n bytes of user memory at va.
  function Peek(mem: Mem, page: map<Table, nat>, va: nat, n: nat): (s: seq<int>)
    requires MemOk(mem)
    ensures |s| == n
  {
    seq(n, i requires 0 <= i < n => Byte(mem, Translate(mem, page, va + i), (va + i) % PGSIZE))
  }

  // The user may access all n bytes at va.
  ghost predicate Accessible(mem: Mem, page: map<Table, nat>, va: nat, n: nat)
    requires MemOk(mem)
  {
    forall x :: va <= x < va + n ==> Translate(mem, page, x) != 0
  }

  predicate InRange(u: Use, v0: nat, n: nat) { u.D? && v0 <= u.v < v0 + n }
}
