/**
 The heap of user/umalloc.c.  Addresses count units of sizeof(Header); every unit that the
 kernel granted belongs to exactly one block.  The static header `base` and the free blocks
 form a ring: each points to the next one in address order, and the last to base.
 */
module HeapSpec {
  datatype Header = Header(ptr: int, size: int)

  datatype Block = Block(n: int, free: bool)

  // blocks gives every block by its address; own gives every granted unit the address of
  // its block.
  datatype Heap = Heap(blocks: map<int, Block>, own: map<int, int>)

  type Memory = map<int, Header>

  predicate IsFree(h: Heap, a: int) { a in h.blocks && h.blocks[a].free }

  // The members of the ring.
  predicate Node(base: int, h: Heap, a: int) { a == base || IsFree(h, a) }

  // --- the invariant ---

  ghost predicate Owns(h: Heap, a: int)
    requires a in h.blocks
  {
    forall u :: a <= u < a + h.blocks[a].n ==> u in h.own && h.own[u] == a
  }

  // Unit u lies in the block that owns it.
  predicate Inside(h: Heap, u: int)
    requires u in h.own
  {
    h.own[u] in h.blocks && h.own[u] <= u < h.own[u] + h.blocks[h.own[u]].n
  }

  ghost predicate Tiled(base: int, brk: int, h: Heap) {
    && 0 < base
    && (forall a :: a in h.blocks ==> base < a && h.blocks[a].n >= 1 && Owns(h, a))
    && (forall u :: u in h.own ==> u < brk && Inside(h, u))
  }

  lemma OwnsSelf(base: int, brk: int, h: Heap, a: int)
    requires Tiled(base, brk, h) && a in h.blocks
    ensures a in h.own && h.own[a] == a && base < a < brk && h.blocks[a].n >= 1
  {
    assert Owns(h, a);
  }

  // q is where ring member a points.
  ghost predicate Succ(base: int, h: Heap, a: int, q: int) {
    if q == base then forall f :: IsFree(h, f) ==> f <= a
    else IsFree(h, q) && a < q && forall f :: IsFree(h, f) ==> f <= a || q <= f
  }

  // The free block a ends where another free block begins.
  predicate Touches(h: Heap, a: int) { IsFree(h, a) && IsFree(h, a + h.blocks[a].n) }

  // No two free blocks are adjacent.
  ghost predicate Coalesced(h: Heap) { forall a :: IsFree(h, a) ==> !Touches(h, a) }

  ghost predicate Linked(base: int, mem: Memory, h: Heap) {
    forall a :: Node(base, h, a) ==> a in mem && Succ(base, h, a, mem[a].ptr)
  }

  ghost predicate Sized(base: int, mem: Memory, h: Heap) {
    base in mem && mem[base].size == 0 && forall a :: a in h.blocks ==> a in mem && mem[a].size == h.blocks[a].n
  }

  ghost predicate Ok(base: int, brk: int, mem: Memory, h: Heap) {
    Tiled(base, brk, h) && Coalesced(h) && Linked(base, mem, h) && Sized(base, mem, h)
  }

  // Different blocks share no unit.
  lemma Disjoint(base: int, brk: int, h: Heap, a: int, b: int)
    requires Tiled(base, brk, h) && a in h.blocks && b in h.blocks && a < b
    ensures a + h.blocks[a].n <= b
  {
    OwnsSelf(base, brk, h, b);
    assert Owns(h, a);
  }

  // --- free ---

  function SetFree(h: Heap, b: int, free: bool): Heap
    requires b in h.blocks
  {
    Heap(h.blocks[b := Block(h.blocks[b].n, free)], h.own)
  }

  // Block b, adjacent to a, becomes part of a.
  function Merged(h: Heap, a: int, b: int): Heap
    requires a in h.blocks && b in h.blocks
  {
    Heap((h.blocks - {b})[a := Block(h.blocks[a].n + h.blocks[b].n, h.blocks[a].free)],
         map u | u in h.own :: if h.own[u] == b then a else h.own[u])
  }

  lemma MergedOwns(base: int, brk: int, h: Heap, a: int, b: int, x: int)
    requires Tiled(base, brk, h) && a in h.blocks && b in h.blocks && a + h.blocks[a].n == b
    requires x in Merged(h, a, b).blocks
    ensures Owns(Merged(h, a, b), x) && base < x && Merged(h, a, b).blocks[x].n >= 1
  {
    assert Owns(h, x) && Owns(h, a) && Owns(h, b);
    OwnsSelf(base, brk, h, b);
    if x == a {
      forall u | a <= u < a + h.blocks[a].n + h.blocks[b].n ensures u in h.own && (h.own[u] == a || h.own[u] == b) {
      }
    }
  }

  lemma MergedInside(base: int, brk: int, h: Heap, a: int, b: int, u: int)
    requires Tiled(base, brk, h) && a in h.blocks && b in h.blocks && a + h.blocks[a].n == b && u in h.own
    ensures Inside(Merged(h, a, b), u)
  {
    hide Owns;
    assert Inside(h, u);
    OwnsSelf(base, brk, h, b);
  }

  lemma MergedTiled(base: int, brk: int, h: Heap, a: int, b: int)
    requires Tiled(base, brk, h) && a in h.blocks && b in h.blocks && a + h.blocks[a].n == b
    ensures Tiled(base, brk, Merged(h, a, b)) && Merged(h, a, b).own.Keys == h.own.Keys
  {
    hide Owns, Inside;
    var h' := Merged(h, a, b);
    forall x | x in h'.blocks ensures Owns(h', x) && base < x && h'.blocks[x].n >= 1 {
      MergedOwns(base, brk, h, a, b, x);
    }
    forall u | u in h'.own ensures Inside(h', u) { MergedInside(base, brk, h, a, b, u); }
  }

  // Adding b to the ring between p and q.
  lemma SetFreeLinked(base: int, mem: Memory, mem': Memory, h: Heap, p: int, q: int, b: int)
    requires Linked(base, mem, h) && Node(base, h, p) && b in h.blocks && !h.blocks[b].free && b != base
    requires q == mem[p].ptr && p < b && (q == base || b < q)
    requires b in mem' && p in mem' && mem'[b].ptr == q && mem'[p].ptr == b
    requires forall a :: a in mem && a != p && a != b ==> a in mem' && mem'[a].ptr == mem[a].ptr
    requires base <= p && forall f :: IsFree(h, f) ==> base < f
    ensures Linked(base, mem', SetFree(h, b, true))
  {
    var h' := SetFree(h, b, true);
    assert forall f :: IsFree(h', f) <==> IsFree(h, f) || f == b;
    assert Succ(base, h, p, q);
    forall a | Node(base, h', a) ensures a in mem' && Succ(base, h', a, mem'[a].ptr) {
      if a != p && a != b { assert Succ(base, h, a, mem[a].ptr); }
    }
  }

  // Dropping ring member b, which came right after a, from the ring.
  lemma DroppedLinked(base: int, mem: Memory, mem': Memory, h: Heap, h': Heap, a: int, b: int)
    requires Linked(base, mem, h) && Node(base, h, a) && IsFree(h, b) && a != b && mem[a].ptr == b && b != base
    requires forall f :: IsFree(h', f) <==> IsFree(h, f) && f != b
    requires a in mem' && mem'[a].ptr == mem[b].ptr
    requires forall x :: x in mem && x != a && x != b ==> x in mem' && mem'[x].ptr == mem[x].ptr
    requires forall f :: IsFree(h, f) ==> base < f
    ensures Linked(base, mem', h')
  {
    assert Succ(base, h, a, b) && Succ(base, h, b, mem[b].ptr);
    forall x | Node(base, h', x) ensures x in mem' && Succ(base, h', x, mem'[x].ptr) {
      if x != a { assert Succ(base, h, x, mem[x].ptr); }
    }
  }

  // bp->ptr = p->ptr; p->ptr = bp
  function Hooked(mem: Memory, p: int, b: int): Memory
    requires p in mem && b in mem
  {
    mem[b := Header(mem[p].ptr, mem[b].size)][p := Header(b, mem[p].size)]
  }

  // a->size += b->size; a->ptr = b->ptr
  function Joined(mem: Memory, a: int, b: int): Memory
    requires a in mem && b in mem
  {
    mem[a := Header(mem[b].ptr, mem[a].size + mem[b].size)]
  }

  // A memory and the heap in it.
  datatype State = State(mem: Memory, h: Heap)

  function Join(s: State, a: int, b: int): State
    requires a in s.mem && b in s.mem && a in s.h.blocks && b in s.h.blocks
  {
    State(Joined(s.mem, a, b), Merged(s.h, a, b))
  }

  // The steps of free for block b once its place after p is known.
  function Hook(s: State, p: int, b: int): State
    requires p in s.mem && b in s.mem && b in s.h.blocks
  {
    State(Hooked(s.mem, p, b), SetFree(s.h, b, true))
  }

  predicate Right(s: State, p: int, b: int)
    requires p in s.mem && b in s.mem
  {
    b + s.mem[b].size == s.mem[p].ptr
  }

  predicate Left(s: State, p: int, b: int)
    requires p in s.mem
  {
    p + s.mem[p].size == b
  }

  ghost predicate Place(base: int, s: State, p: int, b: int) {
    && Node(base, s.h, p) && p in s.mem && b in s.mem && p < b && (s.mem[p].ptr == base || b < s.mem[p].ptr)
    && b in s.h.blocks && !s.h.blocks[b].free
  }

  // All of the invariant but for adjacent blocks: only the free blocks in x may touch the next.
  ghost predicate Nearly(base: int, brk: int, s: State, x: set<int>) {
    && Tiled(base, brk, s.h) && Linked(base, s.mem, s.h) && Sized(base, s.mem, s.h)
    && forall a :: IsFree(s.h, a) && Touches(s.h, a) ==> a in x
  }

  lemma HookNearly(base: int, brk: int, s: State, p: int, b: int)
    requires Ok(base, brk, s.mem, s.h) && Place(base, s, p, b)
    ensures Nearly(base, brk, Hook(s, p, b),
                   (if Right(s, p, b) then {b} else {}) + (if Left(s, p, b) then {p} else {}))
  {
    hide Succ, Touches;
    var t := Hook(s, p, b);
    SetFreeLinked(base, s.mem, t.mem, s.h, p, s.mem[p].ptr, b);
    forall a | Touches(t.h, a) ensures (a == b && Right(s, p, b)) || (a == p && Left(s, p, b)) {
      HookTouch(base, brk, s, p, b, a);
    }
  }

  lemma HookTouch(base: int, brk: int, s: State, p: int, b: int, a: int)
    requires Ok(base, brk, s.mem, s.h) && Place(base, s, p, b) && Touches(SetFree(s.h, b, true), a)
    ensures (a == b && Right(s, p, b)) || (a == p && Left(s, p, b))
  {
    hide Linked;
    LinkedAt(base, s.mem, s.h, p);
    var q := s.mem[p].ptr;
    var e := a + s.h.blocks[a].n;
    if a == b {
      assert IsFree(s.h, e);
      if e != q { Disjoint(base, brk, s.h, b, q); }
    } else {
      assert IsFree(s.h, a) && (e != b ==> Touches(s.h, a));
      assert e == b;
      if a < p { Disjoint(base, brk, s.h, a, p); }
    }
  }

  lemma LinkedAt(base: int, mem: Memory, h: Heap, a: int)
    requires Linked(base, mem, h) && Node(base, h, a)
    ensures a in mem && Succ(base, h, a, mem[a].ptr)
  {
  }

  // A block that touches the next one after the merge did so before.
  lemma MergedTouch(base: int, brk: int, h: Heap, a: int, b: int, c: int)
    requires Tiled(base, brk, h) && IsFree(h, a) && IsFree(h, b) && a + h.blocks[a].n == b
    requires Touches(Merged(h, a, b), c)
    ensures Touches(h, if c == a then b else c) && IsFree(h, c) && c != b
  {
    OwnsSelf(base, brk, h, b);
    OwnsSelf(base, brk, h, a);
  }

  lemma MergedFree(base: int, brk: int, h: Heap, a: int, b: int)
    requires Tiled(base, brk, h) && IsFree(h, a) && IsFree(h, b) && a + h.blocks[a].n == b
    ensures forall f :: IsFree(Merged(h, a, b), f) <==> IsFree(h, f) && f != b
    ensures forall f :: IsFree(h, f) ==> base < f
  {
    OwnsSelf(base, brk, h, b);
  }

  // The next ring member after a is the adjacent free block.
  lemma AdjacentNext(base: int, brk: int, mem: Memory, h: Heap, a: int, b: int)
    requires Tiled(base, brk, h) && Linked(base, mem, h)
    requires IsFree(h, a) && IsFree(h, b) && a + h.blocks[a].n == b
    ensures a in mem && mem[a].ptr == b && a < b && b in mem
  {
    LinkedAt(base, mem, h, a);
    LinkedAt(base, mem, h, b);
    var q := mem[a].ptr;
    if q != base && q < b { Disjoint(base, brk, h, a, q); }
  }

  lemma JoinSized(base: int, brk: int, s: State, a: int, b: int)
    requires Tiled(base, brk, s.h) && Sized(base, s.mem, s.h) && a in s.h.blocks && b in s.h.blocks
    ensures a in s.mem && b in s.mem && Sized(base, Join(s, a, b).mem, Join(s, a, b).h)
  {
  }

  // Merging the free block b, adjacent to a and next in the ring, into a.
  lemma JoinNearly(base: int, brk: int, s: State, a: int, b: int, x: set<int>)
    requires Nearly(base, brk, s, x) && IsFree(s.h, a) && IsFree(s.h, b) && a + s.h.blocks[a].n == b
    requires b !in x
    ensures a in s.mem && b in s.mem && s.mem[a].ptr == b
    ensures Nearly(base, brk, Join(s, a, b), x - {a})
    ensures IsFree(Join(s, a, b).h, a) && Join(s, a, b).h.own.Keys == s.h.own.Keys
  {
    AdjacentNext(base, brk, s.mem, s.h, a, b);
    JoinSized(base, brk, s, a, b);
    MergedTiled(base, brk, s.h, a, b);
    MergedFree(base, brk, s.h, a, b);
    hide Tiled, Sized, Merged, Touches, IsFree, Linked;
    var t := Join(s, a, b);
    DroppedLinked(base, s.mem, t.mem, s.h, t.h, a, b);
    forall c | IsFree(t.h, c) && Touches(t.h, c) ensures c in x - {a} {
      MergedTouch(base, brk, s.h, a, b, c);
    }
  }

  // free of block b, whose place is after p.
  function Release(s: State, p: int, b: int): (t: State)
    requires p in s.mem && b in s.mem && b in s.h.blocks
  {
    var u := AfterRight(s, p, b);
    if Left(s, p, b) then JoinIf(u, p, b) else u
  }

  function JoinIf(s: State, a: int, b: int): State {
    if a in s.mem && b in s.mem && a in s.h.blocks && b in s.h.blocks then Join(s, a, b) else s
  }

  lemma NearlyNone(base: int, brk: int, s: State, x: set<int>)
    requires Nearly(base, brk, s, x) && x == {}
    ensures Ok(base, brk, s.mem, s.h)
  {
  }

  // The state after the block on the right was merged, if it is adjacent.
  function AfterRight(s: State, p: int, b: int): State
    requires p in s.mem && b in s.mem && b in s.h.blocks
  {
    if Right(s, p, b) then JoinIf(Hook(s, p, b), b, s.mem[p].ptr) else Hook(s, p, b)
  }

  lemma RightOk(base: int, brk: int, s: State, p: int, b: int)
    requires Ok(base, brk, s.mem, s.h) && Place(base, s, p, b)
    ensures var u := AfterRight(s, p, b);
            && Nearly(base, brk, u, if Left(s, p, b) then {p} else {})
            && u.h.own.Keys == s.h.own.Keys && IsFree(u.h, b) && Node(base, u.h, p)
            && (p in s.h.blocks ==> p in u.h.blocks && u.h.blocks[p] == s.h.blocks[p])
  {
    var t := Hook(s, p, b);
    HookNearly(base, brk, s, p, b);
    LinkedAt(base, s.mem, s.h, p);
    if Right(s, p, b) {
      var q := s.mem[p].ptr;
      JoinNearly(base, brk, t, b, q, {b} + (if Left(s, p, b) then {p} else {}));
      assert {b} + (if Left(s, p, b) then {p} else {}) - {b} == if Left(s, p, b) then {p} else {};
    } else {
      assert {} + (if Left(s, p, b) then {p} else {}) == if Left(s, p, b) then {p} else {};
    }
  }

  lemma ReleaseOk(base: int, brk: int, s: State, p: int, b: int)
    requires Ok(base, brk, s.mem, s.h) && Place(base, s, p, b)
    ensures var t := Release(s, p, b);
            Ok(base, brk, t.mem, t.h) && Node(base, t.h, p) && t.h.own.Keys == s.h.own.Keys
  {
    RightOk(base, brk, s, p, b);
    var u := AfterRight(s, p, b);
    if Left(s, p, b) {
      JoinNearly(base, brk, u, p, b, {p});
      NearlyNone(base, brk, Join(u, p, b), {p} - {p});
    } else {
      NearlyNone(base, brk, u, {});
    }
  }

  // --- what live blocks see ---

  predicate IsLive(h: Heap, a: int) { a in h.blocks && !h.blocks[a].free }

  // The live blocks of s, and possibly b, are those of t, and their contents are the same.
  ghost predicate LiveKept(s: State, t: State, b: int) {
    && (forall c :: IsLive(s.h, c) && c != b ==> IsLive(t.h, c) && t.h.blocks[c].n == s.h.blocks[c].n)
    && (forall c :: IsLive(t.h, c) && c != b ==> IsLive(s.h, c))
    && (forall u :: u in s.h.own && u in s.mem && IsLive(s.h, s.h.own[u]) && s.h.own[u] != b ==>
          u in t.mem && t.mem[u] == s.mem[u])
    && (forall u :: u in s.h.own && IsLive(s.h, s.h.own[u]) && s.h.own[u] != b ==>
          u in t.h.own && t.h.own[u] == s.h.own[u])
  }

  lemma LiveTrans(s: State, t: State, u: State, b: int)
    requires LiveKept(s, t, b) && LiveKept(t, u, b)
    ensures LiveKept(s, u, b)
  {
  }

  lemma ReleaseLive(base: int, brk: int, s: State, p: int, b: int)
    requires Ok(base, brk, s.mem, s.h) && Place(base, s, p, b)
    ensures var t := Release(s, p, b);
            && LiveKept(s, t, b) && !IsLive(t.h, b)
            && exists f :: IsFree(t.h, f) && t.h.blocks[f].n >= s.h.blocks[b].n
  {
    hide Linked, Succ, Owns, Coalesced, Touches, Nearly;
    LinkedAt(base, s.mem, s.h, p);
    RightOk(base, brk, s, p, b);
    var t, u, q := Release(s, p, b), AfterRight(s, p, b), s.mem[p].ptr;
    if p != base { OwnsSelf(base, brk, s.h, p); }
    OwnsSelf(base, brk, s.h, b);
    if Right(s, p, b) { RightFree(base, brk, s, p, b); }
    var f := if Left(s, p, b) then p else b;
    assert IsFree(t.h, f) && t.h.blocks[f].n >= s.h.blocks[b].n;
  }

  lemma RightFree(base: int, brk: int, s: State, p: int, b: int)
    requires Ok(base, brk, s.mem, s.h) && Place(base, s, p, b) && Right(s, p, b)
    ensures var q := s.mem[p].ptr; IsFree(s.h, q) && q != b && q != p && q in s.mem && q in s.h.own && s.h.own[q] == q
  {
    LinkedAt(base, s.mem, s.h, p);
    OwnsSelf(base, brk, s.h, s.mem[p].ptr);
  }

  // The program may overwrite what lies inside its own blocks.
  lemma UserWrite(base: int, brk: int, mem: Memory, h: Heap, b: int, u: int, x: Header)
    requires Ok(base, brk, mem, h) && IsLive(h, b) && b < u < b + h.blocks[b].n
    ensures Ok(base, brk, mem[u := x], h)
  {
    hide Touches, Succ, Inside;
    assert Owns(h, b);
    forall a | a in h.blocks ensures a != u { OwnsSelf(base, brk, h, a); }
    LinkedFrame(base, mem, mem[u := x], h, h);
  }

  // --- malloc ---

  // Block p loses its last k units to a new live block.
  function Split(h: Heap, p: int, k: int): Heap
    requires p in h.blocks
  {
    var q := p + h.blocks[p].n - k;
    Heap(h.blocks[p := Block(h.blocks[p].n - k, true)][q := Block(k, false)],
         map u | u in h.own :: if h.own[u] == p && u >= q then q else h.own[u])
  }

  lemma SplitOwns(base: int, brk: int, h: Heap, p: int, k: int, x: int)
    requires Tiled(base, brk, h) && IsFree(h, p) && 1 <= k < h.blocks[p].n && x in Split(h, p, k).blocks
    ensures Owns(Split(h, p, k), x) && base < x && Split(h, p, k).blocks[x].n >= 1
  {
    assert Owns(h, p);
    if x in h.blocks { assert Owns(h, x); }
  }

  lemma SplitInside(base: int, brk: int, h: Heap, p: int, k: int, u: int)
    requires Tiled(base, brk, h) && IsFree(h, p) && 1 <= k < h.blocks[p].n && u in h.own
    ensures Inside(Split(h, p, k), u)
  {
    hide Owns;
    assert Inside(h, u);
    SplitNew(base, brk, h, p, k);
  }

  // The new block begins inside the old one.
  lemma SplitNew(base: int, brk: int, h: Heap, p: int, k: int)
    requires Tiled(base, brk, h) && IsFree(h, p) && 1 <= k < h.blocks[p].n
    ensures var q := p + h.blocks[p].n - k; q in h.own && h.own[q] == p && q !in h.blocks && q != p && p in h.own && h.own[p] == p && base < q
  {
    var q := p + h.blocks[p].n - k;
    assert Owns(h, p);
    if q in h.blocks { OwnsSelf(base, brk, h, q); }
  }

  lemma SplitTiled(base: int, brk: int, h: Heap, p: int, k: int)
    requires Tiled(base, brk, h) && IsFree(h, p) && 1 <= k < h.blocks[p].n
    ensures Tiled(base, brk, Split(h, p, k)) && Split(h, p, k).own.Keys == h.own.Keys
  {
    hide Owns, Inside;
    var h' := Split(h, p, k);
    forall x | x in h'.blocks ensures Owns(h', x) && base < x && h'.blocks[x].n >= 1 { SplitOwns(base, brk, h, p, k, x); }
    forall u | u in h'.own ensures Inside(h', u) { SplitInside(base, brk, h, p, k, u); }
  }

  // malloc takes k units from the free block p, which comes after prevp.
  function Take(s: State, prevp: int, p: int, k: int): (t: State)
    requires prevp in s.mem && p in s.mem && p in s.h.blocks
  {
    if s.h.blocks[p].n == k then
      State(s.mem[prevp := Header(s.mem[p].ptr, s.mem[prevp].size)], SetFree(s.h, p, false))
    else
      var q := p + s.h.blocks[p].n - k;
      State(s.mem[p := Header(s.mem[p].ptr, s.h.blocks[p].n - k)]
                 [q := Header(if q in s.mem then s.mem[q].ptr else 0, k)],
            Split(s.h, p, k))
  }

  // The block that Take hands out.
  function Given(s: State, p: int, k: int): int
    requires p in s.h.blocks
  {
    p + s.h.blocks[p].n - k
  }

  lemma TakeOk(base: int, brk: int, s: State, prevp: int, p: int, k: int)
    requires Ok(base, brk, s.mem, s.h) && Node(base, s.h, prevp) && IsFree(s.h, p)
    requires prevp in s.mem && s.mem[prevp].ptr == p && 1 <= k <= s.h.blocks[p].n
    ensures p in s.mem
    ensures var t := Take(s, prevp, p, k);
            && Ok(base, brk, t.mem, t.h) && Node(base, t.h, prevp) && t.h.own.Keys == s.h.own.Keys
  {
    hide Owns, Inside, Touches, Succ, Linked, Coalesced;
    LinkedAt(base, s.mem, s.h, p);
    if s.h.blocks[p].n == k {
      TakeAll(base, brk, s, prevp, p, k);
    } else {
      SplitTiled(base, brk, s.h, p, k);
      SplitNew(base, brk, s.h, p, k);
      SplitLinked(base, brk, s, prevp, p, k);
    }
  }

  lemma TakeAll(base: int, brk: int, s: State, prevp: int, p: int, k: int)
    requires Ok(base, brk, s.mem, s.h) && Node(base, s.h, prevp) && IsFree(s.h, p)
    requires prevp in s.mem && p in s.mem && s.mem[prevp].ptr == p && 1 <= k == s.h.blocks[p].n
    ensures var t := Take(s, prevp, p, k);
            && Ok(base, brk, t.mem, t.h) && Node(base, t.h, prevp) && t.h.own == s.h.own
  {
    LinkedAt(base, s.mem, s.h, prevp);
    OwnsSelf(base, brk, s.h, p);
    SetFreeTiled(base, brk, s.h, p, false);
    AboveBase(base, brk, s.h);
    hide Tiled, Linked, Touches;
    var t := Take(s, prevp, p, k);
    NotItself(base, s.h, prevp, p);
    DroppedLinked(base, s.mem, t.mem, s.h, t.h, prevp, p);
    FewerTouch(s.h, p);
  }

  lemma AboveBase(base: int, brk: int, h: Heap)
    requires Tiled(base, brk, h)
    ensures forall f :: IsFree(h, f) ==> base < f
  {
  }

  lemma NotItself(base: int, h: Heap, a: int, q: int)
    requires Succ(base, h, a, q) && q != base
    ensures a < q
  {
  }

  lemma FewerTouch(h: Heap, p: int)
    requires p in h.blocks && Coalesced(h)
    ensures Coalesced(SetFree(h, p, false))
  {
    forall a | IsFree(SetFree(h, p, false), a) ensures !Touches(SetFree(h, p, false), a) {
      assert IsFree(h, a) && !Touches(h, a);
    }
  }

  lemma SetFreeTiled(base: int, brk: int, h: Heap, b: int, free: bool)
    requires Tiled(base, brk, h) && b in h.blocks
    ensures Tiled(base, brk, SetFree(h, b, free))
  {
    var h' := SetFree(h, b, free);
    forall x | x in h'.blocks ensures Owns(h', x) { assert Owns(h, x); }
    forall u | u in h'.own ensures Inside(h', u) { assert Inside(h, u); }
  }

  // Headers at other addresses do not matter to the ring.
  lemma LinkedFrame(base: int, mem: Memory, mem': Memory, h: Heap, h': Heap)
    requires Linked(base, mem, h) && forall f :: IsFree(h', f) <==> IsFree(h, f)
    requires forall a :: Node(base, h, a) && a in mem ==> a in mem' && mem'[a].ptr == mem[a].ptr
    ensures Linked(base, mem', h')
  {
    forall a | Node(base, h', a) ensures a in mem' && Succ(base, h', a, mem'[a].ptr) {
      LinkedAt(base, mem, h, a);
    }
  }

  lemma SplitLinked(base: int, brk: int, s: State, prevp: int, p: int, k: int)
    requires Ok(base, brk, s.mem, s.h) && Node(base, s.h, prevp) && IsFree(s.h, p)
    requires prevp in s.mem && p in s.mem && s.mem[prevp].ptr == p && 1 <= k < s.h.blocks[p].n
    ensures var t := Take(s, prevp, p, k);
            Linked(base, t.mem, t.h) && Coalesced(t.h)
  {
    hide Owns, Inside, Touches, Coalesced, Linked, Succ, Tiled, Sized;
    SplitNew(base, brk, s.h, p, k);
    var t := Take(s, prevp, p, k);
    LinkedFrame(base, s.mem, t.mem, s.h, t.h);
    SplitTouch(base, brk, s.h, p, k);
  }

  lemma SplitTouch(base: int, brk: int, h: Heap, p: int, k: int)
    requires Tiled(base, brk, h) && IsFree(h, p) && 1 <= k < h.blocks[p].n && Coalesced(h)
    ensures Coalesced(Split(h, p, k))
  {
    SplitNew(base, brk, h, p, k);
    hide Owns, Inside, Tiled;
    var h' := Split(h, p, k);
    forall a | IsFree(h', a) ensures !Touches(h', a) {
      assert IsFree(h, a) && !Touches(h, a);
    }
  }

  lemma TakeLive(base: int, brk: int, s: State, prevp: int, p: int, k: int)
    requires Ok(base, brk, s.mem, s.h) && Node(base, s.h, prevp) && IsFree(s.h, p)
    requires prevp in s.mem && p in s.mem && s.mem[prevp].ptr == p && 1 <= k <= s.h.blocks[p].n
    ensures var t, b := Take(s, prevp, p, k), Given(s, p, k);
            LiveKept(s, t, b) && !IsLive(s.h, b) && IsLive(t.h, b) && t.h.blocks[b].n == k
  {
    hide Owns, Linked, Coalesced;
    if k < s.h.blocks[p].n { SplitNew(base, brk, s.h, p, k); }
    OwnsSelf(base, brk, s.h, p);
    if prevp != base { OwnsSelf(base, brk, s.h, prevp); }
  }

  // --- morecore ---

  // The n units from b on, all owned by block b.
  function Region(b: int, n: nat): (m: map<int, int>)
    ensures forall u :: (u in m <==> b <= u < b + n) && (u in m ==> m[u] == b)
  {
    if n == 0 then map[] else Region(b, n - 1)[b + n - 1 := b]
  }

  // A new live block of nu units at the break.
  function Granted(s: State, brk: int, nu: nat): (t: State) {
    State(s.mem[brk := Header(if brk in s.mem then s.mem[brk].ptr else 0, nu)],
          Heap(s.h.blocks[brk := Block(nu, false)], s.h.own + Region(brk, nu)))
  }

  lemma GrantedTiled(base: int, brk: int, s: State, nu: nat)
    requires Tiled(base, brk, s.h) && nu >= 1 && base < brk
    ensures Tiled(base, brk + nu, Granted(s, brk, nu).h) && brk !in s.h.blocks && brk !in s.h.own
    ensures forall a :: a in s.h.blocks ==> a + s.h.blocks[a].n <= brk
    ensures forall u :: u in s.h.own ==> u < brk
  {
    var h' := Granted(s, brk, nu).h;
    forall a | a in s.h.blocks ensures a + s.h.blocks[a].n <= brk && Owns(h', a) {
      assert Owns(s.h, a);
      assert a + s.h.blocks[a].n - 1 in s.h.own;
    }
    forall u | u in h'.own ensures u < brk + nu && Inside(h', u) {
      if u in s.h.own { assert Inside(s.h, u); }
    }
  }

  lemma GrantedOk(base: int, brk: int, s: State, nu: nat)
    requires Ok(base, brk, s.mem, s.h) && nu >= 1 && base < brk
    ensures var t := Granted(s, brk, nu);
            && Ok(base, brk + nu, t.mem, t.h) && IsLive(t.h, brk) && t.h.blocks[brk].n == nu && LiveKept(s, t, brk)
            && (forall u :: u in t.h.own <==> u in s.h.own || brk <= u < brk + nu)
            && forall f :: Node(base, t.h, f) <==> Node(base, s.h, f)
  {
    hide Owns, Inside, Touches, Tiled;
    GrantedTiled(base, brk, s, nu);
    GrantedTouch(s, brk, nu);
    var t := Granted(s, brk, nu);
    assert forall f :: IsFree(t.h, f) <==> IsFree(s.h, f);
    forall a | Node(base, t.h, a) ensures a in t.mem && Succ(base, t.h, a, t.mem[a].ptr) {
      LinkedAt(base, s.mem, s.h, a);
    }
  }

  lemma GrantedTouch(s: State, brk: int, nu: nat)
    requires Coalesced(s.h) && brk !in s.h.blocks
    ensures Coalesced(Granted(s, brk, nu).h)
  {
    var h' := Granted(s, brk, nu).h;
    forall a | IsFree(h', a) ensures !Touches(h', a) {
      assert IsFree(s.h, a) && !Touches(s.h, a);
    }
  }

  // --- the assignments of free ---

  function Rewired(mem: Memory, p: int, b: int): Memory
    requires p in mem && b in mem && (b + mem[b].size == mem[p].ptr ==> mem[p].ptr in mem)
  {
    var n := mem[p].ptr;
    var m := if b + mem[b].size == n then mem[b := Header(mem[n].ptr, mem[b].size + mem[n].size)]
             else mem[b := Header(n, mem[b].size)];
    if p + m[p].size == b then m[p := Header(m[b].ptr, m[p].size + m[b].size)] else m[p := Header(b, m[p].size)]
  }

  lemma RewiredIs(base: int, brk: int, s: State, p: int, b: int)
    requires Ok(base, brk, s.mem, s.h) && Place(base, s, p, b)
    ensures Right(s, p, b) ==> s.mem[p].ptr in s.mem
    ensures Rewired(s.mem, p, b) == Release(s, p, b).mem
  {
    hide Owns, Coalesced, Touches, Linked;
    LinkedAt(base, s.mem, s.h, p);
    RightOk(base, brk, s, p, b);
    if Right(s, p, b) { RightFree(base, brk, s, p, b); }
    hide Succ, Inside;
    assert Left(s, p, b) ==> p in s.h.blocks;
    assert Rewired(s.mem, p, b).Keys == Release(s, p, b).mem.Keys;
  }
}
