/** kernel/kalloc.c: the free pages form a list threaded through their first words. */
module Kalloc {
  import opened Memory

  // lo is the page of `end` and |mem| that of PHYSTOP; free lists the free pages in order.
  datatype World = World(lo: nat, mem: Mem, freelist: nat, free: seq<nat>)

  const MAXPAGES: nat := 0x1000_0000

  ghost predicate Shape(w: World) {
    && 0 < w.lo <= |w.mem| <= MAXPAGES && MemOk(w.mem)
    && (forall i :: 0 <= i < |w.free| ==> w.lo <= w.free[i] < |w.mem|)
    && (forall i, j :: 0 <= i < j < |w.free| ==> w.free[i] != w.free[j])
  }

  // The address in the head or in the first word of a page, 0 at the end of the list.
  function Link(free: seq<nat>, i: nat): nat {
    if i < |free| then free[i] * PGSIZE else 0
  }

  ghost predicate FreeOk(w: World) {
    && Shape(w) && w.freelist == Link(w.free, 0)
    && forall i :: 0 <= i < |w.free| ==> Word(w.mem, w.free[i], 0) == Link(w.free, i + 1)
  }

  // PGROUNDUP(a) / PGSIZE
  function Up(a: nat): nat { (a + PGSIZE - 1) / PGSIZE }

  // kfree of page p.
  function Freed(w: World, p: nat): World
    requires Shape(w) && p < |w.mem|
  {
    World(w.lo, SetWord(Fill(w.mem, p, 1), p, 0, w.freelist), p * PGSIZE, [p] + w.free)
  }

  // kalloc, which takes the first free page.
  function Popped(w: World): World
    requires FreeOk(w) && w.free != []
  {
    World(w.lo, Fill(w.mem, w.free[0], 5), Link(w.free, 1), w.free[1..])
  }

  lemma FreedOk(w: World, p: nat)
    requires FreeOk(w) && w.lo <= p < |w.mem| && p !in w.free
    ensures FreeOk(Freed(w, p))
    ensures forall q :: 0 <= q < |w.mem| && q != p ==> Freed(w, p).mem[q] == w.mem[q]
  {
    var f := Freed(w, p);
    forall i | 0 <= i < |f.free| ensures Word(f.mem, f.free[i], 0) == Link(f.free, i + 1) {
      WordOfSet(Fill(w.mem, p, 1), p, 0, w.freelist, f.free[i], 0);
      if i > 0 {
        assert f.free[i] == w.free[i - 1];
        WordFrame(w.mem, Fill(w.mem, p, 1), f.free[i], 0);
      }
    }
  }

  lemma PoppedOk(w: World)
    requires FreeOk(w) && w.free != []
    ensures FreeOk(Popped(w)) && w.free[0] !in Popped(w).free
    ensures forall q :: 0 <= q < |w.mem| && q != w.free[0] ==> Popped(w).mem[q] == w.mem[q]
  {
    var f := Popped(w);
    forall i | 0 <= i < |f.free| ensures Word(f.mem, f.free[i], 0) == Link(f.free, i + 1) {
      assert f.free[i] == w.free[i + 1];
      WordFrame(w.mem, f.mem, f.free[i], 0);
    }
  }

  class Kmem {
    const lo: nat
    var mem: Mem
    var freelist: nat
    ghost var free: seq<nat>

    ghost function W(): (w: World)
      reads this
      ensures w == World(lo, mem, freelist, free)
    {
      World(lo, mem, freelist, free)
    }

    // kinit: all whole pages from address `end` to the end of memory are free, once each.
    constructor (end: nat, mem: Mem)
      requires 0 < Up(end) <= |mem| <= MAXPAGES && MemOk(mem)
      ensures this.lo == Up(end) && |this.mem| == |mem| && FreeOk(W()) && |free| == |mem| - lo
      ensures forall p :: p in free <==> lo <= p < |mem|
    {
      this.lo, this.mem, this.freelist, this.free := Up(end), mem, 0, [];
      new;
      FreeRange(end, |mem| * PGSIZE);
    }

    // All whole pages between the two addresses are free afterwards, once each.
    method FreeRange(paStart: nat, paEnd: nat)
      requires FreeOk(W()) && lo <= Up(paStart) && paEnd <= |mem| * PGSIZE
      requires forall p :: Up(paStart) <= p < paEnd / PGSIZE ==> p !in free
      modifies this
      ensures FreeOk(W()) && |mem| == old(|mem|)
      ensures forall p :: p in free <==> p in old(free) || Up(paStart) <= p < paEnd / PGSIZE
      ensures |free| == old(|free|) + if Up(paStart) < paEnd / PGSIZE then paEnd / PGSIZE - Up(paStart) else 0
    {
      hide FreeOk;
      var p := Up(paStart);
      while p * PGSIZE + PGSIZE <= paEnd
        invariant Up(paStart) <= p && FreeOk(W()) && |mem| == old(|mem|)
        invariant forall q :: q in free <==> q in old(free) || (Up(paStart) <= q < p && q < paEnd / PGSIZE)
        invariant p == Up(paStart) || p <= paEnd / PGSIZE
        invariant |free| == old(|free|) + p - Up(paStart)
      {
        Kfree(p);
        p := p + 1;
      }
    }

    method Kfree(p: nat)
      requires FreeOk(W()) && lo <= p < |mem| && p !in free
      modifies this
      ensures W() == Freed(old(W()), p) && FreeOk(W())
    {
      FreedOk(W(), p);
      mem := Fill(mem, p, 1);
      mem := SetWord(mem, p, 0, freelist);
      freelist := p * PGSIZE;
      free := [p] + free;
    }

    // A page that is off the list, or 0 if the list is empty.
    method AllocPage() returns (p: nat)
      requires FreeOk(W())
      modifies this
      ensures p == 0 <==> old(free) == []
      ensures p == 0 ==> W() == old(W())
      ensures p != 0 ==> p == old(free)[0] && W() == Popped(old(W()))
      ensures FreeOk(W())
    {
      p := freelist / PGSIZE;
      if p != 0 {
        PoppedOk(W());
        freelist := Word(mem, p, 0);
        mem := Fill(mem, p, 5);
        free := free[1..];
      }
    }
  }
}
