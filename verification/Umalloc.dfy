/** user/umalloc.c: malloc and free over headers in memory, growing the heap with sbrk. */
module Umalloc {
  import opened Basics
  import opened HeapSpec

  const UNIT: nat := 16             // sizeof(Header)

  // The units that sbrk adds for a request of nu units.
  function Grows(nu: nat): (n: nat)
    ensures n >= nu && n >= 4096 && (n == nu || n == 4096)
  {
    if nu < 4096 then 4096 else nu
  }

  // The argument of sbrk is an int.
  function Int32(x: nat): int {
    if x % UINT32 < UINT32 / 2 then x % UINT32 else x % UINT32 - UINT32
  }

  // sbrk is asked for nu units exactly when nu is below 2^27; malloc(0xFFFFFFF0) asks for 0.
  lemma SbrkExact(nu: nat)
    requires nu < UINT32
    ensures Int32(nu * UNIT) == nu * UNIT <==> nu < 0x800_0000
    ensures Int32(Units(0xFFFF_FFF0) * UNIT) == 0
  {
    if nu >= 0x800_0000 { assert nu * UNIT >= UINT32 / 2; }
  }

  // The units that malloc(nbytes) needs: a header, and room for nbytes.
  function Units(nbytes: nat): (k: nat)
    ensures 1 <= k && nbytes <= (k - 1) * UNIT < nbytes + UNIT
  {
    (nbytes + UNIT - 1) / UNIT + 1
  }

  // The result of malloc.  Wild: sbrk was asked for less than the block that malloc goes on
  // to claim, so that its units lie beyond the break.
  datatype Result = Null | Mem(ap: int) | Wild

  // A free block with k units.
  ghost predicate Fits(h: Heap, k: int) { exists f :: IsFree(h, f) && h.blocks[f].n >= k }

  ghost function Above(h: Heap, p: int): set<int> { set f | f in h.blocks && h.blocks[f].free && f > p }

  lemma AboveNext(base: int, h: Heap, p: int, q: int)
    requires Succ(base, h, p, q) && q != base
    ensures p < q && Above(h, q) < Above(h, p)
  {
    assert q in Above(h, p) && q !in Above(h, q);
  }

  // The ring members after `start` up to, but not including, p, in ring order.
  predicate Passed(start: int, p: int, f: int) {
    if p > start then start < f < p else f > start || f < p
  }

  // None of the free blocks that the search passed has k units.
  ghost predicate NoneFits(h: Heap, start: int, p: int, k: int) {
    forall f :: IsFree(h, f) && Passed(start, p, f) ==> h.blocks[f].n < k
  }

  lemma PassedNone(base: int, h: Heap, start: int, q: int, k: int)
    requires Succ(base, h, start, q) && Node(base, h, start) && forall f :: IsFree(h, f) ==> base < f
    ensures NoneFits(h, start, q, k)
  {
  }

  // From p, which does not fit, the search goes on to q.
  lemma PassedNext(base: int, h: Heap, start: int, p: int, q: int, k: int)
    requires Succ(base, h, p, q) && p != start && Node(base, h, start) && Node(base, h, p)
    requires NoneFits(h, start, p, k) && (IsFree(h, p) ==> h.blocks[p].n < k)
    requires forall f :: IsFree(h, f) ==> base < f
    ensures NoneFits(h, start, q, k)
    ensures q > start ==> p > start && Above(h, q) < Above(h, p)
    ensures q <= start && p <= start ==> Above(h, q) < Above(h, p)
  {
    if q != base { AboveNext(base, h, p, q); }
  }

  // Back at the start, all free blocks were seen.
  lemma PassedAll(base: int, h: Heap, start: int, k: int)
    requires NoneFits(h, start, start, k) && (IsFree(h, start) ==> h.blocks[start].n < k)
    ensures !Fits(h, k)
  {
  }

  lemma LiveStart(s: State, t: State, b: int)
    requires s == t || (s.h == t.h == Heap(map[], map[]))
    ensures LiveKept(s, t, b)
  {
  }

  // The exception does not matter if it is live neither before nor after.
  lemma LiveAny(s: State, t: State, b: int, c: int)
    requires LiveKept(s, t, b) && !IsLive(s.h, b) && !IsLive(t.h, b)
    ensures LiveKept(s, t, c)
  {
  }

  lemma EmptyOk(base: int, brk: int, mem: Memory)
    requires 0 < base < brk && base in mem && mem[base] == Header(base, 0)
    ensures Ok(base, brk, mem, Heap(map[], map[]))
  {
  }

  lemma NotYet(base: int, brk: int, mem: Memory, h: Heap)
    requires Ok(base, brk, mem, h)
    ensures brk !in h.blocks && (forall u :: u in h.own ==> u < brk) && forall f :: IsFree(h, f) ==> base < f
  {
    if brk in h.blocks { OwnsSelf(base, brk, h, brk); }
  }

  lemma OkParts(base: int, brk: int, mem: Memory, h: Heap, p: int)
    requires Ok(base, brk, mem, h)
    ensures 0 < base && Sized(base, mem, h) && (forall f :: IsFree(h, f) ==> base < f)
    ensures Node(base, h, p) ==> p in mem && Succ(base, h, p, mem[p].ptr) && Node(base, h, mem[p].ptr) && p >= base
  {
    if Node(base, h, p) { LinkedAt(base, mem, h, p); }
  }

  lemma FitsAt(h: Heap, p: int, k: int)
    requires IsFree(h, p) && h.blocks[p].n >= k
    ensures Fits(h, k)
  {
  }

  // A block that is not live later was not live before.
  lemma LiveBack(s: State, t: State, b: int, c: int)
    requires LiveKept(s, t, b) && !IsLive(s.h, b) && !IsLive(t.h, c)
    ensures !IsLive(s.h, c)
  {
  }

  // A header with room for a request belongs to a free block.
  lemma SizedNode(base: int, mem: Memory, h: Heap, p: int, k: int)
    requires Sized(base, mem, h) && Node(base, h, p) && k >= 1
    ensures p in mem && (mem[p].size >= k <==> IsFree(h, p) && h.blocks[p].n >= k && p != base)
    ensures IsFree(h, p) && p != base ==> mem[p].size == h.blocks[p].n
  {
  }

  class Allocator {
    const base: int
    var mem: Memory
    var freep: int           // 0 before the first call of malloc
    var brk: int             // the break
    ghost var h: Heap

    ghost predicate Valid()
      reads this
    {
      && 0 < base < brk
      && if freep == 0 then h == Heap(map[], map[]) else Ok(base, brk, mem, h) && Node(base, h, freep)
    }

    ghost function S(): State
      reads this
    {
      State(mem, h)
    }

    constructor (base: int, brk: int)
      requires 0 < base < brk
      ensures Valid() && h == Heap(map[], map[]) && this.base == base && this.brk == brk
    {
      this.base, this.brk, mem, freep, h := base, brk, map[], 0, Heap(map[], map[]);
    }

    // The search of free: the ring member after which block bp belongs.
    method FindPlace(bp: int) returns (p: int)
      requires Valid() && IsLive(h, bp)
      ensures freep != 0 && base <= p && Place(base, S(), p, bp)
    {
      hide Owns, Tiled, Coalesced, Touches;
      FreeFacts(base, brk, mem, h, bp);
      p := freep;
      LinkedAt(base, mem, h, p);
      while !(bp > p && bp < mem[p].ptr)
        invariant Node(base, h, p) && p in mem && Succ(base, h, p, mem[p].ptr) && p != bp
        decreases if p > bp then 1 else 0, Above(h, p)
      {
        if p >= mem[p].ptr && (bp > p || bp < mem[p].ptr) {
          break;
        }
        if mem[p].ptr != base { AboveNext(base, h, p, mem[p].ptr); }
        LinkedAt(base, mem, h, mem[p].ptr);
        p := mem[p].ptr;
      }
    }

    // Gives the block at ap back: its units stay granted and the other live blocks, with
    // their contents, are as they were.
    method Free(ap: int)
      requires Valid() && IsLive(h, ap - 1)
      modifies this`mem, this`freep, this`h
      ensures Valid() && h.own.Keys == old(h).own.Keys && freep != 0
      ensures LiveKept(old(S()), S(), ap - 1) && !IsLive(h, ap - 1)
      ensures Fits(h, old(h).blocks[ap - 1].n)
    {
      hide Owns, Tiled, Linked, Coalesced, Sized, Release, LiveKept;
      var bp := ap - 1;
      var p := FindPlace(bp);
      ReleaseOk(base, brk, S(), p, bp);
      ReleaseLive(base, brk, S(), p, bp);
      RewiredIs(base, brk, S(), p, bp);
      h := Release(S(), p, bp).h;
      var n := mem[p].ptr;
      if bp + mem[bp].size == n {
        mem := mem[bp := Header(mem[n].ptr, mem[bp].size + mem[n].size)];
      } else {
        mem := mem[bp := Header(n, mem[bp].size)];
      }
      if p + mem[p].size == bp {
        mem := mem[p := Header(mem[bp].ptr, mem[p].size + mem[bp].size)];
      } else {
        mem := mem[p := Header(bp, mem[p].size)];
      }
      freep := p;
    }

    // The kernel's side: moves the break by n bytes if it grants that, and returns the old
    // break, or -1.  A break that would fall below 0 stays where it is.
    method Sbrk(n: int, grant: bool) returns (p: int)
      requires n % UNIT == 0
      modifies this`brk
      ensures !grant ==> p == -1 && brk == old(brk)
      ensures grant ==> p == old(brk)
      ensures grant && (n >= 0 || old(brk) + n / UNIT >= 0) ==> (brk - p) * UNIT == n
      ensures grant && n < 0 && old(brk) + n / UNIT < 0 ==> brk == p
    {
      if !grant {
        return -1;
      }
      p := brk;
      if n >= 0 || brk + n / UNIT >= 0 {
        brk := brk + n / UNIT;
      }
    }

    // Asks for at least nu more units and puts them on the ring.
    method MoreCore(nu: nat, grant: bool) returns (p: int, wild: bool)
      requires Valid() && freep != 0 && 1 <= nu < UINT32
      modifies this`mem, this`freep, this`brk, this`h
      ensures wild <==> grant && nu >= 0x800_0000
      ensures wild ==> p != 0
      ensures !grant ==> p == 0 && Valid() && mem == old(mem) && freep == old(freep) && h == old(h) && brk == old(brk)
      ensures grant && !wild ==> p == freep != 0 && Valid() && Fits(h, nu) && brk == old(brk) + Grows(nu)
      ensures grant && !wild ==> forall u :: u in h.own <==> u in old(h).own || old(brk) <= u < brk
      ensures grant && !wild ==> LiveKept(old(S()), S(), old(brk)) && !IsLive(h, old(brk))
    {
      hide Owns, Ok, LiveKept, Granted;
      var n := if nu < 4096 then 4096 else nu;
      SbrkExact(n);
      wild := false;
      var hp := Sbrk(Int32(n * UNIT), grant);
      if hp == -1 {
        p := 0;
      } else if Int32(n * UNIT) != n * UNIT {
        p, wild := hp, true;
      } else {
        ghost var s := S();
        GrantedOk(base, hp, s, n);
        GrantedMem(s, hp, n);
        mem := mem[hp := Header(if hp in mem then mem[hp].ptr else 0, n)];
        h := Granted(s, hp, n).h;
        ghost var t := S();
        Free(hp + 1);
        LiveTrans(s, t, S(), hp);
        p := freep;
      }
    }

    // A block for nbytes bytes: the first one that fits in ring order after freep, or one cut
    // from the end of it.  sbrk is called only if no free block fits.
    method Malloc(nbytes: nat, grant: bool) returns (r: Result)
      requires Valid() && nbytes < UINT32
      modifies this`mem, this`freep, this`brk, this`h
      ensures !r.Wild? ==> Valid() && freep != 0 && forall u :: u in old(h).own ==> u in h.own
      ensures r.Mem? ==>
                && IsLive(h, r.ap - 1) && h.blocks[r.ap - 1].n == Units(nbytes) && !IsLive(old(h), r.ap - 1)
                && LiveKept(old(S()), S(), r.ap - 1)
      ensures r.Null? <==> !Fits(old(h), Units(nbytes)) && !grant
      ensures r.Wild? <==> !Fits(old(h), Units(nbytes)) && grant && Units(nbytes) >= 0x800_0000
      ensures r.Null? ==> h == old(h) && brk == old(brk)
      ensures Fits(old(h), Units(nbytes)) ==> brk == old(brk) && h.own.Keys == old(h).own.Keys
      ensures r.Mem? && !Fits(old(h), Units(nbytes)) ==> brk == old(brk) + Grows(Units(nbytes))
      ensures !r.Wild? ==> forall u :: u in h.own <==> u in old(h).own || old(brk) <= u < brk
    {
      hide Ok, LiveKept, Fits, NoneFits;
      var nunits := (nbytes + UNIT - 1) / UNIT + 1;
      ghost var was := S();
      if freep == 0 {
        mem := mem[base := Header(base, 0)];
        freep := base;
        EmptyOk(base, brk, mem);
      }
      ghost var s0 := S();
      r := Search(nunits, grant);
      if r.Mem? {
        LiveStart(was, s0, r.ap - 1);
        LiveTrans(was, s0, S(), r.ap - 1);
      }
    }

    // The loop of malloc.
    method Search(nunits: nat, grant: bool) returns (r: Result)
      requires Valid() && freep != 0 && 1 <= nunits < UINT32
      modifies this`mem, this`freep, this`brk, this`h
      ensures !r.Wild? ==> Valid() && freep != 0
      ensures r.Mem? ==>
                && IsLive(h, r.ap - 1) && h.blocks[r.ap - 1].n == nunits && !IsLive(old(h), r.ap - 1)
                && LiveKept(old(S()), S(), r.ap - 1)
      ensures r.Null? <==> !Fits(old(h), nunits) && !grant
      ensures r.Wild? <==> !Fits(old(h), nunits) && grant && nunits >= 0x800_0000
      ensures r.Null? ==> h == old(h) && brk == old(brk)
      ensures Fits(old(h), nunits) ==> brk == old(brk) && h.own.Keys == old(h).own.Keys
      ensures r.Mem? && !Fits(old(h), nunits) ==> brk == old(brk) + Grows(nunits)
      ensures !r.Wild? ==> forall u :: u in h.own <==> u in old(h).own || old(brk) <= u < brk
    {
      hide Ok, LiveKept, Fits, NoneFits;
      ghost var h0, brk0, was := h, brk, S();
      var prevp := freep;
      LiveStart(was, was, brk0);
      NotYet(base, brk, mem, h);
      var grown := false;
      var p := First(nunits);
      while true
        invariant Ok(base, brk, mem, h) && freep != 0 && Node(base, h, freep)
        invariant Node(base, h, p) && Node(base, h, prevp) && prevp in mem && mem[prevp].ptr == p
        invariant NoneFits(h, freep, p, nunits)
        invariant if grown then Fits(h, nunits) && grant && nunits < 0x800_0000 && !Fits(h0, nunits) && brk == brk0 + Grows(nunits)
                  else S() == was && brk == brk0
        invariant LiveKept(was, S(), brk0) && !IsLive(h, brk0) && brk >= brk0
        invariant forall u :: u in h.own <==> u in h0.own || brk0 <= u < brk
        decreases if grown then 0 else 1, if p > freep then 1 else 0, Above(h, p)
      {
        NotYet(base, brk, mem, h);
        OkParts(base, brk, mem, h, p);
        SizedNode(base, mem, h, p, nunits);
        if mem[p].size >= nunits {
          FitsAt(h, p, nunits);
          ghost var s1 := S();
          var b := TakeFrom(prevp, p, nunits);
          LiveAny(was, s1, brk0, b);
          LiveTrans(was, s1, S(), b);
          LiveBack(was, s1, brk0, b);
          return Mem(b + 1);
        }
        if p == freep {
          ghost var s1 := S();
          PassedAll(base, h, freep, nunits);
          var q, wild := MoreCore(nunits, grant);
          if q == 0 {
            return Null;
          }
          if wild {
            return Wild;
          }
          LiveTrans(was, s1, S(), brk0);
          grown := true;
          prevp := q;
          p := First(nunits);
        } else {
          PassedNext(base, h, freep, p, mem[p].ptr, nunits);
          OkParts(base, brk, mem, h, mem[p].ptr);
          prevp := p;
          p := mem[p].ptr;
        }
      }
    }

    // The search starts after freep.
    method First(k: int) returns (p: int)
      requires Ok(base, brk, mem, h) && Node(base, h, freep)
      ensures freep in mem && p == mem[freep].ptr && Node(base, h, p) && NoneFits(h, freep, p, k)
    {
      LinkedAt(base, mem, h, freep);
      NotYet(base, brk, mem, h);
      p := mem[freep].ptr;
      PassedNone(base, h, freep, p, k);
    }

    // Hands out the last k units of the block p, which comes after prevp.
    method TakeFrom(prevp: int, p: int, k: int) returns (b: int)
      requires Ok(base, brk, mem, h) && Node(base, h, prevp) && prevp in mem && mem[prevp].ptr == p
      requires IsFree(h, p) && 1 <= k <= h.blocks[p].n && prevp != 0
      modifies this`mem, this`freep, this`h
      ensures Ok(base, brk, mem, h) && Node(base, h, freep) && freep != 0 && h.own.Keys == old(h).own.Keys
      ensures IsLive(h, b) && h.blocks[b].n == k && !IsLive(old(h), b) && LiveKept(old(S()), S(), b)
    {
      hide LiveKept, Ok, Split, SetFree;
      OkParts(base, brk, mem, h, p);
      SizedNode(base, mem, h, p, k);
      TakeOk(base, brk, S(), prevp, p, k);
      TakeLive(base, brk, S(), prevp, p, k);
      ghost var t := Take(S(), prevp, p, k);
      if mem[p].size == k {
        mem := mem[prevp := Header(mem[p].ptr, mem[prevp].size)];
        b := p;
      } else {
        mem := mem[p := Header(mem[p].ptr, mem[p].size - k)];
        b := p + mem[p].size;
        mem := mem[b := Header(if b in mem then mem[b].ptr else 0, k)];
      }
      freep := prevp;
      h := t.h;
      assert mem == t.mem;
    }
  }

  lemma FreeFacts(base: int, brk: int, mem: Memory, h: Heap, b: int)
    requires Ok(base, brk, mem, h) && IsLive(h, b)
    ensures base < b && b in mem && Linked(base, mem, h) && forall f :: IsFree(h, f) ==> base < f
  {
  }

  lemma GrantedMem(s: State, brk: int, nu: nat)
    ensures Granted(s, brk, nu).mem == s.mem[brk := Header(if brk in s.mem then s.mem[brk].ptr else 0, nu)]
  {
  }
}
