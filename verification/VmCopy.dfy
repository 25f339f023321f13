/** Moving bytes between the kernel and user memory (kernel/vm.c:105-126, 348-439). */
module VmCopy {
  import opened Basics
  import opened Memory
  import opened Kalloc
  import opened VmSpec
  import opened VmLemmas
  import opened Vm

  // --- user memory as bytes ---

  function Offset(va: nat, v: nat, o: nat): int { v * PGSIZE + o - va }

  // s was written to user memory at va, and nothing else changed.
  ghost predicate Poked(mem: Mem, mem': Mem, sp: Space, va: nat, s: seq<int>)
    requires MemOk(mem)
  {
    && |mem'| == |mem| && MemOk(mem')
    && forall p, o :: 0 <= p < |mem| && 0 <= o < PGSIZE ==>
         Byte(mem', p, o)
         == if p in sp.use && sp.use[p].D? && 0 <= Offset(va, sp.use[p].v, o) < |s| then s[Offset(va, sp.use[p].v, o)]
            else Byte(mem, p, o)
  }

  // A page that the user may access is a private page of its own.
  lemma TranslateUser(w: World, root: nat, sp: Space, va: nat)
    requires Good(w, root, sp) && MemOk(w.mem) && UserPrivate(w.mem, sp)
    ensures var p := Translate(w.mem, sp.page, va);
            p != 0 ==> p < |w.mem| && p in sp.use && sp.use[p] == D(va / PGSIZE) && IsPage(w.mem[p])
  {
    hide FreeOk, Linked, Frames, Lookup;
    GoodFacts(w, root, sp);
    if Translate(w.mem, sp.page, va) != 0 { assert Private(w.mem, sp, va / PGSIZE); }
  }

  lemma PokedNone(mem: Mem, sp: Space, va: nat)
    requires MemOk(mem)
    ensures Poked(mem, mem, sp, va, [])
  {
  }

  // The next piece, inside one page.
  lemma PokedPiece(mem: Mem, mem1: Mem, sp: Space, va: nat, s: seq<int>, n: nat, k: nat, p: nat)
    requires MemOk(mem) && n + k <= |s| && AreBytes(s) && Poked(mem, mem1, sp, va, s[..n])
    requires p < |mem| && p in sp.use && sp.use[p] == D((va + n) / PGSIZE) && (va + n) % PGSIZE + k <= PGSIZE
    requires forall q :: q in sp.use && sp.use[q] == sp.use[p] ==> q == p
    ensures |mem1[p]| == PGSIZE
    ensures Poked(mem, mem1[p := Patch(mem1[p], (va + n) % PGSIZE, s[n..n + k])], sp, va, s[..n + k])
  {
    var o := (va + n) % PGSIZE;
    assert IsPage(mem1[p]);
    var page := Patch(mem1[p], o, s[n..n + k]);
    assert IsPage(page);
    var mem2 := mem1[p := page];
    forall q, x | 0 <= q < |mem| && 0 <= x < PGSIZE
      ensures Byte(mem2, q, x)
              == if q in sp.use && sp.use[q].D? && 0 <= Offset(va, sp.use[q].v, x) < n + k then s[..n + k][Offset(va, sp.use[q].v, x)]
                 else Byte(mem, q, x)
    {
      assert Byte(mem2, q, x) == if q == p && o <= x < o + k then s[n + (x - o)] else Byte(mem1, q, x);
      if q in sp.use && sp.use[q].D? && n <= Offset(va, sp.use[q].v, x) < n + k {
        assert sp.use[q].v == (va + n) / PGSIZE;
      }
    }
  }

  // Writes to private pages do not disturb the page table.
  lemma PokedGood(w: World, root: nat, sp: Space, w1: World, va: nat, s: seq<int>)
    requires Good(w, root, sp) && MemOk(w.mem) && w1 == w.(mem := w1.mem) && Poked(w.mem, w1.mem, sp, va, s)
    ensures Good(w1, root, sp) && SameMap(w.mem, sp, w1.mem, sp)
    ensures UserPrivate(w.mem, sp) ==> UserPrivate(w1.mem, sp)
  {
    hide Frames, Linked, Lookup, Offset;
    GoodFacts(w, root, sp);
    assert forall p :: p in w.free ==> p < |w.mem|;
    forall p | 0 <= p < |w.mem| && (p !in sp.use || sp.use[p].T?) ensures w1.mem[p] == w.mem[p] {
      assert IsPage(w.mem[p]) && IsPage(w1.mem[p]);
      forall o | 0 <= o < PGSIZE ensures w1.mem[p][o] == w.mem[p][o] {
        assert Byte(w1.mem, p, o) == Byte(w.mem, p, o);
      }
    }
    FreeFrame(w, w1.mem);
    forall t | t in sp.page ensures w1.mem[sp.page[t]] == w.mem[sp.page[t]] { PageUse(w, root, sp, t); }
    Framed(w, root, sp, w1);
  }

  lemma PageUse(w: World, root: nat, sp: Space, t: Table)
    requires Good(w, root, sp) && t in sp.page
    ensures sp.page[t] in sp.use && sp.use[sp.page[t]] == T(t) && sp.page[t] < |w.mem|
  {
  }

  // copyin after copyout returns what was copied out.
  lemma CopyRoundTrip(w: World, root: nat, sp: Space, w1: World, va: nat, s: seq<int>)
    requires Good(w, root, sp) && MemOk(w.mem) && UserPrivate(w.mem, sp)
    requires w1 == w.(mem := w1.mem) && Poked(w.mem, w1.mem, sp, va, s) && Accessible(w.mem, sp.page, va, |s|)
    ensures MemOk(w1.mem) && Peek(w1.mem, sp.page, va, |s|) == s && Accessible(w1.mem, sp.page, va, |s|)
  {
    hide Good, Lookup, Translate, Byte, UserPrivate, MemOk;
    PokedGood(w, root, sp, w1, va, s);
    forall x | va <= x < va + |s|
      ensures Translate(w1.mem, sp.page, x) == Translate(w.mem, sp.page, x) != 0
      ensures Peek(w1.mem, sp.page, va, |s|)[x - va] == s[x - va]
    {
      PeekByte(w, root, sp, w1, va, s, x);
    }
    forall i | 0 <= i < |s| ensures Peek(w1.mem, sp.page, va, |s|)[i] == s[i] {
      assert Peek(w1.mem, sp.page, va, |s|)[va + i - va] == s[va + i - va];
    }
  }

  // User memory elsewhere reads as before.
  lemma CopyElsewhere(w: World, root: nat, sp: Space, w1: World, va: nat, s: seq<int>, a: nat, n: nat)
    requires Good(w, root, sp) && MemOk(w.mem) && UserPrivate(w.mem, sp)
    requires w1 == w.(mem := w1.mem) && Poked(w.mem, w1.mem, sp, va, s)
    requires a + n <= va || va + |s| <= a
    ensures MemOk(w1.mem) && Peek(w1.mem, sp.page, a, n) == Peek(w.mem, sp.page, a, n)
  {
    hide Good, Lookup, Translate, Byte, UserPrivate, MemOk;
    PokedGood(w, root, sp, w1, va, s);
    forall i | 0 <= i < n ensures Peek(w1.mem, sp.page, a, n)[i] == Peek(w.mem, sp.page, a, n)[i] {
      PeekByte(w, root, sp, w1, va, s, a + i);
    }
  }

  lemma PeekByte(w: World, root: nat, sp: Space, w1: World, va: nat, s: seq<int>, x: nat)
    requires Good(w, root, sp) && MemOk(w.mem) && UserPrivate(w.mem, sp)
    requires w1 == w.(mem := w1.mem) && Poked(w.mem, w1.mem, sp, va, s)
    ensures Translate(w1.mem, sp.page, x) == Translate(w.mem, sp.page, x)
    ensures var p := Translate(w.mem, sp.page, x);
            Byte(w1.mem, p, x % PGSIZE)
            == if p != 0 && va <= x < va + |s| then s[x - va] else Byte(w.mem, p, x % PGSIZE)
  {
    hide Good, Lookup;
    PokedGood(w, root, sp, w1, va, s);
    TranslateUser(w, root, sp, x);
    var p := Translate(w.mem, sp.page, x);
    ZeroNotUsed(w, root, sp);
    assert Offset(va, x / PGSIZE, x % PGSIZE) == x - va;
  }

  lemma ZeroNotUsed(w: World, root: nat, sp: Space)
    requires Good(w, root, sp)
    ensures 0 !in sp.use && 0 < |w.mem|
  {
  }

  // --- the loops ---

  method WalkAddr(k: Kmem, root: nat, va: nat, ghost sp: Space) returns (pa: nat)
    requires Good(k.W(), root, sp) && MemOk(k.mem)
    modifies k
    ensures k.W() == old(k.W()) && pa == Translate(k.mem, sp.page, va)
  {
    hide Good, Word, Shift;
    if va >= MAXVA {
      return 0;
    }
    LeafEntry(k.W(), root, sp, va / PGSIZE);
    var pte;
    ghost var same;
    pte, same := Walk(k, root, va, false, sp);
    if pte.Null? {
      return 0;
    }
    var e := Word(k.mem, pte.page, pte.index);
    if !Valid(e) || !User(e) {
      return 0;
    }
    pa := Frame(e);
  }

  lemma OnlyOwner(w: World, root: nat, sp: Space, p: nat)
    requires Good(w, root, sp) && p in sp.use && sp.use[p].D?
    ensures forall q :: q in sp.use && sp.use[q] == sp.use[p] ==> q == p
  {
    hide FreeOk, Linked, Tables, Lookup;
    GoodFacts(w, root, sp);
    assert forall q :: q in sp.use && sp.use[q].D? ==> Owned(w.mem, sp.page, q, sp.use[q].v);
  }

  // The same user page serves the rest of the piece.
  lemma SamePage(mem: Mem, page: map<Table, nat>, va: nat, k: nat)
    requires MemOk(mem) && va % PGSIZE + k <= PGSIZE && Translate(mem, page, va) != 0
    ensures Accessible(mem, page, va, k)
    ensures va % PGSIZE + k == PGSIZE ==> (va + k) % PGSIZE == 0
  {
    hide Translate;
    PageEnd(va, k);
    forall x | va <= x < va + k ensures Translate(mem, page, x) == Translate(mem, page, va) {
      InPage(mem, page, va, x - va);
    }
  }

  lemma PageEnd(va: nat, k: nat)
    ensures va % PGSIZE + k == PGSIZE ==> (va + k) % PGSIZE == 0
  {
    assert va + k == va / PGSIZE * PGSIZE + (va % PGSIZE + k);
  }

  lemma InPage(mem: Mem, page: map<Table, nat>, va: nat, j: nat)
    requires MemOk(mem) && va % PGSIZE + j < PGSIZE
    ensures Translate(mem, page, va + j) == Translate(mem, page, va) && (va + j) % PGSIZE == va % PGSIZE + j
  {
    hide Lookup;
    assert (va + j) / PGSIZE == va / PGSIZE;
  }

  // One pass of copyout's loop.
  lemma OutPiece(w: World, root: nat, sp: Space, w1: World, va: nat, s: seq<int>, n: nat, k: nat)
    requires Good(w, root, sp) && MemOk(w.mem) && UserPrivate(w.mem, sp) && AreBytes(s) && n + k <= |s|
    requires w1 == w.(mem := w1.mem) && Poked(w.mem, w1.mem, sp, va, s[..n]) && (va + n) % PGSIZE + k <= PGSIZE
    requires Accessible(w.mem, sp.page, va, n) && Translate(w.mem, sp.page, va + n) != 0
    ensures Accessible(w.mem, sp.page, va, n + k)
    ensures var p := Translate(w.mem, sp.page, va + n);
            && p < |w1.mem| && |w1.mem[p]| == PGSIZE
            && Poked(w.mem, w1.mem[p := Patch(w1.mem[p], (va + n) % PGSIZE, s[n..n + k])], sp, va, s[..n + k])
  {
    hide Good, Poked, Translate, Patch, UserPrivate, MemOk;
    TranslateUser(w, root, sp, va + n);
    var p := Translate(w.mem, sp.page, va + n);
    OnlyOwner(w, root, sp, p);
    PokedPiece(w.mem, w1.mem, sp, va, s, n, k, p);
    SamePage(w.mem, sp.page, va + n, k);
    PokedLength(w.mem, w1.mem, sp, va, s[..n]);
  }

  lemma PokedLength(mem: Mem, mem1: Mem, sp: Space, va: nat, s: seq<int>)
    requires MemOk(mem) && Poked(mem, mem1, sp, va, s)
    ensures |mem1| == |mem| && MemOk(mem1)
  {
  }

  // Copies src to user memory at dstva.  The first n bytes arrive; the result is 0 if that
  // is all of them, and -1 if the user may not access byte dstva + n.
  method CopyOut(k: Kmem, root: nat, dstva: nat, src: seq<int>, ghost sp: Space) returns (r: int, ghost n: nat)
    requires Good(k.W(), root, sp) && MemOk(k.mem) && UserPrivate(k.mem, sp) && AreBytes(src)
    modifies k
    ensures Good(k.W(), root, sp) && UserPrivate(k.mem, sp) && n <= |src|
    ensures MemOk(old(k.mem)) && k.W() == old(k.W()).(mem := k.mem)
    ensures Poked(old(k.mem), k.mem, sp, dstva, src[..n]) && Accessible(old(k.mem), sp.page, dstva, n)
    ensures r == if n == |src| then 0 else -1
    ensures r == -1 ==> Translate(old(k.mem), sp.page, dstva + n) == 0
  {
    hide Good, Poked, Translate, UserPrivate, MemOk, AreBytes, Accessible;
    ghost var w := k.W();
    var va, done := dstva, 0;
    OutStart(w, sp, dstva, src);
    while done < |src|
      invariant done <= |src| && va == dstva + done
      invariant k.W() == w.(mem := k.mem) && Poked(w.mem, k.mem, sp, dstva, src[..done])
      invariant Accessible(w.mem, sp.page, dstva, done)
    {
      PokedGood(w, root, sp, k.W(), dstva, src[..done]);
      PokedLength(w.mem, k.mem, sp, dstva, src[..done]);
      SameTranslate(w.mem, k.mem, sp, va);
      var o := va % PGSIZE;
      var pa := WalkAddr(k, root, va - o, sp);
      PageBase(k.mem, sp.page, va);
      if pa == 0 {
        return -1, done;
      }
      var m := PGSIZE - o;
      if m > |src| - done {
        m := |src| - done;
      }
      OutPiece(w, root, sp, k.W(), dstva, src, done, m);
      k.mem := k.mem[pa := Patch(k.mem[pa], o, src[done..done + m])];
      done, va := done + m, va + m;
    }
    PokedGood(w, root, sp, k.W(), dstva, src[..done]);
    r, n := 0, done;
  }

  lemma OutStart(w: World, sp: Space, va: nat, s: seq<int>)
    requires MemOk(w.mem)
    ensures Poked(w.mem, w.mem, sp, va, s[..0]) && Accessible(w.mem, sp.page, va, 0)
  {
    PokedNone(w.mem, sp, va);
    assert s[..0] == [];
  }

  lemma SameTranslate(mem: Mem, mem1: Mem, sp: Space, va: nat)
    requires MemOk(mem) && MemOk(mem1) && SameMap(mem, sp, mem1, sp)
    ensures Translate(mem1, sp.page, va) == Translate(mem, sp.page, va)
  {
    hide Lookup;
  }

  lemma PageBase(mem: Mem, page: map<Table, nat>, va: nat)
    requires MemOk(mem)
    ensures Translate(mem, page, va - va % PGSIZE) == Translate(mem, page, va)
  {
    hide Lookup;
    assert (va - va % PGSIZE) / PGSIZE == va / PGSIZE;
    assert va - va % PGSIZE >= MAXVA <==> va >= MAXVA;
  }

  lemma PeekAt(mem: Mem, page: map<Table, nat>, va: nat, n: nat, i: nat)
    requires MemOk(mem) && i < n
    ensures Peek(mem, page, va, n)[i] == Byte(mem, Translate(mem, page, va + i), (va + i) % PGSIZE)
  {
  }

  // A piece of user memory inside one page.
  lemma PeekPiece(mem: Mem, page: map<Table, nat>, va: nat, n: nat, k: nat)
    requires MemOk(mem) && (va + n) % PGSIZE + k <= PGSIZE && Translate(mem, page, va + n) != 0
    requires var p := Translate(mem, page, va + n); p < |mem| && |mem[p]| == PGSIZE
    ensures var p, o := Translate(mem, page, va + n), (va + n) % PGSIZE;
            Peek(mem, page, va, n + k) == Peek(mem, page, va, n) + mem[p][o..o + k]
  {
    hide Translate;
    var p, o := Translate(mem, page, va + n), (va + n) % PGSIZE;
    var whole, piece := Peek(mem, page, va, n + k), mem[p][o..o + k];
    forall j | 0 <= j < k ensures whole[n + j] == piece[j] {
      InPage(mem, page, va + n, j);
      PeekAt(mem, page, va, n + k, n + j);
      assert va + n + j == va + (n + j);
      assert piece[j] == mem[p][o + j];
    }
    assert forall i :: 0 <= i < n ==> whole[i] == Peek(mem, page, va, n)[i];
    assert whole == whole[..n] + whole[n..];
    assert whole[n..] == piece;
  }

  // Copies len bytes of user memory at srcva to dst; the first n bytes arrive.
  method CopyIn(k: Kmem, root: nat, dst: array<int>, srcva: nat, len: nat, ghost sp: Space) returns (r: int, ghost n: nat)
    requires Good(k.W(), root, sp) && MemOk(k.mem) && UserPrivate(k.mem, sp) && len <= dst.Length
    modifies k, dst
    ensures k.W() == old(k.W()) && n <= len && Accessible(k.mem, sp.page, srcva, n)
    ensures dst[..n] == Peek(k.mem, sp.page, srcva, n)
    ensures forall j :: n <= j < dst.Length ==> dst[j] == old(dst[j])
    ensures r == if n == len then 0 else -1
    ensures r == -1 ==> Translate(k.mem, sp.page, srcva + n) == 0
  {
    hide Good, Translate, UserPrivate, MemOk, Peek;
    ghost var w := k.W();
    var va, done := srcva, 0;
    while done < len
      invariant done <= len && va == srcva + done && k.W() == w
      invariant Accessible(w.mem, sp.page, srcva, done)
      invariant dst[..done] == Peek(w.mem, sp.page, srcva, done)
      invariant forall j :: done <= j < dst.Length ==> dst[j] == old(dst[j])
    {
      var o := va % PGSIZE;
      var pa := WalkAddr(k, root, va - o, sp);
      PageBase(k.mem, sp.page, va);
      if pa == 0 {
        return -1, done;
      }
      var m := PGSIZE - o;
      if m > len - done {
        m := len - done;
      }
      TranslateUser(w, root, sp, va);
      PeekPiece(w.mem, sp.page, srcva, done, m);
      SamePage(w.mem, sp.page, va, m);
      Blit(dst, done, k.mem[pa][o..o + m]);
      done, va := done + m, va + m;
    }
    r, n := 0, done;
  }

  // memmove into dst at i.
  method Blit(dst: array<int>, i: nat, piece: seq<int>)
    requires i + |piece| <= dst.Length
    modifies dst
    ensures dst[..i + |piece|] == old(dst[..i]) + piece
    ensures forall j :: i + |piece| <= j < dst.Length ==> dst[j] == old(dst[j])
  {
    for j := 0 to |piece|
      invariant dst[..i + j] == old(dst[..i]) + piece[..j]
      invariant forall x :: i + j <= x < dst.Length ==> dst[x] == old(dst[x])
    {
      dst[i + j] := piece[j];
    }
  }

  // The first n bytes at va are accessible and not NUL.
  ghost predicate Plain(mem: Mem, page: map<Table, nat>, va: nat, n: nat)
    requires MemOk(mem)
  {
    Accessible(mem, page, va, n) && forall i :: 0 <= i < n ==> Peek(mem, page, va, n)[i] != 0
  }

  lemma PlainMore(mem: Mem, page: map<Table, nat>, va: nat, n: nat)
    requires MemOk(mem) && Plain(mem, page, va, n) && Translate(mem, page, va + n) != 0
    requires Byte(mem, Translate(mem, page, va + n), (va + n) % PGSIZE) != 0
    ensures Plain(mem, page, va, n + 1)
    ensures Peek(mem, page, va, n + 1)
            == Peek(mem, page, va, n) + [Byte(mem, Translate(mem, page, va + n), (va + n) % PGSIZE)]
  {
    hide Translate, Byte;
    AccessibleMore(mem, page, va, n);
    var s := Peek(mem, page, va, n + 1);
    forall i | 0 <= i < n + 1 ensures s[i] != 0 {
      PeekAt(mem, page, va, n + 1, i);
      if i < n {
        PeekAt(mem, page, va, n, i);
        assert Peek(mem, page, va, n)[i] != 0;
      }
    }
  }

  // Copies a string of at most max bytes, NUL included, from user memory at srcva.  n bytes
  // that are not NUL are copied; then comes the NUL, or max or the accessible memory ends.
  method CopyInStr(k: Kmem, root: nat, dst: array<int>, srcva: nat, max: nat, ghost sp: Space) returns (r: int, ghost n: nat)
    requires Good(k.W(), root, sp) && MemOk(k.mem) && UserPrivate(k.mem, sp) && max <= dst.Length
    modifies k, dst
    ensures k.W() == old(k.W()) && n <= max && Plain(k.mem, sp.page, srcva, n)
    ensures dst[..n] == Peek(k.mem, sp.page, srcva, n) && (r == 0 || r == -1)
    ensures r == 0 ==> n < max && Accessible(k.mem, sp.page, srcva, n + 1)
    ensures r == 0 ==> Peek(k.mem, sp.page, srcva, n + 1)[n] == 0 == dst[n]
    ensures r == -1 ==> n == max || Translate(k.mem, sp.page, srcva + n) == 0
  {
    hide Good, Translate, UserPrivate, MemOk, Plain, Accessible;
    ghost var w := k.W();
    var va, done, gotNull := srcva, 0, false;
    PlainNone(w.mem, sp.page, srcva);
    while !gotNull && done < max
      invariant done <= max && k.W() == w && (!gotNull && done < max ==> va == srcva + done)
      invariant Plain(w.mem, sp.page, srcva, done) && dst[..done] == Peek(w.mem, sp.page, srcva, done)
      invariant gotNull ==> done < max && dst[done] == 0 && Accessible(w.mem, sp.page, srcva, done + 1)
      invariant gotNull ==> Peek(w.mem, sp.page, srcva, done + 1)[done] == 0
      decreases max - done + (if gotNull then 0 else 1)
    {
      var o := va % PGSIZE;
      var pa := WalkAddr(k, root, va - o, sp);
      PageBase(k.mem, sp.page, va);
      if pa == 0 {
        return -1, done;
      }
      var left := PGSIZE - o;
      if left > max - done {
        left := max - done;
      }
      TranslateUser(w, root, sp, va);
      gotNull, done := CopyString(dst, k.mem, pa, o, left, max, srcva, done, sp.page);
      va := va - o + PGSIZE;
    }
    r, n := if gotNull then 0 else -1, done;
  }

  // The inner loop of copyinstr: at most `left` bytes of page pa from offset o on.
  method CopyString(dst: array<int>, mem: Mem, pa: nat, o: nat, left: nat, max: nat,
                    ghost srcva: nat, from: nat, ghost page: map<Table, nat>) returns (gotNull: bool, done: nat)
    requires MemOk(mem) && pa != 0 && pa < |mem| && IsPage(mem[pa])
    requires 0 < left && o + left <= PGSIZE && o == (srcva + from) % PGSIZE && from + left <= max <= dst.Length
    requires o + left == PGSIZE || from + left == max
    requires Translate(mem, page, srcva + from) == pa && Plain(mem, page, srcva, from)
    requires dst[..from] == Peek(mem, page, srcva, from)
    modifies dst
    ensures from <= done <= max && Plain(mem, page, srcva, done) && dst[..done] == Peek(mem, page, srcva, done)
    ensures gotNull ==> done < max && dst[done] == 0 && Accessible(mem, page, srcva, done + 1)
    ensures gotNull ==> Peek(mem, page, srcva, done + 1)[done] == 0
    ensures !gotNull ==> done == from + left
  {
    hide Translate, Plain, MemOk, Accessible;
    gotNull, done := false, from;
    var p, n := o, left;
    while n > 0
      invariant n <= left && done == from + (left - n) && p == o + (left - n) && !gotNull
      invariant Plain(mem, page, srcva, done) && dst[..done] == Peek(mem, page, srcva, done)
    {
      InPage(mem, page, srcva + from, left - n);
      assert srcva + from + (left - n) == srcva + done;
      PeekAt(mem, page, srcva, done + 1, done);
      if mem[pa][p] == 0 {
        AccessibleMore(mem, page, srcva, done);
        dst[done] := 0;
        gotNull := true;
        break;
      }
      PlainMore(mem, page, srcva, done);
      dst[done] := mem[pa][p];
      n, done, p := n - 1, done + 1, p + 1;
    }
  }

  lemma PlainNone(mem: Mem, page: map<Table, nat>, va: nat)
    requires MemOk(mem)
    ensures Plain(mem, page, va, 0)
  {
  }

  lemma AccessibleMore(mem: Mem, page: map<Table, nat>, va: nat, n: nat)
    requires MemOk(mem) && Plain(mem, page, va, n) && Translate(mem, page, va + n) != 0
    ensures Accessible(mem, page, va, n + 1)
  {
    hide Translate;
  }
}
