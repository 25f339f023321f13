/** Freeing a tree of page tables (kernel/vm.c:269-297). */
module VmFree {
  import opened Memory
  import opened Kalloc
  import opened VmSpec
  import opened VmLemmas

  // u is t or a table below it.
  predicate Under(t: Table, u: Table)
    decreases t.level - u.level
  {
    u == t || (u.level < t.level && Under(t, Parent(u)))
  }

  // The entry of t through which a table below it is reached.
  function Index(t: Table, u: Table): (x: nat)
    requires Under(t, u) && u != t
    ensures x < 512
    decreases t.level - u.level
  {
    if Parent(u) == t then Slot(u) else Index(t, Parent(u))
  }

  lemma {:induction false} UnderChild(t: Table, u: Table, x: nat)
    requires t.level > 0 && x < 512
    ensures Under(Child(t, x), u) <==> Under(t, u) && u != t && Index(t, u) == x
    decreases t.level - u.level
  {
    ChildParent(t, x);
    if u.level < t.level {
      ParentChild(u);
      if Parent(u) != t { UnderChild(t, Parent(u), x); }
    }
  }

  lemma {:induction false} UnderIn(w: World, sp: Space, t: Table, u: Table)
    requires Tables(w, sp) && u in sp.page && Under(t, u) && t.level <= 2
    ensures t in sp.page
    decreases t.level - u.level
  {
    if u != t { UnderIn(w, sp, t, Parent(u)); }
  }

  ghost function Subtree(page: map<Table, nat>, t: Table): set<Table> {
    set u | u in page && Under(t, u)
  }

  // The tables reached through the first i entries of t.
  ghost function Done(page: map<Table, nat>, t: Table, i: nat): set<Table> {
    set u | u in page && Under(t, u) && u != t && Index(t, u) < i
  }

  predicate Of(u: Use, tables: set<Table>) { u.T? && u.table in tables }

  ghost predicate NoLeaves(mem: Mem, page: map<Table, nat>)
    requires MemOk(mem) && forall t :: t in page ==> page[t] < |mem|
  {
    forall u, x :: u in page && u.level == 0 && 0 <= x < 512 ==> !Valid(Word(mem, page[u], x))
  }

  // A page table without leaves; the parent of `hole` may still point to it.
  ghost predicate Bare(w: World, sp: Space, hole: Table) {
    FreeOk(w) && Tables(w, sp) && Linked(w.mem, sp.page, hole) && NoLeaves(w.mem, sp.page)
  }

  // The pages of the tables in `gone` went back to the free list.
  ghost predicate Given(w: World, sp: Space, w': World, sp': Space, gone: set<Table>) {
    && (forall u :: u in sp'.page <==> u in sp.page && u !in gone)
    && (forall u :: u in sp'.page ==> sp'.page[u] == sp.page[u])
    && (forall p :: p in sp'.use <==> p in sp.use && !Of(sp.use[p], gone))
    && (forall p :: p in sp'.use ==> sp'.use[p] == sp.use[p])
    && (forall p :: p in w'.free <==> p in w.free || (p in sp.use && Of(sp.use[p], gone)))
    && Outside(w, sp, w')
  }

  // The remaining tables other than `except` are as they were.
  ghost predicate Same(w: World, w': World, sp': Space, except: Table) {
    && |w'.mem| == |w.mem|
    && forall u :: u in sp'.page && u != except && sp'.page[u] < |w.mem| ==> w'.mem[sp'.page[u]] == w.mem[sp'.page[u]]
  }

  lemma GivenNone(w: World, sp: Space, t: Table)
    ensures Given(w, sp, w, sp, Done(sp.page, t, 0)) && Same(w, w, sp, t)
  {
  }

  lemma BareFacts(w: World, sp: Space, hole: Table)
    requires Bare(w, sp, hole)
    ensures FreeOk(w) && MemOk(w.mem) && Tables(w, sp) && forall p :: p in w.free ==> p < |w.mem|
    ensures forall u :: u in sp.page ==> sp.page[u] < |w.mem| && sp.page[u] !in w.free && u.level <= 2
  {
  }

  // An entry of t that is not valid has nothing below it, and a valid one points to a table.
  lemma BareEntry(w: World, sp: Space, t: Table, i: nat)
    requires Bare(w, sp, NOHOLE) && t in sp.page && i < 512
    ensures MemOk(w.mem) && sp.page[t] < |w.mem|
    ensures var pte := Word(w.mem, sp.page[t], i);
            && (Valid(pte) ==> t.level > 0 && Child(t, i) in sp.page && pte == Entry(sp.page[Child(t, i)], 0))
            && (!Valid(pte) && t.level > 0 ==> Child(t, i) !in sp.page)
  {
    hide FreeOk, Word, Valid;
    BareFacts(w, sp, NOHOLE);
    if t.level > 0 { assert Child(t, i) != NOHOLE; }
  }

  lemma TableEntry(p: nat)
    ensures Inner(Entry(p, 0))
  {
    assert Entry(p, 0) == p * 1024 + 1;
    assert (p * 1024 + 1) / 2 == p * 512;
    assert p * 512 == 8 * (p * 64);
  }

  lemma DoneSkip(w: World, sp: Space, w1: World, sp1: Space, t: Table, i: nat)
    requires Tables(w, sp) && t in sp.page && i < 512
    requires Given(w, sp, w1, sp1, Done(sp.page, t, i)) && (t.level > 0 ==> Child(t, i) !in sp1.page)
    ensures Done(sp.page, t, i + 1) == Done(sp.page, t, i)
  {
    forall u | u in Done(sp.page, t, i + 1) ensures u in Done(sp.page, t, i) {
      if Index(t, u) == i {
        UnderChild(t, u, i);
        UnderIn(w, sp, Child(t, i), u);
        UnderChild(t, Child(t, i), i);
      }
    }
  }

  lemma DoneMore(sp: Space, sp1: Space, t: Table, i: nat)
    requires t.level > 0 && i < 512
    requires forall u :: u in sp1.page <==> u in sp.page && u !in Done(sp.page, t, i)
    ensures Done(sp.page, t, i + 1) == Done(sp.page, t, i) + Subtree(sp1.page, Child(t, i))
  {
    forall u ensures u in Done(sp.page, t, i + 1) <==> u in Done(sp.page, t, i) || u in Subtree(sp1.page, Child(t, i)) {
      UnderChild(t, u, i);
    }
  }

  lemma GivenTrans(w: World, sp: Space, w1: World, sp1: Space, w2: World, sp2: Space, g1: set<Table>, g2: set<Table>)
    requires Given(w, sp, w1, sp1, g1) && Given(w1, sp1, w2, sp2, g2)
    ensures Given(w, sp, w2, sp2, g1 + g2)
  {
  }

  lemma SameTrans(w: World, w1: World, sp1: Space, w2: World, sp2: Space, t: Table)
    requires Same(w, w1, sp1, t) && Same(w1, w2, sp2, t)
    requires forall u :: u in sp2.page ==> u in sp1.page && sp1.page[u] == sp2.page[u]
    ensures Same(w, w2, sp2, t)
  {
  }

  lemma SameWider(w: World, w1: World, sp1: Space, t: Table)
    requires Same(w, w1, sp1, NOHOLE) && NOHOLE !in sp1.page
    ensures Same(w, w1, sp1, t)
  {
  }

  lemma SameEnd(w: World, w1: World, sp1: Space, w2: World, sp2: Space, t: Table)
    requires Same(w, w1, sp1, t) && Same(w1, w2, sp2, NOHOLE) && t !in sp2.page
    requires forall u :: u in sp2.page ==> u in sp1.page && sp1.page[u] == sp2.page[u]
    ensures Same(w, w2, sp2, NOHOLE)
  {
  }

  // The entry of t for the freed table below it is cleared.
  lemma ClearedChild(w: World, sp: Space, t: Table, i: nat)
    requires t.level > 0 && i < 512 && Bare(w, sp, Child(t, i)) && t in sp.page && Child(t, i) !in sp.page
    ensures MemOk(w.mem) && sp.page[t] < |w.mem|
    ensures var w' := w.(mem := SetWord(w.mem, sp.page[t], i, 0));
            Bare(w', sp, NOHOLE) && Given(w, sp, w', sp, {}) && Same(w, w', sp, t)
  {
    hide SetWord, Word, Entry, FreeOk;
    BareFacts(w, sp, Child(t, i));
    assert sp.page[t] !in w.free;
    var w' := w.(mem := SetWord(w.mem, sp.page[t], i, 0));
    FreeFrame(w, w'.mem);
    WordsOfSet(w.mem, sp.page[t], i, 0);
    forall u, y | u in sp.page && u.level > 0 && 0 <= y < 512
      ensures Child(u, y) == Child(t, i) ==> u == t && y == i
      ensures sp.page[u] == sp.page[t] ==> u == t
    {
      ChildParent(u, y);
      ChildParent(t, i);
      assert sp.use[sp.page[u]] == T(u) && sp.use[sp.page[t]] == T(t);
    }
    forall u, y | u in sp.page && u.level > 0 && 0 <= y < 512
      ensures var pte := Word(w'.mem, sp.page[u], y);
              if Child(u, y) in sp.page then pte == Entry(sp.page[Child(u, y)], 0) else !Valid(pte)
    {
      assert Word(w'.mem, sp.page[u], y) == if u == t && y == i then 0 else Word(w.mem, sp.page[u], y);
    }
  }

  // kfree of the page of t when nothing is left below it.
  function Gone(sp: Space, t: Table): Space
    requires t in sp.page
  {
    Space(sp.page - {t}, sp.use - {sp.page[t]})
  }

  lemma GoneFrom(sp: Space, t: Table)
    requires t in sp.page
    ensures t !in Gone(sp, t).page
    ensures forall u :: u in Gone(sp, t).page ==> u in sp.page && Gone(sp, t).page[u] == sp.page[u]
  {
  }

  lemma UnderParent(t: Table, u: Table)
    requires Parent(u) == t
    ensures Under(t, u) && u != t
  {
  }

  lemma OnePage(w: World, sp: Space, t: Table, u: Table)
    requires Tables(w, sp) && t in sp.page && u in sp.page
    ensures sp.use[sp.page[t]] == T(t) && sp.use[sp.page[u]] == T(u) && (sp.page[t] == sp.page[u] ==> t == u)
    ensures w.lo <= sp.page[t] < |w.mem| && sp.page[t] !in w.free
  {
  }

  lemma GoneTables(w: World, w': World, sp: Space, t: Table)
    requires Tables(w, sp) && t in sp.page && w'.lo == w.lo && |w'.mem| == |w.mem|
    requires forall p :: p in w'.free <==> p == sp.page[t] || p in w.free
    requires forall u :: u in sp.page && u != t ==> Parent(u) != t
    ensures Tables(w', Gone(sp, t))
  {
    forall u | u in sp.page ensures sp.page[u] == sp.page[t] ==> u == t { OnePage(w, sp, t, u); }
  }

  lemma GoneGiven(w: World, w': World, sp: Space, t: Table)
    requires Tables(w, sp) && t in sp.page && w'.lo == w.lo && |w'.mem| == |w.mem|
    requires forall p :: p in w'.free <==> p == sp.page[t] || p in w.free
    requires forall p :: 0 <= p < |w.mem| && p != sp.page[t] ==> w'.mem[p] == w.mem[p]
    ensures Given(w, sp, w', Gone(sp, t), {t}) && Same(w, w', Gone(sp, t), NOHOLE)
  {
    forall u | u in sp.page ensures sp.page[u] == sp.page[t] ==> u == t { OnePage(w, sp, t, u); }
  }

  // The entries of the other tables are as before.
  lemma GoneWord(w: World, w': World, sp: Space, t: Table, u: Table, y: nat)
    requires Bare(w, sp, NOHOLE) && t in sp.page && MemOk(w'.mem) && Tables(w', Gone(sp, t)) && |w'.mem| == |w.mem|
    requires Same(w, w', Gone(sp, t), NOHOLE) && u in Gone(sp, t).page && y < 512
    ensures u in sp.page && u != t && Gone(sp, t).page[u] == sp.page[u] < |w.mem|
    ensures Word(w'.mem, sp.page[u], y) == Word(w.mem, sp.page[u], y)
    ensures u.level > 0 ==> Child(u, y) != NOHOLE
  {
    hide Word, FreeOk, Entry, Valid, Linked, NoLeaves;
    BareFacts(w, sp, NOHOLE);
    WordFrame(w.mem, w'.mem, sp.page[u], y);
  }

  lemma GoneWords(w: World, w': World, sp: Space, t: Table)
    requires Bare(w, sp, NOHOLE) && t in sp.page && MemOk(w'.mem) && Tables(w', Gone(sp, t)) && |w'.mem| == |w.mem|
    requires Same(w, w', Gone(sp, t), NOHOLE)
    ensures Linked(w'.mem, Gone(sp, t).page, t) && NoLeaves(w'.mem, Gone(sp, t).page)
  {
    hide Word, FreeOk, Entry, Valid, Tables, Same;
    BareFacts(w, sp, NOHOLE);
    var page := Gone(sp, t).page;
    forall u, y | u in page && 0 <= y < 512
      ensures u in sp.page && u != t && page[u] == sp.page[u] < |w.mem| && Word(w'.mem, page[u], y) == Word(w.mem, sp.page[u], y)
      ensures u.level > 0 ==> Child(u, y) != NOHOLE
    {
      GoneWord(w, w', sp, t, u, y);
    }
  }

  lemma FreedSelf(w: World, sp: Space, t: Table)
    requires Bare(w, sp, NOHOLE) && t in sp.page
    requires forall u :: u in sp.page && Under(t, u) ==> u == t
    ensures Shape(w) && w.lo <= sp.page[t] < |w.mem| && sp.page[t] !in w.free
    ensures var w' := Freed(w, sp.page[t]);
            && Bare(w', Gone(sp, t), t) && Given(w, sp, w', Gone(sp, t), {t}) && Same(w, w', Gone(sp, t), NOHOLE)
  {
    hide Word, Freed, Under, Linked, NoLeaves, Gone, Given, Same;
    var w' := Freed(w, sp.page[t]);
    BareFacts(w, sp, NOHOLE);
    FreedOk(w, sp.page[t]);
    FreedShape(w, sp.page[t]);
    forall u | u in sp.page && u != t ensures Parent(u) != t {
      if Parent(u) == t { UnderParent(t, u); }
    }
    GoneTables(w, w', sp, t);
    GoneGiven(w, w', sp, t);
    GoneWords(w, w', sp, t);
  }

  // --- the loop of freewalk ---

  // The state of freewalk(t) after the first i entries.
  ghost predicate Walking(w: World, sp: Space, w1: World, sp1: Space, t: Table, i: nat) {
    && Bare(w, sp, NOHOLE) && Bare(w1, sp1, NOHOLE) && t in sp.page && t in sp1.page
    && Given(w, sp, w1, sp1, Done(sp.page, t, i)) && Same(w, w1, sp1, t)
  }

  // The result of freewalk(t).
  ghost predicate Walked(w: World, sp: Space, w1: World, sp1: Space, t: Table) {
    && Bare(w, sp, NOHOLE) && Bare(w1, sp1, t) && t in sp.page
    && Given(w, sp, w1, sp1, Subtree(sp.page, t)) && Same(w, w1, sp1, NOHOLE)
  }

  lemma WalkingStart(w: World, sp: Space, t: Table)
    requires Bare(w, sp, NOHOLE) && t in sp.page
    ensures Walking(w, sp, w, sp, t, 0)
  {
    hide Bare;
    GivenNone(w, sp, t);
  }

  lemma WalkingEntry(w: World, sp: Space, w1: World, sp1: Space, t: Table, i: nat)
    requires Walking(w, sp, w1, sp1, t, i) && i < 512
    ensures MemOk(w1.mem) && sp1.page[t] < |w1.mem| && sp1.page[t] == sp.page[t]
    ensures Bare(w1, sp1, NOHOLE) && t in sp1.page
    ensures var pte := Word(w1.mem, sp1.page[t], i);
            && (Valid(pte) ==> t.level > 0 && Child(t, i) in sp1.page && sp1.page[Child(t, i)] == Frame(pte) && Inner(pte))
            && (!Valid(pte) ==> Walking(w, sp, w1, sp1, t, i + 1))
  {
    hide Bare, Word, Done, Valid, Frame, Entry, Inner;
    BareEntry(w1, sp1, t, i);
    BareFacts(w, sp, NOHOLE);
    if Valid(Word(w1.mem, sp1.page[t], i)) {
      TableEntry(sp1.page[Child(t, i)]);
    } else {
      DoneSkip(w, sp, w1, sp1, t, i);
    }
  }

  lemma WalkingChild(w: World, sp: Space, w1: World, sp1: Space, w2: World, sp2: Space, t: Table, i: nat)
    requires Walking(w, sp, w1, sp1, t, i) && i < 512 && t.level > 0 && Walked(w1, sp1, w2, sp2, Child(t, i))
    ensures t in sp2.page && MemOk(w2.mem) && sp2.page[t] == sp.page[t] < |w2.mem|
    ensures Walking(w, sp, w2.(mem := SetWord(w2.mem, sp.page[t], i, 0)), sp2, t, i + 1)
  {
    hide Bare, Done, SetWord, Same, Under, FreeOk, Tables;
    var c := Child(t, i);
    ChildNotAbove(t, i);
    BareFacts(w1, sp1, NOHOLE);
    BareFacts(w2, sp2, c);
    ClearedChild(w2, sp2, t, i);
    var w3 := w2.(mem := SetWord(w2.mem, sp.page[t], i, 0));
    DoneMore(sp, sp1, t, i);
    SameWider(w1, w2, sp2, t);
    SameTrans(w1, w2, sp2, w3, sp2, t);
    SameTrans(w, w1, sp1, w3, sp2, t);
    GivenTrans(w1, sp1, w2, sp2, w3, sp2, Subtree(sp1.page, c), {});
    assert Subtree(sp1.page, c) + {} == Subtree(sp1.page, c);
    GivenTrans(w, sp, w1, sp1, w3, sp2, Done(sp.page, t, i), Subtree(sp1.page, c));
  }

  lemma ChildNotAbove(t: Table, i: nat)
    requires t.level > 0
    ensures !Under(Child(t, i), t) && Under(Child(t, i), Child(t, i))
  {
  }

  lemma WalkingEnd(w: World, sp: Space, w1: World, sp1: Space, t: Table)
    requires Walking(w, sp, w1, sp1, t, 512)
    ensures t in sp1.page && sp1.page[t] == sp.page[t] && Shape(w1) && FreeOk(w1)
    ensures w1.lo <= sp.page[t] < |w1.mem| && sp.page[t] !in w1.free
    ensures Walked(w, sp, Freed(w1, sp.page[t]), Gone(sp1, t), t)
  {
    hide Bare, Freed, Gone, Same, FreeOk, Tables, Done, Subtree, Given, Under;
    BareFacts(w1, sp1, NOHOLE);
    NothingLeft(w, sp, w1, sp1, t);
    FreedSelf(w1, sp1, t);
    var w2, sp2 := Freed(w1, sp.page[t]), Gone(sp1, t);
    GoneFrom(sp1, t);
    SameEnd(w, w1, sp1, w2, sp2, t);
    GivenTrans(w, sp, w1, sp1, w2, sp2, Done(sp.page, t, 512), {t});
    DoneAll(sp.page, t);
  }

  lemma NothingLeft(w: World, sp: Space, w1: World, sp1: Space, t: Table)
    requires Given(w, sp, w1, sp1, Done(sp.page, t, 512)) && t in sp1.page
    ensures forall u :: u in sp1.page && Under(t, u) ==> u == t
    ensures sp1.page[t] == sp.page[t]
  {
    assert forall u :: u in sp1.page && Under(t, u) && u != t ==> u in sp.page && Index(t, u) < 512;
  }

  lemma DoneAll(page: map<Table, nat>, t: Table)
    requires t in page
    ensures Done(page, t, 512) + {t} == Subtree(page, t)
  {
  }

  // --- the whole address space ---

  lemma BareStart(w: World, root: nat, sp: Space)
    requires Good(w, root, sp) && forall v :: 0 <= v < VPAGES ==> Lookup(w.mem, sp.page, v) == 0
    ensures Bare(w, sp, NOHOLE)
  {
    hide FreeOk, Tables, Linked, Word, Shift, At, PX;
    GoodFacts(w, root, sp);
    forall u, x | u in sp.page && u.level == 0 && 0 <= x < 512 ensures !Valid(Word(w.mem, sp.page[u], x)) {
      LeafPage(w, root, sp, u, x);
      LeafEntry(w, root, sp, u.pre * 512 + x);
      assert Lookup(w.mem, sp.page, u.pre * 512 + x) == 0;
      assert !Valid(0);
    }
  }

  // Entry x of a last-level table serves virtual page pre * 512 + x.
  lemma LeafPage(w: World, root: nat, sp: Space, u: Table, x: nat)
    requires Good(w, root, sp) && u in sp.page && u.level == 0 && x < 512
    ensures var v := u.pre * 512 + x; v < VPAGES && At(0, v) == u && PX(0, v) == x
  {
    hide FreeOk, Frames, Linked, Lookup;
    assert Parent(u) in sp.page && Parent(Parent(u)) in sp.page;
    assert Parent(Parent(u)) == ROOT;
    assert Shift(u.pre * 512 + x, 1) == (u.pre * 512 + x) / 512;
  }

  lemma {:induction false} AllUnderRoot(w: World, sp: Space, u: Table)
    requires Tables(w, sp) && u in sp.page
    ensures Under(ROOT, u)
    decreases 2 - u.level
  {
    if u != ROOT { AllUnderRoot(w, sp, Parent(u)); }
  }

  // freewalk of the root after the leaves are gone: every page of the address space is free.
  lemma WalkedRoot(w: World, root: nat, sp: Space, w1: World, sp1: Space)
    requires Good(w, root, sp) && (forall v :: 0 <= v < VPAGES ==> Lookup(w.mem, sp.page, v) == 0)
    requires Walked(w, sp, w1, sp1, ROOT)
    ensures FreeOk(w1) && sp1.use == map[]
    ensures forall p :: p in w1.free <==> p in w.free || p in sp.use
  {
    hide FreeOk, Linked, Lookup;
    OnlyTables(w, root, sp);
    forall p | p in sp.use ensures Of(sp.use[p], Subtree(sp.page, ROOT)) {
      AllUnderRoot(w, sp, sp.use[p].table);
    }
  }

  lemma OnlyTables(w: World, root: nat, sp: Space)
    requires Good(w, root, sp) && (forall v :: 0 <= v < VPAGES ==> Lookup(w.mem, sp.page, v) == 0)
    ensures forall p :: p in sp.use ==> sp.use[p].T?
  {
    hide Linked, Lookup, Tables;
    GoodFacts(w, root, sp);
    assert forall p :: p in sp.use && sp.use[p].D? ==> Owned(w.mem, sp.page, p, sp.use[p].v);
  }
}
