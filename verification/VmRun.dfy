/** Runs of operations on one address space: what every one of them keeps. */
module VmRun {
  import opened Memory
  import opened Kalloc
  import opened VmSpec
  import opened VmLemmas
  import opened VmUser
  import opened VmCopy

  // The memory and one address space.
  datatype State = State(w: World, sp: Space)

  // What one operation can do: uvmalloc, uvmcopy or uvmfirst adds pages, a failed one leaves
  // tables, uvmdealloc frees pages, copyout writes to pages.
  datatype Op =
    | Extend(v0: nat, pages: seq<seq<int>>, flags: seq<nat>)
    | Grow
    | Unmap(v0: nat, n: nat)
    | Poke(va: nat, s: seq<int>)

  ghost predicate Step(root: nat, s: State, op: Op, t: State) {
    match op
    case Extend(v0, pages, flags) => Extended(s.w, s.sp, t.w, t.sp, root, v0, pages, flags)
    case Grow => Grown(s.w, s.sp, t.w, t.sp, root)
    case Unmap(v0, n) => Unmapped(s.w, s.sp, t.w, t.sp, root, v0, n, true)
    case Poke(va, b) => MemOk(s.w.mem) && t.w == s.w.(mem := t.w.mem) && t.sp == s.sp && Poked(s.w.mem, t.w.mem, s.sp, va, b)
  }

  ghost predicate Run(root: nat, states: seq<State>, ops: seq<Op>) {
    && |states| == |ops| + 1
    && forall i :: 0 <= i < |ops| ==> Step(root, states[i], ops[i], states[i + 1])
  }

  ghost predicate Inv(root: nat, s: State) { Good(s.w, root, s.sp) && MemOk(s.w.mem) && UserPrivate(s.w.mem, s.sp) }

  lemma ExtendedUser(w: World, sp: Space, w1: World, sp1: Space, root: nat,
                     v0: nat, pages: seq<seq<int>>, flags: seq<nat>)
    requires Extended(w, sp, w1, sp1, root, v0, pages, flags) && MemOk(w.mem) && MemOk(w1.mem) && UserPrivate(w.mem, sp)
    ensures UserPrivate(w1.mem, sp1)
  {
    hide Lookup, Kept, Good, MemOk, User;
    KeptFacts(w, sp, w1, sp1, root);
    ExtendedPrivate(w, sp, w1, sp1, root, v0, pages, flags);
    forall v | 0 <= v < VPAGES && User(Lookup(w1.mem, sp1.page, v)) ensures Private(w1.mem, sp1, v) {
      if !(v0 <= v < v0 + |pages|) { assert Private(w.mem, sp, v); }
    }
  }

  lemma GrownUser(w: World, sp: Space, w1: World, sp1: Space, root: nat)
    requires Grown(w, sp, w1, sp1, root) && MemOk(w.mem) && MemOk(w1.mem) && UserPrivate(w.mem, sp)
    ensures UserPrivate(w1.mem, sp1)
  {
    hide Lookup, Kept, Good, MemOk, User;
    KeptFacts(w, sp, w1, sp1, root);
    forall v | 0 <= v < VPAGES && User(Lookup(w1.mem, sp1.page, v)) ensures Private(w1.mem, sp1, v) {
      assert Private(w.mem, sp, v);
    }
  }

  lemma UnmappedUser(w: World, sp: Space, w1: World, sp1: Space, root: nat, v0: nat, n: nat, free: bool)
    requires Unmapped(w, sp, w1, sp1, root, v0, n, free) && MemOk(w.mem) && MemOk(w1.mem) && UserPrivate(w.mem, sp)
    ensures UserPrivate(w1.mem, sp1)
  {
    hide Lookup, Good, MemOk;
    forall v | 0 <= v < VPAGES && User(Lookup(w1.mem, sp1.page, v)) ensures Private(w1.mem, sp1, v) {
      assert Private(w.mem, sp, v);
    }
  }

  lemma StepKeeps(root: nat, s: State, op: Op, t: State)
    requires Inv(root, s) && Step(root, s, op, t)
    ensures Inv(root, t) && Conserved(s.w, s.sp, t.w, t.sp)
  {
    hide Good, UserPrivate, MemOk, Extended, Grown, Unmapped, Poked, Kept;
    match op
    case Extend(v0, pages, flags) =>
      ExtendedGood(s.w, s.sp, t.w, t.sp, root, v0, pages, flags);
      KeptFacts(s.w, s.sp, t.w, t.sp, root);
      ExtendedUser(s.w, s.sp, t.w, t.sp, root, v0, pages, flags);
    case Grow =>
      GrownKept(s.w, s.sp, t.w, t.sp, root);
      KeptFacts(s.w, s.sp, t.w, t.sp, root);
      GrownUser(s.w, s.sp, t.w, t.sp, root);
    case Unmap(v0, n) =>
      UnmappedConserves(s.w, s.sp, t.w, t.sp, root, v0, n);
      GoodFacts(t.w, root, t.sp);
      UnmappedUser(s.w, s.sp, t.w, t.sp, root, v0, n, true);
    case Poke(va, b) =>
      PokedGood(s.w, root, s.sp, t.w, va, b);
      GoodFacts(t.w, root, t.sp);
  }

  lemma GrownKept(w: World, sp: Space, w1: World, sp1: Space, root: nat)
    requires Grown(w, sp, w1, sp1, root)
    ensures Kept(w, sp, w1, sp1, root)
  {
  }

  // --- counting pages ---

  ghost function Elements(s: seq<nat>): (e: set<nat>)
    ensures forall p :: p in e <==> p in s
  {
    set p | p in s
  }

  lemma {:induction false} ElementsSize(s: seq<nat>)
    requires forall i, j :: 0 <= i < j < |s| ==> s[i] != s[j]
    ensures |Elements(s)| == |s|
  {
    if s != [] {
      var n := |s| - 1;
      ElementsSize(s[..n]);
      assert s == s[..n] + [s[n]];
      assert Elements(s) == Elements(s[..n]) + {s[n]};
      assert s[n] !in s[..n];
    }
  }

  // The free pages and the pages in use together are as many as before.
  lemma CountConserved(root: nat, s: State, t: State)
    requires Good(s.w, root, s.sp) && Good(t.w, root, t.sp) && Conserved(s.w, s.sp, t.w, t.sp)
    ensures |s.w.free| + |s.sp.use| == |t.w.free| + |t.sp.use|
  {
    hide Linked, Frames, Word;
    ElementsSize(s.w.free);
    ElementsSize(t.w.free);
    Together(s.w.free, s.sp.use, t.w.free, t.sp.use);
  }

  lemma Together(f: seq<nat>, u: map<nat, Use>, f': seq<nat>, u': map<nat, Use>)
    requires forall p :: p in u ==> p !in f
    requires forall p :: p in u' ==> p !in f'
    requires forall p :: (p in f || p in u) <==> (p in f' || p in u')
    requires |Elements(f)| == |f| && |Elements(f')| == |f'|
    ensures |f| + |u| == |f'| + |u'|
  {
    assert Elements(f) + u.Keys == Elements(f') + u'.Keys;
    assert Elements(f) !! u.Keys && Elements(f') !! u'.Keys;
    assert |u| == |u.Keys| && |u'| == |u'.Keys|;
    assert |Elements(f) + u.Keys| == |Elements(f)| + |u.Keys|;
    assert |Elements(f') + u'.Keys| == |Elements(f')| + |u'.Keys|;
  }

  // In every run the tree stays a tree of distinct pages, whatever the user can access is a
  // page of its own, and no page is lost or duplicated.
  lemma {:induction false} RunConserves(root: nat, states: seq<State>, ops: seq<Op>)
    requires Run(root, states, ops) && Inv(root, states[0])
    ensures var s, t := states[0], states[|ops|];
            && Inv(root, t) && Conserved(s.w, s.sp, t.w, t.sp)
            && |s.w.free| + |s.sp.use| == |t.w.free| + |t.sp.use|
    decreases |ops|
  {
    hide Step, Good, UserPrivate, MemOk;
    var n := |ops|;
    if n > 0 {
      RunConserves(root, states[..n], ops[..n - 1]);
      StepKeeps(root, states[n - 1], ops[n - 1], states[n]);
    }
    CountConserved(root, states[0], states[n]);
  }
}
