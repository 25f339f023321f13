/** kernel/bio.c: the list of buffers, most recently used first, and what it caches. */
module BufCache {
  import opened Params

  datatype Buf = Buf(dev: nat, blockno: nat, refcnt: int, valid: bool, prev: nat, next: nat)

  // The buffers 0, ..., NBUF - 1 and, at NBUF, the head of the list.
  const HEAD: nat := NBUF

  type Bufs = b: seq<Buf> | |b| == NBUF + 1 witness seq(NBUF + 1, _ => Buf(0, 0, 0, false, 0, 0))

  // when[b] tells when buffer b was last released by its last user.
  type Times = w: seq<nat> | |w| == NBUF witness seq(NBUF, _ => 0)

  // y comes after x in the list.
  predicate After(when: Times, x: nat, y: nat)
    requires x <= HEAD && y < NBUF
  {
    x == HEAD || when[y] < when[x]
  }

  const NONE: nat := NBUF + 1

  // q is the next one after x: the most recently released of those that come after it.
  // Buffer e is not counted.
  ghost predicate Follows(when: Times, e: nat, x: nat, q: nat)
    requires x <= HEAD && q <= HEAD
  {
    if q == HEAD then forall y :: 0 <= y < NBUF && y != e ==> !After(when, x, y)
    else q != e && After(when, x, q) && forall y :: 0 <= y < NBUF && y != e && After(when, x, y) ==> when[y] <= when[q]
  }

  ghost predicate Distinct(when: Times) {
    forall x, y :: 0 <= x < NBUF && 0 <= y < NBUF && x != y ==> when[x] != when[y]
  }

  predicate Linked(buf: Bufs, e: nat, x: nat)
    requires x <= HEAD
  {
    && buf[x].next <= HEAD && buf[x].prev <= HEAD && buf[x].next != e && buf[x].prev != e
    && buf[buf[x].next].prev == x && buf[buf[x].prev].next == x
  }

  // The list is one ring over all buffers but e, sorted by the time of release.
  ghost predicate Ring(buf: Bufs, when: Times, e: nat) {
    && (forall x :: 0 <= x <= HEAD && x != e ==> Linked(buf, e, x))
    && (forall x :: 0 <= x <= HEAD && x != e ==> buf[x].next <= HEAD && Follows(when, e, x, buf[x].next))
  }

  // No two buffers hold the same block of a device.
  ghost predicate Unique(buf: Bufs) {
    forall x, y :: 0 <= x < NBUF && 0 <= y < NBUF && buf[x].dev != 0 && Same(buf[x], buf[y].dev, buf[y].blockno) ==> x == y
  }

  predicate Same(b: Buf, dev: nat, blockno: nat) { b.dev == dev && b.blockno == blockno }

  // b->next->prev = b->prev; b->prev->next = b->next
  function Unlinked(buf: Bufs, b: nat): (r: Bufs)
    requires b < NBUF && buf[b].next <= HEAD && buf[b].prev <= HEAD
  {
    var s := buf[buf[b].next := buf[buf[b].next].(prev := buf[b].prev)];
    s[buf[b].prev := s[buf[b].prev].(next := buf[b].next)]
  }

  // b->next = head.next; b->prev = &head; head.next->prev = b; head.next = b
  function Pushed(buf: Bufs, b: nat): (r: Bufs)
    requires b < NBUF && buf[HEAD].next <= HEAD
  {
    var s := buf[b := buf[b].(next := buf[HEAD].next, prev := HEAD)];
    var t := s[buf[HEAD].next := s[buf[HEAD].next].(prev := b)];
    t[HEAD := t[HEAD].(next := b)]
  }

  lemma FollowsKeep(when: Times, x: nat, q: nat, b: nat)
    requires x <= HEAD && q <= HEAD && Follows(when, NONE, x, q) && q != b && b < NBUF
    ensures Follows(when, b, x, q)
  {
    forall y | 0 <= y < NBUF && y != b && After(when, x, y) ensures q != HEAD && when[y] <= when[q] {
      assert y != NONE;
    }
  }

  lemma FollowsSkip(when: Times, p: nat, b: nat, n: nat)
    requires p <= HEAD && b < NBUF && n <= HEAD && n != b && Distinct(when)
    requires Follows(when, NONE, p, b) && Follows(when, NONE, b, n)
    ensures Follows(when, b, p, n)
  {
    forall y | 0 <= y < NBUF && y != b && After(when, p, y) ensures n != HEAD && when[y] <= when[n] {
      assert when[y] < when[b];
      assert After(when, b, y);
    }
  }

  lemma FollowsNew(when: Times, x: nat, q: nat, b: nat, now: nat)
    requires x <= HEAD && q <= HEAD && b < NBUF && Follows(when, b, x, q) && forall y :: 0 <= y < NBUF ==> when[y] < now
    requires x == HEAD || x != b
    ensures x < HEAD ==> Follows(when[b := now], NONE, x, q)
    ensures x == HEAD ==> Follows(when[b := now], NONE, b, q) && Follows(when[b := now], NONE, HEAD, b)
  {
    var w: Times := when[b := now];
    forall y | 0 <= y < NBUF ensures y != b ==> (After(w, x, y) <==> After(when, x, y)) && After(w, b, y) && w[y] == when[y] { }
    forall y | 0 <= y < NBUF && x < HEAD && After(w, x, y) ensures q != HEAD && w[y] <= w[q] {
      assert y != b && After(when, x, y);
    }
    forall y | 0 <= y < NBUF && x == HEAD && After(w, b, y) ensures q != HEAD && w[y] <= w[q] {
      assert y != b && After(when, x, y);
    }
  }

  lemma NotSelf(buf: Bufs, when: Times, b: nat)
    requires Ring(buf, when, NONE) && b < NBUF
    ensures buf[b].next != b
  {
    assert Follows(when, NONE, b, buf[b].next);
  }

  lemma UnlinkedLinks(buf: Bufs, when: Times, b: nat, x: nat)
    requires Ring(buf, when, NONE) && b < NBUF && x <= HEAD && x != b && buf[b].next <= HEAD && buf[b].prev <= HEAD
    ensures Linked(Unlinked(buf, b), b, x)
    ensures Unlinked(buf, b)[x].next == if x == buf[b].prev then buf[b].next else buf[x].next
    ensures buf[x].next == b <==> x == buf[b].prev
  {
    NotSelf(buf, when, b);
    hide Follows;
    assert Linked(buf, NONE, b) && Linked(buf, NONE, x);
    assert Linked(buf, NONE, buf[b].next) && Linked(buf, NONE, buf[b].prev);
    assert Linked(buf, NONE, buf[x].next) && Linked(buf, NONE, buf[x].prev);
  }

  lemma UnlinkedRing(buf: Bufs, when: Times, b: nat)
    requires Ring(buf, when, NONE) && Distinct(when) && b < NBUF
    ensures buf[b].next <= HEAD && buf[b].prev <= HEAD && Ring(Unlinked(buf, b), when, b)
  {
    hide Distinct, Follows, Unlinked;
    var p, n := buf[b].prev, buf[b].next;
    assert Linked(buf, NONE, b) && Linked(buf, NONE, p);
    NotSelf(buf, when, b);
    var u := Unlinked(buf, b);
    forall x | 0 <= x <= HEAD && x != b ensures Linked(u, b, x) && Follows(when, b, x, u[x].next) {
      UnlinkedLinks(buf, when, b, x);
      if x == p { FollowsSkip(when, p, b, n); } else { FollowsKeep(when, x, buf[x].next, b); }
    }
  }

  lemma PushedLinks(buf: Bufs, when: Times, b: nat, x: nat)
    requires Ring(buf, when, b) && b < NBUF && x <= HEAD && buf[HEAD].next <= HEAD
    ensures Linked(Pushed(buf, b), NONE, x)
    ensures Pushed(buf, b)[x].next == if x == HEAD then b else if x == b then buf[HEAD].next else buf[x].next
  {
    hide Follows;
    assert Linked(buf, b, HEAD);
    assert Linked(buf, b, buf[HEAD].next);
    if x != b {
      assert Linked(buf, b, x);
      assert Linked(buf, b, buf[x].next) && Linked(buf, b, buf[x].prev);
    }
  }

  lemma PushedRing(buf: Bufs, when: Times, b: nat, now: nat)
    requires Ring(buf, when, b) && b < NBUF && forall x :: 0 <= x < NBUF ==> when[x] < now
    ensures buf[HEAD].next <= HEAD && Ring(Pushed(buf, b), when[b := now], NONE)
  {
    hide Follows, Pushed;
    assert Linked(buf, b, HEAD);
    FollowsNew(when, HEAD, buf[HEAD].next, b, now);
    var r, w := Pushed(buf, b), when[b := now];
    forall x | 0 <= x <= HEAD ensures Linked(r, NONE, x) && Follows(w, NONE, x, r[x].next) {
      PushedLinks(buf, when, b, x);
      if x != b && x != HEAD { FollowsNew(when, x, buf[x].next, b, now); }
    }
  }

  // --- the cache ---

  // Neither the identity nor the list depends on the other fields.
  predicate SameLinks(buf: Bufs, buf': Bufs) {
    forall x :: 0 <= x <= HEAD ==> buf'[x].next == buf[x].next && buf'[x].prev == buf[x].prev
  }

  lemma LinksKeep(buf: Bufs, buf': Bufs, when: Times)
    requires Ring(buf, when, NONE) && SameLinks(buf, buf')
    ensures Ring(buf', when, NONE)
  {
    hide Follows;
    forall x | 0 <= x <= HEAD ensures Linked(buf', NONE, x) { assert Linked(buf, NONE, x); }
  }

  // Buffers in use keep their block.
  predicate InUseKept(buf: Bufs, buf': Bufs) {
    forall x :: 0 <= x < NBUF && buf[x].refcnt > 0 ==> Same(buf'[x], buf[x].dev, buf[x].blockno)
  }

  class BCache {
    var buf: Bufs
    ghost var when: Times
    ghost var clock: nat

    ghost predicate Valid()
      reads this
    {
      && Ring(buf, when, NONE) && Distinct(when) && Unique(buf)
      && forall x :: 0 <= x < NBUF ==> when[x] <= clock && buf[x].refcnt >= 0
    }

    // binit
    constructor ()
      ensures Valid() && forall x :: 0 <= x < NBUF ==> Blank(buf[x])
    {
      var all: Bufs := seq(NBUF + 1, _ => Buf(0, 0, 0, false, 0, 0));
      all := all[HEAD := all[HEAD].(prev := HEAD, next := HEAD)];
      var b := 0;
      while b < NBUF
        invariant b <= NBUF && Building(all, b)
        invariant forall x :: 0 <= x <= HEAD ==> Blank(all[x])
      {
        BuildStep(all, b);
        all := Pushed(all, b);
        b := b + 1;
      }
      BuiltRing(all);
      buf, when, clock := all, Identity(), NBUF;
    }

    // A buffer for the block: the one that holds it, or else the one that was released
    // longest ago among those that nobody uses; HEAD stands for the panic when there is none.
    // The caller then waits for the buffer's sleep lock.
    method Bget(dev: nat, blockno: nat) returns (b: nat)
      requires Valid()
      modifies this`buf
      ensures Valid() && InUseKept(old(buf), buf)
      ensures b == HEAD ==> buf == old(buf) && forall x :: 0 <= x < NBUF ==>
                              !Same(buf[x], dev, blockno) && buf[x].refcnt > 0
      ensures b != HEAD ==> b < NBUF && Same(buf[b], dev, blockno)
      ensures b != HEAD && Same(old(buf)[b], dev, blockno) ==>
                buf == old(buf)[b := old(buf)[b].(refcnt := old(buf)[b].refcnt + 1)]
      ensures b != HEAD && !Same(old(buf)[b], dev, blockno) ==>
                && (forall x :: 0 <= x < NBUF ==> !Same(old(buf)[x], dev, blockno)) && old(buf)[b].refcnt == 0
                && (forall x :: 0 <= x < NBUF && old(buf)[x].refcnt == 0 ==> when[b] <= when[x])
                && buf == old(buf)[b := old(buf)[b].(dev := dev, blockno := blockno, valid := false, refcnt := 1)]
    {
      hide Ring, Follows, Distinct, Linked;
      b := Find(dev, blockno);
      if b != HEAD {
        buf := buf[b := buf[b].(refcnt := buf[b].refcnt + 1)];
        LinksKeep(old(buf), buf, when);
        return;
      }
      b := FindUnused();
      if b != HEAD {
        buf := buf[b := buf[b].(dev := dev, blockno := blockno, valid := false, refcnt := 1)];
        LinksKeep(old(buf), buf, when);
      }
    }

    // The first loop of bget: from the front of the list.
    method Find(dev: nat, blockno: nat) returns (b: nat)
      requires Valid()
      ensures b <= HEAD && (b != HEAD ==> Same(buf[b], dev, blockno))
      ensures b == HEAD ==> forall x :: 0 <= x < NBUF ==> !Same(buf[x], dev, blockno)
    {
      hide Ring, Follows, Distinct, Unique;
      RingAt(buf, when, HEAD);
      FrontStart(buf, when, dev, blockno);
      b := buf[HEAD].next;
      while b != HEAD
        invariant b <= HEAD && NoneBefore(buf, when, b, dev, blockno)
        decreases if b == HEAD then 0 else when[b] + 1
      {
        if Same(buf[b], dev, blockno) {
          return;
        }
        RingAt(buf, when, b);
        FrontStep(buf, when, b, dev, blockno);
        b := buf[b].next;
      }
    }

    // The second loop: from the back.
    method FindUnused() returns (b: nat)
      requires Valid()
      ensures b <= HEAD && (b != HEAD ==> buf[b].refcnt == 0)
      ensures b != HEAD ==> forall x :: 0 <= x < NBUF && buf[x].refcnt == 0 ==> when[b] <= when[x]
      ensures b == HEAD ==> forall x :: 0 <= x < NBUF ==> buf[x].refcnt > 0
    {
      hide Ring, Follows, Distinct, Unique;
      RingAt(buf, when, HEAD);
      BackStart(buf, when);
      b := buf[HEAD].prev;
      while b != HEAD
        invariant b <= HEAD && UsedAfter(buf, when, b) && forall x :: 0 <= x < NBUF ==> buf[x].refcnt >= 0
        decreases if b == HEAD then 0 else clock + 1 - when[b]
      {
        if buf[b].refcnt == 0 {
          return;
        }
        RingAt(buf, when, b);
        BackStep(buf, when, b);
        b := buf[b].prev;
      }
    }

    // A user of b lets go of it; after the last one it becomes the most recently used.
    method Brelse(b: nat)
      requires Valid() && b < NBUF && buf[b].refcnt > 0
      modifies this
      ensures Valid()
      ensures forall x :: 0 <= x < NBUF ==>
                && Same(buf[x], old(buf)[x].dev, old(buf)[x].blockno) && buf[x].valid == old(buf)[x].valid
                && buf[x].refcnt == old(buf)[x].refcnt - (if x == b then 1 else 0)
      ensures if buf[b].refcnt > 0 then when == old(when)
              else when == old(when)[b := when[b]] && forall x :: 0 <= x < NBUF && x != b ==> when[x] < when[b]
    {
      hide Ring, Follows, Linked, Pushed, Unlinked;
      buf := buf[b := buf[b].(refcnt := buf[b].refcnt - 1)];
      LinksKeep(old(buf), buf, when);
      if buf[b].refcnt == 0 {
        UnlinkedRing(buf, when, b);
        PushedRing(Unlinked(buf, b), when, b, clock + 1);
        MovedFields(buf, b);
        buf := Pushed(Unlinked(buf, b), b);
        when, clock := when[b := clock + 1], clock + 1;
      }
    }

    // The contents have been read.
    method MarkValid(b: nat)
      requires Valid() && b < NBUF
      modifies this`buf
      ensures Valid() && buf == old(buf)[b := old(buf)[b].(valid := true)]
    {
      hide Ring, Follows, Linked, Distinct;
      buf := buf[b := buf[b].(valid := true)];
      LinksKeep(old(buf), buf, when);
    }

    method Bpin(b: nat)
      requires Valid() && b < NBUF
      modifies this`buf
      ensures Valid() && buf == old(buf)[b := old(buf)[b].(refcnt := old(buf)[b].refcnt + 1)]
    {
      hide Ring, Follows, Linked, Distinct;
      buf := buf[b := buf[b].(refcnt := buf[b].refcnt + 1)];
      LinksKeep(old(buf), buf, when);
    }

    method Bunpin(b: nat)
      requires Valid() && b < NBUF && buf[b].refcnt > 0
      modifies this`buf
      ensures Valid() && buf == old(buf)[b := old(buf)[b].(refcnt := old(buf)[b].refcnt - 1)]
    {
      hide Ring, Follows, Linked, Distinct;
      buf := buf[b := buf[b].(refcnt := buf[b].refcnt - 1)];
      LinksKeep(old(buf), buf, when);
    }
  }

  lemma RingAt(buf: Bufs, when: Times, x: nat)
    requires Ring(buf, when, NONE) && x <= HEAD
    ensures Linked(buf, NONE, x) && Follows(when, NONE, x, buf[x].next)
  {
  }

  // The buffers before b in the list do not hold the block.
  ghost predicate NoneBefore(buf: Bufs, when: Times, b: nat, dev: nat, blockno: nat)
    requires b <= HEAD
  {
    forall x :: 0 <= x < NBUF && (b == HEAD || when[x] > when[b]) ==> !Same(buf[x], dev, blockno)
  }

  lemma FrontStart(buf: Bufs, when: Times, dev: nat, blockno: nat)
    requires Ring(buf, when, NONE)
    ensures buf[HEAD].next <= HEAD && NoneBefore(buf, when, buf[HEAD].next, dev, blockno)
  {
    hide Linked;
    assert Follows(when, NONE, HEAD, buf[HEAD].next);
    assert After(when, HEAD, 0);
    assert forall x :: 0 <= x < NBUF ==> x != NONE && After(when, HEAD, x);
  }

  lemma FrontStep(buf: Bufs, when: Times, b: nat, dev: nat, blockno: nat)
    requires Ring(buf, when, NONE) && Distinct(when) && b < NBUF
    requires NoneBefore(buf, when, b, dev, blockno) && !Same(buf[b], dev, blockno)
    ensures buf[b].next <= HEAD && NoneBefore(buf, when, buf[b].next, dev, blockno)
    ensures buf[b].next != HEAD ==> when[buf[b].next] < when[b]
  {
    hide Linked, Same;
    var q := buf[b].next;
    assert Follows(when, NONE, b, q);
    forall x | 0 <= x < NBUF && (q == HEAD || when[x] > when[q]) ensures !Same(buf[x], dev, blockno) {
      assert x != NONE && (x != b ==> when[x] != when[b]);
      assert !After(when, b, x);
    }
  }

  // The buffers after b in the list are all in use.
  ghost predicate UsedAfter(buf: Bufs, when: Times, b: nat)
    requires b <= HEAD
  {
    forall x :: 0 <= x < NBUF && After(when, b, x) ==> buf[x].refcnt > 0
  }

  lemma BackStart(buf: Bufs, when: Times)
    requires Ring(buf, when, NONE)
    ensures buf[HEAD].prev <= HEAD && UsedAfter(buf, when, buf[HEAD].prev)
  {
    assert Linked(buf, NONE, HEAD);
    var p := buf[HEAD].prev;
    assert Follows(when, NONE, p, HEAD);
    forall x | 0 <= x < NBUF ensures !After(when, p, x) { assert x != NONE; }
  }

  lemma BackStep(buf: Bufs, when: Times, b: nat)
    requires Ring(buf, when, NONE) && Distinct(when) && b < NBUF && UsedAfter(buf, when, b) && buf[b].refcnt > 0
    ensures buf[b].prev <= HEAD && UsedAfter(buf, when, buf[b].prev)
    ensures buf[b].prev != HEAD ==> when[buf[b].prev] > when[b]
  {
    assert Linked(buf, NONE, b);
    var p := buf[b].prev;
    assert Follows(when, NONE, p, b);
    forall x | 0 <= x < NBUF && After(when, p, x) ensures buf[x].refcnt > 0 {
      assert x != NONE && (x != b ==> when[x] != when[b]);
      assert x != b ==> After(when, b, x);
    }
  }

  lemma MovedFields(buf: Bufs, b: nat)
    requires b < NBUF && buf[b].next <= HEAD && buf[b].prev <= HEAD && Unlinked(buf, b)[HEAD].next <= HEAD
    ensures var r := Pushed(Unlinked(buf, b), b);
            forall x :: 0 <= x < NBUF ==>
              r[x].dev == buf[x].dev && r[x].blockno == buf[x].blockno && r[x].valid == buf[x].valid && r[x].refcnt == buf[x].refcnt
  {
  }

  predicate Blank(b: Buf) { b.dev == 0 && b.refcnt == 0 && !b.valid }

  function Identity(): (w: Times)
    ensures forall i :: 0 <= i < NBUF ==> w[i] == i
  {
    seq(NBUF, i requires 0 <= i < NBUF => i)
  }

  // The first b buffers are on the list, the last of them in front.
  predicate Built(buf: Bufs, b: nat, x: nat)
    requires x <= HEAD
  {
    && buf[x].next == (if b == 0 || x == 0 then HEAD else if x == HEAD then b - 1 else x - 1)
    && buf[x].prev == (if b == 0 || x == b - 1 then HEAD else if x == HEAD then 0 else x + 1)
  }

  predicate Building(buf: Bufs, b: nat) { Built(buf, b, HEAD) && forall x :: 0 <= x < b && x < NBUF ==> Built(buf, b, x) }

  lemma BuildStep(buf: Bufs, b: nat)
    requires Building(buf, b) && b < NBUF
    ensures buf[HEAD].next <= HEAD && Building(Pushed(buf, b), b + 1)
    ensures (forall x :: 0 <= x <= HEAD ==> Blank(buf[x])) ==> forall x :: 0 <= x <= HEAD ==> Blank(Pushed(buf, b)[x])
  {
    var c, r := b + 1, Pushed(buf, b);
    forall x | 0 <= x < c ensures Built(r, c, x) {
      if x < b { assert Built(buf, b, x); }
    }
  }

  lemma BuiltRing(buf: Bufs)
    requires Building(buf, NBUF)
    ensures Ring(buf, Identity(), NONE) && Distinct(Identity())
  {
    forall x | 0 <= x <= HEAD ensures Linked(buf, NONE, x) && Follows(Identity(), NONE, x, buf[x].next) {
      assert Built(buf, NBUF, x);
      if buf[x].next < HEAD { assert Built(buf, NBUF, buf[x].next); }
      if buf[x].prev < HEAD { assert Built(buf, NBUF, buf[x].prev); }
    }
  }
}
