/**
 kernel/virtio_disk.c: descriptors, the two rings shared with the device, and the requests in
 flight (sections 2.6 and 5.2 of the Virtual I/O Device specification, version 1.1).
 */
module Virtio {
  import opened Basics
  const NUM: nat := 8
  const UINT16: nat := 0x1_0000

  datatype Desc = Desc(hasNext: bool, next: nat)

  // b: the buffer of the request; done: the status byte that the device writes, 0 on success.
  datatype Info = Info(b: int, status: int)

  // Where a request is: on the available ring, taken by the device, on the used ring, or
  // seen by the interrupt handler.
  datatype Phase = Posted | Taken | Completed | Seen

  // --- descriptors ---

  // Entries [from, from + n) of a ring hold the heads in q; from is a 16-bit index.
  ghost predicate Window(ring: seq<nat>, from: nat, q: seq<nat>)
    requires |ring| == NUM
  {
    forall i :: 0 <= i < |q| ==> ring[(from + i) % NUM] == q[i]
  }

  lemma {:induction false} SetBound(s: set<nat>, n: nat)
    requires forall x :: x in s ==> x < n
    ensures |s| <= n
    decreases n
  {
    if n > 0 {
      SetBound(s - {n - 1}, n - 1);
      if n - 1 in s { assert s == (s - {n - 1}) + {n - 1}; } else { assert s == s - {n - 1}; }
    } else {
      assert s == {};
    }
  }

  // Descriptors, each once.
  ghost predicate Heads(q: seq<nat>) { Distinct(q) && forall i :: 0 <= i < |q| ==> q[i] < NUM }

  ghost function Elements(q: seq<nat>): set<nat> { set x | x in q }

  lemma {:induction false} DistinctSize(q: seq<nat>)
    requires Heads(q)
    ensures |Elements(q)| == |q|
  {
    if q != [] {
      var n := |q| - 1;
      DistinctSize(q[..n]);
      assert q == q[..n] + [q[n]];
      assert q[n] !in q[..n];
      assert Elements(q) == Elements(q[..n]) + {q[n]};
    }
  }

  // Heads descriptors that do not include h are fewer than NUM.
  lemma RoomFor(q: seq<nat>, h: nat)
    requires Heads(q) && h < NUM && h !in q
    ensures |q| < NUM
  {
    DistinctSize(q);
    SetBound(Elements(q) + {h}, NUM);
  }

  lemma DistinctPush(q: seq<nat>, h: nat)
    requires Heads(q) && h < NUM && h !in q
    ensures Heads(q + [h]) && forall x :: x in q + [h] <==> x in q || x == h
  {
  }

  lemma DistinctPop(q: seq<nat>)
    requires Heads(q) && q != []
    ensures Heads(q[1..]) && q[0] !in q[1..] && forall x :: x in q <==> x in q[1..] || x == q[0]
  {
    assert q == [q[0]] + q[1..];
  }

  lemma Slots(from: nat, i: nat, j: nat)
    requires i < j < from + NUM && from <= i
    ensures i % NUM != j % NUM
  {
  }

  lemma Wrapped(x: nat, i: nat)
    ensures (x % UINT16 + i) % NUM == (x + i) % NUM
  {
    assert x == x / UINT16 * UINT16 + x % UINT16;
    assert x / UINT16 * UINT16 == (x / UINT16 * (UINT16 / NUM)) * NUM;
  }

  lemma WindowPush(ring: seq<nat>, from: nat, q: seq<nat>, h: nat)
    requires |ring| == NUM && Window(ring, from, q) && |q| < NUM
    ensures Window(ring[(from + |q|) % NUM := h], from, q + [h])
  {
    var r := ring[(from + |q|) % NUM := h];
    forall i | 0 <= i < |q| + 1 ensures r[(from + i) % NUM] == (q + [h])[i] {
      if i < |q| { Slots(from, from + i, from + |q|); }
    }
  }

  // ring[idx % NUM] = h; idx += 1, where idx wraps around at 16 bits.
  lemma RingPush(ring: seq<nat>, from: nat, idx: nat, q: seq<nat>, h: nat)
    requires |ring| == NUM && Window(ring, from, q) && |q| < NUM && idx == (from + |q|) % UINT16
    ensures Window(ring[idx % NUM := h], from, q + [h]) && (idx + 1) % UINT16 == (from + |q + [h]|) % UINT16
  {
    Wrapped(from + |q|, 0);
    WindowPush(ring, from, q, h);
  }

  lemma WindowPop(ring: seq<nat>, from: nat, q: seq<nat>)
    requires |ring| == NUM && Window(ring, from, q) && q != []
    ensures ring[from % NUM] == q[0] && Window(ring, (from + 1) % UINT16, q[1..])
  {
    assert ring[(from + 0) % NUM] == q[0];
    forall i | 0 <= i < |q[1..]| ensures ring[((from + 1) % UINT16 + i) % NUM] == q[1..][i] {
      Wrapped(from + 1, i);
      assert ring[(from + (i + 1)) % NUM] == q[i + 1];
    }
  }

  lemma RingPop(ring: seq<nat>, from: nat, idx: nat, q: seq<nat>)
    requires |ring| == NUM && Window(ring, from, q) && q != [] && idx == (from + |q|) % UINT16
    ensures ring[from % NUM] == q[0] && Window(ring, (from + 1) % UINT16, q[1..])
    ensures idx == ((from + 1) % UINT16 + |q[1..]|) % UINT16
  {
    WindowPop(ring, from, q);
  }

  // --- the state ---

  // availIdx, usedIdx and seenIdx are disk.avail->idx, disk.used->idx and disk.used_idx;
  // takenIdx is the device's place in the available ring.  busy: the buffers with disk == 1.
  datatype State = State(
    free: seq<bool>, desc: seq<Desc>, info: seq<Info>, busy: set<int>,
    avail: seq<nat>, availIdx: nat, takenIdx: nat,
    used: seq<nat>, usedIdx: nat, seenIdx: nat)

  // The requests in flight, by the head of their chain; the heads on the available ring that
  // the device has not taken, and those on the used ring that were not seen.
  datatype Flight = Flight(phase: map<nat, Phase>, owner: seq<int>, posted: seq<nat>, done: seq<nat>)

  function Second(s: State, h: nat): nat
    requires |s.desc| == NUM
  {
    if h < NUM then s.desc[h].next else 0
  }

  function Third(s: State, h: nat): nat
    requires |s.desc| == NUM
  {
    Second(s, Second(s, h))
  }

  predicate InChain(s: State, h: nat, d: nat)
    requires |s.desc| == NUM
  {
    d == h || d == Second(s, h) || d == Third(s, h)
  }

  // h heads a chain of three descriptors of its own.
  predicate Chain(s: State, f: Flight, h: nat)
    requires |s.desc| == NUM && |f.owner| == NUM
  {
    var b, c := Second(s, h), Third(s, h);
    && h < NUM && b < NUM && c < NUM && h != b && h != c && b != c
    && s.desc[h].hasNext && s.desc[b].hasNext && !s.desc[c].hasNext
    && f.owner[h] == h && f.owner[b] == h && f.owner[c] == h
  }

  predicate Sizes(s: State, f: Flight) {
    && |s.free| == |s.desc| == |s.info| == |s.avail| == |s.used| == NUM && |f.owner| == NUM
    && s.takenIdx < UINT16 && s.seenIdx < UINT16
  }

  // Every descriptor is free or belongs to one request in flight.
  ghost predicate Partition(s: State, f: Flight)
    requires Sizes(s, f)
  {
    && (forall d :: 0 <= d < NUM ==> (s.free[d] <==> f.owner[d] == -1))
    && (forall d :: 0 <= d < NUM && f.owner[d] != -1 ==>
          0 <= f.owner[d] && f.owner[d] in f.phase && InChain(s, f.owner[d], d))
    && (forall h :: h in f.phase ==> Chain(s, f, h))
  }

  // The buffer of a request is busy until its completion was seen.
  ghost predicate Buffers(s: State, f: Flight)
    requires Sizes(s, f) && forall h :: h in f.phase ==> h < NUM
  {
    && (forall h :: h in f.phase ==> (s.info[h].b in s.busy <==> f.phase[h] != Seen))
    && (forall g, h :: g in f.phase && h in f.phase && s.info[g].b == s.info[h].b ==> g == h)
    && (forall h :: h in f.phase && f.phase[h] == Completed ==> s.info[h].status == 0)
    && BusyKnown(s, f)
  }

  // Only buffers of requests in flight are busy.
  ghost predicate BusyKnown(s: State, f: Flight)
    requires Sizes(s, f) && forall h :: h in f.phase ==> h < NUM
  {
    forall b :: b in s.busy ==> exists h :: h in f.phase && s.info[h].b == b
  }

  lemma BusyKeep(s: State, f: Flight, t: State, g: Flight)
    requires Sizes(s, f) && Sizes(t, g) && t.busy <= s.busy
    requires forall h :: h in f.phase ==> h < NUM && h in g.phase && t.info[h].b == s.info[h].b
    requires forall h :: h in g.phase ==> h < NUM
    requires BusyKnown(s, f)
    ensures BusyKnown(t, g)
  {
    forall x | x in t.busy ensures exists y :: y in g.phase && t.info[y].b == x {
      var y :| y in f.phase && s.info[y].b == x;
      assert y in g.phase && t.info[y].b == x;
    }
  }

  // The heads on the rings are those of the requests that are posted or completed.
  ghost predicate Queues(f: Flight) {
    && Heads(f.posted) && Heads(f.done)
    && (forall h :: h in f.posted <==> h in f.phase && f.phase[h] == Posted)
    && (forall h :: h in f.done <==> h in f.phase && f.phase[h] == Completed)
  }

  ghost predicate Rings(s: State, f: Flight)
    requires Sizes(s, f)
  {
    && Queues(f)
    && Window(s.avail, s.takenIdx, f.posted) && s.availIdx == (s.takenIdx + |f.posted|) % UINT16
    && Window(s.used, s.seenIdx, f.done) && s.usedIdx == (s.seenIdx + |f.done|) % UINT16
  }

  ghost predicate Inv(s: State, f: Flight) {
    Sizes(s, f) && Partition(s, f) && Buffers(s, f) && Rings(s, f)
  }

  // --- the steps ---

  // virtio_disk_rw up to its wait, with the descriptors a, b and c.
  function Submitted(s: State, a: nat, b: nat, c: nat, buf: int): State
    requires |s.free| == |s.desc| == |s.info| == |s.avail| == NUM && a < NUM && b < NUM && c < NUM
  {
    s.(free := s.free[a := false][b := false][c := false],
       desc := s.desc[a := Desc(true, b)][b := Desc(true, c)][c := Desc(false, 0)],
       info := s.info[a := Info(buf, 0xff)],
       busy := s.busy + {buf},
       avail := s.avail[s.availIdx % NUM := a],
       availIdx := (s.availIdx + 1) % UINT16)
  }

  function Joined(f: Flight, a: nat, b: nat, c: nat): Flight
    requires |f.owner| == NUM && a < NUM && b < NUM && c < NUM
  {
    Flight(f.phase[a := Posted], f.owner[a := a][b := a][c := a], f.posted + [a], f.done)
  }

  lemma SubmittedInv(s: State, f: Flight, a: nat, b: nat, c: nat, buf: int)
    requires Inv(s, f) && a < NUM && b < NUM && c < NUM && a != b && a != c && b != c
    requires s.free[a] && s.free[b] && s.free[c] && forall h :: h in f.phase ==> s.info[h].b != buf
    ensures Inv(Submitted(s, a, b, c, buf), Joined(f, a, b, c))
  {
    SubmittedPartition(s, f, a, b, c, buf);
    SubmittedRings(s, f, a, b, c, buf);
    SubmittedBuffers(s, f, a, b, c, buf);
  }

  // A chain none of whose descriptors is touched.
  lemma ChainKeep(s: State, f: Flight, t: State, g: Flight, h: nat)
    requires Sizes(s, f) && Sizes(t, g) && Chain(s, f, h)
    requires forall d :: 0 <= d < NUM && f.owner[d] == h ==> t.desc[d] == s.desc[d] && g.owner[d] == h
    ensures Chain(t, g, h) && forall d :: InChain(s, h, d) ==> InChain(t, h, d)
  {
  }

  lemma SubmittedChains(s: State, f: Flight, a: nat, b: nat, c: nat, buf: int, h: nat)
    requires Inv(s, f) && a < NUM && b < NUM && c < NUM && a != b && a != c && b != c
    requires s.free[a] && s.free[b] && s.free[c] && (h in f.phase || h == a)
    ensures Sizes(Submitted(s, a, b, c, buf), Joined(f, a, b, c))
    ensures Chain(Submitted(s, a, b, c, buf), Joined(f, a, b, c), h) && a !in f.phase
    ensures h in f.phase ==> forall d :: InChain(s, h, d) ==> InChain(Submitted(s, a, b, c, buf), h, d)
  {
    hide Buffers, Rings;
    assert f.owner[a] == -1 && f.owner[b] == -1 && f.owner[c] == -1;
    assert a in f.phase ==> Chain(s, f, a);
    if h in f.phase {
      assert Chain(s, f, h);
      ChainKeep(s, f, Submitted(s, a, b, c, buf), Joined(f, a, b, c), h);
    }
  }

  lemma SubmittedPartition(s: State, f: Flight, a: nat, b: nat, c: nat, buf: int)
    requires Inv(s, f) && a < NUM && b < NUM && c < NUM && a != b && a != c && b != c
    requires s.free[a] && s.free[b] && s.free[c]
    ensures Sizes(Submitted(s, a, b, c, buf), Joined(f, a, b, c))
    ensures Partition(Submitted(s, a, b, c, buf), Joined(f, a, b, c)) && a !in f.phase
  {
    hide Buffers, Rings, Chain;
    var t, g := Submitted(s, a, b, c, buf), Joined(f, a, b, c);
    SubmittedChains(s, f, a, b, c, buf, a);
    forall h | h in f.phase ensures Chain(t, g, h) && forall d :: InChain(s, h, d) ==> InChain(t, h, d) {
      SubmittedChains(s, f, a, b, c, buf, h);
    }
  }

  lemma SubmittedRings(s: State, f: Flight, a: nat, b: nat, c: nat, buf: int)
    requires Inv(s, f) && a < NUM && b < NUM && c < NUM && a !in f.phase
    ensures Sizes(Submitted(s, a, b, c, buf), Joined(f, a, b, c))
    ensures Rings(Submitted(s, a, b, c, buf), Joined(f, a, b, c))
  {
    hide Buffers, Partition, Window, Queues;
    JoinedQueues(f, a, b, c);
    RingPush(s.avail, s.takenIdx, s.availIdx, f.posted, a);
  }

  lemma JoinedQueues(f: Flight, a: nat, b: nat, c: nat)
    requires Queues(f) && |f.owner| == NUM && a < NUM && b < NUM && c < NUM && a !in f.phase
    ensures Queues(Joined(f, a, b, c)) && |f.posted| < NUM
  {
    hide Heads;
    RoomFor(f.posted, a);
    DistinctPush(f.posted, a);
    var q := f.posted + [a];
    assert forall h :: h in q <==> h in f.posted || h == a;
  }

  lemma SubmittedBuffers(s: State, f: Flight, a: nat, b: nat, c: nat, buf: int)
    requires Inv(s, f) && a < NUM && b < NUM && c < NUM && a !in f.phase && forall h :: h in f.phase ==> s.info[h].b != buf
    requires forall h :: h in f.phase ==> h < NUM
    ensures Sizes(Submitted(s, a, b, c, buf), Joined(f, a, b, c))
    ensures Buffers(Submitted(s, a, b, c, buf), Joined(f, a, b, c))
  {
    hide Rings, Partition, BusyKnown;
    SubmittedBusy(s, f, a, b, c, buf);
  }

  lemma SubmittedBusy(s: State, f: Flight, a: nat, b: nat, c: nat, buf: int)
    requires Sizes(s, f) && a < NUM && b < NUM && c < NUM && a !in f.phase
    requires (forall h :: h in f.phase ==> h < NUM) && BusyKnown(s, f)
    ensures Sizes(Submitted(s, a, b, c, buf), Joined(f, a, b, c))
    ensures forall h :: h in Joined(f, a, b, c).phase ==> h < NUM
    ensures BusyKnown(Submitted(s, a, b, c, buf), Joined(f, a, b, c))
  {
    var t, g := Submitted(s, a, b, c, buf), Joined(f, a, b, c);
    forall x | x in t.busy ensures exists h :: h in g.phase && t.info[h].b == x {
      if x in s.busy {
        var h :| h in f.phase && s.info[h].b == x;
        assert h in g.phase && t.info[h].b == x;
      } else {
        assert a in g.phase && t.info[a].b == x;
      }
    }
  }

  // The device takes the next head from the available ring.
  function Take(s: State): State { s.(takenIdx := (s.takenIdx + 1) % UINT16) }

  lemma TakeInv(s: State, f: Flight)
    requires Inv(s, f) && f.posted != []
    ensures |s.avail| == NUM && s.avail[s.takenIdx % NUM] == f.posted[0] && f.posted[0] in f.phase
    ensures Inv(Take(s), f.(phase := f.phase[f.posted[0] := Taken], posted := f.posted[1..]))
  {
    hide Partition, Buffers, Rings;
    TakeRings(s, f);
    var h := f.posted[0];
    PhaseOnly(s, f, Take(s), f.(phase := f.phase[h := Taken], posted := f.posted[1..]), h, Taken);
  }

  lemma TakeRings(s: State, f: Flight)
    requires Inv(s, f) && f.posted != []
    ensures s.avail[s.takenIdx % NUM] == f.posted[0] && f.posted[0] in f.phase && f.phase[f.posted[0]] == Posted
    ensures Rings(Take(s), f.(phase := f.phase[f.posted[0] := Taken], posted := f.posted[1..]))
  {
    hide Window, Queues, Partition, Buffers;
    RingPop(s.avail, s.takenIdx, s.availIdx, f.posted);
    TakenQueues(f);
  }

  lemma TakenQueues(f: Flight)
    requires Queues(f) && f.posted != []
    ensures f.posted[0] in f.phase && f.phase[f.posted[0]] == Posted
    ensures Queues(f.(phase := f.phase[f.posted[0] := Taken], posted := f.posted[1..]))
  {
    hide Heads;
    DistinctPop(f.posted);
    assert f.posted[0] in f.posted;
  }

  // Descriptors and their owners are not touched.
  lemma PartitionKeep(s: State, f: Flight, t: State, g: Flight)
    requires Sizes(s, f) && Sizes(t, g) && Partition(s, f)
    requires t.free == s.free && t.desc == s.desc && g.owner == f.owner && g.phase.Keys == f.phase.Keys
    ensures Partition(t, g) && forall h :: h in f.phase ==> h < NUM && h in g.phase
  {
    forall h | h in f.phase ensures h < NUM && Chain(t, g, h) { assert Chain(s, f, h); }
    assert forall d, o :: InChain(s, o, d) ==> InChain(t, o, d);
  }

  // A change of phase, short of Seen, that leaves the descriptors and buffers alone.
  lemma PhaseOnly(s: State, f: Flight, t: State, g: Flight, h: nat, p: Phase)
    requires Inv(s, f) && h in f.phase && f.phase[h] != Seen && p != Seen && Sizes(t, g)
    requires g.phase == f.phase[h := p] && g.owner == f.owner
    requires t.free == s.free && t.desc == s.desc && t.busy == s.busy
    requires t.info == s.info || (h < NUM && t.info == s.info[h := s.info[h].(status := 0)])
    requires p == Completed ==> h < NUM && t.info[h].status == 0
    ensures Partition(t, g) && (forall x :: x in g.phase ==> x < NUM) && Buffers(t, g)
  {
    hide Rings, Partition, BusyKnown;
    assert g.phase.Keys == f.phase.Keys;
    PartitionKeep(s, f, t, g);
    BusyKeep(s, f, t, g);
  }

  // The device finishes a request that it took, in any order, and posts it on the used ring.
  function Completed1(s: State, h: nat): State
    requires |s.used| == |s.info| == NUM && h < NUM
  {
    s.(info := s.info[h := s.info[h].(status := 0)], used := s.used[s.usedIdx % NUM := h], usedIdx := (s.usedIdx + 1) % UINT16)
  }

  lemma CompletedInv(s: State, f: Flight, h: nat)
    requires Inv(s, f) && h in f.phase && f.phase[h] == Taken
    ensures h < NUM && Inv(Completed1(s, h), f.(phase := f.phase[h := Completed], done := f.done + [h]))
  {
    hide Partition, Buffers, Rings;
    PartitionKeep(s, f, s, f);
    CompletedRings(s, f, h);
    PhaseOnly(s, f, Completed1(s, h), f.(phase := f.phase[h := Completed], done := f.done + [h]), h, Completed);
  }

  lemma CompletedRings(s: State, f: Flight, h: nat)
    requires Inv(s, f) && h in f.phase && f.phase[h] == Taken && h < NUM
    ensures Rings(Completed1(s, h), f.(phase := f.phase[h := Completed], done := f.done + [h]))
  {
    hide Window, Queues, Buffers, Partition;
    DoneQueues(f, h);
    RingPush(s.used, s.seenIdx, s.usedIdx, f.done, h);
  }

  lemma DoneQueues(f: Flight, h: nat)
    requires Queues(f) && h in f.phase && f.phase[h] == Taken && h < NUM
    ensures Queues(f.(phase := f.phase[h := Completed], done := f.done + [h])) && |f.done| < NUM
  {
    hide Heads;
    RoomFor(f.done, h);
    DistinctPush(f.done, h);
  }

  // One pass of the loop of virtio_disk_intr.
  function Seen1(s: State): State
    requires |s.used| == |s.info| == NUM && s.used[s.seenIdx % NUM] < NUM
  {
    s.(busy := s.busy - {s.info[s.used[s.seenIdx % NUM]].b}, seenIdx := (s.seenIdx + 1) % UINT16)
  }

  // The loop goes on exactly while something on the used ring was not seen.
  lemma IndexesDiffer(s: State, f: Flight)
    requires Inv(s, f)
    ensures s.seenIdx != s.usedIdx <==> f.done != []
  {
    hide Partition, Buffers, Window;
    DistinctSize(f.done);
    SetBound(Elements(f.done), NUM);
  }

  lemma SeenInv(s: State, f: Flight)
    requires Inv(s, f) && f.done != []
    ensures |s.used| == |s.info| == NUM && s.used[s.seenIdx % NUM] == f.done[0] < NUM
    ensures s.info[f.done[0]].status == 0 && f.done[0] in f.phase && f.phase[f.done[0]] == Completed
    ensures Inv(Seen1(s), f.(phase := f.phase[f.done[0] := Seen], done := f.done[1..]))
  {
    hide Partition, Rings;
    PartitionKeep(s, f, s, f);
    SeenRings(s, f);
    SeenParts(s, f, Seen1(s), f.(phase := f.phase[f.done[0] := Seen], done := f.done[1..]), f.done[0]);
  }

  lemma SeenRings(s: State, f: Flight)
    requires Inv(s, f) && f.done != []
    ensures s.used[s.seenIdx % NUM] == f.done[0] < NUM && f.done[0] in f.phase && f.phase[f.done[0]] == Completed
    ensures Rings(Seen1(s), f.(phase := f.phase[f.done[0] := Seen], done := f.done[1..]))
  {
    hide Window, Queues, Partition, Buffers;
    RingPop(s.used, s.seenIdx, s.usedIdx, f.done);
    SeenQueues(f);
  }

  lemma SeenQueues(f: Flight)
    requires Queues(f) && f.done != []
    ensures f.done[0] < NUM && f.done[0] in f.phase && f.phase[f.done[0]] == Completed
    ensures Queues(f.(phase := f.phase[f.done[0] := Seen], done := f.done[1..]))
  {
    DistinctPop(f.done);
    assert f.done[0] in f.done;
  }

  lemma SeenParts(s: State, f: Flight, t: State, g: Flight, h: nat)
    requires Inv(s, f) && h in f.phase && h < NUM && f.phase[h] != Seen
    requires t == s.(busy := s.busy - {s.info[h].b}, seenIdx := t.seenIdx) && Sizes(t, g)
    requires g == f.(phase := f.phase[h := Seen], done := g.done)
    ensures Partition(t, g) && (forall x :: x in g.phase ==> x < NUM) && Buffers(t, g)
  {
    hide Rings, Partition, BusyKnown;
    assert g.phase.Keys == f.phase.Keys;
    PartitionKeep(s, f, t, g);
    BusyKeep(s, f, t, g);
  }

  // info[h].b = 0; free_chain(h)
  function Freed(s: State, h: nat): State
    requires |s.free| == |s.desc| == |s.info| == NUM && h < NUM && Second(s, h) < NUM && Third(s, h) < NUM
  {
    var b, c := Second(s, h), Third(s, h);
    s.(info := s.info[h := s.info[h].(b := 0)],
       desc := s.desc[h := Desc(false, 0)][b := Desc(false, 0)][c := Desc(false, 0)],
       free := s.free[h := true][b := true][c := true])
  }

  function Left(s: State, f: Flight, h: nat): Flight
    requires |s.desc| == NUM && |f.owner| == NUM && h < NUM && Second(s, h) < NUM && Third(s, h) < NUM
  {
    f.(phase := f.phase - {h}, owner := f.owner[h := -1][Second(s, h) := -1][Third(s, h) := -1])
  }

  lemma FreedInv(s: State, f: Flight, h: nat)
    requires Inv(s, f) && h in f.phase && h < NUM && s.info[h].b !in s.busy
    ensures Chain(s, f, h) && f.phase[h] == Seen && Inv(Freed(s, h), Left(s, f, h))
    ensures forall d :: 0 <= d < NUM ==> (Freed(s, h).free[d] <==> s.free[d] || f.owner[d] == h)
  {
    assert Chain(s, f, h) && f.phase[h] == Seen;
    hide Partition, Buffers, Rings;
    FreedPartition(s, f, h);
    PartitionKeep(s, f, s, f);
    FreedBuffers(s, f, h);
    FreedRings(s, f, h);
  }

  lemma FreedRings(s: State, f: Flight, h: nat)
    requires Inv(s, f) && h in f.phase && Chain(s, f, h) && f.phase[h] == Seen && Sizes(Freed(s, h), Left(s, f, h))
    ensures Rings(Freed(s, h), Left(s, f, h))
  {
    hide Window, Heads, Partition, Buffers;
  }

  lemma FreedChains(s: State, f: Flight, h: nat, x: nat)
    requires Inv(s, f) && h in f.phase && Chain(s, f, h) && x in f.phase && x != h
    ensures Sizes(Freed(s, h), Left(s, f, h)) && Chain(Freed(s, h), Left(s, f, h), x)
    ensures forall d :: InChain(s, x, d) ==> InChain(Freed(s, h), x, d)
  {
    hide Rings, Buffers;
    assert Chain(s, f, x);
    ChainKeep(s, f, Freed(s, h), Left(s, f, h), x);
  }

  lemma FreedPartition(s: State, f: Flight, h: nat)
    requires Inv(s, f) && h in f.phase && Chain(s, f, h)
    ensures Sizes(Freed(s, h), Left(s, f, h)) && Partition(Freed(s, h), Left(s, f, h))
    ensures forall d :: 0 <= d < NUM ==> (Freed(s, h).free[d] <==> s.free[d] || f.owner[d] == h)
  {
    ChainBounds(s, f, h);
    FreedFree(s, f, h);
    hide Rings, Buffers, Chain, Freed, Left, InChain, Second, Third;
    var t, g := Freed(s, h), Left(s, f, h);
    forall x | x in g.phase ensures Chain(t, g, x) && forall d :: InChain(s, x, d) ==> InChain(t, x, d) {
      FreedChains(s, f, h, x);
    }
  }

  lemma ChainBounds(s: State, f: Flight, h: nat)
    requires Sizes(s, f) && Chain(s, f, h)
    ensures h < NUM && Second(s, h) < NUM && Third(s, h) < NUM
  {
  }

  lemma FreedFree(s: State, f: Flight, h: nat)
    requires Inv(s, f) && h in f.phase && Chain(s, f, h)
    ensures Sizes(Freed(s, h), Left(s, f, h))
    ensures forall d :: 0 <= d < NUM ==> (Freed(s, h).free[d] <==> s.free[d] || f.owner[d] == h)
    ensures forall d :: 0 <= d < NUM ==> Left(s, f, h).owner[d] == if f.owner[d] == h then -1 else f.owner[d]
    ensures forall x :: x in Left(s, f, h).phase <==> x in f.phase && x != h
  {
    hide Rings, Buffers, Left, Partition;
    LeftOwner(s, f, h);
    FreedOwn(s, f, h);
  }

  lemma LeftOwner(s: State, f: Flight, h: nat)
    requires Inv(s, f) && h in f.phase && Chain(s, f, h)
    ensures Sizes(Freed(s, h), Left(s, f, h))
    ensures forall d :: 0 <= d < NUM ==> Left(s, f, h).owner[d] == if f.owner[d] == h then -1 else f.owner[d]
    ensures forall x :: x in Left(s, f, h).phase <==> x in f.phase && x != h
  {
    hide Rings, Buffers;
  }

  lemma FreedOwn(s: State, f: Flight, h: nat)
    requires Inv(s, f) && h in f.phase && Chain(s, f, h)
    ensures |Freed(s, h).free| == |s.free| == |f.owner| == NUM
    ensures forall d :: 0 <= d < NUM ==> (Freed(s, h).free[d] <==> s.free[d] || f.owner[d] == h)
  {
    hide Rings, Buffers;
  }

  lemma FreedBuffers(s: State, f: Flight, h: nat)
    requires Inv(s, f) && h in f.phase && Chain(s, f, h) && s.info[h].b !in s.busy
    requires Sizes(Freed(s, h), Left(s, f, h)) && forall x :: x in f.phase ==> x < NUM
    ensures forall x :: x in Left(s, f, h).phase ==> x < NUM
    ensures Buffers(Freed(s, h), Left(s, f, h))
  {
    hide Rings, Partition, Freed, Left;
    LeftInfo(s, f, h);
    var t, g := Freed(s, h), Left(s, f, h);
    forall x | x in t.busy ensures exists y :: y in g.phase && t.info[y].b == x {
      var y :| y in f.phase && s.info[y].b == x;
      assert y in g.phase && t.info[y].b == x;
    }
  }

  lemma LeftInfo(s: State, f: Flight, h: nat)
    requires Inv(s, f) && h in f.phase && Chain(s, f, h)
    ensures |s.info| == NUM && Freed(s, h).busy == s.busy && Freed(s, h).info == s.info[h := s.info[h].(b := 0)]
    ensures forall x :: x in Left(s, f, h).phase <==> x in f.phase && x != h
    ensures forall x :: x in Left(s, f, h).phase ==> Left(s, f, h).phase[x] == f.phase[x]
  {
    hide Rings, Buffers;
  }
}
