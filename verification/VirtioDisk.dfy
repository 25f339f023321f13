/** The driver of kernel/virtio_disk.c, and the device's side of the two rings. */
module VirtioDisk {
  import opened Virtio

  class Disk {
    var free: seq<bool>        // is a descriptor free?
    var desc: seq<Desc>
    var info: seq<Info>
    var busy: set<int>         // the buffers with disk == 1
    var avail: seq<nat>
    var availIdx: nat
    var takenIdx: nat          // the device's place in the available ring
    var used: seq<nat>
    var usedIdx: nat
    var seenIdx: nat           // disk.used_idx
    ghost var f: Flight

    ghost function S(): State
      reads this
    {
      State(free, desc, info, busy, avail, availIdx, takenIdx, used, usedIdx, seenIdx)
    }

    ghost predicate Valid()
      reads this
    {
      Inv(S(), f)
    }

    constructor ()
      ensures Valid() && f.phase == map[] && forall d :: 0 <= d < NUM ==> free[d]
    {
      free, desc := seq(NUM, _ => true), seq(NUM, _ => Desc(false, 0));
      info, busy := seq(NUM, _ => Info(0, 0)), {};
      avail, availIdx, takenIdx := seq(NUM, _ => 0), 0, 0;
      used, usedIdx, seenIdx := seq(NUM, _ => 0), 0, 0;
      f := Flight(map[], seq(NUM, _ => -1), [], []);
    }

    // --- descriptors ---

    // The lowest free descriptor, no longer free; -1 if there is none.
    method AllocDesc() returns (i: int)
      requires |free| == NUM
      modifies this`free
      ensures i == -1 || 0 <= i < NUM
      ensures i == -1 ==> free == old(free) && forall d :: 0 <= d < NUM ==> !free[d]
      ensures i != -1 ==> old(free)[i] && free == old(free)[i := false] && forall d :: 0 <= d < i ==> !free[d]
    {
      i := 0;
      while i < NUM
        invariant 0 <= i <= NUM && free == old(free) && forall d :: 0 <= d < i ==> !free[d]
      {
        if free[i] {
          free := free[i := false];
          return;
        }
        i := i + 1;
      }
      i := -1;
    }

    method FreeDesc(i: nat)
      requires |free| == |desc| == NUM && i < NUM && !free[i]
      modifies this`free, this`desc
      ensures free == old(free)[i := true] && desc == old(desc)[i := Desc(false, 0)]
    {
      desc := desc[i := Desc(false, 0)];
      free := free[i := true];
    }

    // The inner loop of alloc3_desc: gives back what was taken.
    method Unalloc(idx: seq<nat>, ghost free0: seq<bool>, ghost desc0: seq<Desc>)
      requires |free| == |desc| == |free0| == NUM && desc == desc0
      requires forall j :: 0 <= j < |idx| ==> idx[j] < NUM && free0[idx[j]]
      requires forall j, k :: 0 <= j < k < |idx| ==> idx[j] != idx[k]
      requires forall d :: 0 <= d < NUM ==> (free[d] <==> free0[d] && d !in idx)
      modifies this`free, this`desc
      ensures free == free0 && |desc| == NUM && forall d :: 0 <= d < NUM && !free0[d] ==> desc[d] == desc0[d]
    {
      for j := 0 to |idx|
        invariant |free| == |desc| == NUM
        invariant forall d :: 0 <= d < NUM ==> (free[d] <==> free0[d] && d !in idx[j..])
        invariant forall d :: 0 <= d < NUM && !free0[d] ==> desc[d] == desc0[d]
      {
        assert idx[j..] == [idx[j]] + idx[j + 1..];
        FreeDesc(idx[j]);
      }
    }

    // Three different descriptors, or none at all if fewer than three are free.
    method Alloc3Desc() returns (ok: bool, a: nat, b: nat, c: nat)
      requires |free| == |desc| == NUM
      modifies this`free, this`desc
      ensures |desc| == NUM && forall d :: 0 <= d < NUM && !old(free)[d] ==> desc[d] == old(desc)[d]
      ensures ok ==> a < NUM && b < NUM && c < NUM && a != b && a != c && b != c
      ensures ok ==> old(free)[a] && old(free)[b] && old(free)[c] && desc == old(desc)
      ensures ok ==> free == old(free)[a := false][b := false][c := false]
      ensures !ok ==> free == old(free)
      ensures !ok ==> forall x, y, z :: 0 <= x < y < z < NUM ==> !free[x] || !free[y] || !free[z]
    {
      a, b, c := 0, 0, 0;
      var idx: seq<nat> := [];
      for i := 0 to 3
        invariant |idx| == i && desc == old(desc) && |free| == NUM
        invariant forall j :: 0 <= j < i ==> idx[j] < NUM && old(free)[idx[j]]
        invariant forall j, k :: 0 <= j < k < i ==> idx[j] != idx[k]
        invariant forall d :: 0 <= d < NUM ==> (free[d] <==> old(free)[d] && d !in idx)
      {
        var d := AllocDesc();
        if d < 0 {
          FewFree(old(free), idx);
          Unalloc(idx, old(free), old(desc));
          ok := false;
          return;
        }
        idx := idx + [d];
      }
      ok, a, b, c := true, idx[0], idx[1], idx[2];
    }

    // free_chain(h): stops after three descriptors, those of the request.
    method FreeChain(h: nat)
      requires Sizes(S(), f) && Chain(S(), f, h) && !free[h] && !free[Second(S(), h)] && !free[Third(S(), h)]
      modifies this`free, this`desc
      ensures var b, c := old(Second(S(), h)), old(Third(S(), h));
              && free == old(free)[h := true][b := true][c := true]
              && desc == old(desc)[h := Desc(false, 0)][b := Desc(false, 0)][c := Desc(false, 0)]
    {
      ghost var b, c := Second(S(), h), Third(S(), h);
      var i := h;
      while true
        invariant i == h || i == b || i == c
        invariant i == h ==> desc == old(desc) && free == old(free)
        invariant i == b ==> desc == old(desc)[h := Desc(false, 0)] && free == old(free)[h := true]
        invariant i == c ==>
                    && desc == old(desc)[h := Desc(false, 0)][b := Desc(false, 0)]
                    && free == old(free)[h := true][b := true]
        decreases if i == h then 2 else if i == b then 1 else 0
      {
        var flag, nxt := desc[i].hasNext, desc[i].next;
        FreeDesc(i);
        if !flag {
          break;
        }
        i := nxt;
      }
    }

    // --- requests ---

    // virtio_disk_rw for a buffer that is not in use by another request, up to the point where
    // it waits.  If there are no three descriptors it waits before that, and nothing happened.
    method Submit(buf: int) returns (ok: bool, h: nat)
      requires Valid() && forall x :: x in f.phase ==> info[x].b != buf
      modifies this
      ensures Valid()
      ensures !ok ==> free == old(free) && f == old(f) && busy == old(busy)
      ensures !ok ==> forall x, y, z :: 0 <= x < y < z < NUM ==> !free[x] || !free[y] || !free[z]
      ensures ok ==> h < NUM && h !in old(f).phase && f.phase == old(f).phase[h := Posted] && f.posted == old(f).posted + [h]
      ensures ok ==> info[h].b == buf && busy == old(busy) + {buf}
      ensures ok ==> forall x :: x in old(f).phase ==> info[x] == old(info)[x]
    {
      hide Rings, Buffers, Partition;
      ghost var s := S();
      var b, c;
      ok, h, b, c := Alloc3Desc();
      if !ok {
        FreeOnes(s, S(), f);
        return;
      }
      PartitionKeep(s, f, s, f);
      SubmittedInv(s, f, h, b, c, buf);
      SubmittedPartition(s, f, h, b, c, buf);
      desc := desc[h := Desc(true, b)][b := Desc(true, c)][c := Desc(false, 0)];
      info := info[h := Info(buf, 0xff)];
      busy := busy + {buf};
      avail := avail[availIdx % NUM := h];
      availIdx := (availIdx + 1) % UINT16;
      f := Joined(f, h, b, c);
      assert S() == Submitted(s, h, b, c, buf);
    }

    // The rest of virtio_disk_rw, once the buffer's disk flag is clear: that is after the
    // device posted the request's own head and the handler saw it.
    method Finish(h: nat)
      requires Valid() && h in f.phase && h < NUM && info[h].b !in busy
      modifies this
      ensures Valid() && old(f).phase[h] == Seen && f.phase == old(f).phase - {h} && busy == old(busy)
      ensures forall d :: 0 <= d < NUM ==> (free[d] <==> old(free)[d] || old(f).owner[d] == h)
    {
      hide Rings, Buffers;
      FreedInv(S(), f, h);
      NotFree(S(), f, h);
      hide Partition, Inv;
      ghost var s := S();
      info := info[h := info[h].(b := 0)];
      FreeChain(h);
      f := Left(s, f, h);
      assert S() == Freed(s, h);
    }

    // One pass of virtio_disk_intr's loop, or its end if nothing is left to handle.  The device
    // may post more heads between two passes; a status other than 0 cannot be found there.
    method IntrStep() returns (more: bool)
      requires Valid()
      modifies this`busy, this`seenIdx, this`f
      ensures Valid() && more == (old(f).done != []) && (!more ==> S() == old(S()) && f == old(f))
      ensures more ==>
                var h := old(f).done[0];
                && h in old(f).phase && h < NUM && busy == old(busy) - {info[h].b}
                && f == old(f).(phase := old(f).phase[h := Seen], done := old(f).done[1..])
    {
      hide Rings, Buffers, Partition;
      IndexesDiffer(S(), f);
      more := seenIdx != usedIdx;
      if more {
        DoneKnown(S(), f);
        ghost var s := S();
        SeenInv(s, f);
        var id := used[seenIdx % NUM];
        if info[id].status != 0 {
          assert false;
        }
        busy := busy - {info[id].b};
        seenIdx := (seenIdx + 1) % UINT16;
        f := f.(phase := f.phase[f.done[0] := Seen], done := f.done[1..]);
        assert S() == Seen1(s);
      }
    }

    // virtio_disk_intr while the device is quiet: clears the flags of exactly the buffers whose
    // requests are on the used ring.
    method Intr()
      requires Valid()
      modifies this`busy, this`seenIdx, this`f
      ensures Valid() && f.done == [] && f.phase.Keys == old(f).phase.Keys
      ensures forall h :: h in f.phase ==> f.phase[h] == if h in old(f).done then Seen else old(f).phase[h]
      ensures forall b :: b in busy <==> b in old(busy) && !OnUsed(info, old(f).done, b)
    {
      hide Rings, Buffers, Partition, Inv;
      ghost var all, k := f.done, 0;
      DoneKnown(S(), f);
      var more := true;
      while more
        invariant Valid() && 0 <= k <= |all| && f.done == all[k..] && f.phase.Keys == old(f).phase.Keys
        invariant !more ==> f.done == []
        invariant forall h :: h in f.phase ==> f.phase[h] == if h in all[..k] then Seen else old(f).phase[h]
        invariant forall b :: b in busy <==> b in old(busy) && !OnUsed(info, all[..k], b)
        decreases |all| - k, more
      {
        more := IntrStep();
        if more {
          OnUsedMore(info, all, k);
          k := k + 1;
        }
      }
      assert all[..k] == all;
    }

    // --- the device ---

    method DeviceTake() returns (h: nat)
      requires Valid() && f.posted != []
      modifies this`takenIdx, this`f
      ensures Valid() && h == old(f).posted[0]
      ensures f == old(f).(phase := old(f).phase[h := Taken], posted := old(f).posted[1..])
    {
      hide Rings, Buffers, Partition;
      TakeInv(S(), f);
      h := avail[takenIdx % NUM];
      takenIdx := (takenIdx + 1) % UINT16;
      f := f.(phase := f.phase[f.posted[0] := Taken], posted := f.posted[1..]);
    }

    method DeviceComplete(h: nat)
      requires Valid() && h in f.phase && f.phase[h] == Taken && h < NUM
      modifies this`info, this`used, this`usedIdx, this`f
      ensures Valid() && f == old(f).(phase := old(f).phase[h := Completed], done := old(f).done + [h])
    {
      hide Rings, Buffers, Partition;
      CompletedInv(S(), f, h);
      info := info[h := info[h].(status := 0)];
      used := used[usedIdx % NUM := h];
      usedIdx := (usedIdx + 1) % UINT16;
      f := f.(phase := f.phase[h := Completed], done := f.done + [h]);
    }
  }

  // Buffer b belongs to one of these heads.
  predicate OnUsed(info: seq<Info>, heads: seq<nat>, b: int) {
    exists i :: 0 <= i < |heads| && heads[i] < |info| && info[heads[i]].b == b
  }

  lemma OnUsedMore(info: seq<Info>, heads: seq<nat>, k: nat)
    requires k < |heads| && heads[k] < |info|
    ensures forall h :: h in heads[..k + 1] <==> h in heads[..k] || h == heads[k]
    ensures forall b :: OnUsed(info, heads[..k + 1], b) <==> OnUsed(info, heads[..k], b) || info[heads[k]].b == b
  {
    assert heads[..k + 1] == heads[..k] + [heads[k]];
    forall b ensures OnUsed(info, heads[..k + 1], b) <==> OnUsed(info, heads[..k], b) || info[heads[k]].b == b {
      if OnUsed(info, heads[..k], b) {
        var i :| 0 <= i < k && heads[..k][i] < |info| && info[heads[..k][i]].b == b;
        assert heads[..k + 1][i] == heads[i];
      }
      if info[heads[k]].b == b { assert heads[..k + 1][k] == heads[k]; }
    }
  }

  lemma DoneKnown(s: State, f: Flight)
    requires Inv(s, f)
    ensures |s.info| == NUM && forall i :: 0 <= i < |f.done| ==> f.done[i] < NUM && f.done[i] in f.phase
  {
    forall i | 0 <= i < |f.done| ensures f.done[i] in f.phase { assert f.done[i] in f.done; }
  }

  lemma NotFree(s: State, f: Flight, h: nat)
    requires Inv(s, f) && h in f.phase
    ensures Chain(s, f, h) && !s.free[h] && !s.free[Second(s, h)] && !s.free[Third(s, h)]
  {
    assert Chain(s, f, h);
  }

  // What lies in free descriptors does not matter.
  lemma FreeOnes(s: State, t: State, f: Flight)
    requires Inv(s, f) && t == s.(desc := t.desc) && |t.desc| == NUM
    requires forall d :: 0 <= d < NUM && !s.free[d] ==> t.desc[d] == s.desc[d]
    ensures Inv(t, f)
  {
    hide Rings;
    forall h | h in f.phase ensures Chain(t, f, h) && forall d :: InChain(s, h, d) ==> InChain(t, h, d) {
      assert Chain(s, f, h);
      ChainKeep(s, f, t, f, h);
    }
    RingsKeep(s, t, f);
  }

  lemma RingsKeep(s: State, t: State, f: Flight)
    requires Sizes(s, f) && Sizes(t, f) && Rings(s, f) && t == s.(desc := t.desc)
    ensures Rings(t, f)
  {
  }

  // If at most two descriptors were free, no three of them are.
  lemma FewFree(free: seq<bool>, idx: seq<nat>)
    requires |free| == NUM && |idx| <= 2 && forall d :: 0 <= d < NUM && free[d] ==> d in idx
    ensures forall x, y, z :: 0 <= x < y < z < NUM ==> !free[x] || !free[y] || !free[z]
  {
  }
}
