/**
 The buffers of kernel/bio.c with their contents, the disk behind them, and the blocks that
 the log of kernel/log.c keeps pinned in them.
 */
module Buffers {
  import opened Params
  import opened LogSpec
  import opened BufCache
  import opened Basics

  // held counts the references of those who called bread and not yet brelse.  cache has the
  // blocks in the log with their logged contents, pin the buffer of each; dirty are the
  // buffers that were modified and neither logged nor written since.
  datatype Pool = Pool(dev: nat, buf: Bufs, data: seq<Block>, disk: LogSpec.Disk, held: seq<nat>,
                       cache: map<nat, Block>, pin: map<nat, nat>, dirty: set<nat>)

  // Buffer x holds block b of the device.
  predicate Of(p: Pool, x: nat, b: nat) { x < NBUF && Same(p.buf[x], p.dev, b) }

  predicate Pinned(p: Pool, x: nat) { x < NBUF && p.buf[x].dev == p.dev && p.buf[x].blockno in p.cache }

  // What block b contains for the file system.
  function Contents(p: Pool, b: nat): Block
    requires b < |p.disk|
  {
    if b in p.cache then p.cache[b] else p.disk[b]
  }

  ghost predicate Sized(p: Pool) { |p.data| == |p.held| == NBUF && p.dev != 0 && Unique(p.buf) }

  // A block in the log has one buffer, and has it all the time.
  ghost predicate Kept(p: Pool) {
    && p.pin.Keys == p.cache.Keys
    && forall b :: b in p.cache ==> b < |p.disk| && Of(p, p.pin[b], b) && p.buf[p.pin[b]].valid
  }

  // Each reference count is that of the users, and one more for the log.
  ghost predicate Counted(p: Pool)
    requires |p.held| == NBUF
  {
    forall x :: 0 <= x < NBUF ==> p.buf[x].refcnt == p.held[x] + if Pinned(p, x) then 1 else 0
  }

  ghost predicate Current(p: Pool, x: nat)
    requires |p.data| == |p.held| == NBUF && x < NBUF
  {
    && (p.buf[x].dev == p.dev && p.buf[x].valid ==>
          && p.buf[x].blockno < |p.disk|
          && (x !in p.dirty ==> p.data[x] == Contents(p, p.buf[x].blockno)))
    && (x in p.dirty ==> p.buf[x].dev == p.dev && p.buf[x].valid && p.held[x] > 0)
  }

  ghost predicate PoolOk(p: Pool) {
    && Sized(p) && Kept(p) && Counted(p) && (forall x :: 0 <= x < NBUF ==> Current(p, x))
    && forall x :: x in p.dirty ==> x < NBUF
  }

  // --- what is done with buffers ---

  datatype Event =
    | Get(b: nat, x: nat)           // bread(b) returns buffer x
    | Release(x: nat)               // brelse
    | Modify(x: nat, data: Block)   // the holder changes the contents
    | Put(x: nat)                   // bwrite
    | Log(x: nat)                   // log_write
    | Unpin(x: nat)                 // bunpin, when the block is installed

  predicate Holds(p: Pool, x: nat) {
    x < NBUF && |p.held| == NBUF && p.held[x] > 0 && p.buf[x].dev == p.dev && p.buf[x].valid
  }

  ghost predicate Enabled(p: Pool, e: Event) {
    match e
    case Get(b, x) => b < |p.disk|
    case Release(x) => Holds(p, x) && x !in p.dirty
    case Modify(x, data) => Holds(p, x)
    case Put(x) => Holds(p, x)
    case Log(x) => Holds(p, x)
    case Unpin(x) => Holds(p, x) && Pinned(p, x) && x !in p.dirty && p.buf[x].blockno < |p.disk|
                     && p.cache[p.buf[x].blockno] == p.disk[p.buf[x].blockno]
  }

  function Reference(buf: Bufs, x: nat, k: int): (r: Bufs)
    requires x < NBUF
  {
    buf[x := buf[x].(refcnt := buf[x].refcnt + k)]
  }

  // brelse may also move the buffer in the list.
  ghost predicate Released(buf: Bufs, x: nat, buf': Bufs) {
    forall y :: 0 <= y < NBUF ==>
      && Same(buf'[y], buf[y].dev, buf[y].blockno) && buf'[y].valid == buf[y].valid
      && buf'[y].refcnt == buf[y].refcnt - (if y == x then 1 else 0)
  }

  // The buffer that bget chooses: one that holds the block, or an unused one if none does.
  ghost predicate Chosen(p: Pool, b: nat, x: nat) {
    && x < NBUF && |p.held| == |p.data| == NBUF && b < |p.disk|
    && (Of(p, x, b) || (p.buf[x].refcnt == 0 && forall y :: 0 <= y < NBUF ==> !Same(p.buf[y], p.dev, b)))
  }

  // bread: bget, and a read from the disk unless the contents are valid.
  function Got(p: Pool, b: nat, x: nat): Pool
    requires x < NBUF && |p.held| == |p.data| == NBUF && b < |p.disk|
  {
    p.(buf := p.buf[x := p.buf[x].(dev := p.dev, blockno := b, valid := true, refcnt := p.buf[x].refcnt + 1)],
       held := p.held[x := p.held[x] + 1],
       data := if Of(p, x, b) && p.buf[x].valid then p.data else p.data[x := p.disk[b]])
  }

  function Entered(p: Pool, x: nat): Pool
    requires x < NBUF && |p.data| == NBUF
  {
    var b := p.buf[x].blockno;
    var q := p.(cache := p.cache[b := p.data[x]], dirty := p.dirty - {x});
    if b in p.cache then q else q.(buf := Reference(p.buf, x, 1), pin := p.pin[b := x])
  }

  function Unpinned(p: Pool, x: nat): Pool
    requires x < NBUF
  {
    var b := p.buf[x].blockno;
    p.(cache := p.cache - {b}, pin := p.pin - {b}, buf := Reference(p.buf, x, -1))
  }

  function Flushed(p: Pool, x: nat): Pool
    requires x < NBUF && |p.data| == NBUF
  {
    var b := p.buf[x].blockno;
    p.(disk := Update(p.disk, Write(b, p.data[x])), dirty := p.dirty - {x},
       cache := if b in p.cache then p.cache[b := p.data[x]] else p.cache)
  }

  ghost predicate Step(p: Pool, e: Event, q: Pool) {
    Enabled(p, e) && |p.data| == NBUF && |p.held| == NBUF &&
    match e
    case Get(b, x) => Chosen(p, b, x) && q == Got(p, b, x)
    case Release(x) => Released(p.buf, x, q.buf) && q == p.(buf := q.buf, held := p.held[x := p.held[x] - 1])
    case Modify(x, data) => q == p.(data := p.data[x := data], dirty := p.dirty + {x})
    case Put(x) => q == Flushed(p, x)
    case Log(x) => q == Entered(p, x)
    case Unpin(x) => q == Unpinned(p, x)
  }

  // --- every step keeps the invariant ---

  // A block that is not in a valid buffer is not in the log.
  lemma NotLogged(p: Pool, b: nat, x: nat)
    requires PoolOk(p) && Chosen(p, b, x) && !(Of(p, x, b) && p.buf[x].valid)
    ensures b !in p.cache
  {
    if b in p.cache { assert false; }
  }

  lemma GetKeeps(p: Pool, b: nat, x: nat)
    requires PoolOk(p) && Chosen(p, b, x)
    ensures PoolOk(Got(p, b, x))
  {
    var q := Got(p, b, x);
    if !(Of(p, x, b) && p.buf[x].valid) { NotLogged(p, b, x); }
    forall y | 0 <= y < NBUF ensures Current(q, y) { assert Current(p, y); }
  }

  lemma ReleaseKeeps(p: Pool, x: nat, q: Pool)
    requires PoolOk(p) && Step(p, Release(x), q)
    ensures PoolOk(q)
  {
    forall y | 0 <= y < NBUF ensures Current(q, y) { assert Current(p, y); }
  }

  lemma ModifyKeeps(p: Pool, x: nat, data: Block)
    requires PoolOk(p) && Holds(p, x)
    ensures PoolOk(p.(data := p.data[x := data], dirty := p.dirty + {x}))
  {
    var q := p.(data := p.data[x := data], dirty := p.dirty + {x});
    forall y | 0 <= y < NBUF ensures Current(q, y) { assert Current(p, y); }
  }

  // No two buffers hold the same block.
  lemma OtherBlock(p: Pool, x: nat, y: nat)
    requires Sized(p) && x < NBUF && y < NBUF && x != y && p.buf[x].dev == p.dev == p.buf[y].dev
    ensures p.buf[x].blockno != p.buf[y].blockno
  {
  }

  lemma WriteKeeps(p: Pool, x: nat)
    requires PoolOk(p) && Holds(p, x)
    ensures PoolOk(Flushed(p, x))
  {
    var q := Flushed(p, x);
    assert Current(p, x);
    forall y | 0 <= y < NBUF ensures Current(q, y) {
      assert Current(p, y);
      if y != x && p.buf[y].dev == p.dev { OtherBlock(p, x, y); }
    }
  }

  lemma AbsorbKeeps(p: Pool, x: nat)
    requires PoolOk(p) && Holds(p, x) && Pinned(p, x)
    ensures PoolOk(Entered(p, x)) && p.pin[p.buf[x].blockno] == x
  {
    var q := Entered(p, x);
    assert Current(p, x);
    forall y | 0 <= y < NBUF ensures Current(q, y) {
      assert Current(p, y);
      if y != x && p.buf[y].dev == p.dev { OtherBlock(p, x, y); }
    }
  }

  lemma AppendKeeps(p: Pool, x: nat)
    requires PoolOk(p) && Holds(p, x) && !Pinned(p, x)
    ensures PoolOk(Entered(p, x))
  {
    hide Current, Pinned, Unique;
    var q := Entered(p, x);
    AppendUnique(p, x);
    forall y | 0 <= y < NBUF
      ensures Current(q, y) && (Pinned(q, y) <==> y == x || Pinned(p, y))
    {
      AppendAt(p, x, y);
    }
  }

  lemma AppendUnique(p: Pool, x: nat)
    requires PoolOk(p) && Holds(p, x) && !Pinned(p, x)
    ensures Unique(Entered(p, x).buf) && |p.data| == NBUF && p.buf[x].blockno < |p.disk| && p.buf[x].blockno !in p.cache
  {
    assert Current(p, x);
  }

  lemma AppendAt(p: Pool, x: nat, y: nat)
    requires PoolOk(p) && Holds(p, x) && !Pinned(p, x) && y < NBUF
    ensures |Entered(p, x).data| == |Entered(p, x).held| == NBUF
    ensures Current(Entered(p, x), y) && (Pinned(Entered(p, x), y) <==> y == x || Pinned(p, y))
  {
    assert Current(p, x) && Current(p, y);
    if y != x && p.buf[y].dev == p.dev { OtherBlock(p, x, y); }
  }

  lemma UnpinKeeps(p: Pool, x: nat)
    requires PoolOk(p) && Enabled(p, Unpin(x))
    ensures PoolOk(Unpinned(p, x))
  {
    var q := Unpinned(p, x);
    assert Current(p, x);
    forall y | 0 <= y < NBUF && y != x ensures p.buf[y].dev == p.dev ==> p.buf[y].blockno != p.buf[x].blockno {
      if p.buf[y].dev == p.dev { OtherBlock(p, x, y); }
    }
    forall y | 0 <= y < NBUF ensures Current(q, y) { assert Current(p, y); }
  }

  lemma StepKeeps(p: Pool, e: Event, q: Pool)
    requires PoolOk(p) && Step(p, e, q)
    ensures PoolOk(q)
  {
    hide PoolOk, Enabled, Chosen, Released, Got, Entered, Unpinned, Flushed;
    match e
    case Get(b, x) => GetKeeps(p, b, x);
    case Release(x) => ReleaseKeeps(p, x, q);
    case Modify(x, data) => EnabledHolds(p, e); ModifyKeeps(p, x, data);
    case Put(x) => EnabledHolds(p, e); WriteKeeps(p, x);
    case Log(x) =>
      EnabledHolds(p, e);
      if Pinned(p, x) { AbsorbKeeps(p, x); } else { AppendKeeps(p, x); }
    case Unpin(x) => UnpinKeeps(p, x);
  }

  lemma EnabledHolds(p: Pool, e: Event)
    requires Enabled(p, e) && (e.Modify? || e.Put? || e.Log?)
    ensures Holds(p, e.x)
  {
  }

  // --- from log_write to install_trans ---

  // A block leaves the log only when its buffer is unpinned; until then the buffer is the same.
  lemma PinStays(p: Pool, e: Event, q: Pool, b: nat)
    requires PoolOk(p) && Step(p, e, q) && b in p.cache && b in p.pin && e != Unpin(p.pin[b])
    ensures b in q.cache && b in q.pin && q.pin[b] == p.pin[b] && q.dev == p.dev
  {
    hide Chosen, Released, Current;
    if e.Log? || e.Unpin? {
      if e.x != p.pin[b] && p.buf[e.x].dev == p.dev { OtherBlock(p, e.x, p.pin[b]); }
    }
  }

  lemma LogPins(p: Pool, x: nat, q: Pool)
    requires PoolOk(p) && Step(p, Log(x), q)
    ensures x < NBUF == |p.data|
    ensures var b := p.buf[x].blockno;
            b in q.cache && q.cache[b] == p.data[x] && b in q.pin && q.pin[b] == x && q.dev == p.dev
  {
    hide Released, Chosen;
    if Pinned(p, x) { AbsorbKeeps(p, x); }
  }

  ghost predicate Run(states: seq<Pool>, events: seq<Event>) {
    && |states| == |events| + 1
    && forall i :: 0 <= i < |events| ==> Step(states[i], events[i], states[i + 1])
  }

  lemma {:induction false} RunKeeps(states: seq<Pool>, events: seq<Event>, n: nat)
    requires Run(states, events) && PoolOk(states[0]) && n < |states|
    ensures PoolOk(states[n])
  {
    hide PoolOk, Step;
    if n > 0 {
      RunKeeps(states, events, n - 1);
      StepKeeps(states[n - 1], events[n - 1], states[n - 1 + 1]);
    }
  }

  lemma {:induction false} PinnedUntil(states: seq<Pool>, events: seq<Event>, i: nat, j: nat, b: nat, x: nat)
    requires Run(states, events) && PoolOk(states[0]) && i <= j < |states|
    requires b in states[i].cache && b in states[i].pin && states[i].pin[b] == x
    requires forall k :: i <= k < j ==> events[k] != Unpin(x)
    ensures b in states[j].cache && b in states[j].pin && states[j].pin[b] == x && states[j].dev == states[i].dev
    decreases j
  {
    hide PoolOk, Step;
    if i < j {
      PinnedUntil(states, events, i, j - 1, b, x);
      RunKeeps(states, events, j - 1);
      PinStays(states[j - 1], events[j - 1], states[j - 1 + 1], b);
    }
  }

  /** In every run of bread, brelse, modifications, bwrite, log_write and bunpin, the buffer of a
      logged block is pinned exactly once and keeps its block, valid and with the contents to be
      installed, from log_write until its own bunpin in install_trans; no other buffer gets the
      block meanwhile, and the buffer cannot be recycled. */
  lemma LoggedUntilInstalled(states: seq<Pool>, events: seq<Event>, i: nat, j: nat, x: nat)
    requires Run(states, events) && PoolOk(states[0]) && i < j < |states| && events[i] == Log(x)
    requires forall k :: i < k < j ==> events[k] != Unpin(x)
    ensures x < NBUF && |states[j].data| == |states[j].held| == NBUF
    ensures var p, b := states[j], states[i].buf[x].blockno;
            && b in p.cache && Of(p, x, b) && p.buf[x].valid && (x !in p.dirty ==> p.data[x] == p.cache[b])
            && p.buf[x].refcnt == p.held[x] + 1
            && forall y :: 0 <= y < NBUF && Of(p, y, b) ==> y == x
  {
    RunKeeps(states, events, i);
    RunKeeps(states, events, j);
    LogPins(states[i], x, states[i + 1]);
    var b := states[i].buf[x].blockno;
    PinnedUntil(states, events, i + 1, j, b, x);
    hide Step, Run;
    assert Current(states[j], x);
  }

  // --- what a step changes ---

  // Some buffer is not in use: the one that bget recycles.
  ghost predicate Spare(p: Pool)
    requires |p.held| == NBUF
  {
    exists y :: 0 <= y < NBUF && Unused(p, y)
  }

  predicate Unused(p: Pool, y: nat)
    requires |p.held| == NBUF
  {
    y < NBUF && p.held[y] == 0 && !Pinned(p, y)
  }

  // bget does not panic.
  ghost predicate Room(p: Pool, b: nat) {
    exists x :: 0 <= x < NBUF && (Of(p, x, b) || p.buf[x].refcnt == 0)
  }

  lemma RoomSpare(p: Pool, b: nat)
    requires PoolOk(p) && Spare(p)
    ensures Room(p, b)
  {
    var y :| 0 <= y < NBUF && Unused(p, y);
    assert p.buf[y].refcnt == 0;
  }

  // The users' buffers and the pinned ones cannot be all when they are fewer than NBUF, so a
  // commit of less than NBUF blocks finds a buffer unless others hold too many.
  lemma SpareLeft(p: Pool)
    requires PoolOk(p) && |Users(p, NBUF)| + |p.cache| < NBUF
    ensures Spare(p)
  {
    if !Spare(p) {
      forall y | 0 <= y < NBUF ensures p.held[y] > 0 || Pinned(p, y) { assert !Unused(p, y); }
      AllUsed(p, NBUF);
      SubsetSize(LoggedIn(p, NBUF), p.cache.Keys);
    }
  }

  // The first k buffers that have users, and the logged blocks in the first k buffers.
  ghost function Users(p: Pool, k: nat): set<nat>
    requires |p.held| == NBUF && k <= NBUF
  {
    set x: nat | x < k && p.held[x] > 0
  }

  ghost function LoggedIn(p: Pool, k: nat): set<nat>
    requires k <= NBUF
  {
    set x: nat | x < k && Pinned(p, x) :: p.buf[x].blockno
  }

  lemma UsersMore(p: Pool, x: nat)
    requires |p.held| == NBUF && x < NBUF
    ensures |Users(p, x + 1)| == |Users(p, x)| + if p.held[x] > 0 then 1 else 0
  {
    assert Users(p, x + 1) == if p.held[x] > 0 then Users(p, x) + {x} else Users(p, x);
  }

  lemma LoggedMore(p: Pool, x: nat)
    requires Sized(p) && x < NBUF
    ensures |LoggedIn(p, x + 1)| == |LoggedIn(p, x)| + if Pinned(p, x) then 1 else 0
  {
    hide Unique;
    if Pinned(p, x) {
      LoggedNew(p, x);
      assert LoggedIn(p, x + 1) == LoggedIn(p, x) + {p.buf[x].blockno};
    } else {
      assert LoggedIn(p, x + 1) == LoggedIn(p, x);
    }
  }

  lemma LoggedNew(p: Pool, x: nat)
    requires Sized(p) && Pinned(p, x)
    ensures p.buf[x].blockno !in LoggedIn(p, x)
  {
    hide Unique;
    forall y | 0 <= y < x && Pinned(p, y) ensures p.buf[y].blockno != p.buf[x].blockno { OtherBlock(p, x, y); }
  }

  lemma {:induction false} AllUsed(p: Pool, k: nat)
    requires Sized(p) && k <= NBUF && forall y :: 0 <= y < NBUF ==> p.held[y] > 0 || Pinned(p, y)
    ensures |Users(p, k)| + |LoggedIn(p, k)| >= k
  {
    hide Unique, Users, LoggedIn, Pinned;
    if k > 0 {
      AllUsed(p, k - 1);
      UsersMore(p, k - 1);
      LoggedMore(p, k - 1);
    }
  }

  lemma RoomLogged(p: Pool, b: nat)
    requires PoolOk(p) && b in p.cache
    ensures Room(p, b)
  {
    assert Of(p, p.pin[b], b);
  }

  lemma GetFacts(p: Pool, b: nat, x: nat, q: Pool)
    requires PoolOk(p) && Step(p, Get(b, x), q)
    ensures PoolOk(q) && Holds(q, x) && Of(q, x, b) && b < |p.disk| && |p.data| == |q.data| == |p.held| == NBUF
    ensures q == p.(buf := q.buf, data := q.data, held := p.held[x := p.held[x] + 1])
    ensures forall y :: 0 <= y < NBUF && y != x ==> q.data[y] == p.data[y] && q.buf[y] == p.buf[y]
    ensures x !in p.dirty ==> q.data[x] == Contents(p, b)
    ensures b in p.cache ==> b in p.pin && x == p.pin[b]
    ensures !Of(p, x, b) ==> p.held[x] == 0
  {
    GetKeeps(p, b, x);
    assert Current(q, x);
  }

  lemma ReleaseFacts(p: Pool, x: nat, q: Pool)
    requires PoolOk(p) && Step(p, Release(x), q)
    ensures PoolOk(q) && q == p.(buf := q.buf, held := p.held[x := p.held[x] - 1])
    ensures forall y :: 0 <= y < NBUF ==>
              Same(q.buf[y], p.buf[y].dev, p.buf[y].blockno) && q.buf[y].valid == p.buf[y].valid
  {
    ReleaseKeeps(p, x, q);
    assert Released(p.buf, x, q.buf);
  }

  // Buffers to and from are held for blocks l and h, and so far nothing else has changed.
  ghost predicate TwoHeld(p: Pool, l: nat, to: nat, h: nat, from: nat, q: Pool) {
    && PoolOk(p) && PoolOk(q) && p.dirty == {} && l < |p.disk| && h < |p.disk| && to != from
    && Holds(q, to) && Holds(q, from) && Of(q, to, l) && Of(q, from, h)
    && q == p.(buf := q.buf, data := q.data, held := p.held[to := p.held[to] + 1][from := p.held[from] + 1])
    && (h in p.cache ==> Of(p, from, h))
    && q.data[to] == Contents(p, l) && q.data[from] == Contents(p, h)
    && (forall y :: 0 <= y < NBUF && y != to && y != from ==> q.buf[y].dev == p.buf[y].dev && q.buf[y].blockno == p.buf[y].blockno)
  }

  lemma GetTwo(p: Pool, l: nat, to: nat, p1: Pool, h: nat, from: nat, q: Pool)
    requires PoolOk(p) && p.dirty == {} && l != h
    requires Step(p, Get(l, to), p1) && Step(p1, Get(h, from), q)
    ensures TwoHeld(p, l, to, h, from, q)
  {
    hide Step, Current, Kept, Counted, Unique;
    GetFacts(p, l, to, p1);
    GetFacts(p1, h, from, q);
    if h in p.cache { LoggedAt(p, h); }
  }

  function Modified(p: Pool, x: nat, data: Block): Pool
    requires x < |p.data|
  {
    p.(data := p.data[x := data], dirty := p.dirty + {x})
  }

  // memmove to a buffer, and bwrite.
  lemma CopyFacts(p: Pool, x: nat, c: Block)
    requires PoolOk(p) && p.dirty == {} && Holds(p, x)
    ensures |p.data| == NBUF && p.buf[x].blockno < |p.disk|
    ensures Holds(Modified(p, x, c), x) && PoolOk(Modified(p, x, c))
    ensures var b := p.buf[x].blockno;
            var w := Flushed(Modified(p, x, c), x);
            && PoolOk(w) && w == p.(data := p.data[x := c], disk := Update(p.disk, Write(b, c)),
                                    cache := if b in p.cache then p.cache[b := c] else p.cache)
  {
    assert Current(p, x);
    ModifyKeeps(p, x, c);
    WriteKeeps(Modified(p, x, c), x);
  }

  // The references are what they were, and nothing is modified but not written.
  ghost predicate Quiet(p: Pool, r: Pool) {
    && PoolOk(p) && PoolOk(r) && r.held == p.held && r.dev == p.dev && r.dirty == {} && |r.disk| == |p.disk|
    && (Spare(p) ==> Spare(r))
  }

  // A spare buffer is still one unless it now holds a block in the log.
  lemma SpareKept(p: Pool, r: Pool)
    requires |p.held| == NBUF && r.held == p.held
    requires forall y :: 0 <= y < NBUF && !Pinned(p, y) ==> !Pinned(r, y)
    ensures Spare(p) ==> Spare(r)
  {
    if Spare(p) {
      var y :| 0 <= y < NBUF && Unused(p, y);
      assert Unused(r, y);
    }
  }

  // One pass of write_log's loop: block h, which is in the log, was copied to log block l.
  lemma LogCopied(p: Pool, l: nat, to: nat, h: nat, from: nat, q: Pool, r1: Pool, r: Pool)
    requires TwoHeld(p, l, to, h, from, q) && h in p.cache && l !in p.cache
    requires |q.data| == NBUF && Step(Flushed(Modified(q, to, q.data[from]), to), Release(from), r1)
    requires Step(r1, Release(to), r)
    ensures Quiet(p, r) && r.cache == p.cache && r.disk == Update(p.disk, Write(l, p.cache[h]))
  {
    hide Step, Current, Kept, Counted;
    CopyFacts(q, to, q.data[from]);
    ReleaseFacts(Flushed(Modified(q, to, q.data[from]), to), from, r1);
    ReleaseFacts(r1, to, r);
    forall y | 0 <= y < NBUF && !Pinned(p, y) ensures !Pinned(r, y) {
      if y == from { assert false; }
    }
    SpareKept(p, r);
  }

  // One pass of install_trans's loop: log block l was copied to block h, which then left the
  // log, unless this is a recovery, where the log in memory is empty.
  lemma Installed(p: Pool, l: nat, from: nat, h: nat, to: nat, q: Pool, recovering: bool, u: Pool, r1: Pool, r: Pool)
    requires TwoHeld(p, l, from, h, to, q) && l !in p.cache && (if recovering then p.cache == map[] else h in p.cache)
    requires |q.data| == NBUF
    requires var w := Flushed(Modified(q, to, q.data[from]), to); if recovering then u == w else Step(w, Unpin(to), u)
    requires Step(u, Release(from), r1) && Step(r1, Release(to), r)
    ensures Quiet(p, r) && r.cache == p.cache - {h} && r.disk == Update(p.disk, Write(h, p.disk[l]))
  {
    hide Step, Current, Kept, Counted;
    CopyFacts(q, to, q.data[from]);
    if !recovering { UnpinFacts(Flushed(Modified(q, to, q.data[from]), to), to, u); }
    ReleaseFacts(u, from, r1);
    ReleaseFacts(r1, to, r);
    forall y | 0 <= y < NBUF && !Pinned(p, y) ensures !Pinned(r, y) {
      if y != from && y != to { assert p.buf[y].blockno == r.buf[y].blockno; }
    }
    SpareKept(p, r);
  }

  // A block that was just installed can leave the log.
  lemma UnpinReady(p: Pool, l: nat, from: nat, h: nat, to: nat, q: Pool)
    requires TwoHeld(p, l, from, h, to, q) && h in p.cache
    ensures |q.data| == NBUF && to < NBUF
    ensures Enabled(Flushed(Modified(q, to, q.data[from]), to), Unpin(to))
  {
    hide Current, Kept, Counted;
    CopyFacts(q, to, q.data[from]);
  }

  lemma UnpinFacts(p: Pool, x: nat, q: Pool)
    requires PoolOk(p) && Step(p, Unpin(x), q)
    ensures PoolOk(q) && x < NBUF
    ensures q == p.(buf := q.buf, cache := p.cache - {p.buf[x].blockno}, pin := p.pin - {p.buf[x].blockno})
    ensures forall y :: 0 <= y < NBUF ==>
              q.buf[y].dev == p.buf[y].dev && q.buf[y].blockno == p.buf[y].blockno && q.buf[y].valid == p.buf[y].valid
  {
    UnpinKeeps(p, x);
  }

  // A block was read and its buffer released.
  lemma Peeked(p: Pool, l: nat, x: nat, q: Pool, r: Pool)
    requires PoolOk(p) && p.dirty == {} && l !in p.cache && Step(p, Get(l, x), q) && Step(q, Release(x), r)
    ensures Quiet(p, r) && r.cache == p.cache && r.disk == p.disk
  {
    hide Step, Current, Kept, Counted;
    GetFacts(p, l, x, q);
    ReleaseFacts(q, x, r);
    SpareKept(p, r);
  }

  // A block was read, changed, written and released.
  lemma Rewritten(p: Pool, l: nat, x: nat, q: Pool, c: Block, r: Pool)
    requires PoolOk(p) && p.dirty == {} && l !in p.cache && Step(p, Get(l, x), q)
    requires x < |q.data| == NBUF && Step(Flushed(Modified(q, x, c), x), Release(x), r)
    ensures Quiet(p, r) && r.cache == p.cache && r.disk == Update(p.disk, Write(l, c))
  {
    hide Step, Current, Kept, Counted;
    GetFacts(p, l, x, q);
    CopyFacts(q, x, c);
    ReleaseFacts(Flushed(Modified(q, x, c), x), x, r);
    SpareKept(p, r);
  }

  lemma LoggedAt(p: Pool, h: nat)
    requires PoolOk(p) && h in p.cache
    ensures h in p.pin && Of(p, p.pin[h], h)
  {
  }

  // --- the buffers and the disk ---

  class BufferedDisk {
    const bc: BCache
    const dev: nat
    var data: seq<Block>
    var disk: LogSpec.Disk
    ghost var held: seq<nat>
    ghost var cache: map<nat, Block>
    ghost var pin: map<nat, nat>
    ghost var dirty: set<nat>
    ghost var trace: seq<Write>     // every block write so far, in order

    constructor (dev: nat, disk: LogSpec.Disk)
      requires dev != 0
      ensures Valid() && fresh(bc) && this.dev == dev && this.disk == disk && trace == []
      ensures cache == map[] && dirty == {} && forall x :: 0 <= x < NBUF ==> held[x] == 0
    {
      this.dev, this.disk, data, trace := dev, disk, seq(NBUF, _ => []), [];
      held, cache, pin, dirty := seq(NBUF, _ => 0), map[], map[], {};
      bc := new BCache();
      new;
      hide Ring, BufCache.Distinct;
    }

    ghost function P(): (p: Pool)
      reads this, bc
    {
      Pool(dev, bc.buf, data, disk, held, cache, pin, dirty)
    }

    ghost predicate Valid()
      reads this, bc
    {
      bc.Valid() && PoolOk(P())
    }

    // The panic for want of a buffer is the precondition; waiting for another holder to
    // release the buffer's lock is left to the caller.
    method Bread(b: nat) returns (x: nat)
      requires Valid() && b < |disk| && Room(P(), b)
      modifies this`data, this`held, bc`buf
      ensures Valid() && Step(old(P()), Get(b, x), P())
    {
      hide PoolOk, BCache.Valid, Unique, Current, Kept, Counted;
      ChosenFacts(P(), b);
      x := bc.Bget(dev, b);
      if !bc.buf[x].valid {
        data := data[x := disk[b]];  // virtio_disk_rw(b, 0)
        bc.MarkValid(x);
      }
      held := held[x := held[x] + 1];
      BreadSteps(old(P()), b, x, P());
    }

    method Brelse(x: nat)
      requires Valid() && Enabled(P(), Release(x))
      modifies this`held, bc
      ensures Valid() && Step(old(P()), Release(x), P())
    {
      hide PoolOk, BCache.Valid, Unique, Current, Kept, Counted;
      HeldCounts(P(), x);
      bc.Brelse(x);
      held := held[x := held[x] - 1];
      ReleaseKeeps(old(P()), x, P());
    }

    // The holder changes the contents of buffer x.
    method Modify(x: nat, d: Block)
      requires Valid() && Enabled(P(), Event.Modify(x, d))
      modifies this`data, this`dirty
      ensures Valid() && P() == Modified(old(P()), x, d)
    {
      hide PoolOk, BCache.Valid, Unique, Current, Kept, Counted;
      HeldCounts(P(), x);
      ModifyKeeps(P(), x, d);
      data, dirty := data[x := d], dirty + {x};
    }

    method Bwrite(x: nat)
      requires Valid() && Enabled(P(), Put(x))
      modifies this`disk, this`cache, this`dirty, this`trace
      ensures Valid() && P() == Flushed(old(P()), x)
      ensures x < |old(data)| && trace == old(trace) + [Write(bc.buf[x].blockno, old(data)[x])]
    {
      hide PoolOk, BCache.Valid, Unique, Current, Kept, Counted;
      HeldCounts(P(), x);
      WriteKeeps(P(), x);
      var b := bc.buf[x].blockno;
      disk := disk[b := data[x]];
      if b in cache { cache := cache[b := data[x]]; }
      dirty := dirty - {x};
      trace := trace + [Write(b, data[x])];
    }

    // memmove to buffer x, and bwrite.
    method Store(x: nat, c: Block)
      requires Valid() && dirty == {} && Holds(P(), x)
      modifies this`data, this`disk, this`cache, this`dirty, this`trace
      ensures |old(P()).data| == NBUF && old(bc.buf[x].blockno) < |old(disk)|
      ensures Valid() && P() == Flushed(Modified(old(P()), x, c), x)
      ensures trace == old(trace) + [Write(bc.buf[x].blockno, c)]
    {
      hide PoolOk, BCache.Valid, Flushed;
      CopyFacts(P(), x, c);
      Modify(x, c);
      Bwrite(x);
    }

    // The contents of x go to the log: a block that is not there yet is pinned.
    method Bpin(x: nat)
      requires Valid() && Enabled(P(), Log(x)) && !Pinned(P(), x)
      modifies this`cache, this`pin, this`dirty, bc`buf
      ensures Valid() && Step(old(P()), Log(x), P())
    {
      hide PoolOk, BCache.Valid, Unique, Current, Kept, Counted;
      HeldCounts(P(), x);
      AppendKeeps(P(), x);
      ghost var b := bc.buf[x].blockno;
      bc.Bpin(x);
      cache, pin, dirty := cache[b := data[x]], pin[b := x], dirty - {x};
    }

    // Log absorption: the block is pinned already.
    ghost method Absorb(x: nat)
      requires Valid() && Enabled(P(), Log(x)) && Pinned(P(), x)
      modifies this`cache, this`dirty
      ensures Valid() && Step(old(P()), Log(x), P())
    {
      hide PoolOk, BCache.Valid, Unique, Current, Kept, Counted;
      HeldCounts(P(), x);
      AbsorbKeeps(P(), x);
      cache, dirty := cache[bc.buf[x].blockno := data[x]], dirty - {x};
    }

    method Bunpin(x: nat)
      requires Valid() && Enabled(P(), Unpin(x))
      modifies this`cache, this`pin, bc`buf
      ensures Valid() && Step(old(P()), Unpin(x), P())
    {
      hide PoolOk, BCache.Valid, Unique, Current, Kept, Counted;
      HeldCounts(P(), x);
      UnpinKeeps(P(), x);
      ghost var b := bc.buf[x].blockno;
      bc.Bunpin(x);
      cache, pin := cache - {b}, pin - {b};
    }
  }

  lemma HeldCounts(p: Pool, x: nat)
    requires PoolOk(p) && Holds(p, x)
    ensures |p.data| == |p.held| == NBUF && p.buf[x].refcnt > 0 && p.buf[x].blockno < |p.disk|
  {
    assert Current(p, x);
  }

  lemma ChosenFacts(p: Pool, b: nat)
    requires PoolOk(p) && Room(p, b)
    ensures |p.data| == |p.held| == NBUF
  {
  }

  // What bread does is the step of getting the buffer.
  lemma BreadSteps(p: Pool, b: nat, x: nat, q: Pool)
    requires PoolOk(p) && Chosen(p, b, x) && q == Got(p, b, x)
    ensures PoolOk(q) && Step(p, Get(b, x), q)
  {
    GetKeeps(p, b, x);
  }
}
