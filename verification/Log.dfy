/**
 kernel/log.c: the in-memory log header, the pinned buffers and the disk, updated in place.
 Each method is proved to issue exactly the writes that LogSpec gives, so the crash
 theorems of LogCrash apply to it, and to take exactly the steps of LogBudget.
 */
module Log {
  import opened Basics
  import opened Params
  import opened LogSpec
  import opened LogCrash
  import opened Buffers
  import B = LogBudget

  // The cached contents of the blocks in `home`, as a transaction.
  ghost function Gather(home: seq<nat>, cache: map<nat, Block>): (t: Txn)
    requires forall b :: b in home ==> b in cache
    ensures t.home == home && |t.data| == |home|
  {
    Txn(home, seq(|home|, i requires 0 <= i < |home| => assert home[i] in home; cache[home[i]]))
  }

  class RedoLog {
    const region: Region                // log.start and log.size
    const io: BufferedDisk
    var n: nat                          // log.lh.n
    const block: array<nat>             // log.lh.block
    var outstanding: nat
    var committing: bool
    ghost const cap: nat                // the most blocks that one operation appends
    ghost var budget: B.State           // n, committing, and what each operation has appended

    // initlog, on a disk that a crash left, with all buffers free.
    constructor (g: Region, io: BufferedDisk, ghost cap: nat)
      requires Recoverable(g, io.disk) && cap <= MAXOPBLOCKS && Clean(io)
      modifies io, io.bc
      ensures Valid() && region == g && this.io == io && this.cap == cap && fresh(block)
      ensures n == 0 && io.cache == map[] && budget == B.INIT && outstanding == 0
      ensures io.trace == old(io.trace) + RecoverWrites(g, old(io.disk))
      ensures io.disk == Apply(old(io.disk), RecoverWrites(g, old(io.disk)))
    {
      region, this.io, n, outstanding, committing := g, io, 0, 0, false;
      block := new nat[LOGSIZE];
      budget, this.cap := B.INIT, cap;
      new;
      ghost var d := io.disk;
      hide Quiet, PoolOk, Apply, RecoverWrites, Idle, Recoverable, Settled, BufCache.BCache.Valid;
      RecoverFromLog();
      RecoveredIdle(region, d);
      SettledNone(region, io.disk);
    }

    ghost function Home(): (h: seq<nat>)
      reads this, block
    {
      if n <= block.Length then block[..n] else []
    }

    ghost predicate Consistent()
      reads this, block, io, io.bc
    {
      block.Length == LOGSIZE && n <= LOGSIZE && io.Valid() && Settled(region, io.disk, Home(), io.cache)
    }

    ghost predicate Valid()
      reads this, block, io, io.bc
    {
      && Consistent() && (budget.ops == map[] ==> io.dirty == {})
      && budget.n == n && |budget.ops| == outstanding && budget.committing == committing
      && cap <= MAXOPBLOCKS && B.Inv(budget, cap)
    }

    // The transaction that a commit would make durable now.
    ghost function Pending(): (t: Txn)
      reads this, block, io
      requires forall b :: b in Home() ==> b in io.cache
      ensures |t.home| == |t.data| && t.home == Home()
    {
      Gather(Home(), io.cache)
    }

    // --- header ---

    method ReadHead()
      requires Recoverable(region, io.disk) && region.start !in io.cache && block.Length == LOGSIZE
      requires io.Valid() && io.dirty == {} && Spare(io.P())
      modifies this`n, block, io, io.bc
      ensures io.Valid() && Quiet(old(io.P()), io.P())
      ensures io.cache == old(io.cache) && io.disk == old(io.disk) && io.trace == old(io.trace)
      ensures n == |Homes(io.disk[region.start])| && Home() == Homes(io.disk[region.start])
    {
      hide PoolOk, Room, Spare, Quiet, Step, BufCache.BCache.Valid, Modified, Flushed;
      ghost var p := io.P();
      RoomSpare(p, region.start);
      var x := io.Bread(region.start);
      ghost var q := io.P();
      GetFacts(p, region.start, x, q);
      var head := io.data[x];
      n := head[0];
      for i := 0 to n
        invariant n == head[0] && io.Valid() && io.P() == q
        invariant io.disk == old(io.disk) && io.trace == old(io.trace)
        invariant forall j :: 0 <= j < i ==> block[j] == head[j + 1]
      {
        block[i] := head[i + 1];
      }
      io.Brelse(x);
      Peeked(p, region.start, x, q, io.P());
    }

    method WriteHead()
      requires 0 < region.size && region.start + region.size <= |io.disk| && region.start !in io.cache
      requires block.Length == LOGSIZE && n <= LOGSIZE && |io.disk[region.start]| == WORDS
      requires io.Valid() && io.dirty == {} && Spare(io.P())
      modifies io, io.bc
      ensures io.Valid() && Quiet(old(io.P()), io.P())
      ensures var w := Write(region.start, SetHeader(old(io.disk)[region.start], Home()));
              io.disk == Update(old(io.disk), w) && io.trace == old(io.trace) + [w]
      ensures io.cache == old(io.cache)
    {
      hide PoolOk, Room, Spare, Quiet, Step, BufCache.BCache.Valid, Modified, Flushed;
      ghost var p := io.P();
      RoomSpare(p, region.start);
      var x := io.Bread(region.start);
      ghost var q := io.P();
      GetFacts(p, region.start, x, q);
      var hb := NewHeader(io.data[x]);
      CopyFacts(q, x, hb);
      io.Store(x, hb);
      ghost var w := io.P();
      io.Brelse(x);
      Rewritten(p, region.start, x, q, hb, io.P());
    }

    // What write_head stores in the header's buffer.
    method NewHeader(before: Block) returns (hb: Block)
      requires block.Length == LOGSIZE && n <= LOGSIZE && |before| == WORDS
      ensures hb == SetHeader(before, Home())
    {
      hb := before[0 := n];
      for i := 0 to n
        invariant |hb| == WORDS && hb[0] == n
        invariant forall j :: 0 <= j < i ==> hb[j + 1] == block[j]
        invariant forall j :: i < j < WORDS ==> hb[j] == before[j]
      {
        hb := hb[i + 1 := block[i]];
      }
      assert hb == SetHeader(before, Home());
    }

    // --- commit ---

    // The log area lies on the disk and no pinned block is in it.
    ghost predicate Separated()
      reads this, io
    {
      && 0 < region.size && region.start + region.size <= |io.disk|
      && forall b :: b in io.cache ==> !InLog(region, b)
    }

    // One pass of write_log's loop.
    method LogPass(tail: nat)
      requires io.Valid() && io.dirty == {} && Spare(io.P())
      requires tail < block.Length && block[tail] in io.cache && block[tail] < |io.disk|
      requires region.start + tail + 1 < |io.disk| && region.start + tail + 1 !in io.cache
      modifies io, io.bc
      ensures io.Valid() && Quiet(old(io.P()), io.P()) && io.cache == old(io.cache)
      ensures var w := Write(region.start + tail + 1, io.cache[block[tail]]);
              io.disk == Update(old(io.disk), w) && io.trace == old(io.trace) + [w]
    {
      hide PoolOk, Room, Spare, Quiet, Step, TwoHeld, BufCache.BCache.Valid, Modified, Flushed;
      ghost var p := io.P();
      var l, h := region.start + tail + 1, block[tail];
      RoomSpare(p, l);
      var to := io.Bread(l);
      ghost var p1 := io.P();
      GetFacts(p, l, to, p1);
      RoomLogged(p1, h);
      var from := io.Bread(h);
      ghost var q := io.P();
      GetTwo(p, l, to, p1, h, from, q);
      TwoFacts(p, l, to, h, from, q);
      CopyFacts(q, to, q.data[from]);
      io.Store(to, io.data[from]);
      ghost var w := io.P();
      io.Brelse(from);
      ghost var r1 := io.P();
      ReleaseFacts(w, from, r1);
      io.Brelse(to);
      LogCopied(p, l, to, h, from, q, r1, io.P());
    }

    method WriteLog()
      requires block.Length == LOGSIZE && n <= LOGSIZE && n < region.size && Separated()
      requires forall b :: b in Home() ==> b in io.cache && b < |io.disk|
      requires io.Valid() && io.dirty == {} && Spare(io.P())
      modifies io, io.bc
      ensures io.Valid() && Quiet(old(io.P()), io.P()) && io.cache == old(io.cache)
      ensures io.disk == Apply(old(io.disk), LogWrites(region, old(Pending())))
      ensures io.trace == old(io.trace) + LogWrites(region, old(Pending()))
    {
      hide Written, Apply, LogWrites, Gather, Quiet, PoolOk, Spare, BufCache.BCache.Valid;
      ghost var home, p0, d0, trace0 := Home(), io.P(), io.disk, io.trace;
      ghost var ws := LogWrites(region, Pending());
      WrittenNone(d0, trace0, ws);
      QuietRefl(p0);
      for tail := 0 to n
        invariant Written(d0, trace0, io.disk, io.trace, ws[..tail]) && |io.disk| == |d0|
        invariant io.Valid() && Quiet(p0, io.P()) && io.cache == old(io.cache)
      {
        ghost var p := io.P();
        QuietFacts(p0, p);
        CopyAt(region, home, io.cache, tail);
        assert InLog(region, region.start + tail + 1);
        assert ws[tail] == Write(region.start + tail + 1, io.cache[block[tail]]);
        WrittenStep(d0, trace0, io.disk, io.trace, ws, tail);
        LogPass(tail);
        QuietTrans(p0, p, io.P());
      }
      WrittenAll(d0, trace0, io.disk, io.trace, ws);
    }

    // One pass of install_trans's loop.
    method InstallPass(tail: nat, recovering: bool)
      requires io.Valid() && io.dirty == {} && Spare(io.P())
      requires tail < block.Length && block[tail] < |io.disk| && block[tail] != region.start + tail + 1
      requires region.start + tail + 1 < |io.disk| && region.start + tail + 1 !in io.cache
      requires if recovering then AllFree(io.P()) else block[tail] in io.cache
      modifies io, io.bc
      ensures io.Valid() && Quiet(old(io.P()), io.P()) && io.cache == old(io.cache) - {block[tail]}
      ensures var w := Write(block[tail], old(io.disk)[region.start + tail + 1]);
              io.disk == Update(old(io.disk), w) && io.trace == old(io.trace) + [w]
    {
      hide PoolOk, Room, Spare, Quiet, Step, TwoHeld, BufCache.BCache.Valid, Modified, Flushed;
      ghost var p := io.P();
      var l, h := region.start + tail + 1, block[tail];
      RoomSpare(p, l);
      var lbuf := io.Bread(l);
      ghost var p1 := io.P();
      GetFacts(p, l, lbuf, p1);
      if recovering { RoomClean(p, l, lbuf, p1, h); } else { RoomLogged(p1, h); }
      var dbuf := io.Bread(h);
      ghost var q := io.P();
      GetTwo(p, l, lbuf, p1, h, dbuf, q);
      TwoFacts(p, l, lbuf, h, dbuf, q);
      CopyFacts(q, dbuf, q.data[lbuf]);
      io.Store(dbuf, io.data[lbuf]);
      ghost var w := io.P();
      if !recovering {
        UnpinReady(p, l, lbuf, h, dbuf, q);
        io.Bunpin(dbuf);
        UnpinFacts(w, dbuf, io.P());
      }
      ghost var u := io.P();
      io.Brelse(lbuf);
      ghost var r1 := io.P();
      ReleaseFacts(u, lbuf, r1);
      io.Brelse(dbuf);
      Buffers.Installed(p, l, lbuf, h, dbuf, q, recovering, u, r1, io.P());
    }

    // Copies the logged blocks, whose contents are t.data, to their home locations.
    method InstallTrans(recovering: bool, ghost t: Txn)
      requires block.Length == LOGSIZE && n <= LOGSIZE
      requires 0 < region.size && region.start + region.size <= |io.disk|
      requires t.home == Home() && ValidTxn(region, |io.disk|, t)
      requires forall i :: 0 <= i < n ==> io.disk[region.start + 1 + i] == t.data[i]
      requires io.Valid() && io.dirty == {} && Spare(io.P()) && ToInstall(io.P(), recovering, t.home)
      modifies io, io.bc
      ensures io.Valid() && Quiet(old(io.P()), io.P()) && io.cache == map[]
      ensures io.disk == Apply(old(io.disk), InstallWrites(t)) && io.trace == old(io.trace) + InstallWrites(t)
    {
      hide Written, Apply, InstallWrites, Quiet, PoolOk, Spare, BufCache.BCache.Valid, ToInstall, ValidHomes;
      ghost var p0, d0, trace0 := io.P(), io.disk, io.trace;
      ghost var ws := InstallWrites(t);
      WrittenNone(d0, trace0, ws);
      QuietRefl(p0);
      assert t.home[0..] == t.home;
      for tail := 0 to n
        invariant Written(d0, trace0, io.disk, io.trace, ws[..tail]) && |io.disk| == |d0|
        invariant io.Valid() && Quiet(p0, io.P()) && ToInstall(io.P(), recovering, t.home[tail..])
      {
        ghost var p := io.P();
        QuietFacts(p0, p);
        WrittenCopy(region, d0, trace0, io.disk, io.trace, t, tail);
        NextHome(region, p, recovering, t, tail);
        assert block[tail] == t.home[tail] && ws[tail] == Write(block[tail], io.disk[region.start + tail + 1]);
        WrittenStep(d0, trace0, io.disk, io.trace, ws, tail);
        InstallPass(tail, recovering);
        QuietTrans(p0, p, io.P());
        HomeInstalled(p, io.P(), recovering, t.home, tail);
      }
      WrittenAll(d0, trace0, io.disk, io.trace, ws);
      AllInstalled(io.P(), recovering, t.home);
    }

    // While no operation is outstanding, with at least one buffer to spare.
    method Commit()
      requires Consistent() && io.dirty == {} && Spare(io.P())
      modifies this`n, io, io.bc
      ensures io.trace == old(io.trace) + CommitWrites(region, old(io.disk), old(Pending()))
      ensures io.disk == Apply(old(io.disk), CommitWrites(region, old(io.disk), old(Pending())))
      ensures n == 0 && io.cache == map[] && io.Valid() && Quiet(old(io.P()), io.P())
    {
      hide Apply, LogWrites, InstallWrites, SetHeader, CommitWrites, Committed, Gather, HeaderOk, Homes, B.Inv,
           Quiet, PoolOk, Spare, BufCache.BCache.Valid;
      ghost var p0 := io.P();
      QuietRefl(p0);
      if n > 0 {
        ghost var t, d0 := Pending(), io.disk;
        CommitPlan(region, d0, t, io.trace);
        assert InLog(region, region.start) && Separated();
        WriteLog();
        QuietFacts(p0, io.P());
        ghost var p1 := io.P();
        WriteHead();
        QuietTrans(p0, p1, io.P());
        QuietFacts(p0, io.P());
        assert io.disk == Committed(region, d0, t);
        ghost var p2 := io.P();
        InstallTrans(false, t);
        QuietTrans(p0, p2, io.P());
        QuietFacts(p0, io.P());
        n := 0;
        assert Home() == [];
        ghost var p3 := io.P();
        WriteHead();
        QuietTrans(p0, p3, io.P());
      } else {
        CommitNothing(region, io.disk, Pending());
        assert io.cache == map[];
      }
    }

    // --- recovery ---

    method RecoverFromLog()
      requires Recoverable(region, io.disk) && block.Length == LOGSIZE && Clean(io)
      modifies this`n, block, io, io.bc
      ensures io.trace == old(io.trace) + RecoverWrites(region, old(io.disk))
      ensures io.disk == Apply(old(io.disk), RecoverWrites(region, old(io.disk)))
      ensures n == 0 && io.Valid() && io.cache == map[] && io.dirty == {}
    {
      hide Apply, InstallWrites, RecoverWrites, SetHeader, HeaderOk, Recoverable, Quiet, PoolOk, Spare, AllFree,
           ToInstall, BufCache.BCache.Valid, ValidTxn;
      ghost var d0, p0 := io.disk, io.P();
      ghost var t := Logged(region, d0);
      RecoverPlan(region, d0, io.trace);
      CleanSpare(p0);
      ReadHead();
      QuietFacts(p0, io.P());
      QuietFree(p0, io.P(), t.home);
      ghost var p1 := io.P();
      InstallTrans(true, t);
      QuietFacts(p1, io.P());
      n := 0;
      assert Home() == [];
      ghost var p2 := io.P();
      WriteHead();
      QuietFacts(p2, io.P());
    }

    // --- the interface of file-system operations ---

    // One pass of begin_op's loop: true if the operation is admitted, false if it must sleep.
    method BeginOp(op: nat) returns (admitted: bool)
      requires Valid() && op !in budget.ops
      modifies this`outstanding, this`budget
      ensures Valid()
      ensures admitted == B.Enabled(old(budget), MAXOPBLOCKS, B.Begin(op))
      ensures budget == if admitted then B.Next(old(budget), B.Begin(op)) else old(budget)
    {
      hide PoolOk, Settled, BufCache.BCache.Valid;
      if committing {
        admitted := false;
      } else if n + (outstanding + 1) * MAXOPBLOCKS > LOGSIZE {
        admitted := false;
      } else {
        B.StepKeeps(budget, cap, B.Begin(op));
        outstanding := outstanding + 1;
        budget := B.Next(budget, B.Begin(op));
        admitted := true;
      }
    }

    // The caller holds buffer x, has modified it and is done with it.  The panic for too big a
    // transaction cannot happen with a log of LOGSIZE blocks when operations append fewer than
    // MAXOPBLOCKS blocks.
    method LogWrite(op: nat, x: nat) returns (panicked: bool)
      requires Valid() && op in budget.ops && Holds(io.P(), x) && !InLog(region, io.bc.buf[x].blockno)
      requires io.bc.buf[x].blockno in io.cache || budget.ops[op] < cap
      modifies this`n, this`budget, block, io`cache, io`pin, io`dirty, io.bc`buf
      ensures panicked == B.TooBig(old(budget), region.size)
      ensures region.size >= LOGSIZE && cap < MAXOPBLOCKS ==> !panicked
      ensures Valid()
      ensures panicked ==> io.P() == old(io.P()) && Home() == old(Home()) && budget == old(budget)
      ensures !panicked ==> Step(old(io.P()), Log(x), io.P())
      ensures !panicked ==> var b, pinned := io.bc.buf[x].blockno, old(io.bc.buf[x].blockno in io.cache);
                && io.cache == old(io.cache)[b := io.data[x]]
                && budget == B.Next(old(budget), if pinned then B.Absorb(op) else B.Append(op))
                && Home() == if pinned then old(Home()) else old(Home()) + [b]
    {
      hide B.Inv, B.Next, B.TooBig, Settled, PoolOk, Step, BufCache.BCache.Valid;
      ghost var p, b := io.P(), io.bc.buf[x].blockno;
      HeldCounts(p, x);
      B.RoomInLog(budget, cap, op, region.size);
      if n >= LOGSIZE || n + 1 >= region.size {
        return true;
      }
      B.LogWriteKeeps(budget, cap, op, b in io.cache);
      ghost var next := B.Next(budget, if b in io.cache then B.Absorb(op) else B.Append(op));
      SettledLog(region, io.disk, Home(), io.cache, b, io.data[x]);
      panicked := false;
      var i := 0;
      while i < n
        invariant 0 <= i <= n
        invariant forall j :: 0 <= j < i ==> block[j] != b
      {
        if block[i] == io.bc.buf[x].blockno { break; }  // log absorption
        i := i + 1;
      }
      assert (i < n) == (b in Home()) && (i < n ==> Home()[i] == b);
      block[i] := io.bc.buf[x].blockno;
      if i == n {
        io.Bpin(x);
        n := n + 1;
        assert Home() == old(Home()) + [b];
      } else {
        io.Absorb(x);
        assert Home() == old(Home());
      }
      LoggedCache(p, x, io.P());
      budget := next;
    }

    // The typical use of log_write: read a block, change it, log it and release it.  Whoever
    // reads the block afterwards sees the new contents, and all other blocks are as before.
    method Change(op: nat, b: nat, data: Block) returns (panicked: bool)
      requires Valid() && op in budget.ops && b < |io.disk| && !InLog(region, b) && Room(io.P(), b)
      requires b in io.cache || budget.ops[op] < cap
      requires forall x :: x in io.dirty ==> !Of(io.P(), x, b)
      modifies this`n, this`budget, block, io, io.bc
      ensures panicked == B.TooBig(old(budget), region.size)
      ensures region.size >= LOGSIZE && cap < MAXOPBLOCKS ==> !panicked
      ensures !panicked ==> Valid() && io.held == old(io.held) && io.disk == old(io.disk) && io.dirty == old(io.dirty)
      ensures !panicked ==> io.cache == old(io.cache)[b := data] && io.trace == old(io.trace)
      ensures !panicked ==>
                budget == B.Next(old(budget), if old(b in io.cache) then B.Absorb(op) else B.Append(op))
    {
      hide B.Inv, B.Next, B.TooBig, Settled, PoolOk, Step, Room, BufCache.BCache.Valid, Contents;
      ghost var p := io.P();
      var x := io.Bread(b);
      ghost var q := io.P();
      GetFacts(p, b, x, q);
      HeldCounts(q, x);
      NotDirty(p, b, x, q);
      io.Modify(x, data);
      assert Valid();
      ghost var m := io.P();
      panicked := LogWrite(op, x);
      if !panicked {
        ghost var g := io.P();
        LoggedCache(m, x, g);
        io.Brelse(x);
        Changed(p, b, x, q, data, g, io.P());
      }
    }

    // end_op up to the release of the lock: the last outstanding operation must commit.
    method EndOp(op: nat) returns (doCommit: bool)
      requires Valid() && op in budget.ops && (|budget.ops| == 1 ==> io.dirty == {})
      modifies this`outstanding, this`committing, this`budget
      ensures Valid()
      ensures budget == B.Next(old(budget), B.End(op)) && doCommit == budget.committing
    {
      MapMinus(budget.ops, op);
      B.StepKeeps(budget, cap, B.End(op));
      hide PoolOk, Settled, BufCache.BCache.Valid;
      outstanding := outstanding - 1;
      doCommit := false;
      if outstanding == 0 {
        doCommit := true;
        committing := true;
      }
      budget := B.Next(budget, B.End(op));
    }

    // The rest of end_op, run by the operation that was told to commit.
    method FinishOp()
      requires Valid() && committing && Spare(io.P())
      modifies this`n, this`committing, this`budget, io, io.bc
      ensures Valid()
      ensures budget == B.Next(old(budget), B.Commit) && io.cache == map[]
      ensures io.trace == old(io.trace) + CommitWrites(region, old(io.disk), old(Pending()))
      ensures io.disk == Apply(old(io.disk), CommitWrites(region, old(io.disk), old(Pending())))
    {
      hide B.Inv, B.Next, Idle, Settled, CommitWrites, Apply, Gather, Quiet, PoolOk, Spare, BufCache.BCache.Valid;
      B.CommitKeeps(budget, cap);
      ghost var next := B.Next(budget, B.Commit);
      SettledDone(region, io.disk, Home(), io.cache);
      ghost var p := io.P();
      Commit();
      QuietFacts(p, io.P());
      SettledNone(region, io.disk);
      committing := false;
      budget := next;
    }
  }

  // Nothing is half committed on disk, and exactly the logged blocks are pinned.
  ghost predicate Settled(g: Region, d: Disk, home: seq<nat>, cache: map<nat, Block>) {
    Idle(g, d) && ValidHomes(g, |d|, home) && forall b :: b in cache <==> b in home
  }

  lemma SettledLog(g: Region, d: Disk, home: seq<nat>, cache: map<nat, Block>, b: nat, data: Block)
    requires Settled(g, d, home, cache) && b < |d| && !InLog(g, b)
    ensures b in cache <==> b in home
    ensures b in home ==> Settled(g, d, home, cache[b := data])
    ensures b !in home && |home| < LOGSIZE && |home| + 1 < g.size ==> Settled(g, d, home + [b], cache[b := data])
  {
  }

  lemma SettledDone(g: Region, d: Disk, home: seq<nat>, cache: map<nat, Block>)
    requires Settled(g, d, home, cache)
    ensures forall b :: b in home ==> b in cache
    ensures Idle(g, d) && ValidTxn(g, |d|, Gather(home, cache)) && Idle(g, Apply(d, CommitWrites(g, d, Gather(home, cache))))
  {
    CommitDone(g, d, Gather(home, cache));
  }

  lemma SettledNone(g: Region, d: Disk)
    requires Idle(g, d)
    ensures Settled(g, d, [], map[])
  {
  }

  // No buffer is in use.
  ghost predicate Clean(io: BufferedDisk)
    reads io, io.bc
  {
    io.Valid() && io.dirty == {} && AllFree(io.P())
  }

  ghost predicate AllFree(p: Pool) {
    p.cache == map[] && |p.held| == NBUF && forall x :: 0 <= x < NBUF ==> p.held[x] == 0
  }

  // What install_trans finds: in a recovery all buffers are free, else exactly the blocks to be
  // installed are pinned.
  ghost predicate ToInstall(p: Pool, recovering: bool, home: seq<nat>) {
    if recovering then AllFree(p) else forall b :: b in p.cache <==> b in home
  }

  lemma HomeInstalled(p: Pool, q: Pool, recovering: bool, home: seq<nat>, i: nat)
    requires i < |home| && ToInstall(p, recovering, home[i..]) && Distinct(home)
    requires Quiet(p, q) && q.cache == p.cache - {home[i]}
    ensures ToInstall(q, recovering, home[i + 1..])
  {
    hide PoolOk;
    assert home[i..] == [home[i]] + home[i + 1..];
  }

  lemma AllInstalled(p: Pool, recovering: bool, home: seq<nat>)
    requires ToInstall(p, recovering, home[|home|..])
    ensures p.cache == map[]
  {
  }

  lemma CleanSpare(p: Pool)
    requires PoolOk(p) && AllFree(p)
    ensures Spare(p) && p.cache == map[]
  {
    assert Unused(p, 0);
  }

  // With all buffers free one is left after the first was taken.
  lemma RoomClean(p: Pool, l: nat, x: nat, q: Pool, h: nat)
    requires PoolOk(p) && Step(p, Get(l, x), q) && AllFree(p)
    ensures Room(q, h)
  {
    var y := if x == 0 then 1 else 0;
    assert q.buf[y].refcnt == 0;
  }

  lemma TwoFacts(p: Pool, l: nat, to: nat, h: nat, from: nat, q: Pool)
    requires TwoHeld(p, l, to, h, from, q)
    ensures |p.data| == |q.data| == |q.held| == NBUF && q.dirty == {} && l < |p.disk| && h < |p.disk| && to != from
    ensures PoolOk(q) && Holds(q, to) && Holds(q, from) && Of(q, to, l) && Of(q, from, h)
    ensures q.cache == p.cache && q.disk == p.disk && q.dev == p.dev
    ensures q.data[to] == Contents(p, l) && q.data[from] == Contents(p, h)
  {
  }

  lemma QuietRefl(p: Pool)
    requires PoolOk(p) && p.dirty == {}
    ensures Quiet(p, p)
  {
  }

  lemma QuietTrans(p: Pool, q: Pool, r: Pool)
    requires Quiet(p, q) && Quiet(q, r)
    ensures Quiet(p, r)
  {
  }

  lemma QuietFacts(p: Pool, q: Pool)
    requires Quiet(p, q)
    ensures PoolOk(p) && PoolOk(q) && |p.held| == NBUF && q.held == p.held && q.dirty == {} && |q.disk| == |p.disk|
    ensures Spare(p) ==> Spare(q)
  {
  }

  lemma NotDirty(p: Pool, b: nat, x: nat, q: Pool)
    requires PoolOk(p) && Step(p, Get(b, x), q) && forall y :: y in p.dirty ==> !Of(p, y, b)
    ensures x !in p.dirty
  {
    assert Chosen(p, b, x) && Current(p, x);
    if x in p.dirty { assert false; }
  }

  lemma Changed(p: Pool, b: nat, x: nat, q: Pool, data: Block, g: Pool, r: Pool)
    requires PoolOk(p) && Step(p, Get(b, x), q) && x !in p.dirty && x < |q.data|
    requires PoolOk(g) && Step(Modified(q, x, data), Log(x), g) && Step(g, Release(x), r)
    ensures r.held == p.held && r.disk == p.disk && r.dirty == p.dirty && r.cache == p.cache[b := data]
  {
    GetFacts(p, b, x, q);
    LoggedCache(Modified(q, x, data), x, g);
    ReleaseFacts(g, x, r);
    hide PoolOk, Step;
  }

  lemma LoggedCache(p: Pool, x: nat, q: Pool)
    requires Step(p, Log(x), q)
    ensures x < NBUF && |p.data| == NBUF
    ensures q.cache == p.cache[p.buf[x].blockno := p.data[x]] && q.disk == p.disk && q.data == p.data
    ensures q.held == p.held && q.dirty == p.dirty - {x} && (Holds(p, x) ==> Holds(q, x))
    ensures q.buf[x].blockno == p.buf[x].blockno
  {
  }

  lemma RecoveredIdle(g: Region, d: LogSpec.Disk)
    requires Recoverable(g, d)
    ensures Idle(g, Apply(d, RecoverWrites(g, d)))
  {
    FullRecovery(g, d, seq(|d|, b requires 0 <= b < |d| => View(g, d, b)));
  }

  // The next home block.
  lemma NextHome(g: Region, p: Pool, recovering: bool, t: Txn, i: nat)
    requires ValidTxn(g, |p.disk|, t) && i < |t.home| && ToInstall(p, recovering, t.home[i..])
    requires g.start + g.size <= |p.disk|
    ensures t.home[i] < |p.disk| && t.home[i] != g.start + i + 1 && g.start + i + 1 < |p.disk|
    ensures g.start + i + 1 !in p.cache && Distinct(t.home)
    ensures if recovering then AllFree(p) else t.home[i] in p.cache
  {
    assert t.home[i] in t.home[i..];
    assert InLog(g, g.start + i + 1);
    assert forall b :: b in t.home[i..] ==> b in t.home;
  }

  // The writes `ws` took the disk from d0 to d and were recorded after `before`.
  ghost predicate Written(d0: Disk, before: seq<Write>, d: Disk, trace: seq<Write>, ws: seq<Write>) {
    d == Apply(d0, ws) && trace == before + ws
  }

  lemma WrittenNone(d0: Disk, before: seq<Write>, ws: seq<Write>)
    ensures Written(d0, before, d0, before, ws[..0])
  {
  }

  lemma WrittenStep(d0: Disk, before: seq<Write>, d: Disk, trace: seq<Write>, ws: seq<Write>, i: nat)
    requires i < |ws| && Written(d0, before, d, trace, ws[..i])
    ensures Written(d0, before, Update(d, ws[i]), trace + [ws[i]], ws[..i + 1])
  {
    assert ws[..i + 1] == ws[..i] + [ws[i]];
    ApplySnocWrite(d0, ws[..i], ws[i]);
  }

  lemma WrittenAll(d0: Disk, before: seq<Write>, d: Disk, trace: seq<Write>, ws: seq<Write>)
    requires Written(d0, before, d, trace, ws[..|ws|])
    ensures d == Apply(d0, ws) && trace == before + ws
  {
    assert ws[..|ws|] == ws;
  }

  // Installing never overwrites a copy in the log that is still to be read.
  lemma WrittenCopy(g: Region, d0: Disk, before: seq<Write>, d: Disk, trace: seq<Write>, t: Txn, i: nat)
    requires ValidTxn(g, |d0|, t) && i < |t.home| && g.start + g.size <= |d0|
    requires Written(d0, before, d, trace, InstallWrites(t)[..i])
    ensures d[g.start + 1 + i] == d0[g.start + 1 + i]
    ensures InstallWrites(t)[i] == Write(t.home[i], t.data[i])
  {
    InstallPrefixFrame(g, d0, t, i);
    assert InLog(g, g.start + 1 + i);
  }

  lemma CopyAt(g: Region, home: seq<nat>, cache: map<nat, Block>, i: nat)
    requires (forall b :: b in home ==> b in cache) && i < |home|
    ensures home[i] in home
    ensures LogWrites(g, Gather(home, cache))[i] == Write(g.start + i + 1, cache[home[i]])
  {
    assert home[i] in home;
  }

  lemma MapMinus(m: map<nat, nat>, k: nat)
    requires k in m
    ensures |m - {k}| == |m| - 1 && (|m| == 1 ==> m - {k} == map[])
  {
    assert (m - {k}).Keys == m.Keys - {k};
  }

  lemma ApplySnocWrite(d: Disk, ws: seq<Write>, w: Write)
    ensures Apply(d, ws + [w]) == Update(Apply(d, ws), w)
  {
    ApplyAppend(d, ws, [w]);
    assert Apply(Apply(d, ws), [w]) == Update(Apply(d, ws), w);
  }

  // The four phases of a commit: log copies, header, home blocks, cleared header.
  lemma CommitHeader(g: Region, d: Disk, t: Txn)
    requires Idle(g, d) && ValidTxn(g, |d|, t)
    ensures Apply(d, LogWrites(g, t))[g.start] == d[g.start] && |d[g.start]| == WORDS
  {
    LogPrefix(g, d, t, |t.home|);
    assert LogWrites(g, t)[..|t.home|] == LogWrites(g, t);
  }

  lemma CommittedCopies(g: Region, d: Disk, t: Txn)
    requires Idle(g, d) && ValidTxn(g, |d|, t)
    ensures forall i :: 0 <= i < |t.home| ==> Committed(g, d, t)[g.start + 1 + i] == t.data[i]
  {
    LoggedCopies(g, d, t);
    forall i | 0 <= i < |t.home| ensures Committed(g, d, t)[g.start + 1 + i] == t.data[i] {
      assert Logged(g, Committed(g, d, t)).data[i] == Committed(g, d, t)[g.start + 1 + i];
    }
  }

  lemma InstalledHeader(g: Region, d: Disk, t: Txn)
    requires Idle(g, d) && ValidTxn(g, |d|, t)
    ensures Apply(Committed(g, d, t), InstallWrites(t))[g.start] == SetHeader(d[g.start], t.home)
  {
    InstallPrefixFrame(g, Committed(g, d, t), t, |t.home|);
    assert InstallWrites(t)[..|t.home|] == InstallWrites(t);
    assert InLog(g, g.start);
  }

  lemma CommitComposed(g: Region, d: Disk, t: Txn)
    requires Idle(g, d) && ValidTxn(g, |d|, t) && t.home != []
    ensures Apply(d, CommitWrites(g, d, t))
         == Update(Apply(Committed(g, d, t), InstallWrites(t)),
                   Write(g.start, SetHeader(SetHeader(d[g.start], t.home), [])))
  {
    var c := Committed(g, d, t);
    var head := [Write(g.start, SetHeader(d[g.start], t.home))];
    var clear := Write(g.start, SetHeader(SetHeader(d[g.start], t.home), []));
    ApplySnocWrite(d, LogWrites(g, t) + head + InstallWrites(t), clear);
    ApplyAppend(d, LogWrites(g, t) + head, InstallWrites(t));
    ApplySnocWrite(d, LogWrites(g, t), head[0]);
  }

  lemma RecoverComposed(g: Region, d: Disk)
    requires Recoverable(g, d)
    ensures var t := Logged(g, d);
            && Apply(d, InstallWrites(t))[g.start] == d[g.start]
            && Apply(d, RecoverWrites(g, d))
               == Update(Apply(d, InstallWrites(t)), Write(g.start, SetHeader(d[g.start], [])))
  {
    var t := Logged(g, d);
    InstallPrefixFrame(g, d, t, |t.home|);
    assert InstallWrites(t)[..|t.home|] == InstallWrites(t);
    assert InLog(g, g.start);
    ApplySnocWrite(d, InstallWrites(t), Write(g.start, SetHeader(d[g.start], [])));
  }

  // The steps of a recovery.
  lemma RecoverPlan(g: Region, d: Disk, before: seq<Write>)
    requires Recoverable(g, d)
    ensures 0 < g.size && g.start + g.size <= |d| && |d[g.start]| == WORDS && HeaderOk(d[g.start])
    ensures var t := Logged(g, d);
            var clear := Write(g.start, SetHeader(d[g.start], []));
            && ValidTxn(g, |d|, t) && |t.home| == |t.data| <= LOGSIZE && t.home == Homes(d[g.start])
            && (forall i :: 0 <= i < |t.home| ==> d[g.start + 1 + i] == t.data[i])
            && Apply(d, InstallWrites(t))[g.start] == d[g.start]
            && Apply(d, RecoverWrites(g, d)) == Update(Apply(d, InstallWrites(t)), clear)
            && before + RecoverWrites(g, d) == before + InstallWrites(t) + [clear]
  {
    RecoverComposed(g, d);
    hide Apply, SetHeader;
  }

  lemma QuietFree(p: Pool, q: Pool, home: seq<nat>)
    requires Quiet(p, q) && AllFree(p) && q.cache == p.cache
    ensures AllFree(q) && ToInstall(q, true, home) && p.cache == map[]
  {
  }

  // The steps of a commit, one after the other.
  lemma CommitPlan(g: Region, d: Disk, t: Txn, before: seq<Write>)
    requires Idle(g, d) && ValidTxn(g, |d|, t) && t.home != []
    ensures Apply(d, LogWrites(g, t))[g.start] == d[g.start] && |d[g.start]| == WORDS
    ensures var head := SetHeader(d[g.start], t.home);
            var clear := Write(g.start, SetHeader(head, []));
            var c := Committed(g, d, t);
            && |head| == WORDS && c == Update(Apply(d, LogWrites(g, t)), Write(g.start, head))
            && (forall i :: 0 <= i < |t.home| ==> c[g.start + 1 + i] == t.data[i])
            && Apply(c, InstallWrites(t))[g.start] == head
            && Apply(d, CommitWrites(g, d, t)) == Update(Apply(c, InstallWrites(t)), clear)
            && before + CommitWrites(g, d, t)
               == before + LogWrites(g, t) + [Write(g.start, head)] + InstallWrites(t) + [clear]
  {
    hide Apply, LogWrites, InstallWrites;
    CommitHeader(g, d, t);
    CommittedCopies(g, d, t);
    InstalledHeader(g, d, t);
    CommitComposed(g, d, t);
  }

  lemma CommitNothing(g: Region, d: Disk, t: Txn)
    requires Idle(g, d) && ValidTxn(g, |d|, t) && t.home == []
    ensures CommitWrites(g, d, t) == [] && Apply(d, []) == d
  {
  }

  /** A commit leaves on disk what the file system saw in its buffers before it. */
  lemma CommitInstallsCache(g: Region, d: Disk, home: seq<nat>, cache: map<nat, Block>, b: nat)
    requires Idle(g, d) && ValidHomes(g, |d|, home) && b < |d| && !InLog(g, b)
    requires forall x :: x in cache <==> x in home
    ensures Apply(d, CommitWrites(g, d, Gather(home, cache)))[b] == if b in cache then cache[b] else d[b]
  {
    CommitDone(g, d, Gather(home, cache));
    EffectSeen(d, Gather(home, cache), b, cache);
  }

  lemma EffectSeen(d: Disk, t: Txn, b: nat, cache: map<nat, Block>)
    requires |t.home| == |t.data| && Distinct(t.home) && b < |d|
    requires forall x :: x in cache <==> x in t.home
    requires forall i :: 0 <= i < |t.home| ==> t.data[i] == cache[t.home[i]]
    ensures Effect(d, t)[b] == if b in cache then cache[b] else d[b]
  {
    if b in t.home {
      var i :| 0 <= i < |t.home| && t.home[i] == b;
      LookupHit(t, i, d[b]);
    } else {
      LookupMiss(t, b, d[b]);
    }
  }
}
