/**
 Crash safety of the redo log over whole runs: a run of commits cut at any write, then
 any number of recoveries cut at any write, then one full recovery, leaves exactly the
 effect of a prefix of the transactions.
 */
module LogCrash {
  import opened Basics
  import opened Params
  import opened LogSpec

  // --- applying writes ---

  lemma {:induction false} ApplyAppend(d: Disk, a: seq<Write>, b: seq<Write>)
    ensures Apply(d, a + b) == Apply(Apply(d, a), b)
    decreases |a|
  {
    if a == [] {
      assert a + b == b;
    } else {
      assert (a + b)[1..] == a[1..] + b;
      ApplyAppend(Update(d, a[0]), a[1..], b);
    }
  }

  lemma {:induction false} ApplyFrame(d: Disk, ws: seq<Write>, b: nat)
    requires b < |d| && forall i :: 0 <= i < |ws| ==> ws[i].bno != b
    ensures Apply(d, ws)[b] == d[b]
    decreases |ws|
  {
    if ws != [] { ApplyFrame(Update(d, ws[0]), ws[1..], b); }
  }

  // With distinct targets the i-th write is what stays at its block.
  lemma {:induction false} ApplyAt(d: Disk, ws: seq<Write>, i: nat)
    requires i < |ws| && ws[i].bno < |d|
    requires forall j :: i < j < |ws| ==> ws[j].bno != ws[i].bno
    ensures Apply(d, ws)[ws[i].bno] == ws[i].data
    decreases |ws|
  {
    if i == 0 {
      ApplyFrame(Update(d, ws[0]), ws[1..], ws[0].bno);
    } else {
      ApplyAt(Update(d, ws[0]), ws[1..], i - 1);
    }
  }

  // --- reading a transaction ---

  lemma {:induction false} LookupHit(t: Txn, i: nat, default: Block)
    requires |t.home| == |t.data| && i < |t.home| && Distinct(t.home)
    ensures Lookup(t, t.home[i], default) == t.data[i]
    decreases |t.home|
  {
    if i > 0 {
      assert t.home[0] != t.home[i];
      LookupHit(Txn(t.home[1..], t.data[1..]), i - 1, default);
    }
  }

  lemma {:induction false} LookupMiss(t: Txn, b: nat, default: Block)
    requires |t.home| == |t.data| && b !in t.home
    ensures Lookup(t, b, default) == default
    decreases |t.home|
  {
    if t.home != [] {
      assert b != t.home[0];
      LookupMiss(Txn(t.home[1..], t.data[1..]), b, default);
    }
  }

  // --- one recovery, cut anywhere ---

  // Disk d, once recovered, shows e outside the log.
  ghost predicate Means(g: Region, d: Disk, e: Disk) {
    && Recoverable(g, d) && |d| == |e|
    && forall b :: 0 <= b < |d| && !InLog(g, b) ==> View(g, d, b) == e[b]
  }

  // The log is empty, so the disk means what its home blocks say.
  ghost predicate Idle(g: Region, d: Disk) {
    Recoverable(g, d) && d[g.start][0] == 0
  }

  lemma IdleMeans(g: Region, d: Disk, e: Disk)
    requires Idle(g, d)
    ensures Means(g, d, e) <==> SameHome(g, d, e)
  {
    assert Logged(g, d).home == [];
  }

  lemma InstallPrefixFrame(g: Region, d: Disk, t: Txn, k: nat)
    requires ValidTxn(g, |d|, t) && k <= |t.home|
    ensures forall b :: 0 <= b < |d| && (InLog(g, b) || b !in t.home)
              ==> Apply(d, InstallWrites(t)[..k])[b] == d[b]
  {
    forall b | 0 <= b < |d| && (InLog(g, b) || b !in t.home)
      ensures Apply(d, InstallWrites(t)[..k])[b] == d[b]
    {
      ApplyFrame(d, InstallWrites(t)[..k], b);
    }
  }

  lemma SameLogged(g: Region, d: Disk, e: Disk)
    requires Recoverable(g, d) && |d| == |e|
    requires forall b :: 0 <= b < |d| && InLog(g, b) ==> d[b] == e[b]
    ensures Recoverable(g, e) && Logged(g, e) == Logged(g, d)
  {
    assert d[g.start] == e[g.start];
  }

  lemma InstallPrefixMeans(g: Region, d: Disk, e: Disk, k: nat)
    requires Means(g, d, e) && k <= |Logged(g, d).home|
    ensures Means(g, Apply(d, InstallWrites(Logged(g, d))[..k]), e)
  {
    var t := Logged(g, d);
    var d' := Apply(d, InstallWrites(t)[..k]);
    InstallPrefixFrame(g, d, t, k);
    SameLogged(g, d, d');
    forall b | 0 <= b < |d| && !InLog(g, b) ensures View(g, d', b) == e[b] {
      if b in t.home {
        var i :| 0 <= i < |t.home| && t.home[i] == b;
        LookupHit(t, i, d[b]);
        LookupHit(t, i, d'[b]);
      }
    }
  }

  lemma InstalledIsView(g: Region, d: Disk, b: nat)
    requires Recoverable(g, d) && b < |d| && !InLog(g, b)
    ensures Apply(d, InstallWrites(Logged(g, d)))[b] == View(g, d, b)
  {
    var t := Logged(g, d);
    if b in t.home {
      var i :| 0 <= i < |t.home| && t.home[i] == b;
      LookupHit(t, i, d[b]);
      ApplyAt(d, InstallWrites(t), i);
    } else {
      LookupMiss(t, b, d[b]);
      ApplyFrame(d, InstallWrites(t), b);
    }
  }

  lemma FullRecovery(g: Region, d: Disk, e: Disk)
    requires Means(g, d, e)
    ensures Idle(g, Apply(d, RecoverWrites(g, d))) && SameHome(g, Apply(d, RecoverWrites(g, d)), e)
  {
    var t := Logged(g, d);
    var clear := [Write(g.start, SetHeader(d[g.start], []))];
    var d' := Apply(d, InstallWrites(t));
    ApplyAppend(d, InstallWrites(t), clear);
    assert Apply(d', clear) == Update(d', clear[0]);
    forall b | 0 <= b < |d| && !InLog(g, b) ensures d'[b] == e[b] {
      InstalledIsView(g, d, b);
    }
  }

  // A recovery cut after k of its writes keeps the meaning; a complete one empties the log.
  lemma RecoverCut(g: Region, d: Disk, e: Disk, k: nat)
    requires Means(g, d, e) && k <= |RecoverWrites(g, d)|
    ensures Means(g, Apply(d, RecoverWrites(g, d)[..k]), e)
    ensures k == |RecoverWrites(g, d)| ==> Idle(g, Apply(d, RecoverWrites(g, d)[..k]))
  {
    var ws := RecoverWrites(g, d);
    if k < |ws| {
      assert ws[..k] == InstallWrites(Logged(g, d))[..k];
      InstallPrefixMeans(g, d, e, k);
    } else {
      assert ws[..k] == ws;
      FullRecovery(g, d, e);
      IdleMeans(g, Apply(d, ws), e);
    }
  }

  // --- one commit, cut anywhere ---

  lemma LogPrefix(g: Region, d: Disk, t: Txn, k: nat)
    requires Idle(g, d) && ValidTxn(g, |d|, t) && k <= |t.home|
    ensures Idle(g, Apply(d, LogWrites(g, t)[..k])) && SameHome(g, Apply(d, LogWrites(g, t)[..k]), d)
    ensures Apply(d, LogWrites(g, t)[..k])[g.start] == d[g.start]
  {
    var ws := LogWrites(g, t)[..k];
    forall b | 0 <= b < |d| && (b == g.start || !InLog(g, b)) ensures Apply(d, ws)[b] == d[b] {
      ApplyFrame(d, ws, b);
    }
  }

  // The disk just after the non-empty header reached it: the commit point.
  ghost function Committed(g: Region, d: Disk, t: Txn): Disk
    requires Recoverable(g, d) && ValidTxn(g, |d|, t)
  {
    Update(Apply(d, LogWrites(g, t)), Write(g.start, SetHeader(d[g.start], t.home)))
  }

  lemma HomesOfHeader(b: Block, home: seq<nat>)
    requires |home| <= LOGSIZE && |b| == WORDS
    ensures HeaderOk(SetHeader(b, home)) && Homes(SetHeader(b, home)) == home
  {
    var head := SetHeader(b, home);
    assert forall i :: 0 <= i < |home| ==> head[i + 1] == home[i];
    assert Homes(head) == home;
  }

  lemma LogWritesAt(g: Region, t: Txn)
    requires |t.home| == |t.data|
    ensures forall i :: 0 <= i < |t.home| ==> LogWrites(g, t)[i] == Write(g.start + 1 + i, t.data[i])
  {
  }

  lemma LoggedCopies(g: Region, d: Disk, t: Txn)
    requires Idle(g, d) && ValidTxn(g, |d|, t)
    ensures Recoverable(g, Committed(g, d, t)) && Logged(g, Committed(g, d, t)) == t
  {
    var d1 := Apply(d, LogWrites(g, t));
    var d2 := Committed(g, d, t);
    hide Homes, Apply, LogWrites, SetHeader, HeaderOk;
    HomesOfHeader(d[g.start], t.home);
    LogWritesAt(g, t);
    forall i | 0 <= i < |t.home| ensures d2[g.start + 1 + i] == t.data[i] {
      ApplyAt(d, LogWrites(g, t), i);
    }
    assert Logged(g, d2).data == t.data;
  }

  lemma CommittedMeans(g: Region, d: Disk, e: Disk, t: Txn)
    requires Idle(g, d) && ValidTxn(g, |d|, t) && SameHome(g, d, e)
    ensures Means(g, Committed(g, d, t), Effect(e, t))
  {
    LoggedCopies(g, d, t);
    LogPrefix(g, d, t, |t.home|);
    assert LogWrites(g, t)[..|t.home|] == LogWrites(g, t);
    forall b | 0 <= b < |d| && !InLog(g, b)
      ensures View(g, Committed(g, d, t), b) == Effect(e, t)[b]
    {
      assert Committed(g, d, t)[b] == d[b] == e[b];
    }
  }

  // Past the commit point a commit does what a recovery of the committed disk would do.
  lemma CommitTail(g: Region, d: Disk, t: Txn, k: nat)
    requires Idle(g, d) && ValidTxn(g, |d|, t) && |t.home| < k <= |CommitWrites(g, d, t)|
    ensures Recoverable(g, Committed(g, d, t))
    ensures |RecoverWrites(g, Committed(g, d, t))| == |t.home| + 1
    ensures Apply(d, CommitWrites(g, d, t)[..k])
         == Apply(Committed(g, d, t), RecoverWrites(g, Committed(g, d, t))[..k - |t.home| - 1])
  {
    LoggedCopies(g, d, t);
    var c := Committed(g, d, t);
    var head := [Write(g.start, SetHeader(d[g.start], t.home))];
    var rest := RecoverWrites(g, c)[..k - |t.home| - 1];
    assert CommitWrites(g, d, t)[..k] == LogWrites(g, t) + head + rest;
    ApplyAppend(d, LogWrites(g, t) + head, rest);
    ApplyAppend(d, LogWrites(g, t), head);
    assert Apply(Apply(d, LogWrites(g, t)), head) == c;
  }

  lemma CommitCut(g: Region, d: Disk, e: Disk, t: Txn, k: nat)
    requires Idle(g, d) && ValidTxn(g, |d|, t) && SameHome(g, d, e)
    requires k <= |CommitWrites(g, d, t)|
    ensures Means(g, Apply(d, CommitWrites(g, d, t)[..k]), if k <= |t.home| then e else Effect(e, t))
    ensures k == |CommitWrites(g, d, t)| ==> Idle(g, Apply(d, CommitWrites(g, d, t)[..k]))
  {
    hide Apply, Homes, HeaderOk, SetHeader, View;
    if k <= |t.home| {
      assert CommitWrites(g, d, t)[..k] == LogWrites(g, t)[..k];
      LogPrefix(g, d, t, k);
      IdleMeans(g, Apply(d, LogWrites(g, t)[..k]), e);
    } else {
      CommitTail(g, d, t, k);
      CommittedMeans(g, d, e, t);
      RecoverCut(g, Committed(g, d, t), Effect(e, t), k - |t.home| - 1);
    }
  }

  // A commit that runs to its end installs the whole transaction and empties the log.
  lemma CommitDone(g: Region, d: Disk, t: Txn)
    requires Idle(g, d) && ValidTxn(g, |d|, t)
    ensures Idle(g, Apply(d, CommitWrites(g, d, t)))
    ensures SameHome(g, Apply(d, CommitWrites(g, d, t)), Effect(d, t))
  {
    var ws := CommitWrites(g, d, t);
    assert ws[..|ws|] == ws;
    CommitCut(g, d, d, t, |ws|);
    if t.home == [] { assert Effect(d, t) == d; }
    IdleMeans(g, Apply(d, ws), Effect(d, t));
  }

  // --- whole runs ---

  function RunWrites(g: Region, d: Disk, txns: seq<Txn>): seq<Write>
    requires Idle(g, d) && ValidTxns(g, |d|, txns)
    decreases |txns|
  {
    if txns == [] then [] else
      CommitDone(g, d, txns[0]);
      var ws := CommitWrites(g, d, txns[0]);
      ws + RunWrites(g, Apply(d, ws), txns[1..])
  }

  // Recoveries that crash after cuts[0], cuts[1], ... of their writes.
  function CutRecoveries(g: Region, d: Disk, cuts: seq<nat>): Disk
    requires Recoverable(g, d)
    decreases |cuts|
  {
    if cuts == [] then d else
      var ws := RecoverWrites(g, d);
      var k := if cuts[0] < |ws| then cuts[0] else |ws|;
      var e := seq(|d|, b requires 0 <= b < |d| => View(g, d, b));
      RecoverCut(g, d, e, k);
      CutRecoveries(g, Apply(d, ws[..k]), cuts[1..])
  }

  // The number of writes a whole commit issues.
  function FullLength(t: Txn): nat {
    if t.home == [] then 0 else 2 * |t.home| + 2
  }

  // How many transactions the first k writes of a run commit.
  function CommittedCount(txns: seq<Txn>, k: nat): (m: nat)
    ensures m <= |txns|
    decreases |txns|
  {
    if txns == [] then 0 else
      var all := FullLength(txns[0]);
      if k >= all then 1 + CommittedCount(txns[1..], k - all)
      else if k > |txns[0].home| then 1 else 0
  }

  // Independent of CommittedCount: the writes that put a non-empty header on disk, and the
  // transactions that have something to write.
  predicate NonZeroHeader(g: Region, w: Write) {
    w.bno == g.start && w.data != [] && w.data[0] > 0
  }

  function HeaderWrites(g: Region, ws: seq<Write>): nat
    decreases |ws|
  {
    if ws == [] then 0
    else (if NonZeroHeader(g, ws[0]) then 1 else 0) + HeaderWrites(g, ws[1..])
  }

  function NonEmpty(txns: seq<Txn>): nat
    decreases |txns|
  {
    if txns == [] then 0
    else (if txns[0].home != [] then 1 else 0) + NonEmpty(txns[1..])
  }

  // How the count and the writes of a run split after its first transaction.
  lemma RunStep(g: Region, d: Disk, txns: seq<Txn>, k: nat)
    requires Idle(g, d) && ValidTxns(g, |d|, txns) && txns != []
    ensures Idle(g, Apply(d, CommitWrites(g, d, txns[0])))
    ensures var ws := CommitWrites(g, d, txns[0]);
            var rest := RunWrites(g, Apply(d, ws), txns[1..]);
            && |ws| == FullLength(txns[0])
            && RunWrites(g, d, txns) == ws + rest
            && (k >= |ws| && k <= |ws| + |rest| ==>
                  && RunWrites(g, d, txns)[..k] == ws + rest[..k - |ws|]
                  && NonEmpty(txns[..CommittedCount(txns, k)])
                     == (if txns[0].home != [] then 1 else 0)
                      + NonEmpty(txns[1..][..CommittedCount(txns[1..], k - |ws|)]))
            && (k < |ws| ==>
                  && RunWrites(g, d, txns)[..k] == ws[..k]
                  && NonEmpty(txns[..CommittedCount(txns, k)]) == if k > |txns[0].home| then 1 else 0)
  {
    hide CommitWrites, Apply, Recoverable, SameHome;
    var ws := CommitWrites(g, d, txns[0]);
    CommitDone(g, d, txns[0]);
    var m := CommittedCount(txns, k);
    if k >= |ws| {
      assert txns[..m][1..] == txns[1..][..m - 1];
    } else if k > |txns[0].home| {
      assert txns[..1] == [txns[0]];
    }
  }

  lemma {:induction false} RunCut(g: Region, d: Disk, e: Disk, txns: seq<Txn>, k: nat)
    requires Idle(g, d) && ValidTxns(g, |d|, txns) && SameHome(g, d, e)
    requires k <= |RunWrites(g, d, txns)|
    ensures Means(g, Apply(d, RunWrites(g, d, txns)[..k]), Effects(e, txns[..CommittedCount(txns, k)]))
    decreases |txns|
  {
    hide Means, Apply, SameHome, Recoverable, CommitWrites, RunWrites, ValidHomes, Effects, Effect,
         CommittedCount, FullLength, NonEmpty;
    if txns == [] {
      RunNone(g, d, e, k);
    } else {
      RunSplit(g, d, e, txns, k);
      var ws := CommitWrites(g, d, txns[0]);
      if k >= |ws| {
        RunCut(g, Apply(d, ws), Effect(e, txns[0]), txns[1..], k - |ws|);
        RunCutLater(g, d, e, txns, k);
      } else {
        RunCutFirst(g, d, e, txns, k);
      }
    }
  }

  // The rest of a run, after its first transaction.
  lemma RunSplit(g: Region, d: Disk, e: Disk, txns: seq<Txn>, k: nat)
    requires Idle(g, d) && ValidTxns(g, |d|, txns) && SameHome(g, d, e) && txns != [] && k <= |RunWrites(g, d, txns)|
    ensures |e| == |d| && Recoverable(g, d) && ValidTxn(g, |d|, txns[0]) && ValidTxns(g, |d|, txns[1..])
    ensures var d' := Apply(d, CommitWrites(g, d, txns[0]));
            && Idle(g, d') && SameHome(g, d', Effect(e, txns[0]))
            && |RunWrites(g, d, txns)| == |CommitWrites(g, d, txns[0])| + |RunWrites(g, d', txns[1..])|
  {
    hide CommitWrites, Apply, ValidHomes, Effect, CommittedCount, FullLength, NonEmpty;
    RunStep(g, d, txns, k);
    CommitDoneOn(g, d, e, txns[0]);
  }

  lemma RunNone(g: Region, d: Disk, e: Disk, k: nat)
    requires Idle(g, d) && SameHome(g, d, e) && k <= |RunWrites(g, d, [])|
    ensures Means(g, Apply(d, RunWrites(g, d, [])[..k]), Effects(e, [][..CommittedCount([], k)]))
  {
    IdleMeans(g, d, e);
  }

  // The cut comes after the first transaction.
  lemma RunCutLater(g: Region, d: Disk, e: Disk, txns: seq<Txn>, k: nat)
    requires Idle(g, d) && ValidTxns(g, |d|, txns) && txns != [] && |e| == |d|
    requires |CommitWrites(g, d, txns[0])| <= k <= |RunWrites(g, d, txns)|
    requires var ws := CommitWrites(g, d, txns[0]);
             && Idle(g, Apply(d, ws)) && ValidTxns(g, |d|, txns[1..])
             && k - |ws| <= |RunWrites(g, Apply(d, ws), txns[1..])|
             && Means(g, Apply(Apply(d, ws), RunWrites(g, Apply(d, ws), txns[1..])[..k - |ws|]),
                      Effects(Effect(e, txns[0]), txns[1..][..CommittedCount(txns[1..], k - |ws|)]))
    ensures Means(g, Apply(d, RunWrites(g, d, txns)[..k]), Effects(e, txns[..CommittedCount(txns, k)]))
  {
    hide Means, Apply, Recoverable, CommitWrites, RunWrites, ValidHomes, Effects, Effect, CommittedCount, FullLength;
    var ws := CommitWrites(g, d, txns[0]);
    RunStep(g, d, txns, k);
    EffectsStep(g, e, txns, k);
    ApplyAppend(d, ws, RunWrites(g, Apply(d, ws), txns[1..])[..k - |ws|]);
  }

  // The cut falls into the first transaction.
  lemma RunCutFirst(g: Region, d: Disk, e: Disk, txns: seq<Txn>, k: nat)
    requires Idle(g, d) && ValidTxns(g, |d|, txns) && txns != [] && SameHome(g, d, e)
    requires k < |CommitWrites(g, d, txns[0])| && k <= |RunWrites(g, d, txns)|
    ensures Means(g, Apply(d, RunWrites(g, d, txns)[..k]), Effects(e, txns[..CommittedCount(txns, k)]))
  {
    assert |e| == |d|;
    hide Means, Apply, SameHome, Recoverable, CommitWrites, RunWrites, ValidHomes, Effects, Effect, CommittedCount,
         FullLength;
    RunStep(g, d, txns, k);
    EffectsStep(g, e, txns, k);
    CommitCut(g, d, e, txns[0], k);
  }

  // What the transactions committed by k writes do, split after the first transaction.
  lemma EffectsStep(g: Region, e: Disk, txns: seq<Txn>, k: nat)
    requires ValidTxns(g, |e|, txns) && txns != []
    ensures Effects(e, txns[..CommittedCount(txns, k)])
         == if k >= FullLength(txns[0]) then
              Effects(Effect(e, txns[0]), txns[1..][..CommittedCount(txns[1..], k - FullLength(txns[0]))])
            else if k > |txns[0].home| then Effect(e, txns[0])
            else e
  {
    var m := CommittedCount(txns, k);
    if m > 0 { assert txns[..m][1..] == txns[1..][..m - 1]; }
  }

  lemma CommitDoneOn(g: Region, d: Disk, e: Disk, t: Txn)
    requires Idle(g, d) && ValidTxn(g, |d|, t) && SameHome(g, d, e)
    ensures SameHome(g, Apply(d, CommitWrites(g, d, t)), Effect(e, t))
  {
    CommitDone(g, d, t);
  }

  lemma {:induction false} CutRecoveriesMean(g: Region, d: Disk, e: Disk, cuts: seq<nat>)
    requires Means(g, d, e)
    ensures Means(g, CutRecoveries(g, d, cuts), e)
    decreases |cuts|
  {
    if cuts != [] {
      var ws := RecoverWrites(g, d);
      var k := if cuts[0] < |ws| then cuts[0] else |ws|;
      RecoverCut(g, d, e, k);
      CutRecoveriesMean(g, Apply(d, ws[..k]), e, cuts[1..]);
    }
  }

  lemma {:induction false} HeaderWritesAppend(g: Region, a: seq<Write>, b: seq<Write>)
    ensures HeaderWrites(g, a + b) == HeaderWrites(g, a) + HeaderWrites(g, b)
    decreases |a|
  {
    if a == [] {
      assert a + b == b;
    } else {
      assert (a + b)[1..] == a[1..] + b;
      HeaderWritesAppend(g, a[1..], b);
    }
  }

  lemma {:induction false} NoHeaderWrites(g: Region, ws: seq<Write>)
    requires forall i :: 0 <= i < |ws| ==> !NonZeroHeader(g, ws[i])
    ensures HeaderWrites(g, ws) == 0
    decreases |ws|
  {
    if ws != [] { NoHeaderWrites(g, ws[1..]); }
  }

  // Exactly one write of a commit puts a non-empty header on disk: the one after the copies.
  lemma CommitHeaderAt(g: Region, d: Disk, t: Txn)
    requires Recoverable(g, d) && ValidTxn(g, |d|, t)
    ensures var ws := CommitWrites(g, d, t);
            forall i :: 0 <= i < |ws| ==> (NonZeroHeader(g, ws[i]) <==> i == |t.home|)
  {
    hide HeaderOk, Homes;
    assert forall i :: 0 <= i < |t.home| ==> !InLog(g, t.home[i]);
  }

  lemma CommitHeaderWrites(g: Region, d: Disk, t: Txn, k: nat)
    requires Recoverable(g, d) && ValidTxn(g, |d|, t) && k <= |CommitWrites(g, d, t)|
    ensures HeaderWrites(g, CommitWrites(g, d, t)[..k]) == if k > |t.home| then 1 else 0
  {
    var ws := CommitWrites(g, d, t);
    var n := |t.home|;
    CommitHeaderAt(g, d, t);
    hide CommitWrites, Recoverable, NonZeroHeader;
    if k <= n {
      NoHeaderWrites(g, ws[..k]);
    } else {
      NoHeaderWrites(g, ws[..n]);
      NoHeaderWrites(g, ws[n + 1..k]);
      assert ws[..k] == ws[..n] + ([ws[n]] + ws[n + 1..k]);
      HeaderWritesAppend(g, ws[..n], [ws[n]] + ws[n + 1..k]);
      HeaderWritesAppend(g, [ws[n]], ws[n + 1..k]);
      assert HeaderWrites(g, [ws[n]]) == 1;
    }
  }

  lemma {:induction false} RunHeaderWrites(g: Region, d: Disk, txns: seq<Txn>, k: nat)
    requires Idle(g, d) && ValidTxns(g, |d|, txns) && k <= |RunWrites(g, d, txns)|
    ensures HeaderWrites(g, RunWrites(g, d, txns)[..k]) == NonEmpty(txns[..CommittedCount(txns, k)])
    decreases |txns|
  {
    if txns != [] {
      RunStep(g, d, txns, k);
      var ws := CommitWrites(g, d, txns[0]);
      if k >= |ws| {
        var rest := RunWrites(g, Apply(d, ws), txns[1..]);
        HeaderWritesAppend(g, ws, rest[..k - |ws|]);
        assert ws[..|ws|] == ws;
        CommitHeaderWrites(g, d, txns[0], |ws|);
        RunHeaderWrites(g, Apply(d, ws), txns[1..], k - |ws|);
      } else {
        CommitHeaderWrites(g, d, txns[0], k);
      }
    }
  }

  /** Crash atomicity: whatever prefix of a run's writes reached the disk, and however often
      recovery itself crashed, one full recovery leaves the first m transactions and nothing
      of the others, where the non-empty ones among them are exactly those whose header
      write is in the prefix. */
  lemma CrashAtomicity(g: Region, d: Disk, txns: seq<Txn>, k: nat, cuts: seq<nat>)
    requires Idle(g, d) && ValidTxns(g, |d|, txns) && k <= |RunWrites(g, d, txns)|
    ensures Recoverable(g, Apply(d, RunWrites(g, d, txns)[..k]))
    ensures Recoverable(g, CutRecoveries(g, Apply(d, RunWrites(g, d, txns)[..k]), cuts))
    ensures var m := CommittedCount(txns, k);
            var c := CutRecoveries(g, Apply(d, RunWrites(g, d, txns)[..k]), cuts);
            var r := Apply(c, RecoverWrites(g, c));
            && Idle(g, r) && SameHome(g, r, Effects(d, txns[..m]))
            && HeaderWrites(g, RunWrites(g, d, txns)[..k]) == NonEmpty(txns[..m])
            && (k == |RunWrites(g, d, txns)| ==> m == |txns|)
  {
    var d' := Apply(d, RunWrites(g, d, txns)[..k]);
    var e := Effects(d, txns[..CommittedCount(txns, k)]);
    RunCut(g, d, d, txns, k);
    RunHeaderWrites(g, d, txns, k);
    CutRecoveriesMean(g, d', e, cuts);
    FullRecovery(g, CutRecoveries(g, d', cuts), e);
    FullRunCommitsAll(g, d, txns);
  }

  lemma {:induction false} FullRunCommitsAll(g: Region, d: Disk, txns: seq<Txn>)
    requires Idle(g, d) && ValidTxns(g, |d|, txns)
    ensures CommittedCount(txns, |RunWrites(g, d, txns)|) == |txns|
    decreases |txns|
  {
    if txns != [] {
      CommitDone(g, d, txns[0]);
      FullRunCommitsAll(g, Apply(d, CommitWrites(g, d, txns[0])), txns[1..]);
    }
  }
}
