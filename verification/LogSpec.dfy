/**
 The redo log of kernel/log.c as a function of disk contents: which block writes a
 commit and a recovery issue, in order, and what a disk means while a transaction may
 be only partly on it.  Every write is one atomic step, so a crash is a prefix of writes.
 */
module LogSpec {
  import opened Basics
  import opened Params

  // A disk block seen as 32-bit words; the header block keeps `n` in word 0 and the
  // home block numbers in words 1..n.
  const WORDS: nat := BSIZE / 4
  type Block = seq<int>
  type Disk = seq<Block>

  datatype Write = Write(bno: nat, data: Block)

  // Home block numbers (log.lh.block[0..n]) and the cached contents to install there.
  datatype Txn = Txn(home: seq<nat>, data: seq<Block>)

  // The log occupies blocks start .. start + size: header first, then copies.
  datatype Region = Region(start: nat, size: nat)

  function Update(d: Disk, w: Write): (r: Disk)
    ensures |r| == |d|
  {
    if w.bno < |d| then d[w.bno := w.data] else d
  }

  function Apply(d: Disk, ws: seq<Write>): (r: Disk)
    ensures |r| == |d|
    decreases |ws|
  {
    if ws == [] then d else Apply(Update(d, ws[0]), ws[1..])
  }

  predicate InLog(g: Region, b: nat) { g.start <= b < g.start + g.size }

  ghost predicate ValidHomes(g: Region, blocks: nat, home: seq<nat>) {
    && |home| <= LOGSIZE && |home| < g.size
    && Distinct(home)
    && (forall i :: 0 <= i < |home| ==> home[i] < blocks && !InLog(g, home[i]))
  }

  ghost predicate ValidTxn(g: Region, blocks: nat, t: Txn) {
    |t.home| == |t.data| && ValidHomes(g, blocks, t.home)
  }

  // --- the header block ---

  function SetHeader(b: Block, home: seq<nat>): Block
    requires |home| <= LOGSIZE && |b| == WORDS
  {
    [|home|] + home + b[|home| + 1..]
  }

  ghost predicate HeaderOk(b: Block) {
    && |b| == WORDS && 0 <= b[0] <= LOGSIZE
    && forall i :: 1 <= i <= b[0] ==> 0 <= b[i]
  }

  function Homes(b: Block): (h: seq<nat>)
    requires HeaderOk(b)
    ensures |h| == b[0]
  {
    seq(b[0], i requires 0 <= i < b[0] => b[i + 1])
  }

  // A disk that recovery may be run on.
  ghost predicate Recoverable(g: Region, d: Disk) {
    && 0 < g.size && g.start + g.size <= |d|
    && HeaderOk(d[g.start])
    && ValidHomes(g, |d|, Homes(d[g.start]))
  }

  // --- the writes the code issues ---

  function LogWrites(g: Region, t: Txn): (ws: seq<Write>)
    requires |t.home| == |t.data|
    ensures |ws| == |t.home|
  {
    seq(|t.home|, i requires 0 <= i < |t.data| => Write(g.start + 1 + i, t.data[i]))
  }

  function InstallWrites(t: Txn): (ws: seq<Write>)
    requires |t.home| == |t.data|
    ensures |ws| == |t.home|
  {
    seq(|t.home|, i requires 0 <= i < |t.data| => Write(t.home[i], t.data[i]))
  }

  function CommitWrites(g: Region, d: Disk, t: Txn): (ws: seq<Write>)
    requires Recoverable(g, d) && ValidTxn(g, |d|, t)
    ensures |ws| == if t.home == [] then 0 else 2 * |t.home| + 2
  {
    if t.home == [] then [] else
      var head := SetHeader(d[g.start], t.home);
      LogWrites(g, t) + [Write(g.start, head)] + InstallWrites(t) + [Write(g.start, SetHeader(head, []))]
  }

  // The transaction that the on-disk log records.
  function Logged(g: Region, d: Disk): (t: Txn)
    requires Recoverable(g, d)
    ensures ValidTxn(g, |d|, t)
  {
    var home := Homes(d[g.start]);
    Txn(home, seq(|home|, i requires 0 <= i < |home| => d[g.start + 1 + i]))
  }

  function RecoverWrites(g: Region, d: Disk): (ws: seq<Write>)
    requires Recoverable(g, d)
    ensures |ws| == |Logged(g, d).home| + 1
  {
    InstallWrites(Logged(g, d)) + [Write(g.start, SetHeader(d[g.start], []))]
  }

  // --- what a disk means ---

  // The block that transaction t puts at b, else what `d` holds there.
  function Lookup(t: Txn, b: nat, default: Block): Block
    requires |t.home| == |t.data|
    decreases |t.home|
  {
    if t.home == [] then default
    else if t.home[0] == b then t.data[0]
    else Lookup(Txn(t.home[1..], t.data[1..]), b, default)
  }

  // Home block b as the file system must see it after recovering disk d.
  function View(g: Region, d: Disk, b: nat): Block
    requires Recoverable(g, d) && b < |d|
  {
    Lookup(Logged(g, d), b, d[b])
  }

  // Two disks agree on everything outside the log.
  ghost predicate SameHome(g: Region, d: Disk, e: Disk) {
    |d| == |e| && forall b :: 0 <= b < |d| && !InLog(g, b) ==> d[b] == e[b]
  }

  // The meaning of a transaction: all its blocks change at once.
  function Effect(d: Disk, t: Txn): (r: Disk)
    requires |t.home| == |t.data|
    ensures |r| == |d|
  {
    seq(|d|, b requires 0 <= b < |d| => Lookup(t, b, d[b]))
  }

  ghost predicate ValidTxns(g: Region, blocks: nat, txns: seq<Txn>) {
    forall i :: 0 <= i < |txns| ==> ValidTxn(g, blocks, txns[i])
  }

  function Effects(d: Disk, txns: seq<Txn>): (r: Disk)
    requires forall i :: 0 <= i < |txns| ==> |txns[i].home| == |txns[i].data|
    ensures |r| == |d|
    decreases |txns|
  {
    if txns == [] then d else Effects(Effect(d, txns[0]), txns[1..])
  }
}
