/**
 Log space accounting of begin_op / log_write / end_op in kernel/log.c, as a machine that
 interleaves the steps of any number of file-system operations.
 */
module LogBudget {
  import opened Params

  // n is log.lh.n; ops maps each outstanding operation to the blocks it has appended.
  datatype State = State(n: nat, ops: map<nat, nat>, committing: bool)

  datatype Step =
    | Begin(op: nat)   // begin_op finds room and admits op
    | Append(op: nat)  // log_write of a block not yet in the log
    | Absorb(op: nat)  // log_write of a block that is in the log
    | End(op: nat)     // end_op; the last one starts the commit
    | Commit           // commit() finishes and empties the log

  const INIT := State(0, map[], false)

  // The test on which begin_op goes ahead instead of sleeping.
  predicate HasRoom(n: nat, outstanding: nat) {
    n + (outstanding + 1) * MAXOPBLOCKS <= LOGSIZE
  }

  // log_write's "too big a transaction" panic, for a log of `size` blocks.
  predicate TooBig(s: State, size: nat) {
    s.n >= LOGSIZE || s.n >= size - 1
  }

  // Operations that append at most `cap` blocks each.
  predicate Enabled(s: State, cap: nat, step: Step) {
    match step
    case Begin(op) => op !in s.ops && !s.committing && HasRoom(s.n, |s.ops|)
    case Append(op) => op in s.ops && s.ops[op] < cap
    case Absorb(op) => op in s.ops
    case End(op) => op in s.ops && !s.committing
    case Commit => s.committing
  }

  function Next(s: State, step: Step): State {
    match step
    case Begin(op) => s.(ops := s.ops[op := 0])
    case Append(op) => if op in s.ops then s.(n := s.n + 1, ops := s.ops[op := s.ops[op] + 1]) else s
    case Absorb(op) => s
    case End(op) => s.(ops := s.ops - {op}, committing := |s.ops - {op}| == 0)
    case Commit => s.(n := 0, committing := false)
  }

  predicate CanRun(s: State, cap: nat, steps: seq<Step>)
    decreases |steps|
  {
    steps == [] || (Enabled(s, cap, steps[0]) && CanRun(Next(s, steps[0]), cap, steps[1..]))
  }

  function Run(s: State, steps: seq<Step>): State
    decreases |steps|
  {
    if steps == [] then s else Run(Next(s, steps[0]), steps[1..])
  }

  // Blocks that the outstanding operations may still append when each may append `cap`.
  ghost function Slack(ops: map<nat, nat>, cap: nat): (r: int)
    decreases |ops|
  {
    if ops == map[] then 0 else
      var op :| op in ops;
      cap - ops[op] + Slack(ops - {op}, cap)
  }

  lemma {:induction false} SlackAny(ops: map<nat, nat>, cap: nat, op: nat)
    requires op in ops
    ensures Slack(ops, cap) == cap - ops[op] + Slack(ops - {op}, cap)
    decreases |ops|
  {
    var p :| p in ops && Slack(ops, cap) == cap - ops[p] + Slack(ops - {p}, cap);
    if p != op {
      SlackAny(ops - {p}, cap, op);
      SlackAny(ops - {op}, cap, p);
      assert ops - {p} - {op} == ops - {op} - {p};
    }
  }

  lemma SlackSet(ops: map<nat, nat>, cap: nat, op: nat, v: nat)
    ensures Slack(ops[op := v], cap) == cap - v + Slack(ops - {op}, cap)
  {
    SlackAny(ops[op := v], cap, op);
    assert ops[op := v] - {op} == ops - {op};
  }

  lemma {:induction false} SlackNonNegative(ops: map<nat, nat>, cap: nat)
    requires forall op :: op in ops ==> ops[op] <= cap
    ensures Slack(ops, cap) >= 0
    decreases |ops|
  {
    if ops != map[] {
      var p :| p in ops && Slack(ops, cap) == cap - ops[p] + Slack(ops - {p}, cap);
      assert (ops - {p}).Keys == ops.Keys - {p};
      SlackNonNegative(ops - {p}, cap);
    }
  }

  lemma {:induction false} SlackAtMost(ops: map<nat, nat>, cap: nat)
    ensures Slack(ops, cap) <= Times(|ops|, cap)
    decreases |ops|
  {
    if ops != map[] {
      var p :| p in ops && Slack(ops, cap) == cap - ops[p] + Slack(ops - {p}, cap);
      assert (ops - {p}).Keys == ops.Keys - {p};
      SlackAtMost(ops - {p}, cap);
    }
  }

  // k * x as a sum, so that its steps are linear.
  function Times(k: nat, x: nat): (r: nat)
    ensures r == k * x
  {
    if k == 0 then 0 else Times(k - 1, x) + x
  }

  // The most blocks the log can come to hold when operations append at most cap each.
  function Bound(cap: nat): int { LOGSIZE - 2 * (MAXOPBLOCKS - cap) }

  ghost predicate Inv(s: State, cap: nat) {
    && (forall op :: op in s.ops ==> s.ops[op] <= cap)
    && (s.committing ==> s.ops == map[])
    && (s.ops == map[] && !s.committing ==> s.n == 0)
    && s.n + Slack(s.ops, cap) <= Bound(cap)
  }

  lemma BeginKeeps(s: State, cap: nat, op: nat)
    requires Inv(s, cap) && cap <= MAXOPBLOCKS && Enabled(s, cap, Begin(op))
    ensures Inv(Next(s, Begin(op)), cap)
  {
    SlackSet(s.ops, cap, op, 0);
    assert s.ops - {op} == s.ops;
    SlackAtMost(s.ops, cap);
    if s.ops != map[] { Shares(|s.ops|, cap); }
  }

  // Beside k outstanding operations there is room for another one and a margin.
  lemma Shares(k: nat, cap: nat)
    requires k >= 1 && cap <= MAXOPBLOCKS
    ensures k * cap + cap + 2 * (MAXOPBLOCKS - cap) <= (k + 1) * MAXOPBLOCKS
  {
    assert (k + 1) * cap + (k + 1) * (MAXOPBLOCKS - cap) == (k + 1) * MAXOPBLOCKS;
    assert (k + 1) * (MAXOPBLOCKS - cap) >= 2 * (MAXOPBLOCKS - cap);
  }

  lemma StepKeeps(s: State, cap: nat, step: Step)
    requires Inv(s, cap) && cap <= MAXOPBLOCKS && Enabled(s, cap, step)
    ensures Inv(Next(s, step), cap)
  {
    match step
    case Begin(op) => BeginKeeps(s, cap, op);
    case Append(op) =>
      SlackAny(s.ops, cap, op);
      SlackSet(s.ops, cap, op, s.ops[op] + 1);
    case Absorb(op) =>
    case End(op) =>
      SlackAny(s.ops, cap, op);
      if |s.ops - {op}| == 0 { assert s.ops - {op} == map[]; }
    case Commit =>
  }

  lemma {:induction false} RunKeeps(s: State, cap: nat, steps: seq<Step>)
    requires Inv(s, cap) && cap <= MAXOPBLOCKS && CanRun(s, cap, steps)
    ensures Inv(Run(s, steps), cap)
    decreases |steps|
  {
    if steps != [] {
      StepKeeps(s, cap, steps[0]);
      RunKeeps(Next(s, steps[0]), cap, steps[1..]);
    }
  }

  /** Every run keeps the logged blocks plus what each outstanding operation may still append
      within LOGSIZE - 2 * (MAXOPBLOCKS - cap), hence within LOGSIZE. */
  lemma Budget(cap: nat, steps: seq<Step>)
    requires cap <= MAXOPBLOCKS && CanRun(INIT, cap, steps)
    ensures var s := Run(INIT, steps);
            && s.n + Slack(s.ops, cap) <= LOGSIZE - 2 * (MAXOPBLOCKS - cap)
            && s.n <= LOGSIZE - 2 * (MAXOPBLOCKS - cap)
  {
    RunKeeps(INIT, cap, steps);
    SlackNonNegative(Run(INIT, steps).ops, cap);
  }

  // With a log of at least LOGSIZE blocks there is room for whatever log_write is called for.
  lemma RoomInLog(s: State, cap: nat, op: nat, size: nat)
    requires Inv(s, cap) && cap <= MAXOPBLOCKS && op in s.ops
    ensures TooBig(s, size) <==> s.n >= LOGSIZE || s.n + 1 >= size
    ensures size >= LOGSIZE && cap < MAXOPBLOCKS ==> !TooBig(s, size)
  {
    SlackNonNegative(s.ops, cap);
  }

  lemma CommitKeeps(s: State, cap: nat)
    requires Inv(s, cap) && cap <= MAXOPBLOCKS && s.committing
    ensures var t := Next(s, Commit);
            Inv(t, cap) && t.n == 0 && !t.committing && t.ops == s.ops == map[]
  {
    StepKeeps(s, cap, Commit);
  }

  // What log_write does to the accounts.
  lemma LogWriteKeeps(s: State, cap: nat, op: nat, absorbed: bool)
    requires Inv(s, cap) && cap <= MAXOPBLOCKS && op in s.ops && (absorbed || s.ops[op] < cap)
    ensures var t := Next(s, if absorbed then Absorb(op) else Append(op));
            && Inv(t, cap) && t.n == (if absorbed then s.n else s.n + 1) && |t.ops| == |s.ops|
            && t.ops != map[] && t.committing == s.committing
  {
    StepKeeps(s, cap, if absorbed then Absorb(op) else Append(op));
    if !absorbed { assert s.ops[op := s.ops[op] + 1].Keys == s.ops.Keys; }
  }

  // A permitted run from s to t.
  predicate Leads(s: State, cap: nat, steps: seq<Step>, t: State) {
    CanRun(s, cap, steps) && Run(s, steps) == t
  }

  lemma {:induction false} LeadsOn(s: State, cap: nat, a: seq<Step>, t: State, b: seq<Step>, u: State)
    requires Leads(s, cap, a, t) && Leads(t, cap, b, u)
    ensures Leads(s, cap, a + b, u)
    decreases |a|
  {
    if a == [] {
      assert a + b == b;
    } else {
      assert (a + b)[1..] == a[1..] + b;
      LeadsOn(Next(s, a[0]), cap, a[1..], t, b, u);
    }
  }

  lemma LeadsStep(s: State, cap: nat, step: Step)
    requires Enabled(s, cap, step)
    ensures Leads(s, cap, [step], Next(s, step))
  {
    assert [step][1..] == [];
  }

  function Repeat(step: Step, k: nat): (r: seq<Step>)
    ensures |r| == k
  {
    seq(k, _ => step)
  }

  function Appended(s: State, op: nat, k: nat): State {
    if op in s.ops then s.(n := s.n + k, ops := s.ops[op := s.ops[op] + k]) else s
  }

  lemma {:induction false} LeadsAppends(s: State, cap: nat, op: nat, k: nat)
    requires op in s.ops && s.ops[op] + k <= cap
    ensures Leads(s, cap, Repeat(Append(op), k), Appended(s, op, k))
    decreases k
  {
    if k == 0 {
      assert s.ops[op := s.ops[op]] == s.ops;
    } else {
      var t := Next(s, Append(op));
      LeadsStep(s, cap, Append(op));
      LeadsAppends(t, cap, op, k - 1);
      assert Repeat(Append(op), k) == [Append(op)] + Repeat(Append(op), k - 1);
      assert Appended(t, op, k - 1) == Appended(s, op, k);
      LeadsOn(s, cap, [Append(op)], t, Repeat(Append(op), k - 1), Appended(s, op, k));
    }
  }

  // Operation 1 stays open while 2 fills its share and ends.
  lemma FirstHalf() returns (steps: seq<Step>)
    ensures Leads(INIT, MAXOPBLOCKS, steps, State(MAXOPBLOCKS, map[1 := 0], false))
  {
    var s0 := State(0, map[1 := 0], false);
    var s1 := State(0, map[1 := 0, 2 := 0], false);
    var s2 := State(MAXOPBLOCKS, map[1 := 0, 2 := MAXOPBLOCKS], false);
    LeadsStep(INIT, MAXOPBLOCKS, Begin(1));
    LeadsStep(s0, MAXOPBLOCKS, Begin(2));
    LeadsOn(INIT, MAXOPBLOCKS, [Begin(1)], s0, [Begin(2)], s1);
    LeadsAppends(s1, MAXOPBLOCKS, 2, MAXOPBLOCKS);
    steps := [Begin(1)] + [Begin(2)];
    LeadsOn(INIT, MAXOPBLOCKS, steps, s1, Repeat(Append(2), MAXOPBLOCKS), s2);
    steps := steps + Repeat(Append(2), MAXOPBLOCKS);
    assert s2.ops - {2} == map[1 := 0];
    LeadsStep(s2, MAXOPBLOCKS, End(2));
    LeadsOn(INIT, MAXOPBLOCKS, steps, s2, [End(2)], State(MAXOPBLOCKS, map[1 := 0], false));
    steps := steps + [End(2)];
  }

  // Operation 3 is let in, 1 takes its full share, and 3 all but one block of its own.
  lemma SecondHalf() returns (steps: seq<Step>)
    ensures Leads(State(MAXOPBLOCKS, map[1 := 0], false), MAXOPBLOCKS, steps,
                  State(LOGSIZE - 1, map[1 := MAXOPBLOCKS, 3 := MAXOPBLOCKS - 1], false))
  {
    hide Leads;
    var s3 := State(MAXOPBLOCKS, map[1 := 0], false);
    var s4 := State(MAXOPBLOCKS, map[1 := 0, 3 := 0], false);
    var s5 := State(2 * MAXOPBLOCKS, map[1 := MAXOPBLOCKS, 3 := 0], false);
    var s6 := State(LOGSIZE - 1, map[1 := MAXOPBLOCKS, 3 := MAXOPBLOCKS - 1], false);
    LeadsStep(s3, MAXOPBLOCKS, Begin(3));
    assert s4.ops == s3.ops[3 := 0] && s5.ops == s4.ops[1 := MAXOPBLOCKS] && s6.ops == s5.ops[3 := MAXOPBLOCKS - 1];
    FillsUp(s4, 1, MAXOPBLOCKS, s5);
    FillsUp(s5, 3, MAXOPBLOCKS - 1, s6);
    steps := [Begin(3)] + Repeat(Append(1), MAXOPBLOCKS);
    LeadsOn(s3, MAXOPBLOCKS, [Begin(3)], s4, Repeat(Append(1), MAXOPBLOCKS), s5);
    LeadsOn(s3, MAXOPBLOCKS, steps, s5, Repeat(Append(3), MAXOPBLOCKS - 1), s6);
    steps := steps + Repeat(Append(3), MAXOPBLOCKS - 1);
  }

  lemma FillsUp(s: State, op: nat, k: nat, t: State)
    requires op in s.ops && s.ops[op] == 0 && k <= MAXOPBLOCKS && t == s.(n := s.n + k, ops := s.ops[op := k])
    ensures Leads(s, MAXOPBLOCKS, Repeat(Append(op), k), t)
  {
    LeadsAppends(s, MAXOPBLOCKS, op, k);
  }

  // Blocks that k operations may append, at most MAXOPBLOCKS each.
  predicate Demand(shares: seq<nat>, k: nat) { |shares| == k && forall i :: 0 <= i < k ==> shares[i] <= MAXOPBLOCKS }

  function Sum(shares: seq<nat>): nat { if shares == [] then 0 else shares[0] + Sum(shares[1..]) }

  lemma {:induction false} SumAtMost(shares: seq<nat>, k: nat)
    requires Demand(shares, k)
    ensures Sum(shares) <= MAXOPBLOCKS * k
    ensures (forall i :: 0 <= i < k ==> shares[i] == MAXOPBLOCKS) ==> Sum(shares) == MAXOPBLOCKS * k
    decreases k
  {
    if k > 0 { SumAtMost(shares[1..], k - 1); }
  }

  // begin_op goes ahead exactly when whatever the outstanding operations and the new one append
  // fits into the log.
  lemma HasRoomIff(n: nat, outstanding: nat)
    ensures HasRoom(n, outstanding) <==> forall shares :: Demand(shares, outstanding + 1) ==> n + Sum(shares) <= LOGSIZE
  {
    forall shares | Demand(shares, outstanding + 1) ensures Sum(shares) <= MAXOPBLOCKS * (outstanding + 1) {
      SumAtMost(shares, outstanding + 1);
    }
    var full := seq<nat>(outstanding + 1, _ => MAXOPBLOCKS);
    SumAtMost(full, outstanding + 1);
  }

  // With operations of MAXOPBLOCKS appends the log reaches LOGSIZE - 1 blocks while
  // operation 3 is still entitled to one more log_write.
  lemma Overfull() returns (steps: seq<Step>)
    ensures CanRun(INIT, MAXOPBLOCKS, steps)
    ensures Run(INIT, steps).n == LOGSIZE - 1 && Enabled(Run(INIT, steps), MAXOPBLOCKS, Append(3))
  {
    var a := FirstHalf();
    var b := SecondHalf();
    LeadsOn(INIT, MAXOPBLOCKS, a, State(MAXOPBLOCKS, map[1 := 0], false), b,
            State(LOGSIZE - 1, map[1 := MAXOPBLOCKS, 3 := MAXOPBLOCKS - 1], false));
    steps := a + b;
  }

  /** With the log.size == LOGSIZE that mkfs writes, the panic in log_write is unreachable
      exactly when operations append fewer than MAXOPBLOCKS blocks: the documented maximum
      of MAXOPBLOCKS itself is one too many, because the header takes one log block. */
  lemma PanicUnreachableIff(cap: nat)
    requires cap <= MAXOPBLOCKS
    ensures (forall steps, op :: CanRun(INIT, cap, steps) && op in Run(INIT, steps).ops
               ==> !TooBig(Run(INIT, steps), LOGSIZE))
            <==> cap < MAXOPBLOCKS
  {
    if cap < MAXOPBLOCKS {
      forall steps, op | CanRun(INIT, cap, steps) && op in Run(INIT, steps).ops
        ensures !TooBig(Run(INIT, steps), LOGSIZE) {
        Budget(cap, steps);
      }
    } else {
      var steps := Overfull();
    }
  }
}
